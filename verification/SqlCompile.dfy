/** The compiler from query trees to SQL conditions with positional parameters, and what the conditions mean. */
module SqlCompile {
  import opened Wrappers
  import opened QueryAst
  import opened Wildcard
  import opened QueryMeaning

  // ---- SQL conditions ----

  datatype TextExpr = Col(column: Column) | JsonText(field: string)

  datatype NumExpr = Ts | Received | JsonNum(field: string)

  /** A SQL condition; every ? is anonymous and takes the next argument from left to right. */
  datatype Sql =
    | Always
    | AndSql(l: Sql, r: Sql)
    | OrSql(l: Sql, r: Sql)
    | NotSql(e: Sql)
    | MatchHole
    | EqHole(text: TextExpr)
    | LikeHole(text: TextExpr)
    | NotNull(text: TextExpr)
    | NotNullNotEmpty(text: TextExpr)
    | NumHole(num: NumExpr, op: string)
    | TextHole(text: TextExpr, op: string)
    | BetweenHoles
    | StreamHole

  datatype Arg = TextArg(s: string) | NumArg(x: Num)

  /** The number of ? in a condition. */
  function Holes(q: Sql): nat {
    match q
    case Always => 0
    case AndSql(l, r) => Holes(l) + Holes(r)
    case OrSql(l, r) => Holes(l) + Holes(r)
    case NotSql(e) => Holes(e)
    case NotNull(_) => 0
    case NotNullNotEmpty(_) => 0
    case BetweenHoles => 2
    case _ => 1
  }

  function TextValue(row: Row, t: TextExpr): Option<string> {
    match t
    case Col(c) => row.columns(c)
    case JsonText(f) => if row.json(f).Some? then Some(row.json(f).value.text) else None
  }

  function NumValue(row: Row, t: NumExpr): Option<real> {
    match t
    case Ts => Some(row.ts)
    case Received => Some(row.received)
    case JsonNum(f) => if row.json(f).Some? then Some(row.json(f).value.num) else None
  }

  function ArgText(a: Arg): string { if a.TextArg? then a.s else "" }

  /** A number against an argument: a text that is no number sorts above every number. */
  function NumAgainst(env: Env, x: real, op: string, a: Arg): Kleene {
    match a
    case NumArg(y) => CompareNum(x, op, y)
    case TextArg(s) =>
      KOf(if env.affinity(s).Some? then CompareNumbers(x, op, env.affinity(s).value) else op == "<" || op == "<=")
  }

  /** SQL evaluation of a condition on a row, its arguments bound left to right. */
  function Eval(env: Env, row: Row, q: Sql, args: seq<Arg>): Kleene
    requires |args| == Holes(q)
  {
    match q
    case Always => True
    case AndSql(l, r) => KAnd(Eval(env, row, l, args[..Holes(l)]), Eval(env, row, r, args[Holes(l)..]))
    case OrSql(l, r) => KOr(Eval(env, row, l, args[..Holes(l)]), Eval(env, row, r, args[Holes(l)..]))
    case NotSql(e) => KNot(Eval(env, row, e, args))
    case MatchHole => KOf(row.matches(ArgText(args[0])))
    case EqHole(t) => if TextValue(row, t).None? then Unknown else KOf(TextValue(row, t).value == ArgText(args[0]))
    case LikeHole(t) =>
      if TextValue(row, t).None? then Unknown else KOf(Like(ArgText(args[0]), TextValue(row, t).value, env.foldEq))
    case NotNull(t) => KOf(TextValue(row, t).Some?)
    case NotNullNotEmpty(t) =>
      var v := TextValue(row, t);
      KAnd(KOf(v.Some?), if v.None? then Unknown else KOf(v.value != ""))
    case NumHole(t, op) =>
      if NumValue(row, t).None? then Unknown else NumAgainst(env, NumValue(row, t).value, op, args[0])
    case TextHole(t, op) =>
      if TextValue(row, t).None? then Unknown else KOf(CompareTexts(env, TextValue(row, t).value, op, ArgText(args[0])))
    case BetweenHoles => KAnd(NumAgainst(env, row.ts, ">=", args[0]), NumAgainst(env, row.ts, "<=", args[1]))
    case StreamHole =>
      if row.columns(Stream).None? then Unknown else KOf(row.columns(Stream).value == ArgText(args[0]))
  }

  // ---- compilation ----

  datatype CompileError = BadFieldName(field: string) | BadOperator(op: string) | NotNumeric(value: string)

  /** A condition and the arguments it appends. */
  type Compiled = Result<(Sql, seq<Arg>), CompileError>

  function FieldText(field: string): Result<TextExpr, CompileError> {
    if ColumnOf(field).Some? then Ok(Col(ColumnOf(field).value))
    else if ValidName(field) then Ok(JsonText(field))
    else Err(BadFieldName(field))
  }

  function FieldNumber(field: string): Option<NumExpr> {
    if IsTimestamp(field) then Some(Ts)
    else if IsReceived(field) then Some(Received)
    else if ColumnOf(field).None? && ValidName(field) then Some(JsonNum(field))
    else None
  }

  function BoundArg(env: Env, field: string, v: string): Arg {
    if FieldNumber(field).Some? && NumericValue(env, field, v).Some? then NumArg(NumericValue(env, field, v).value)
    else TextArg(v)
  }

  function FullText(v: string, phrase: bool): Compiled {
    Ok((MatchHole, [TextArg(FtsMatch(v, phrase))]))
  }

  function CFieldEq(f: string, v: string): Compiled {
    if IsFullText(f) then FullText(v, false)
    else
      var t :- FieldText(f);
      Ok(if HasWild(v) then (LikeHole(t), [TextArg(TranslateAll(v))]) else (EqHole(t), [TextArg(v)]))
  }

  function CExists(f: string): Compiled {
    var t :- FieldText(f);
    Ok((if t.Col? then NotNullNotEmpty(t) else NotNull(t), []))
  }

  function CCompare(env: Env, f: string, op: string, v: string): Compiled {
    if !ValidOp(op) then Err(BadOperator(op))
    else if FieldNumber(f).Some? then
      if NumericValue(env, f, v).None? then Err(NotNumeric(v))
      else Ok((NumHole(FieldNumber(f).value, op), [NumArg(NumericValue(env, f, v).value)]))
    else
      var t :- FieldText(f);
      Ok((TextHole(t, op), [TextArg(v)]))
  }

  /** The comparison of a range's column with one bound. */
  function BoundSql(f: string, op: string): Result<Sql, CompileError> {
    if FieldNumber(f).Some? then Ok(NumHole(FieldNumber(f).value, op))
    else
      var t :- FieldText(f);
      Ok(TextHole(t, op))
  }

  function CRange(env: Env, f: string, lo: string, hi: string, il: bool, ih: bool): Compiled {
    var low :- BoundSql(f, if il then ">=" else ">");
    var high :- BoundSql(f, if ih then "<=" else "<");
    var los, his := [BoundArg(env, f, lo)], [BoundArg(env, f, hi)];
    Ok(if lo != "*" && hi != "*" then (AndSql(low, high), los + his)
       else if lo != "*" then (low, los)
       else if hi != "*" then (high, his)
       else (Always, []))
  }

  /** Two compiled conditions joined, the left one's arguments first. */
  function Join(l: Compiled, r: Compiled, conj: bool): Compiled {
    var (ls, la) :- l;
    var (rs, ra) :- r;
    Ok((if conj then AndSql(ls, rs) else OrSql(ls, rs), la + ra))
  }

  /** The condition for a tree and the arguments for its holes, or the first error. */
  function Compile(env: Env, n: Node): Compiled {
    match n
    case MatchAll => Ok((Always, []))
    case And(l, r) => Join(Compile(env, l), Compile(env, r), true)
    case Or(l, r) => Join(Compile(env, l), Compile(env, r), false)
    case Not(e) =>
      var (s, a) :- Compile(env, e);
      Ok((NotSql(s), a))
    case Term(v, phrase) => FullText(v, phrase)
    case FieldEq(f, v) => CFieldEq(f, v)
    case FieldExists(f) => CExists(f)
    case FieldCompare(f, op, v) => CCompare(env, f, op, v)
    case FieldRange(f, lo, hi, il, ih) => CRange(env, f, lo, hi, il, ih)
  }

  /** Field names are restricted to a safe alphabet, because they are written into a JSON path. */
  method ValidateFieldName(field: string) returns (ok: bool)
    ensures ok <==> ValidName(field)
  {
    if field == "" {
      return false;
    }
    for i := 0 to |field|
      invariant forall k :: 0 <= k < i ==> IsNameChar(field[k])
    {
      if !IsNameChar(field[i]) {
        return false;
      }
    }
    return true;
  }

  /** The compiler: walking a tree appends to its argument list. */
  class Compiler {
    const env: Env
    var args: seq<Arg>

    constructor (env: Env)
      ensures args == [] && this.env == env
    {
      this.env := env;
      args := [];
    }

    /** A walk returns the condition and has appended exactly its arguments; on an error nothing is said of them. */
    static ghost predicate Walked(r: Result<Sql, CompileError>, before: seq<Arg>, after: seq<Arg>, spec: Compiled) {
      match spec
      case Ok((q, added)) => r == Ok(q) && after == before + added
      case Err(e) => r == Err(e)
    }

    method Add(a: Arg)
      modifies this
      ensures args == old(args) + [a]
    {
      args := args + [a];
    }

    method Walk(n: Node) returns (r: Result<Sql, CompileError>)
      modifies this
      ensures Walked(r, old(args), args, Compile(env, n))
      decreases n, 1
    {
      hide CFieldEq, CExists, CCompare, CRange;
      match n {
        case MatchAll =>
          r := Ok(Always);
        case And(left, right) =>
          r := Binary(left, right, true);
        case Or(left, right) =>
          r := Binary(left, right, false);
        case Not(e) =>
          r := Walk(e);
          if r.Ok? {
            r := Ok(NotSql(r.value));
          }
        case Term(v, phrase) =>
          Add(TextArg(FtsMatch(v, phrase)));
          r := Ok(MatchHole);
        case FieldEq(f, v) =>
          r := WalkFieldEq(f, v);
        case FieldExists(f) =>
          r := WalkExists(f);
        case FieldCompare(f, op, v) =>
          r := WalkCompare(f, op, v);
        case FieldRange(f, lo, hi, il, ih) =>
          r := WalkRange(f, lo, hi, il, ih);
      }
    }

    method Binary(left: Node, right: Node, conj: bool) returns (r: Result<Sql, CompileError>)
      modifies this
      ensures Walked(r, old(args), args, Join(Compile(env, left), Compile(env, right), conj))
      decreases if conj then And(left, right) else Or(left, right), 0
    {
      hide Compile;
      ghost var before := args;
      r := Walk(left);
      if r.Err? {
        return;
      }
      var l := r.value;
      r := Walk(right);
      if r.Err? {
        return;
      }
      ghost var la, ra := Compile(env, left).value.1, Compile(env, right).value.1;
      assert before + la + ra == before + (la + ra);
      r := Ok(if conj then AndSql(l, r.value) else OrSql(l, r.value));
    }

    method WalkFieldEq(f: string, v: string) returns (r: Result<Sql, CompileError>)
      modifies this
      ensures Walked(r, old(args), args, CFieldEq(f, v))
    {
      if IsFullText(f) {
        Add(TextArg(FtsMatch(v, false)));
        return Ok(MatchHole);
      }
      var t := TextExprOf(f);
      if t.Err? {
        return Err(t.error);
      }
      var wild := HasWildcard(v);
      if wild {
        var pattern := LikePattern(v);
        Add(TextArg(pattern));
        r := Ok(LikeHole(t.value));
      } else {
        Add(TextArg(v));
        r := Ok(EqHole(t.value));
      }
    }

    method TextExprOf(field: string) returns (r: Result<TextExpr, CompileError>)
      ensures r == FieldText(field)
    {
      if ColumnOf(field).Some? {
        return Ok(Col(ColumnOf(field).value));
      }
      var ok := ValidateFieldName(field);
      r := if ok then Ok(JsonText(field)) else Err(BadFieldName(field));
    }

    method NumericExprOf(field: string) returns (r: Option<NumExpr>)
      ensures r == FieldNumber(field)
    {
      if IsTimestamp(field) {
        return Some(Ts);
      }
      if IsReceived(field) {
        return Some(Received);
      }
      if ColumnOf(field).Some? {
        return None;
      }
      var ok := ValidateFieldName(field);
      r := if ok then Some(JsonNum(field)) else None;
    }

    method WalkExists(f: string) returns (r: Result<Sql, CompileError>)
      modifies this
      ensures Walked(r, old(args), args, CExists(f))
    {
      var t := TextExprOf(f);
      if t.Err? {
        return Err(t.error);
      }
      assert args + [] == args;
      r := Ok(if t.value.Col? then NotNullNotEmpty(t.value) else NotNull(t.value));
    }

    method WalkCompare(f: string, op: string, v: string) returns (r: Result<Sql, CompileError>)
      modifies this
      ensures Walked(r, old(args), args, CCompare(env, f, op, v))
    {
      var num := NumericExprOf(f);
      if !ValidOp(op) {
        return Err(BadOperator(op));
      }
      if num.Some? {
        if NumericValue(env, f, v).None? {
          return Err(NotNumeric(v));
        }
        Add(NumArg(NumericValue(env, f, v).value));
        return Ok(NumHole(num.value, op));
      }
      var t := TextExprOf(f);
      if t.Err? {
        return Err(t.error);
      }
      Add(TextArg(v));
      r := Ok(TextHole(t.value, op));
    }

    method WalkRange(f: string, lo: string, hi: string, il: bool, ih: bool) returns (r: Result<Sql, CompileError>)
      modifies this
      ensures Walked(r, old(args), args, CRange(env, f, lo, hi, il, ih))
    {
      ghost var before := args;
      var num := NumericExprOf(f);
      var text := TextExprOf(f);
      if num.None? && text.Err? {
        return Err(text.error);
      }
      var parts: seq<Sql> := [];
      if lo != "*" {
        var op := if il then ">=" else ">";
        Add(BoundArg(env, f, lo));
        parts := parts + [if num.Some? then NumHole(num.value, op) else TextHole(text.value, op)];
      }
      if hi != "*" {
        var op := if ih then "<=" else "<";
        Add(BoundArg(env, f, hi));
        parts := parts + [if num.Some? then NumHole(num.value, op) else TextHole(text.value, op)];
      }
      assert before + [] == before;
      ghost var los, his := [BoundArg(env, f, lo)], [BoundArg(env, f, hi)];
      assert before + los + his == before + (los + his);
      r := Ok(if |parts| == 0 then Always else if |parts| == 1 then parts[0] else AndSql(parts[0], parts[1]));
    }
  }

  // ---- compilation preserves meaning ----

  lemma LeafCompiles(env: Env, row: Row, n: Node)
    requires IsLeaf(n) && Compile(env, n).Ok?
    ensures var (q, args) := Compile(env, n).value;
            |args| == Holes(q) && Eval(env, row, q, args) == LeafMeaning(env, row, n)
  {
    hide CFieldEq, CCompare, CRange, ValidName, HasWild;
    match n
    case FieldEq(f, v) => EqCompiles(env, row, f, v);
    case FieldRange(f, lo, hi, il, ih) => RangeCompiles(env, row, f, lo, hi, il, ih);
    case FieldCompare(f, op, v) => CompareCompiles(env, row, f, op, v);
    case _ =>
  }

  lemma EqCompiles(env: Env, row: Row, f: string, v: string)
    requires CFieldEq(f, v).Ok?
    ensures var (q, args) := CFieldEq(f, v).value;
            |args| == Holes(q) && Eval(env, row, q, args) == LeafMeaning(env, row, FieldEq(f, v))
  {
    hide HasWild, FtsMatch, ValidName, Like, Glob, TranslateAll;
    if TextOf(row, f).Some? {
      TranslationIsExact(v, TextOf(row, f).value, env.foldEq);
    }
  }

  lemma CompareCompiles(env: Env, row: Row, f: string, op: string, v: string)
    requires CCompare(env, f, op, v).Ok?
    ensures var (q, args) := CCompare(env, f, op, v).value;
            |args| == Holes(q) && Eval(env, row, q, args) == LeafMeaning(env, row, FieldCompare(f, op, v))
  {
    hide ValidName, CompareTexts, CompareNum, ValidOp;
  }

  lemma BoundCompiles(env: Env, row: Row, f: string, op: string, v: string)
    requires BoundSql(f, op).Ok? && ValidOp(op)
    ensures Holes(BoundSql(f, op).value) == 1
    ensures Eval(env, row, BoundSql(f, op).value, [BoundArg(env, f, v)]) == Bound(env, row, f, op, v)
  {
    hide ValidName, CompareTexts, CompareNumbers, CompareNum;
  }

  lemma RangeCompiles(env: Env, row: Row, f: string, lo: string, hi: string, il: bool, ih: bool)
    requires CRange(env, f, lo, hi, il, ih).Ok?
    ensures var (q, args) := CRange(env, f, lo, hi, il, ih).value;
            |args| == Holes(q) && Eval(env, row, q, args) == LeafMeaning(env, row, FieldRange(f, lo, hi, il, ih))
  {
    hide Bound, BoundSql, BoundArg;
    var lop, hop := if il then ">=" else ">", if ih then "<=" else "<";
    BoundCompiles(env, row, f, lop, lo);
    BoundCompiles(env, row, f, hop, hi);
    var los, his := [BoundArg(env, f, lo)], [BoundArg(env, f, hi)];
    assert (los + his)[..1] == los && (los + his)[1..] == his;
  }

  /** Joined argument lists are taken apart at the number of holes. */
  lemma ArgsSplit(lq: Sql, la: seq<Arg>, rq: Sql, ra: seq<Arg>)
    requires |la| == Holes(lq) && |ra| == Holes(rq)
    ensures |la + ra| == Holes(lq) + Holes(rq)
    ensures (la + ra)[..Holes(lq)] == la && (la + ra)[Holes(lq)..] == ra
  {
  }

  /**
    * Compilation preserves meaning: with every ? bound to the next argument, the condition evaluates, on
    * every row, to the three-valued meaning of the tree.
    */
  lemma {:induction false} CompilePreservesMeaning(env: Env, row: Row, n: Node)
    requires Compile(env, n).Ok?
    ensures var (q, args) := Compile(env, n).value;
            |args| == Holes(q) && Eval(env, row, q, args) == Meaning(env, row, n)
    decreases n
  {
    hide CFieldEq, CExists, CCompare, CRange, FullText, LeafMeaning, KAnd, KOr;
    match n
    case MatchAll =>
    case And(l, r) =>
      CompilePreservesMeaning(env, row, l);
      CompilePreservesMeaning(env, row, r);
      ArgsSplit(Compile(env, l).value.0, Compile(env, l).value.1, Compile(env, r).value.0, Compile(env, r).value.1);
    case Or(l, r) =>
      CompilePreservesMeaning(env, row, l);
      CompilePreservesMeaning(env, row, r);
      ArgsSplit(Compile(env, l).value.0, Compile(env, l).value.1, Compile(env, r).value.0, Compile(env, r).value.1);
    case Not(e) => CompilePreservesMeaning(env, row, e);
    case _ => LeafCompiles(env, row, n);
  }

  /** The trees that compile: every field name usable, every operator known, every compared number a number. */
  predicate Compilable(env: Env, n: Node) {
    match n
    case MatchAll => true
    case And(l, r) => Compilable(env, l) && Compilable(env, r)
    case Or(l, r) => Compilable(env, l) && Compilable(env, r)
    case Not(e) => Compilable(env, e)
    case Term(_, _) => true
    case FieldEq(f, _) => IsFullText(f) || ColumnOf(f).Some? || ValidName(f)
    case FieldExists(f) => ColumnOf(f).Some? || ValidName(f)
    case FieldCompare(f, op, v) =>
      && ValidOp(op) && (ColumnOf(f).Some? || ValidName(f))
      && (IsNumeric(f) ==> NumericValue(env, f, v).Some?)
    case FieldRange(f, _, _, _, _) => ColumnOf(f).Some? || ValidName(f)
  }

  lemma TimesAreNames(f: string)
    requires IsTimestamp(f) || IsReceived(f)
    ensures ValidName(f) && ColumnOf(f).None?
  {
  }

  lemma {:induction false} CompilesIffCompilable(env: Env, n: Node)
    ensures Compile(env, n).Ok? <==> Compilable(env, n)
  {
    match n
    case And(l, r) => CompilesIffCompilable(env, l); CompilesIffCompilable(env, r);
    case Or(l, r) => CompilesIffCompilable(env, l); CompilesIffCompilable(env, r);
    case Not(e) => CompilesIffCompilable(env, e);
    case FieldCompare(f, _, _) => if IsTimestamp(f) || IsReceived(f) { TimesAreNames(f); }
    case FieldRange(f, _, _, _, _) => if IsTimestamp(f) || IsReceived(f) { TimesAreNames(f); }
    case _ =>
  }

  // ---- the full-text expressions of a condition ----

  /** Every expression bound to a MATCH is one token or one phrase. */
  predicate AllInert(q: Sql, args: seq<Arg>)
    requires |args| == Holes(q)
  {
    match q
    case AndSql(l, r) => AllInert(l, args[..Holes(l)]) && AllInert(r, args[Holes(l)..])
    case OrSql(l, r) => AllInert(l, args[..Holes(l)]) && AllInert(r, args[Holes(l)..])
    case NotSql(e) => AllInert(e, args)
    case MatchHole => Inert(ArgText(args[0]))
    case _ => true
  }

  /** No full-text leaf is rejected by the full-text language. */
  predicate Searchable(n: Node) {
    match n
    case And(l, r) => Searchable(l) && Searchable(r)
    case Or(l, r) => Searchable(l) && Searchable(r)
    case Not(e) => Searchable(e)
    case Term(v, phrase) => !Rejected(v, phrase)
    case FieldEq(f, v) => IsFullText(f) ==> !Rejected(v, false)
    case _ => true
  }

  lemma LeafFits(env: Env, n: Node)
    requires IsLeaf(n) && Compile(env, n).Ok?
    ensures var (q, args) := Compile(env, n).value;
            |args| == Holes(q) && (AllInert(q, args) <==> Searchable(n))
  {
    hide FtsMatch, Inert, Rejected, ValidName, HasWild, TranslateAll, NumericValue, BoundArg;
    match n
    case Term(v, phrase) => FtsMatchIsInert(v, phrase);
    case FieldEq(f, v) => FtsMatchIsInert(v, false);
    case _ =>
  }

  /** A compiled query's full-text expressions are all in order exactly when none of its leaves is rejected. */
  lemma {:induction false} SearchableIff(env: Env, n: Node)
    requires Compile(env, n).Ok?
    ensures var (q, args) := Compile(env, n).value;
            |args| == Holes(q) && (AllInert(q, args) <==> Searchable(n))
    decreases n
  {
    hide CFieldEq, CExists, CCompare, CRange, FullText, Inert, Rejected;
    match n
    case MatchAll =>
    case And(l, r) =>
      SearchableIff(env, l);
      SearchableIff(env, r);
      ArgsSplit(Compile(env, l).value.0, Compile(env, l).value.1, Compile(env, r).value.0, Compile(env, r).value.1);
    case Or(l, r) =>
      SearchableIff(env, l);
      SearchableIff(env, r);
      ArgsSplit(Compile(env, l).value.0, Compile(env, l).value.1, Compile(env, r).value.0, Compile(env, r).value.1);
    case Not(e) => SearchableIff(env, e);
    case _ => LeafFits(env, n);
  }

  // ---- the WHERE clause of a search ----

  /** The condition every search uses: the query, the time bounds, and the stream if one is asked for. */
  function Where(env: Env, n: Node, fromMs: real, toMs: real, stream: string): Compiled {
    var (q, a) :- Compile(env, n);
    var timed := AndSql(q, BetweenHoles);
    var bounds := [NumArg(Finite(fromMs)), NumArg(Finite(toMs))];
    Ok(if stream != "" then (AndSql(timed, StreamHole), a + bounds + [TextArg(stream)]) else (timed, a + bounds))
  }

  /** A row is selected exactly when the query holds of it and its time and its stream are as asked for. */
  lemma WhereSelects(env: Env, row: Row, n: Node, fromMs: real, toMs: real, stream: string)
    requires Where(env, n, fromMs, toMs, stream).Ok?
    ensures var (q, args) := Where(env, n, fromMs, toMs, stream).value;
            && |args| == Holes(q)
            && (Eval(env, row, q, args) == True <==>
                  && Meaning(env, row, n) == True && fromMs <= row.ts <= toMs
                  && (stream != "" ==> row.columns(Stream) == Some(stream)))
  {
    hide Meaning, Compile;
    CompilePreservesMeaning(env, row, n);
    var (q, a) := Compile(env, n).value;
    var bounds := [NumArg(Finite(fromMs)), NumArg(Finite(toMs))];
    assert (a + bounds)[..Holes(q)] == a && (a + bounds)[Holes(q)..] == bounds;
    var all := a + bounds + [TextArg(stream)];
    assert all[..Holes(q) + 2] == a + bounds && all[Holes(q) + 2..] == [TextArg(stream)];
    BetweenMeans(env, row, fromMs, toMs);
  }

  lemma BetweenMeans(env: Env, row: Row, fromMs: real, toMs: real)
    ensures Eval(env, row, BetweenHoles, [NumArg(Finite(fromMs)), NumArg(Finite(toMs))]) ==
            KOf(fromMs <= row.ts <= toMs)
  {
  }
}
