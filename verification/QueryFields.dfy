/**
  * What a compiled condition reads, field name by field name: which column of the row, which comparison, which
  * full-text expression.
  */
module QueryFields {
  import opened Wrappers
  import opened QueryAst
  import opened QueryMeaning
  import opened SqlCompile
  import Wildcard

  /** The condition compiled from the tree is true of the row. */
  predicate Selects(env: Env, row: Row, n: Node) {
    && Compile(env, n).Ok?
    && var (sql, args) := Compile(env, n).value;
    |args| == Holes(sql) && Eval(env, row, sql, args) == True
  }

  lemma SelectsIsMeaning(env: Env, row: Row, n: Node)
    ensures Selects(env, row, n) <==> Compilable(env, n) && Meaning(env, row, n) == True
  {
    hide Compile, Meaning, Compilable;
    CompilesIffCompilable(env, n);
    if Compile(env, n).Ok? {
      CompilePreservesMeaning(env, row, n);
    }
  }

  predicate Plain(v: string) { '*' !in v && '?' !in v }

  /** The names that are not looked up among a message's own fields. */
  predicate Reserved(f: string) {
    f == "source" || f == "stream" || f == "input_id" || f == "input" || f == "id" || f == "message" || f == "body"
  }

  predicate Times(f: string) { f == "timestamp" || f == "ts" || f == "received" || f == "received_at" }

  predicate Usable(f: string) {
    f != "" && forall i :: 0 <= i < |f| ==>
      'a' <= f[i] <= 'z' || 'A' <= f[i] <= 'Z' || '0' <= f[i] <= '9' || f[i] == '_' || f[i] == '.' || f[i] == '-'
  }

  // ---- equality and presence ----

  lemma PlainHasNoWild(v: string)
    ensures Plain(v) <==> !HasWild(v)
  {
  }

  /** A column's name selects the rows whose column holds the text; no name selects by another's column. */
  lemma ColumnSelects(env: Env, row: Row, v: string)
    requires Plain(v)
    ensures Selects(env, row, FieldEq("source", v)) <==> row.columns(Source) == Some(v)
    ensures Selects(env, row, FieldEq("stream", v)) <==> row.columns(Stream) == Some(v)
    ensures Selects(env, row, FieldEq("input_id", v)) <==> row.columns(InputId) == Some(v)
    ensures Selects(env, row, FieldEq("input", v)) <==> row.columns(InputId) == Some(v)
    ensures Selects(env, row, FieldEq("id", v)) <==> row.columns(Id) == Some(v)
  {
    hide Selects, HasWild;
    PlainHasNoWild(v);
    SelectsIsMeaning(env, row, FieldEq("source", v));
    SelectsIsMeaning(env, row, FieldEq("stream", v));
    SelectsIsMeaning(env, row, FieldEq("input_id", v));
    SelectsIsMeaning(env, row, FieldEq("input", v));
    SelectsIsMeaning(env, row, FieldEq("id", v));
  }

  /** A column exists in a row unless it is null or empty. */
  lemma ColumnExists(env: Env, row: Row)
    ensures Selects(env, row, FieldExists("source")) <==> row.columns(Source).Some? && row.columns(Source) != Some("")
    ensures Selects(env, row, FieldExists("stream")) <==> row.columns(Stream).Some? && row.columns(Stream) != Some("")
    ensures Selects(env, row, FieldExists("input_id")) <==>
            row.columns(InputId).Some? && row.columns(InputId) != Some("")
    ensures Selects(env, row, FieldExists("input")) <==>
            row.columns(InputId).Some? && row.columns(InputId) != Some("")
    ensures Selects(env, row, FieldExists("id")) <==> row.columns(Id).Some? && row.columns(Id) != Some("")
  {
    hide Selects;
    SelectsIsMeaning(env, row, FieldExists("source"));
    SelectsIsMeaning(env, row, FieldExists("stream"));
    SelectsIsMeaning(env, row, FieldExists("input_id"));
    SelectsIsMeaning(env, row, FieldExists("input"));
    SelectsIsMeaning(env, row, FieldExists("id"));
  }

  /** Every other usable name is a message's own field: its text, a text of its shape, or its presence. */
  lemma FieldSelects(env: Env, row: Row, f: string, v: string)
    requires Usable(f) && !Reserved(f)
    ensures Plain(v) ==>
              (Selects(env, row, FieldEq(f, v)) <==> row.json(f).Some? && row.json(f).value.text == v)
    ensures !Plain(v) ==>
              (Selects(env, row, FieldEq(f, v)) <==>
                 row.json(f).Some? && Wildcard.Glob(v, row.json(f).value.text, env.foldEq))
    ensures Selects(env, row, FieldExists(f)) <==> row.json(f).Some?
  {
    hide Selects, HasWild, Wildcard.Glob;
    PlainHasNoWild(v);
    SelectsIsMeaning(env, row, FieldEq(f, v));
    SelectsIsMeaning(env, row, FieldExists(f));
  }

  /** A name that is neither reserved nor usable compiles to nothing. */
  lemma UnusableSelectsNothing(env: Env, row: Row, f: string, v: string)
    requires !Usable(f) && !Reserved(f)
    ensures !Selects(env, row, FieldEq(f, v)) && !Selects(env, row, FieldExists(f))
  {
    hide Selects;
    SelectsIsMeaning(env, row, FieldEq(f, v));
    SelectsIsMeaning(env, row, FieldExists(f));
  }

  // ---- full text ----

  /** The names of the body, and bare terms, ask the full-text index. */
  lemma BodySelects(env: Env, row: Row, v: string)
    ensures Selects(env, row, FieldEq("message", v)) <==> row.matches(FtsMatch(v, false))
    ensures Selects(env, row, FieldEq("body", v)) <==> row.matches(FtsMatch(v, false))
    ensures forall phrase :: Selects(env, row, Term(v, phrase)) <==> row.matches(FtsMatch(v, phrase))
  {
    hide Selects, FtsMatch;
    SelectsIsMeaning(env, row, FieldEq("message", v));
    SelectsIsMeaning(env, row, FieldEq("body", v));
    SelectsIsMeaning(env, row, Term(v, true));
    SelectsIsMeaning(env, row, Term(v, false));
  }

  // ---- comparison ----

  /** What a comparison selects, when the row holds the number x and the query names y. */
  predicate Holds(x: real, op: string, y: real) {
    (op == ">" && x > y) || (op == "<" && x < y) || (op == ">=" && x >= y) || (op == "<=" && x <= y)
  }

  /** The number a query's text stands for. */
  predicate Names(env: Env, f: string, v: string, y: real) {
    if Times(f) && env.parseTime(v).Some? then env.parseTime(v) == Some(y) else env.parseFloat(v) == Some(Finite(y))
  }

  /** The two times, each under two names, compare with the row's event time and its time of receipt. */
  lemma TimeCompares(env: Env, row: Row, f: string, op: string, v: string, y: real)
    requires Times(f) && ValidOp(op) && Names(env, f, v, y)
    ensures Selects(env, row, FieldCompare(f, op, v)) <==>
            Holds(if f == "timestamp" || f == "ts" then row.ts else row.received, op, y)
  {
    hide Selects;
    SelectsIsMeaning(env, row, FieldCompare(f, op, v));
  }

  /** A message's own fields compare by their numbers. */
  lemma FieldCompares(env: Env, row: Row, f: string, op: string, v: string, y: real)
    requires Usable(f) && !Times(f) && (!Reserved(f) || f == "message" || f == "body")
    requires ValidOp(op) && Names(env, f, v, y)
    ensures Selects(env, row, FieldCompare(f, op, v)) <==> row.json(f).Some? && Holds(row.json(f).value.num, op, y)
  {
    hide Selects;
    SelectsIsMeaning(env, row, FieldCompare(f, op, v));
  }

  /** What a comparison of texts selects. */
  predicate Sorts(env: Env, x: string, op: string, y: string) {
    || (op == ">" && env.textLess(y, x)) || (op == "<" && env.textLess(x, y))
    || (op == ">=" && !env.textLess(x, y)) || (op == "<=" && !env.textLess(y, x))
  }

  /** Columns compare by their texts. */
  lemma ColumnCompares(env: Env, row: Row, op: string, v: string)
    requires ValidOp(op)
    ensures Selects(env, row, FieldCompare("source", op, v)) <==> SortsTo(env, row.columns(Source), op, v)
    ensures Selects(env, row, FieldCompare("stream", op, v)) <==> SortsTo(env, row.columns(Stream), op, v)
    ensures Selects(env, row, FieldCompare("input_id", op, v)) <==> SortsTo(env, row.columns(InputId), op, v)
    ensures Selects(env, row, FieldCompare("input", op, v)) <==> SortsTo(env, row.columns(InputId), op, v)
    ensures Selects(env, row, FieldCompare("id", op, v)) <==> SortsTo(env, row.columns(Id), op, v)
  {
    hide Selects, SortsTo, ValidOp;
    ColumnCompare(env, row, "source", op, v);
    ColumnCompare(env, row, "stream", op, v);
    ColumnCompare(env, row, "input_id", op, v);
    ColumnCompare(env, row, "input", op, v);
    ColumnCompare(env, row, "id", op, v);
  }

  lemma ColumnCompare(env: Env, row: Row, f: string, op: string, v: string)
    requires ColumnOf(f).Some? && ValidOp(op)
    ensures Selects(env, row, FieldCompare(f, op, v)) <==> SortsTo(env, row.columns(ColumnOf(f).value), op, v)
  {
    hide Selects, ColumnOf;
    TimesAreNoColumns(f);
    SelectsIsMeaning(env, row, FieldCompare(f, op, v));
  }

  lemma TimesAreNoColumns(f: string)
    requires ColumnOf(f).Some?
    ensures !IsTimestamp(f) && !IsReceived(f)
  {
  }

  predicate SortsTo(env: Env, x: Option<string>, op: string, y: string) { x.Some? && Sorts(env, x.value, op, y) }

  /**
    * A range of numbers holds what lies between its bounds, a bound itself when it is included; an open end asks
    * nothing, and a range open at both ends selects every row, with the field or without it.
    */
  lemma RangeSelects(env: Env, row: Row, f: string, lo: string, hi: string, a: real, b: real, il: bool, ih: bool)
    requires Usable(f) && !Reserved(f) && !Times(f)
    requires (lo != "*" ==> Names(env, f, lo, a)) && (hi != "*" ==> Names(env, f, hi, b))
    ensures Selects(env, row, FieldRange(f, lo, hi, il, ih)) <==>
            (lo == "*" && hi == "*") ||
            (row.json(f).Some? &&
             var x := row.json(f).value.num;
             && (lo != "*" ==> a < x || (il && x == a))
             && (hi != "*" ==> x < b || (ih && x == b)))
  {
    hide Selects;
    SelectsIsMeaning(env, row, FieldRange(f, lo, hi, il, ih));
  }

  /** The same for the two times, which every row has. */
  lemma TimeRangeSelects(env: Env, row: Row, f: string, lo: string, hi: string, a: real, b: real, il: bool, ih: bool)
    requires Times(f)
    requires (lo != "*" ==> Names(env, f, lo, a)) && (hi != "*" ==> Names(env, f, hi, b))
    ensures var t := if f == "timestamp" || f == "ts" then row.ts else row.received;
            Selects(env, row, FieldRange(f, lo, hi, il, ih)) <==>
            (lo != "*" ==> a < t || (il && t == a)) && (hi != "*" ==> t < b || (ih && t == b))
  {
    hide Selects, ColumnOf;
    TimesAreNames(f);
    SelectsIsMeaning(env, row, FieldRange(f, lo, hi, il, ih));
  }

  /** A column's range holds the texts that sort between its bounds. */
  lemma ColumnRangeSelects(env: Env, row: Row, f: string, c: Column, lo: string, hi: string, il: bool, ih: bool)
    requires || (f == "source" && c == Source) || (f == "stream" && c == Stream) || (f == "id" && c == Id)
             || ((f == "input_id" || f == "input") && c == InputId)
    ensures Selects(env, row, FieldRange(f, lo, hi, il, ih)) <==>
            && (lo != "*" ==> SortsTo(env, row.columns(c), if il then ">=" else ">", lo))
            && (hi != "*" ==> SortsTo(env, row.columns(c), if ih then "<=" else "<", hi))
  {
    hide Selects, ColumnOf;
    assert ColumnOf(f) == Some(c) by { NamedColumn(f, c); }
    TimesAreNoColumns(f);
    SelectsIsMeaning(env, row, FieldRange(f, lo, hi, il, ih));
  }

  lemma NamedColumn(f: string, c: Column)
    requires || (f == "source" && c == Source) || (f == "stream" && c == Stream) || (f == "id" && c == Id)
             || ((f == "input_id" || f == "input") && c == InputId)
    ensures ColumnOf(f) == Some(c)
  {
  }

  // ---- numbers beyond all others, and bounds that are no numbers ----

  /** Every number is below infinity and above its negative; nothing compares with NaN. */
  lemma ExtremeCompares(env: Env, row: Row, f: string, op: string, v: string)
    requires Usable(f) && !Times(f) && !Reserved(f) && ValidOp(op)
    ensures env.parseFloat(v) == Some(Infinite(false)) ==>
              (Selects(env, row, FieldCompare(f, op, v)) <==> row.json(f).Some? && (op == "<" || op == "<="))
    ensures env.parseFloat(v) == Some(Infinite(true)) ==>
              (Selects(env, row, FieldCompare(f, op, v)) <==> row.json(f).Some? && (op == ">" || op == ">="))
    ensures env.parseFloat(v) == Some(NaN) || env.parseFloat(v) == None ==> !Selects(env, row, FieldCompare(f, op, v))
  {
    hide Selects;
    SelectsIsMeaning(env, row, FieldCompare(f, op, v));
  }

  /** A bound that the number parser rejects counts as the number the database makes of it, or sorts above all. */
  lemma TextBoundSelects(env: Env, row: Row, f: string, v: string, incl: bool)
    requires Usable(f) && !Times(f) && !Reserved(f) && env.parseFloat(v) == None && v != "*"
    ensures Selects(env, row, FieldRange(f, "*", v, incl, incl)) <==>
            row.json(f).Some? && match env.affinity(v)
                                 case None => true
                                 case Some(y) => row.json(f).value.num < y || (incl && row.json(f).value.num == y)
    ensures Selects(env, row, FieldRange(f, v, "*", incl, incl)) <==>
            row.json(f).Some? && match env.affinity(v)
                                 case None => false
                                 case Some(y) => row.json(f).value.num > y || (incl && row.json(f).value.num == y)
  {
    hide Selects;
    SelectsIsMeaning(env, row, FieldRange(f, "*", v, incl, incl));
    SelectsIsMeaning(env, row, FieldRange(f, v, "*", incl, incl));
  }
}
