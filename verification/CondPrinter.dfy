/**
  * A printer for pipeline conditions: ! binds tighter than &&, which binds tighter than ||, both associate to
  * the left, and parentheses stand only where the tree differs from that. Parsing undoes it.
  */
module CondPrinter {
  import opened Wrappers
  import opened CondLexer
  import opened CondDsl
  import opened Quoting
  import opened Text

  // ---- tokens of a tree ----

  /** The weakest operator that may stand unparenthesized: 0 for ||, 1 for &&, 2 for none. */
  function Strength(e: Expr): nat { match e case Or(_, _) => 0 case And(_, _) => 1 case _ => 2 }

  const OPEN := Tok(LParen, "(")
  const CLOSE := Tok(RParen, ")")
  const COMMA := Tok(Comma, ",")
  const AND := Tok(AndOp, "&&")
  const OR := Tok(OrOp, "||")
  const NOT := Tok(NotOp, "!")

  /** How an argument that is no name is written: in quotes of either kind, or bare when it is a number's text. */
  datatype Form = Double | Single | Bare

  type Style = Arg -> Form

  function ArgTok(a: Arg, st: Style): Tok {
    Tok(if a.ident then Ident else if st(a).Bare? then Number else Str, a.text)
  }

  function ArgToks(args: seq<Arg>, st: Style): seq<Tok> {
    if args == [] then []
    else if |args| == 1 then [ArgTok(args[0], st)]
    else [ArgTok(args[0], st), COMMA] + ArgToks(args[1..], st)
  }

  function Toks(e: Expr, level: nat, st: Style): seq<Tok>
    decreases e, 1
  {
    if Strength(e) < level then [OPEN] + BareToks(e, st) + [CLOSE] else BareToks(e, st)
  }

  function BareToks(e: Expr, st: Style): seq<Tok>
    decreases e, 0
  {
    match e
    case Lit(b) => [Tok(Ident, if b then "true" else "false")]
    case Call(name, args) => [Tok(Ident, name), OPEN] + ArgToks(args, st) + [CLOSE]
    case Not(a) => [NOT] + Toks(a, 2, st)
    case And(a, b) => Toks(a, 1, st) + [AND] + Toks(b, 2, st)
    case Or(a, b) => Toks(a, 0, st) + [OR] + Toks(b, 1, st)
  }

  /** Function names that are no literals. */
  predicate Named(e: Expr) {
    match e
    case Lit(_) => true
    case Call(name, _) => name != "true" && name != "false"
    case Not(a) => Named(a)
    case And(a, b) => Named(a) && Named(b)
    case Or(a, b) => Named(a) && Named(b)
  }

  /** The first call that cannot be compiled, from left to right. */
  function FirstError(env: Env, e: Expr): (r: Option<CondError>)
    ensures r == None <==> Buildable(env, e)
  {
    match e
    case Lit(_) => None
    case Call(name, args) => CallError(env, name, args)
    case Not(a) => FirstError(env, a)
    case And(a, b) => var x := FirstError(env, a); if x.Some? then x else FirstError(env, b)
    case Or(a, b) => var x := FirstError(env, a); if x.Some? then x else FirstError(env, b)
  }

  // ---- parsing the tokens ----

  predicate Inner(ts: seq<Tok>) { forall i :: 0 <= i < |ts| ==> ts[i].kind != EOF }

  lemma {:induction false} NoEndInArgs(args: seq<Arg>, st: Style)
    ensures Inner(ArgToks(args, st))
  {
    if |args| > 1 {
      NoEndInArgs(args[1..], st);
    }
  }

  lemma InnerConcat(a: seq<Tok>, b: seq<Tok>, c: seq<Tok>)
    requires Inner(a) && Inner(b) && Inner(c)
    ensures Inner(a + b + c)
  {
  }

  lemma {:induction false} NoEnd(e: Expr, level: nat, st: Style)
    ensures Inner(Toks(e, level, st))
    ensures Inner(BareToks(e, st))
    decreases e
  {
    hide Inner;
    match e {
      case Lit(_) => Known();
      case Call(name, args) =>
        NoEndInArgs(args, st);
        assert Inner([Tok(Ident, name), OPEN]) && Inner([CLOSE]) by { KnownName(name); }
        InnerConcat([Tok(Ident, name), OPEN], ArgToks(args, st), [CLOSE]);
      case Not(a) =>
        NoEnd(a, 2, st);
        Known();
        InnerConcat([NOT], Toks(a, 2, st), []);
        assert [NOT] + Toks(a, 2, st) + [] == [NOT] + Toks(a, 2, st);
      case And(a, b) =>
        NoEnd(a, 1, st);
        NoEnd(b, 2, st);
        Known();
        InnerConcat(Toks(a, 1, st), [AND], Toks(b, 2, st));
      case Or(a, b) =>
        NoEnd(a, 0, st);
        NoEnd(b, 1, st);
        Known();
        InnerConcat(Toks(a, 0, st), [OR], Toks(b, 1, st));
    }
    Known();
    InnerConcat([OPEN], BareToks(e, st), [CLOSE]);
  }

  lemma Known()
    ensures Inner([OPEN]) && Inner([CLOSE]) && Inner([AND]) && Inner([OR]) && Inner([NOT]) && Inner([])
    ensures Inner([Tok(Ident, "true")]) && Inner([Tok(Ident, "false")])
  {
  }

  lemma KnownName(name: string)
    ensures Inner([Tok(Ident, name), OPEN]) && Inner([CLOSE])
  {
  }

  lemma EndedAfter(ts: seq<Tok>, rest: seq<Tok>)
    requires Ended(rest) && Inner(ts)
    ensures Ended(ts + rest)
  {
  }

  /** One argument and what follows it: a comma and more of them, or the end of the list. */
  lemma ArgStep(a: Arg, more: seq<Tok>, st: Style)
    requires Ended(more) && (more[0].kind == Comma || more[0].kind == RParen)
    ensures Ended([ArgTok(a, st)] + more) && (more[0].kind == Comma ==> Ended(more[1..]))
    ensures var left := if more[0].kind == Comma then more[1..] else more;
            PArgs([ArgTok(a, st)] + more) == Append([a], PArgs(left))
  {
    hide Ended;
    assert Ended([ArgTok(a, st)] + more) && (more[0].kind == Comma ==> Ended(more[1..])) by { ArgEnded(a, more, st); }
    assert ([ArgTok(a, st)] + more)[1..] == more;
  }

  lemma ArgEnded(a: Arg, more: seq<Tok>, st: Style)
    requires Ended(more)
    ensures Ended([ArgTok(a, st)] + more) && (more[0].kind == Comma ==> Ended(more[1..]))
  {
  }

  lemma {:induction false} ArgsParse(args: seq<Arg>, rest: seq<Tok>, st: Style)
    requires Ended(rest)
    ensures Ended(ArgToks(args, st) + [CLOSE] + rest)
    ensures PArgs(ArgToks(args, st) + [CLOSE] + rest) == Ok((args, rest))
  {
    hide PArgs, Inner, Ended;
    var ts := ArgToks(args, st) + [CLOSE] + rest;
    Known();
    EndedAfter([CLOSE], rest);
    if args == [] {
      assert ts == [CLOSE] + rest;
      NoArgs(rest);
    } else {
      var more := ArgToks(args[1..], st) + [CLOSE] + rest;
      ArgsParse(args[1..], rest, st);
      assert args == [args[0]] + args[1..];
      if |args| == 1 {
        assert more == [CLOSE] + rest && ts == [ArgTok(args[0], st)] + more;
        ArgStep(args[0], more, st);
      } else {
        EndedAfterComma(more);
        assert ts == [ArgTok(args[0], st)] + ([COMMA] + more) && ([COMMA] + more)[1..] == more;
        ArgStep(args[0], [COMMA] + more, st);
      }
    }
  }

  lemma NoArgs(rest: seq<Tok>)
    requires Ended([CLOSE] + rest)
    ensures PArgs([CLOSE] + rest) == Ok(([], rest))
  {
    assert ([CLOSE] + rest)[1..] == rest;
  }

  lemma EndedAfterComma(more: seq<Tok>)
    requires Ended(more)
    ensures Ended([COMMA] + more)
  {
  }

  /** What a parser level makes of a printed tree: its first error, or what the loop makes of the tree and the rest. */
  ghost predicate UnaryParses(env: Env, e: Expr, rest: seq<Tok>, st: Style)
    requires Ended(rest)
  {
    var ts := Toks(e, 2, st) + rest;
    Ended(ts) && PUnary(env, ts) == match FirstError(env, e) case Some(x) => Err(x) case None => Ok((e, rest))
  }

  ghost predicate AndParses(env: Env, e: Expr, rest: seq<Tok>, st: Style)
    requires Ended(rest)
  {
    var ts := Toks(e, 1, st) + rest;
    Ended(ts) && PAnd(env, ts) == match FirstError(env, e) case Some(x) => Err(x) case None => PAndRest(env, e, rest)
  }

  ghost predicate OrParses(env: Env, e: Expr, rest: seq<Tok>, st: Style)
    requires Ended(rest)
  {
    var ts := Toks(e, 0, st) + rest;
    Ended(ts) && POr(env, ts) == match FirstError(env, e) case Some(x) => Err(x) case None => POrRest(env, e, rest)
  }

  lemma {:induction false} ParsesUnary(env: Env, e: Expr, rest: seq<Tok>, st: Style)
    requires Named(e) && Ended(rest)
    ensures UnaryParses(env, e, rest, st)
    decreases e, 4
  {
    hide POr, PCall, PAnd, PAndRest, POrRest;
    var ts := Toks(e, 2, st) + rest;
    NoEnd(e, 2, st);
    EndedAfter(Toks(e, 2, st), rest);
    match e
    case Lit(_) => CallParses(env, e, rest, st);
    case Call(_, _) => CallParses(env, e, rest, st);
    case Not(a) =>
      ParsesUnary(env, a, rest, st);
      assert ts[1..] == Toks(a, 2, st) + rest;
    case And(_, _) => ParenParses(env, e, rest, st);
    case Or(_, _) => ParenParses(env, e, rest, st);
  }

  lemma CallParses(env: Env, e: Expr, rest: seq<Tok>, st: Style)
    requires Named(e) && Ended(rest) && (e.Lit? || e.Call?)
    requires Ended(Toks(e, 2, st) + rest)
    ensures UnaryParses(env, e, rest, st)
  {
    hide PArgs, CallError;
    var ts := Toks(e, 2, st) + rest;
    match e
    case Lit(_) =>
      assert ts[1..] == rest;
    case Call(name, args) =>
      assert ts == [Tok(Ident, name), OPEN] + (ArgToks(args, st) + [CLOSE] + rest);
      ArgsParse(args, rest, st);
      assert ts[1..][1..] == ArgToks(args, st) + [CLOSE] + rest;
  }

  lemma {:induction false} ParenParses(env: Env, e: Expr, rest: seq<Tok>, st: Style)
    requires Named(e) && Ended(rest) && (e.And? || e.Or?)
    requires Ended(Toks(e, 2, st) + rest)
    ensures UnaryParses(env, e, rest, st)
    decreases e, 3
  {
    hide POr, PCall, PAnd, PAndRest, BareToks;
    var ts, closed := Toks(e, 2, st) + rest, [CLOSE] + rest;
    EndedAfter([CLOSE], rest);
    assert Toks(e, 0, st) == BareToks(e, st);
    assert ts == [OPEN] + (Toks(e, 0, st) + closed);
    assert ts[1..] == Toks(e, 0, st) + closed;
    ParsesOr(env, e, closed, st);
    assert closed[1..] == rest;
  }

  lemma {:induction false} ParsesAnd(env: Env, e: Expr, rest: seq<Tok>, st: Style)
    requires Named(e) && Ended(rest)
    ensures AndParses(env, e, rest, st)
    decreases e, if Strength(e) == 1 then 0 else 5
  {
    hide PUnary, Ended;
    NoEnd(e, 1, st);
    EndedAfter(Toks(e, 1, st), rest);
    if e.And? {
      NoEnd(e.r, 2, st);
      EndedAfter(Toks(e.r, 2, st), rest);
      EndedAfter([AND], Toks(e.r, 2, st) + rest);
      var more := [AND] + (Toks(e.r, 2, st) + rest);
      assert Toks(e, 1, st) + rest == Toks(e.l, 1, st) + more;
      ParsesAnd(env, e.l, more, st);
      ParsesUnary(env, e.r, rest, st);
      assert more[1..] == Toks(e.r, 2, st) + rest;
    } else {
      assert Toks(e, 1, st) == Toks(e, 2, st);
      ParsesUnary(env, e, rest, st);
    }
  }

  lemma {:induction false} ParsesOr(env: Env, e: Expr, rest: seq<Tok>, st: Style)
    requires Named(e) && Ended(rest) && rest[0].kind != AndOp
    ensures OrParses(env, e, rest, st)
    decreases e, if Strength(e) == 0 then 0 else if Strength(e) == 1 then 1 else 6
  {
    hide PAnd, Ended;
    NoEnd(e, 0, st);
    EndedAfter(Toks(e, 0, st), rest);
    if e.Or? {
      NoEnd(e.r, 1, st);
      EndedAfter(Toks(e.r, 1, st), rest);
      EndedAfter([OR], Toks(e.r, 1, st) + rest);
      var more := [OR] + (Toks(e.r, 1, st) + rest);
      assert Toks(e, 0, st) + rest == Toks(e.l, 0, st) + more;
      ParsesOr(env, e.l, more, st);
      ParsesAnd(env, e.r, rest, st);
      assert more[1..] == Toks(e.r, 1, st) + rest;
    } else {
      assert Toks(e, 0, st) == Toks(e, 1, st);
      ParsesAnd(env, e, rest, st);
    }
  }

  // ---- characters of a tree ----

  function PrintArg(a: Arg, st: Style): string {
    if a.ident || st(a).Bare? then a.text else QuoteIn(a.text, if st(a).Double? then '"' else '\'')
  }

  function PrintArgs(args: seq<Arg>, st: Style): string {
    if args == [] then ""
    else if |args| == 1 then PrintArg(args[0], st)
    else PrintArg(args[0], st) + (", " + PrintArgs(args[1..], st))
  }

  function PrintAt(e: Expr, level: nat, st: Style): string
    decreases e, 1
  {
    if Strength(e) < level then "(" + (PrintBare(e, st) + ")") else PrintBare(e, st)
  }

  function PrintBare(e: Expr, st: Style): string
    decreases e, 0
  {
    match e
    case Lit(b) => if b then "true" else "false"
    case Call(name, args) => name + ("(" + (PrintArgs(args, st) + ")"))
    case Not(a) => "!" + PrintAt(a, 2, st)
    case And(a, b) => PrintAt(a, 1, st) + (" && " + PrintAt(b, 2, st))
    case Or(a, b) => PrintAt(a, 0, st) + (" || " + PrintAt(b, 1, st))
  }

  function Print(e: Expr, st: Style): string { PrintAt(e, 0, st) }

  predicate IsNumber(s: string) {
    s != "" && (Digit(s[0]) || s[0] == '-' || s[0] == '+') && forall i :: 0 < i < |s| ==> NumberPart(s[i])
  }

  predicate ArgOk(a: Arg, st: Style) {
    if a.ident then IsIdent(a.text) else st(a).Bare? ==> IsNumber(a.text)
  }

  predicate ArgsOk(args: seq<Arg>, st: Style) { forall i :: 0 <= i < |args| ==> ArgOk(args[i], st) }

  /** Function names are identifiers other than the literals, bare arguments are identifiers, strings are arbitrary. */
  predicate Printable(e: Expr, st: Style) {
    match e
    case Lit(_) => true
    case Call(name, args) => IsIdent(name) && name != "true" && name != "false" && ArgsOk(args, st)
    case Not(a) => Printable(a, st)
    case And(a, b) => Printable(a, st) && Printable(b, st)
    case Or(a, b) => Printable(a, st) && Printable(b, st)
  }

  lemma {:induction false} PrintableIsNamed(e: Expr, st: Style)
    requires Printable(e, st)
    ensures Named(e)
  {
    match e
    case Lit(_) =>
    case Call(_, _) =>
    case Not(a) => PrintableIsNamed(a, st);
    case And(a, b) =>
      PrintableIsNamed(a, st);
      PrintableIsNamed(b, st);
    case Or(a, b) =>
      PrintableIsNamed(a, st);
      PrintableIsNamed(b, st);
  }

  // ---- lexing the characters ----

  /** Read in front of r, the text gives these tokens. */
  predicate Lexes(s: string, ts: seq<Tok>, r: string) { Tokens(s + r) == Prepend(ts, Tokens(r)) }

  /** What ends an identifier. */
  predicate Stop(r: string) { r == "" || !IdentPart(r[0]) }

  lemma LexesBoth(a: string, ta: seq<Tok>, b: string, tb: seq<Tok>, r: string)
    requires Lexes(a, ta, b + r) && Lexes(b, tb, r)
    ensures Lexes(a + b, ta + tb, r)
  {
    hide Tokens;
    assert a + b + r == a + (b + r);
    PrependTwice(ta, tb, Tokens(r));
  }

  lemma LexSymbols(r: string)
    ensures Lexes("(", [OPEN], r) && Lexes(")", [CLOSE], r) && Lexes("!", [NOT], r)
  {
    assert ("(" + r)[1..] == r && (")" + r)[1..] == r && ("!" + r)[1..] == r;
  }

  lemma LexComma(r: string)
    ensures Lexes(", ", [COMMA], r)
  {
    assert (", " + r)[1..] == " " + r && (" " + r)[1..] == r;
  }

  lemma LexAnd(r: string)
    ensures Lexes(" && ", [AND], r)
  {
    var s, u, v := " && " + r, "&& " + r, " " + r;
    assert s[1..] == u && u[2..] == v && v[1..] == r;
    assert Tokens(v) == Tokens(r);
    assert Tokens(u) == Prepend([AND], Tokens(v));
  }

  lemma LexOr(r: string)
    ensures Lexes(" || ", [OR], r)
  {
    var s, u, v := " || " + r, "|| " + r, " " + r;
    assert s[1..] == u && u[2..] == v && v[1..] == r;
    assert Tokens(v) == Tokens(r);
    assert Tokens(u) == Prepend([OR], Tokens(v));
  }

  lemma {:induction false} SpanOf(n: string, r: string)
    requires (forall i :: 0 <= i < |n| ==> IdentPart(n[i])) && Stop(r)
    ensures Span(n + r, IdentPart) == |n|
  {
    if n == "" {
      assert n + r == r;
    } else {
      assert (n + r)[1..] == n[1..] + r;
      SpanOf(n[1..], r);
    }
  }

  lemma LexIdent(n: string, r: string)
    requires IsIdent(n) && Stop(r)
    ensures Lexes(n, [Tok(Ident, n)], r)
  {
    hide Span;
    var s := n + r;
    SpanOf(n, r);
    assert s[0] == n[0];
    assert s[..|n|] == n && s[|n|..] == r;
  }

  lemma {:induction false} ReadEscaped(t: string, q: char, r: string)
    requires q == '"' || q == '\''
    ensures ReadString(Escape(t, q) + [q] + r, q) == Some((t, r))
    decreases t
  {
    var s := Escape(t, q) + [q] + r;
    if t == "" {
      assert s[1..] == r;
    } else {
      ReadEscaped(t[1..], q, r);
      assert s == EscapeChar(t[0], q) + (Escape(t[1..], q) + [q] + r);
      assert s[|EscapeChar(t[0], q)|..] == Escape(t[1..], q) + [q] + r;
      assert [t[0]] + t[1..] == t;
    }
  }

  lemma LexQuoted(t: string, q: char, r: string)
    requires q == '"' || q == '\''
    ensures Lexes(QuoteIn(t, q), [Tok(Str, t)], r)
  {
    hide ReadString, Escape;
    var s := QuoteIn(t, q) + r;
    ReadEscaped(t, q, r);
    assert s[1..] == Escape(t, q) + [q] + r;
    assert s[|s| - |r|..] == r;
  }

  lemma {:induction false} SpanOfNumber(n: string, r: string)
    requires (forall i :: 0 <= i < |n| ==> NumberPart(n[i])) && Stop(r)
    ensures Span(n + r, NumberPart) == |n|
  {
    if n == "" {
      assert n + r == r;
    } else {
      assert (n + r)[1..] == n[1..] + r;
      SpanOfNumber(n[1..], r);
    }
  }

  lemma LexNumber(n: string, r: string)
    requires IsNumber(n) && Stop(r)
    ensures Lexes(n, [Tok(Number, n)], r)
  {
    hide Span;
    var s := n + r;
    SpanOfNumber(n[1..], r);
    assert s[0] == n[0] && s[1..] == n[1..] + r;
    assert s[..|n|] == n && s[|n|..] == r;
  }

  lemma LexArg(a: Arg, r: string, st: Style)
    requires ArgOk(a, st) && Stop(r)
    ensures Lexes(PrintArg(a, st), [ArgTok(a, st)], r)
  {
    hide IsIdent, IsNumber, Lexes, Escape;
    if a.ident {
      LexIdent(a.text, r);
    } else if st(a).Bare? {
      LexNumber(a.text, r);
    } else {
      LexQuoted(a.text, if st(a).Double? then '"' else '\'', r);
    }
  }

  lemma {:induction false} LexArgs(args: seq<Arg>, r: string, st: Style)
    requires ArgsOk(args, st) && Stop(r)
    ensures Lexes(PrintArgs(args, st), ArgToks(args, st), r)
  {
    hide IsIdent, Lexes, PrintArg, ArgTok;
    if args == [] {
      LexNothing(r);
    } else if |args| == 1 {
      LexArg(args[0], r, st);
    } else {
      var more := PrintArgs(args[1..], st);
      LexArgs(args[1..], r, st);
      LexComma(more + r);
      LexesBoth(", ", [COMMA], more, ArgToks(args[1..], st), r);
      assert (", " + more + r)[0] == ',';
      LexArg(args[0], ", " + more + r, st);
      LexesBoth(PrintArg(args[0], st), [ArgTok(args[0], st)], ", " + more, [COMMA] + ArgToks(args[1..], st), r);
      assert [ArgTok(args[0], st)] + ([COMMA] + ArgToks(args[1..], st)) == ArgToks(args, st);
    }
  }

  lemma LexNothing(r: string)
    ensures Lexes("", [], r)
  {
    assert "" + r == r;
    PrependTwice([], [], Tokens(r));
  }

  lemma {:induction false} LexPrinted(e: Expr, level: nat, r: string, st: Style)
    requires Printable(e, st) && Stop(r)
    ensures Lexes(PrintAt(e, level, st), Toks(e, level, st), r)
    decreases e, 1
  {
    hide Lexes, PrintBare, BareToks;
    if Strength(e) < level {
      StopClose(r);
      LexBare(e, ")" + r, st);
      LexSymbols(r);
      LexesBoth(PrintBare(e, st), BareToks(e, st), ")", [CLOSE], r);
      LexSymbols(PrintBare(e, st) + ")" + r);
      LexesBoth("(", [OPEN], PrintBare(e, st) + ")", BareToks(e, st) + [CLOSE], r);
      assert [OPEN] + (BareToks(e, st) + [CLOSE]) == Toks(e, level, st);
    } else {
      LexBare(e, r, st);
    }
  }

  lemma StopClose(r: string)
    ensures Stop(")" + r) && Stop(" && " + r) && Stop(" || " + r) && Stop("(" + r)
  {
    assert (")" + r)[0] == ')' && (" && " + r)[0] == ' ' && (" || " + r)[0] == ' ' && ("(" + r)[0] == '(';
  }

  lemma {:induction false} LexBare(e: Expr, r: string, st: Style)
    requires Printable(e, st) && Stop(r)
    ensures Lexes(PrintBare(e, st), BareToks(e, st), r)
    decreases e, 0
  {
    hide Lexes, Stop, ArgsOk, IsIdent;
    match e
    case Lit(b) =>
      LiteralsAreIdents();
      LexIdent(if b then "true" else "false", r);
    case Call(name, args) => LexCall(name, args, r, st);
    case Not(a) =>
      LexPrinted(a, 2, r, st);
      LexSymbols(PrintAt(a, 2, st) + r);
      LexesBoth("!", [NOT], PrintAt(a, 2, st), Toks(a, 2, st), r);
    case And(a, b) =>
      LexPrinted(b, 2, r, st);
      StopClose(PrintAt(b, 2, st) + r);
      assert " && " + (PrintAt(b, 2, st) + r) == " && " + PrintAt(b, 2, st) + r;
      LexPrinted(a, 1, " && " + PrintAt(b, 2, st) + r, st);
      LexInfix(PrintAt(a, 1, st), Toks(a, 1, st), " && ", AND, PrintAt(b, 2, st), Toks(b, 2, st), r);
    case Or(a, b) =>
      LexPrinted(b, 1, r, st);
      StopClose(PrintAt(b, 1, st) + r);
      assert " || " + (PrintAt(b, 1, st) + r) == " || " + PrintAt(b, 1, st) + r;
      LexPrinted(a, 0, " || " + PrintAt(b, 1, st) + r, st);
      LexInfix(PrintAt(a, 0, st), Toks(a, 0, st), " || ", OR, PrintAt(b, 1, st), Toks(b, 1, st), r);
  }

  lemma LiteralsAreIdents()
    ensures IsIdent("true") && IsIdent("false")
  {
  }

  lemma LexCall(name: string, args: seq<Arg>, r: string, st: Style)
    requires IsIdent(name) && ArgsOk(args, st)
    ensures Lexes(name + ("(" + (PrintArgs(args, st) + ")")), [Tok(Ident, name), OPEN] + ArgToks(args, st) + [CLOSE], r)
  {
    hide Lexes, ArgsOk, IsIdent, PrintArgs, ArgToks;
    var a, ta := PrintArgs(args, st), ArgToks(args, st);
    StopClose(r);
    LexArgs(args, ")" + r, st);
    LexSymbols(r);
    LexesBoth(a, ta, ")", [CLOSE], r);
    LexSymbols(a + ")" + r);
    LexesBoth("(", [OPEN], a + ")", ta + [CLOSE], r);
    StopClose(a + ")" + r);
    assert "(" + (a + ")" + r) == "(" + (a + ")") + r;
    LexIdent(name, "(" + (a + ")") + r);
    LexesBoth(name, [Tok(Ident, name)], "(" + (a + ")"), [OPEN] + (ta + [CLOSE]), r);
    assert [Tok(Ident, name)] + ([OPEN] + (ta + [CLOSE])) == [Tok(Ident, name), OPEN] + ta + [CLOSE];
  }

  /** Two operands read on their own are read with the operator between them. */
  lemma LexInfix(pa: string, ta: seq<Tok>, op: string, tok: Tok, pb: string, tb: seq<Tok>, r: string)
    requires (op == " && " && tok == AND) || (op == " || " && tok == OR)
    requires Lexes(pb, tb, r) && Lexes(pa, ta, op + pb + r)
    ensures Lexes(pa + (op + pb), ta + [tok] + tb, r)
  {
    hide Lexes;
    LexAnd(pb + r);
    LexOr(pb + r);
    LexesBoth(op, [tok], pb, tb, r);
    LexesBoth(pa, ta, op + pb, [tok] + tb, r);
    assert ta + ([tok] + tb) == ta + [tok] + tb;
  }

  // ---- the text of a tree ----

  /** A printed condition neither begins nor ends with white space. */
  lemma {:induction false} PrintedEnds(e: Expr, level: nat, st: Style)
    requires Printable(e, st)
    ensures var s := PrintAt(e, level, st); s != "" && !Space(s[0]) && !Space(s[|s| - 1])
    decreases e
  {
    hide Space;
    IdentIsNoSpace();
    match e
    case Lit(_) =>
    case Call(_, _) =>
    case Not(a) => PrintedEnds(a, 2, st);
    case And(a, b) =>
      PrintedEnds(a, 1, st);
      PrintedEnds(b, 2, st);
    case Or(a, b) =>
      PrintedEnds(a, 0, st);
      PrintedEnds(b, 1, st);
  }

  lemma IdentIsNoSpace()
    ensures forall c :: IdentPart(c) || c in "()!&|" ==> !Space(c)
  {
  }

  /** The text of a tree lexes to the tree's tokens. */
  lemma LexesAll(e: Expr, st: Style)
    requires Printable(e, st)
    ensures Tokens(Print(e, st)) == Ok(Toks(e, 0, st) + [Tok(EOF, "")])
  {
    hide Toks, PrintAt;
    LexPrinted(e, 0, "", st);
    assert PrintAt(e, 0, st) + "" == PrintAt(e, 0, st);
  }

  lemma ParseText(env: Env, e: Expr, st: Style)
    requires Printable(e, st) && Print(e, st) != "true"
    ensures Parse(env, Print(e, st)) == match FirstError(env, e) case Some(x) => Err(x) case None => Ok(e)
  {
    hide Toks, PrintAt, POr, TrimSpace, Tokens, FirstError;
    PrintedEnds(e, 0, st);
    TrimNothing(Print(e, st));
    LexesAll(e, st);
    PrintableIsNamed(e, st);
    var end := [Tok(EOF, "")];
    assert Ended(end) && end[0].kind != AndOp;
    ParsesOr(env, e, end, st);
    assert FirstError(env, e) == None ==> Buildable(env, e) && POrRest(env, e, end) == Ok((e, end));
  }

  /** The one text that is not parsed means what its tree means. */
  lemma TrueIsTrue(env: Env, e: Expr, st: Style)
    requires Printable(e, st) && Print(e, st) == "true"
    ensures e == Lit(true) && Parse(env, Print(e, st)) == Ok(e)
  {
    hide Toks, PrintAt, TrimSpace, Space;
    LexesAll(e, st);
    LexesAll(Lit(true), st);
    PrintTrue(st);
    assert Toks(e, 0, st) + [Tok(EOF, "")] == Toks(Lit(true), 0, st) + [Tok(EOF, "")];
    OnlyTrue(e, st);
    PrintedEnds(e, 0, st);
    TrimNothing(Print(e, st));
  }

  lemma PrintTrue(st: Style)
    ensures Print(Lit(true), st) == "true"
  {
  }

  lemma OnlyTrue(e: Expr, st: Style)
    requires Toks(e, 0, st) + [Tok(EOF, "")] == Toks(Lit(true), 0, st) + [Tok(EOF, "")]
    ensures e == Lit(true)
  {
    var ts := Toks(e, 0, st);
    assert ts == (ts + [Tok(EOF, "")])[..|ts|];
    assert ts == [Tok(Ident, "true")];
    ManyToks(e, 0, st);
  }

  /** Only literals are single tokens. */
  lemma {:induction false} ManyToks(e: Expr, level: nat, st: Style)
    ensures |Toks(e, level, st)| >= if e.Lit? then 1 else 2
    decreases e
  {
    match e
    case Lit(_) =>
    case Call(_, _) =>
    case Not(a) => ManyToks(a, 2, st);
    case And(a, b) => ManyToks(a, 1, st);
    case Or(a, b) => ManyToks(a, 0, st);
  }

  /**
    * Parsing undoes printing: the text of a tree is read as the very tree when all its calls compile, and
    * otherwise fails with the error of the leftmost call that does not.
    */
  lemma ParsePrinted(env: Env, e: Expr, st: Style)
    requires Printable(e, st)
    ensures Parse(env, Print(e, st)) == match FirstError(env, e) case Some(x) => Err(x) case None => Ok(e)
  {
    hide Print, Parse, Printable;
    if Print(e, st) == "true" {
      TrueIsTrue(env, e, st);
    } else {
      ParseText(env, e, st);
    }
  }

  /**
    * A compiled condition computes the Boolean meaning of the tree it was printed from, for every message:
    * any closure that agrees with the text's parse denotes the tree, and there is one precisely when every
    * call compiles.
    */
  lemma CompiledMeansTree(env: Env, e: Expr, r: Result<Cond, CondError>, st: Style)
    requires Printable(e, st) && Agrees(env, r, Parse(env, Print(e, st)))
    ensures r.Ok? <==> Buildable(env, e)
    ensures r.Ok? ==> forall m :: r.value(m) == Meaning(env, e, m)
  {
    hide Print, Parse, FirstError, Meaning;
    ParsePrinted(env, e, st);
  }
}
