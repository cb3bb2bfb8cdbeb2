/**
  * What each condition function asks of a message, attribute by attribute: the attribute a name stands for, and
  * the test on its text. CondPrinter.CompiledMeansTree carries this over to the compiled closures.
  */
module CondFields {
  import opened Wrappers
  import opened CondLexer
  import opened CondDsl
  import opened CondPrinter
  import opened Quoting
  import opened Text

  /** A call with an attribute's name and a text. */
  function Ask(name: string, f: string, v: string): Expr { Call(name, [Arg(true, f), Arg(false, v)]) }

  function Has(f: string): Expr { Call("has", [Arg(true, f)]) }

  /** The call compiles, and holds of the message. */
  predicate Tests(env: Env, e: Expr, m: Msg) { Buildable(env, e) && Meaning(env, e, m) }

  /** The calls that compile. */
  lemma CallCompilesIff(env: Env, name: string, args: seq<Arg>)
    ensures Buildable(env, Call(name, args)) <==>
            || (name == "has" && |args| == 1)
            || (name in {"eq", "neq", "contains"} && |args| == 2)
            || (name == "regex" && |args| == 2 && env.regexOk(args[1].text))
            || (name == "cidr" && |args| == 2 && env.cidrOk(args[1].text))
            || (name in {"gt", "lt", "gte", "lte"} && |args| == 2 && env.number(args[1].text).Some?)
  {
  }

  // ---- names ----

  /** The names of the message's own attributes; each counts as missing when it is empty. */
  lemma OwnAttributes(env: Env, m: Msg, v: string)
    ensures Tests(env, Ask("eq", "message", v), m) <==> v != "" && m.body == v
    ensures Tests(env, Ask("eq", "body", v), m) <==> v != "" && m.body == v
    ensures Tests(env, Ask("eq", "source", v), m) <==> v != "" && m.source == v
    ensures Tests(env, Ask("eq", "stream", v), m) <==> v != "" && m.stream == v
    ensures Tests(env, Ask("eq", "input_id", v), m) <==> v != "" && m.inputId == v
  {
  }

  /** Every other name is a field, empty or not. */
  lemma OtherFields(env: Env, m: Msg, f: string, v: string)
    requires f !in {"message", "body", "source", "stream", "input_id"}
    ensures Tests(env, Ask("eq", f, v), m) <==> f in m.fields && m.fields[f] == v
  {
  }

  // ---- functions ----

  /** has asks whether the attribute equals any text at all, and neq is the contrary of eq. */
  lemma HasAndNeq(env: Env, m: Msg, f: string, v: string)
    ensures Tests(env, Has(f), m) <==> exists x :: Tests(env, Ask("eq", f, x), m)
    ensures Tests(env, Ask("neq", f, v), m) <==> !Tests(env, Ask("eq", f, v), m)
  {
    hide StringField;
    EqIs(env, m, f);
    var x := StringField(m, f);
    if x.Some? {
      assert Tests(env, Ask("eq", f, x.value), m);
    }
  }

  lemma EqIs(env: Env, m: Msg, f: string)
    ensures forall x :: Tests(env, Ask("eq", f, x), m) <==> StringField(m, f) == Some(x)
  {
    hide StringField;
  }

  /** The text occurs in the other one. */
  predicate Occurs(sub: string, s: string) { exists i :: 0 <= i <= |s| && OccursAt(sub, s, i) }

  predicate OccursAt(sub: string, s: string, i: nat) { i + |sub| <= |s| && s[i..i + |sub|] == sub }

  lemma {:induction false} ContainsIff(s: string, sub: string)
    ensures Contains(s, sub) <==> Occurs(sub, s)
  {
    assert sub <= s <==> OccursAt(sub, s, 0);
    if s != "" {
      ContainsIff(s[1..], sub);
      forall i | 0 <= i < |s| ensures OccursAt(sub, s[1..], i) <==> OccursAt(sub, s, i + 1) {
        assert i + |sub| <= |s[1..]| ==> s[1..][i..i + |sub|] == s[i + 1..i + 1 + |sub|];
      }
      if i :| 0 <= i <= |s[1..]| && OccursAt(sub, s[1..], i) {
        assert OccursAt(sub, s, i + 1);
      }
      if i :| 0 <= i <= |s| && OccursAt(sub, s, i) {
        assert i > 0 ==> OccursAt(sub, s[1..], i - 1);
      }
    }
  }

  /** contains, regex and cidr test the text that the attribute equals. */
  lemma TextTests(env: Env, m: Msg, f: string, v: string)
    requires env.regexOk(v) && env.cidrOk(v)
    ensures Tests(env, Ask("contains", f, v), m) <==>
            exists x :: Tests(env, Ask("eq", f, x), m) && Occurs(v, x)
    ensures Tests(env, Ask("regex", f, v), m) <==>
            exists x :: Tests(env, Ask("eq", f, x), m) && env.matches(v, x)
    ensures Tests(env, Ask("cidr", f, v), m) <==>
            exists x :: Tests(env, Ask("eq", f, x), m) && env.inCidr(v, x)
  {
    hide StringField, Contains, Occurs;
    EqIs(env, m, f);
    var s := StringField(m, f);
    if s.Some? {
      ContainsIff(s.value, v);
      assert Tests(env, Ask("eq", f, s.value), m);
    }
  }

  /** The comparisons test the number that the attribute's text stands for, and fail on any other text. */
  lemma NumberTests(env: Env, m: Msg, f: string, v: string, y: real)
    requires env.number(v) == Some(y)
    ensures Tests(env, Ask("gt", f, v), m) <==> exists x, n :: Stands(env, m, f, x, n) && n > y
    ensures Tests(env, Ask("lt", f, v), m) <==> exists x, n :: Stands(env, m, f, x, n) && n < y
    ensures Tests(env, Ask("gte", f, v), m) <==> exists x, n :: Stands(env, m, f, x, n) && n >= y
    ensures Tests(env, Ask("lte", f, v), m) <==> exists x, n :: Stands(env, m, f, x, n) && n <= y
  {
    hide StringField;
    EqIs(env, m, f);
    var s := StringField(m, f);
    if s.Some? && env.number(s.value).Some? {
      assert Stands(env, m, f, s.value, env.number(s.value).value);
    }
  }

  /** The attribute equals the text, and the text stands for the number. */
  predicate Stands(env: Env, m: Msg, f: string, x: string, n: real) {
    Tests(env, Ask("eq", f, x), m) && env.number(x) == Some(n)
  }

  // ---- texts ----

  /** A comparison with a bare number is read as written, as in gte(status, 500). */
  lemma NumberCallParses(env: Env, op: string, f: string, n: string)
    requires op in {"gt", "lt", "gte", "lte"} && IsIdent(f) && IsNumber(n) && env.number(n).Some?
    ensures Parse(env, op + "(" + f + ", " + n + ")") == Ok(Ask(op, f, n))
  {
    hide Parse, IsIdent, IsNumber;
    var st: Style := _ => Bare;
    OpsAreNames(op);
    CallPrints(op, f, n, st);
    CallCompilesIff(env, op, [Arg(true, f), Arg(false, n)]);
    ParsePrinted(env, Ask(op, f, n), st);
  }

  /** A test of any text in single quotes is read as written, its quotes and backslashes escaped. */
  lemma SingleQuotedParses(env: Env, name: string, f: string, v: string)
    requires name in {"eq", "neq", "contains"} && IsIdent(f)
    ensures Parse(env, name + "(" + f + ", " + QuoteIn(v, '\'') + ")") == Ok(Ask(name, f, v))
  {
    hide Parse, IsIdent, QuoteIn;
    var st: Style := _ => Single;
    OpsAreNames(name);
    CallPrints(name, f, v, st);
    CallCompilesIff(env, name, [Arg(true, f), Arg(false, v)]);
    ParsePrinted(env, Ask(name, f, v), st);
  }

  lemma OpsAreNames(op: string)
    requires op in {"gt", "lt", "gte", "lte", "eq", "neq", "contains"}
    ensures IsIdent(op) && op != "true" && op != "false"
  {
  }

  lemma CallPrints(name: string, f: string, v: string, st: Style)
    requires IsIdent(name) && name != "true" && name != "false" && IsIdent(f) && ArgOk(Arg(false, v), st)
    ensures Printable(Ask(name, f, v), st)
    ensures Print(Ask(name, f, v), st) == name + "(" + f + ", " + PrintArg(Arg(false, v), st) + ")"
  {
    hide IsIdent, IsNumber, QuoteIn, ArgOk;
    var args := [Arg(true, f), Arg(false, v)];
    var arg := PrintArg(args[1], st);
    TwoArgs(args, st);
    assert PrintArg(args[0], st) == f;
    assert PrintBare(Call(name, args), st) == name + ("(" + (PrintArgs(args, st) + ")"));
    assert name + ("(" + (f + (", " + arg) + ")")) == name + "(" + f + ", " + arg + ")";
    assert ArgOk(args[0], st) by { NameOk(f, st); }
  }

  lemma NameOk(f: string, st: Style)
    requires IsIdent(f)
    ensures ArgOk(Arg(true, f), st)
  {
  }

  lemma TwoArgs(args: seq<Arg>, st: Style)
    requires |args| == 2
    ensures PrintArgs(args, st) == PrintArg(args[0], st) + (", " + PrintArg(args[1], st))
  {
    hide PrintArg;
    assert args[1..] == [args[1]];
  }

  /** White space around a condition does not count, and nothing else stands for true. */
  lemma PaddedParses(env: Env, a: string, e: Expr, st: Style, b: string)
    requires Printable(e, st) && AllSpace(a) && AllSpace(b)
    ensures Parse(env, a + Print(e, st) + b) == Parse(env, Print(e, st))
    ensures Parse(env, a) == Ok(Lit(true))
  {
    hide Space, TrimSpace, PrintAt, POr, Tokens;
    PrintedEnds(e, 0, st);
    TrimSpaceOf(a, Print(e, st), b);
    TrimSpaceOf("", Print(e, st), "");
    assert "" + Print(e, st) + "" == Print(e, st);
    TrimSpaceOf(a, "", "");
    assert a + "" + "" == a;
  }

  // ---- what separates tokens, and what is no token ----

  lemma BlanksAreSkipped(c: char, s: string)
    requires c in " \t\n\r"
    ensures Tokens([c] + s) == Tokens(s)
  {
    assert ([c] + s)[1..] == s;
  }

  /** What may start a token or stands between two. */
  predicate Starts(c: char) {
    || c == ' ' || c == '\t' || c == '\n' || c == '\r' || c == '(' || c == ')' || c == ',' || c == '!' || c == '_'
    || c == '&' || c == '|' || c == '"' || c == '\'' || c == '+' || c == '-'
    || '0' <= c <= '9' || 'a' <= c <= 'z' || 'A' <= c <= 'Z'
  }

  /** A text fails to lex at its start exactly at a lone & or |, an open quote, or a character that starts nothing. */
  lemma FailsIff(s: string)
    requires s != ""
    ensures TurnAt(s).Fail? <==>
            || (s[0] == '&' && !(|s| > 1 && s[1] == '&'))
            || (s[0] == '|' && !(|s| > 1 && s[1] == '|'))
            || ((s[0] == '"' || s[0] == '\'') && ReadString(s[1..], s[0]) == None)
            || !Starts(s[0])
  {
    hide ReadString, Span, Tokens;
  }

  lemma FailureEnds(s: string)
    requires s != "" && TurnAt(s).Fail?
    ensures Tokens(s) == Err(TurnAt(s).error)
  {
    hide TurnAt;
  }
}
