/**
  * Pipeline conditions (internal/pipeline/dsl/dsl.go): a recursive-descent parser that builds a closure as it
  * goes. The trees here never exist in the program; they say what the closures mean.
  */
module CondDsl {
  import opened Wrappers
  import opened CondLexer
  import opened Text

  // ---- messages and what is foreign ----

  datatype Msg = Msg(body: string, source: string, stream: string, inputId: string, fields: map<string, string>)

  /** A message's attribute as a string: the promoted ones count as absent when empty. */
  function StringField(m: Msg, name: string): Option<string> {
    if name == "message" || name == "body" then (if m.body != "" then Some(m.body) else None)
    else if name == "source" then (if m.source != "" then Some(m.source) else None)
    else if name == "stream" then (if m.stream != "" then Some(m.stream) else None)
    else if name == "input_id" then (if m.inputId != "" then Some(m.inputId) else None)
    else if name in m.fields then Some(m.fields[name])
    else None
  }

  /** Regular expressions, CIDR blocks and number texts. */
  datatype Env = Env(
    regexOk: string -> bool,
    matches: (string, string) -> bool,
    cidrOk: string -> bool,
    inCidr: (string, string) -> bool,
    number: string -> Option<real>)

  // ---- trees and their meaning ----

  datatype Arg = Arg(ident: bool, text: string)

  datatype Expr =
    | Lit(value: bool)
    | Call(name: string, args: seq<Arg>)
    | Not(e: Expr)
    | And(l: Expr, r: Expr)
    | Or(l: Expr, r: Expr)

  datatype CondError =
    | LexFailed(lex: LexError)
    | UnexpectedToken(text: string)
    | ExpectedParen
    | ExpectedFunction(text: string)
    | ExpectedOpen
    | UnexpectedArgument(text: string)
    | ExpectedCommaOrParen
    | WrongCount(name: string, want: nat, got: nat)
    | BadPattern(text: string)
    | BadCidr(text: string)
    | BadNumber(text: string)
    | UnknownFunction(name: string)

  predicate Comparison(name: string) { name == "gt" || name == "lt" || name == "gte" || name == "lte" }

  /** The number of arguments each function takes. */
  function Arity(name: string): Option<nat> {
    if name == "has" then Some(1)
    else if name in {"eq", "neq", "contains", "regex", "cidr"} || Comparison(name) then Some(2)
    else None
  }

  /** Why a call cannot be compiled, if it cannot. */
  function CallError(env: Env, name: string, args: seq<Arg>): Option<CondError> {
    var arity := Arity(name);
    if arity == None then Some(UnknownFunction(name))
    else if |args| != arity.value then Some(WrongCount(name, arity.value, |args|))
    else if name == "regex" && !env.regexOk(args[1].text) then Some(BadPattern(args[1].text))
    else if name == "cidr" && !env.cidrOk(args[1].text) then Some(BadCidr(args[1].text))
    else if Comparison(name) && env.number(args[1].text) == None then Some(BadNumber(args[1].text))
    else None
  }

  function NumberField(env: Env, m: Msg, name: string): Option<real> {
    var v := StringField(m, name);
    if v == None then None else env.number(v.value)
  }

  predicate Contains(s: string, sub: string) { sub <= s || (s != "" && Contains(s[1..], sub)) }

  predicate CallMeaning(env: Env, name: string, args: seq<Arg>, m: Msg)
    requires CallError(env, name, args) == None
  {
    var v := StringField(m, args[0].text);
    if name == "has" then v.Some?
    else
      var want := args[1].text;
      match name
      case "eq" => v == Some(want)
      case "neq" => v != Some(want)
      case "contains" => v.Some? && Contains(v.value, want)
      case "regex" => v.Some? && env.matches(want, v.value)
      case "cidr" => v.Some? && env.inCidr(want, v.value)
      case _ =>
        var x, y := NumberField(env, m, args[0].text), env.number(want).value;
        x.Some? && match name
                   case "gt" => x.value > y
                   case "lt" => x.value < y
                   case "gte" => x.value >= y
                   case _ => x.value <= y
  }

  predicate Buildable(env: Env, e: Expr) {
    match e
    case Lit(_) => true
    case Call(name, args) => CallError(env, name, args) == None
    case Not(a) => Buildable(env, a)
    case And(a, b) => Buildable(env, a) && Buildable(env, b)
    case Or(a, b) => Buildable(env, a) && Buildable(env, b)
  }

  predicate Meaning(env: Env, e: Expr, m: Msg)
    requires Buildable(env, e)
  {
    match e
    case Lit(b) => b
    case Call(name, args) => CallMeaning(env, name, args, m)
    case Not(a) => !Meaning(env, a, m)
    case And(a, b) => Meaning(env, a, m) && Meaning(env, b, m)
    case Or(a, b) => Meaning(env, a, m) || Meaning(env, b, m)
  }

  // ---- the parser as functions of the tokens left ----

  type Parsed = Result<(Expr, seq<Tok>), CondError>

  function POr(env: Env, ts: seq<Tok>): (r: Parsed)
    requires Ended(ts)
    ensures r.Ok? ==> Ended(r.value.1) && |r.value.1| < |ts| && Buildable(env, r.value.0)
    decreases |ts|, 4
  {
    var l :- PAnd(env, ts);
    POrRest(env, l.0, l.1)
  }

  function POrRest(env: Env, left: Expr, ts: seq<Tok>): (r: Parsed)
    requires Ended(ts) && Buildable(env, left)
    ensures r.Ok? ==> Ended(r.value.1) && |r.value.1| <= |ts| && Buildable(env, r.value.0)
    decreases |ts|, 3
  {
    if ts[0].kind != OrOp then Ok((left, ts))
    else
      var r :- PAnd(env, ts[1..]);
      POrRest(env, Or(left, r.0), r.1)
  }

  function PAnd(env: Env, ts: seq<Tok>): (r: Parsed)
    requires Ended(ts)
    ensures r.Ok? ==> Ended(r.value.1) && |r.value.1| < |ts| && Buildable(env, r.value.0)
    decreases |ts|, 2
  {
    var l :- PUnary(env, ts);
    PAndRest(env, l.0, l.1)
  }

  function PAndRest(env: Env, left: Expr, ts: seq<Tok>): (r: Parsed)
    requires Ended(ts) && Buildable(env, left)
    ensures r.Ok? ==> Ended(r.value.1) && |r.value.1| <= |ts| && Buildable(env, r.value.0)
    decreases |ts|, 1
  {
    if ts[0].kind != AndOp then Ok((left, ts))
    else
      var r :- PUnary(env, ts[1..]);
      PAndRest(env, And(left, r.0), r.1)
  }

  function PUnary(env: Env, ts: seq<Tok>): (r: Parsed)
    requires Ended(ts)
    ensures r.Ok? ==> Ended(r.value.1) && |r.value.1| < |ts| && Buildable(env, r.value.0)
    decreases |ts|, 1
  {
    if ts[0].kind == NotOp then
      var a :- PUnary(env, ts[1..]);
      Ok((Not(a.0), a.1))
    else if ts[0].kind == LParen then
      var a :- POr(env, ts[1..]);
      if a.1[0].kind != RParen then Err(ExpectedParen) else Ok((a.0, a.1[1..]))
    else PCall(env, ts)
  }

  function PCall(env: Env, ts: seq<Tok>): (r: Parsed)
    requires Ended(ts)
    ensures r.Ok? ==> Ended(r.value.1) && |r.value.1| < |ts| && Buildable(env, r.value.0)
  {
    if ts[0].kind != Ident then Err(ExpectedFunction(ts[0].text))
    else
      var name, rest := ts[0].text, ts[1..];
      if name == "true" then Ok((Lit(true), rest))
      else if name == "false" then Ok((Lit(false), rest))
      else if rest[0].kind != LParen then Err(ExpectedOpen)
      else
        var a :- PArgs(rest[1..]);
        var error := CallError(env, name, a.0);
        if error.Some? then Err(error.value) else Ok((Call(name, a.0), a.1))
  }

  /** Arguments up to the closing parenthesis; a comma may stand in front of it. */
  function PArgs(ts: seq<Tok>): (r: Result<(seq<Arg>, seq<Tok>), CondError>)
    requires Ended(ts)
    ensures r.Ok? ==> Ended(r.value.1) && |r.value.1| < |ts|
    decreases |ts|
  {
    var t := ts[0];
    if t.kind == RParen then Ok(([], ts[1..]))
    else if t.kind != Ident && t.kind != Str && t.kind != Number then Err(UnexpectedArgument(t.text))
    else
      var u := ts[1..];
      if u[0].kind != Comma && u[0].kind != RParen then Err(ExpectedCommaOrParen)
      else
        var more :- PArgs(if u[0].kind == Comma then u[1..] else u);
        Ok(([Arg(t.kind == Ident, t.text)] + more.0, more.1))
  }

  /** The whole condition. */
  function ParseTokens(env: Env, ts: seq<Tok>): (r: Result<Expr, CondError>)
    requires Ended(ts)
    ensures r.Ok? ==> Buildable(env, r.value)
  {
    var e :- POr(env, ts);
    if e.1[0].kind != EOF then Err(UnexpectedToken(e.1[0].text)) else Ok(e.0)
  }

  // ---- the parser that builds closures ----

  type Cond = Msg -> bool

  /** A closure that holds of just the messages the tree is true of. */
  ghost predicate Denotes(env: Env, c: Cond, e: Expr) {
    Buildable(env, e) && forall m :: c(m) == Meaning(env, e, m)
  }

  ghost predicate Agrees(env: Env, r: Result<Cond, CondError>, p: Result<Expr, CondError>) {
    match p
    case Err(e) => r == Err(e)
    case Ok(e) => r.Ok? && Denotes(env, r.value, e)
  }

  ghost predicate BuiltCall(env: Env, name: string, args: seq<Arg>, r: Result<Cond, CondError>) {
    var error := CallError(env, name, args);
    if error.Some? then r == Err(error.value)
    else r.Ok? && forall m :: r.value(m) == CallMeaning(env, name, args, m)
  }

  method BuildCond(env: Env, name: string, args: seq<Arg>) returns (r: Result<Cond, CondError>)
    ensures BuiltCall(env, name, args, r)
  {
    hide StringField, Contains;
    match name
    case "has" =>
      if |args| != 1 {
        return Err(WrongCount(name, 1, |args|));
      }
      var f := args[0].text;
      return Ok(m => StringField(m, f).Some?);
    case "eq" | "neq" =>
      if |args| != 2 {
        return Err(WrongCount(name, 2, |args|));
      }
      var f, want, neg := args[0].text, args[1].text, name == "neq";
      return Ok(m => var v := StringField(m, f); (v.Some? && v.value == want) != neg);
    case "contains" =>
      if |args| != 2 {
        return Err(WrongCount(name, 2, |args|));
      }
      var f, sub := args[0].text, args[1].text;
      return Ok(m => var v := StringField(m, f); v.Some? && Contains(v.value, sub));
    case "regex" =>
      if |args| != 2 {
        return Err(WrongCount(name, 2, |args|));
      }
      var f, pattern := args[0].text, args[1].text;
      if !env.regexOk(pattern) {
        return Err(BadPattern(pattern));
      }
      return Ok(m => var v := StringField(m, f); v.Some? && env.matches(pattern, v.value));
    case "cidr" =>
      if |args| != 2 {
        return Err(WrongCount(name, 2, |args|));
      }
      var f, block := args[0].text, args[1].text;
      if !env.cidrOk(block) {
        return Err(BadCidr(block));
      }
      return Ok(m => var v := StringField(m, f); v.Some? && env.inCidr(block, v.value));
    case "gt" | "lt" | "gte" | "lte" =>
      r := BuildComparison(env, name, args);
    case _ =>
      return Err(UnknownFunction(name));
  }

  method BuildComparison(env: Env, op: string, args: seq<Arg>) returns (r: Result<Cond, CondError>)
    requires Comparison(op)
    ensures BuiltCall(env, op, args, r)
  {
    hide StringField;
    if |args| != 2 {
      return Err(WrongCount(op, 2, |args|));
    }
    var f, want := args[0].text, env.number(args[1].text);
    if want == None {
      return Err(BadNumber(args[1].text));
    }
    return Ok(m =>
      var v := NumberField(env, m, f);
      if v == None then false
      else if op == "gt" then v.value > want.value
      else if op == "lt" then v.value < want.value
      else if op == "gte" then v.value >= want.value
      else v.value <= want.value);
  }

  class CondParser {
    const env: Env
    const toks: seq<Tok>
    var pos: nat

    constructor (env: Env, toks: seq<Tok>)
      requires Ended(toks)
      ensures Valid() && this.env == env && this.toks == toks && pos == 0
    {
      this.env, this.toks, pos := env, toks, 0;
    }

    ghost predicate Valid()
      reads this
    {
      Ended(toks) && pos < |toks|
    }

    /** The tokens not read yet: never none, so peeking never runs past the end token. */
    ghost function Left(): (ts: seq<Tok>)
      requires Valid()
      reads this
      ensures Ended(ts) && ts == toks[pos..]
    {
      EndedSuffix(toks, pos);
      toks[pos..]
    }

    ghost predicate Parsed(r: Result<Cond, CondError>, p: Parsed)
      reads this
    {
      match p
      case Err(e) => r == Err(e)
      case Ok((e, rest)) => Valid() && toks[pos..] == rest && r.Ok? && Denotes(env, r.value, e)
    }

    function Peek(): (t: Tok)
      requires Valid()
      reads this
      ensures t == Left()[0]
    {
      toks[pos]
    }

    method Next() returns (t: Tok)
      requires Valid()
      modifies this
      ensures t == old(Left()[0]) && pos == old(pos) + 1
      ensures t.kind != EOF ==> Valid() && Left() == old(Left())[1..]
    {
      t := toks[pos];
      pos := pos + 1;
    }

    method ParseOr() returns (r: Result<Cond, CondError>)
      requires Valid()
      modifies this
      ensures Parsed(r, POr(env, old(Left())))
      decreases |toks| - pos, 3
    {
      hide PAnd, Ended;
      ghost var ts := Left();
      var left :- ParseAnd();
      ghost var l := PAnd(env, ts).value.0;
      while Peek().kind == OrOp
        invariant Valid() && |Left()| < |ts|
        invariant Denotes(env, left, l)
        invariant POr(env, ts) == POrRest(env, l, Left())
        decreases |toks| - pos
      {
        ghost var more := Left();
        var _ := Next();
        var right :- ParseAnd();
        left := Either(env, left, right, l, PAnd(env, more[1..]).value.0);
        l := Or(l, PAnd(env, more[1..]).value.0);
      }
      return Ok(left);
    }

    method ParseAnd() returns (r: Result<Cond, CondError>)
      requires Valid()
      modifies this
      ensures Parsed(r, PAnd(env, old(Left())))
      decreases |toks| - pos, 2
    {
      hide PUnary, Ended;
      ghost var ts := Left();
      var left :- ParseUnary();
      ghost var l := PUnary(env, ts).value.0;
      while Peek().kind == AndOp
        invariant Valid() && |Left()| < |ts|
        invariant Denotes(env, left, l)
        invariant PAnd(env, ts) == PAndRest(env, l, Left())
        decreases |toks| - pos
      {
        ghost var more := Left();
        var _ := Next();
        var right :- ParseUnary();
        left := Both(env, left, right, l, PUnary(env, more[1..]).value.0);
        l := And(l, PUnary(env, more[1..]).value.0);
      }
      return Ok(left);
    }

    method ParseUnary() returns (r: Result<Cond, CondError>)
      requires Valid()
      modifies this
      ensures Parsed(r, PUnary(env, old(Left())))
      decreases |toks| - pos, 1
    {
      hide POr, PCall, Ended;
      ghost var ts := Left();
      if Peek().kind == NotOp {
        var _ := Next();
        var c :- ParseUnary();
        return Ok(m => !c(m));
      }
      if Peek().kind == LParen {
        var _ := Next();
        var c :- ParseOr();
        if Peek().kind != RParen {
          return Err(ExpectedParen);
        }
        var _ := Next();
        return Ok(c);
      }
      r := ParseCall();
    }

    method ParseCall() returns (r: Result<Cond, CondError>)
      requires Valid()
      modifies this
      ensures Parsed(r, PCall(env, old(Left())))
      decreases |toks| - pos, 0
    {
      hide PArgs, Ended, CallError, CallMeaning;
      if Peek().kind != Ident {
        return Err(ExpectedFunction(Peek().text));
      }
      var t := Next();
      var name := t.text;
      if name == "true" {
        return Ok(m => true);
      }
      if name == "false" {
        return Ok(m => false);
      }
      var args :- ParseArgs();
      r := BuildCond(env, name, args);
    }

    method ParseArgs() returns (r: Result<seq<Arg>, CondError>)
      requires Valid()
      modifies this
      ensures old(Left())[0].kind != LParen ==> r == Err(ExpectedOpen)
      ensures old(Left())[0].kind == LParen ==>
                match PArgs(old(Left())[1..])
                case Err(e) => r == Err(e)
                case Ok((args, rest)) => r == Ok(args) && Valid() && Left() == rest
    {
      hide Ended;
      if Peek().kind != LParen {
        return Err(ExpectedOpen);
      }
      var _ := Next();
      ghost var ts := Left();
      var args: seq<Arg> := [];
      AppendNothing(args, PArgs(ts));
      while Peek().kind != RParen
        invariant Valid()
        invariant PArgs(ts) == Append(args, PArgs(Left()))
        decreases |toks| - pos
      {
        ghost var at := Left();
        var t := Next();
        if t.kind != Ident && t.kind != Str && t.kind != Number {
          return Err(UnexpectedArgument(t.text));
        }
        ghost var before := args;
        args := args + [Arg(t.kind == Ident, t.text)];
        if Peek().kind == Comma {
          var _ := Next();
        } else if Peek().kind != RParen {
          return Err(ExpectedCommaOrParen);
        }
        AppendMore(before, args[|before|], PArgs(Left()));
      }
      AppendNothing(args, PArgs(Left()));
      var _ := Next();
      return Ok(args);
    }
  }

  lemma EndedSuffix(ts: seq<Tok>, i: nat)
    requires Ended(ts) && i < |ts|
    ensures Ended(ts[i..])
  {
  }

  function Append(args: seq<Arg>, r: Result<(seq<Arg>, seq<Tok>), CondError>): Result<(seq<Arg>, seq<Tok>), CondError> {
    if r.Err? then r else Ok((args + r.value.0, r.value.1))
  }

  lemma AppendNothing(args: seq<Arg>, r: Result<(seq<Arg>, seq<Tok>), CondError>)
    ensures Append([], r) == r
    ensures r.Ok? && r.value.0 == [] ==> Append(args, r) == Ok((args, r.value.1))
  {
    assert r.Ok? ==> [] + r.value.0 == r.value.0;
    assert args + [] == args;
  }

  lemma AppendMore(args: seq<Arg>, a: Arg, r: Result<(seq<Arg>, seq<Tok>), CondError>)
    ensures Append(args, Append([a], r)) == Append(args + [a], r)
  {
    if r.Ok? {
      assert args + ([a] + r.value.0) == args + [a] + r.value.0;
    }
  }

  method Either(env: Env, l: Cond, r: Cond, ghost a: Expr, ghost b: Expr) returns (c: Cond)
    requires Denotes(env, l, a) && Denotes(env, r, b)
    ensures Denotes(env, c, Or(a, b))
  {
    c := m => l(m) || r(m);
  }

  method Both(env: Env, l: Cond, r: Cond, ghost a: Expr, ghost b: Expr) returns (c: Cond)
    requires Denotes(env, l, a) && Denotes(env, r, b)
    ensures Denotes(env, c, And(a, b))
  {
    c := m => l(m) && r(m);
  }

  // ---- compiling a condition ----

  /** The tree a condition text stands for; nothing at all stands for true. */
  function Parse(env: Env, input: string): (r: Result<Expr, CondError>)
    ensures r.Ok? ==> Buildable(env, r.value)
  {
    var s := TrimSpace(input);
    if s == "" || s == "true" then Ok(Lit(true))
    else
      TokensEnd(s);
      match Tokens(s)
      case Err(e) => Err(LexFailed(e))
      case Ok(ts) => ParseTokens(env, ts)
  }

  /** The closure computes the meaning of the text's tree on every message, and fails with the parser's error. */
  method CompileCondition(env: Env, input: string) returns (r: Result<Cond, CondError>)
    ensures Agrees(env, r, Parse(env, input))
  {
    hide TrimSpace, Tokens, POr, Ended;
    var s := TrimSpace(input);
    if s == "" || s == "true" {
      return Ok(m => true);
    }
    var lexed := Lex(s);
    if lexed.Err? {
      return Err(LexFailed(lexed.error));
    }
    var p := new CondParser(env, lexed.value);
    assert p.Left() == lexed.value;
    var c :- p.ParseOr();
    if p.Peek().kind != EOF {
      return Err(UnexpectedToken(p.Peek().text));
    }
    return Ok(c);
  }
}
