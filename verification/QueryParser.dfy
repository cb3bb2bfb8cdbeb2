/** The recursive-descent parser: what each parse function computes, and the parser that computes it. */
module QueryParser {
  import opened Wrappers
  import opened QueryAst
  import opened QueryLexer

  datatype Error =
    | Lexical(lexError: LexError)
    | UnexpectedToken(text: string)
    | ExpectedTerm(text: string)
    | ExpectedClose
    | ExpectedValueAfter(field: string)
    | ExpectedValue(text: string)
    | ExpectedTo
    | ExpectedRangeEnd

  /** A node and the position after it, or a syntax error. */
  type Parsed = Result<(Node, nat), Error>

  /** A parse from pos that succeeds has moved forward and has not consumed the end token. */
  predicate Advanced(toks: seq<Token>, pos: nat, r: Parsed) {
    r.Ok? ==> pos < r.value.1 < |toks|
  }

  predicate IsValue(k: Kind) { k == TWord || k == TQuoted }

  predicate IsCompare(k: Kind) { k == TGt || k == TLt || k == TGte || k == TLte }

  /** Tokens that end a conjunction. */
  predicate EndsAnd(k: Kind) {
    k == TOr || k == TRParen || k == TEof || k == TTo || k == TRBracket || k == TRBrace
  }

  // ---- what the parser computes ----

  function POr(toks: seq<Token>, pos: nat): (r: Parsed)
    requires EndsOnce(toks) && pos < |toks|
    ensures Advanced(toks, pos, r)
    decreases |toks| - pos, 5
  {
    var (left, p) :- PAnd(toks, pos);
    OrLoop(toks, p, left)
  }

  function OrLoop(toks: seq<Token>, pos: nat, left: Node): (r: Parsed)
    requires EndsOnce(toks) && pos < |toks|
    ensures r.Ok? ==> pos <= r.value.1 < |toks|
    decreases |toks| - pos, 4
  {
    if toks[pos].kind != TOr then Ok((left, pos))
    else
      var (right, p) :- PAnd(toks, pos + 1);
      OrLoop(toks, p, Or(left, right))
  }

  function PAnd(toks: seq<Token>, pos: nat): (r: Parsed)
    requires EndsOnce(toks) && pos < |toks|
    ensures Advanced(toks, pos, r)
    decreases |toks| - pos, 3
  {
    var (left, p) :- PUnary(toks, pos);
    AndLoop(toks, p, left)
  }

  function AndLoop(toks: seq<Token>, pos: nat, left: Node): (r: Parsed)
    requires EndsOnce(toks) && pos < |toks|
    ensures r.Ok? ==> pos <= r.value.1 < |toks|
    decreases |toks| - pos, 2
  {
    if EndsAnd(toks[pos].kind) then Ok((left, pos))
    else
      var (right, p) :- PUnary(toks, if toks[pos].kind == TAnd then pos + 1 else pos);
      AndLoop(toks, p, And(left, right))
  }

  function PUnary(toks: seq<Token>, pos: nat): (r: Parsed)
    requires EndsOnce(toks) && pos < |toks|
    ensures Advanced(toks, pos, r)
    decreases |toks| - pos, 1
  {
    if toks[pos].kind == TNot then
      var (e, p) :- PUnary(toks, pos + 1);
      Ok((Not(e), p))
    else PPrimary(toks, pos)
  }

  function PPrimary(toks: seq<Token>, pos: nat): (r: Parsed)
    requires EndsOnce(toks) && pos < |toks|
    ensures Advanced(toks, pos, r)
    decreases |toks| - pos, 0
  {
    if toks[pos].kind == TLParen then
      var (n, p) :- POr(toks, pos + 1);
      if toks[p].kind != TRParen then Err(ExpectedClose) else Ok((n, p + 1))
    else PClause(toks, pos)
  }

  function PClause(toks: seq<Token>, pos: nat): (r: Parsed)
    requires EndsOnce(toks) && pos < |toks|
    ensures Advanced(toks, pos, r)
  {
    var head := toks[pos];
    if !IsValue(head.kind) then Err(ExpectedTerm(head.text))
    else if toks[pos + 1].kind == TColon then PFieldValue(toks, pos + 2, head.text)
    else Ok((Term(head.text, head.kind == TQuoted), pos + 1))
  }

  function PFieldValue(toks: seq<Token>, pos: nat, field: string): (r: Parsed)
    requires EndsOnce(toks) && pos < |toks|
    ensures Advanced(toks, pos, r)
  {
    var t := toks[pos];
    if t.kind == TLBracket || t.kind == TLBrace then PRange(toks, pos, field)
    else if IsCompare(t.kind) then
      var (v, p) :- PValueToken(toks, pos + 1);
      Ok((FieldCompare(field, t.text, v), p))
    else if IsValue(t.kind) then
      Ok((if field == EXISTS then FieldExists(t.text) else FieldEq(field, t.text), pos + 1))
    else Err(ExpectedValueAfter(field))
  }

  function PValueToken(toks: seq<Token>, pos: nat): (r: Result<(string, nat), Error>)
    requires EndsOnce(toks) && pos < |toks|
    ensures r.Ok? ==> r.value.1 == pos + 1 < |toks|
  {
    if !IsValue(toks[pos].kind) then Err(ExpectedValue(toks[pos].text)) else Ok((toks[pos].text, pos + 1))
  }

  function PRange(toks: seq<Token>, pos: nat, field: string): (r: Parsed)
    requires EndsOnce(toks) && pos < |toks|
    requires toks[pos].kind == TLBracket || toks[pos].kind == TLBrace
    ensures Advanced(toks, pos, r)
  {
    var (lo, p) :- PValueToken(toks, pos + 1);
    if toks[p].kind != TTo then Err(ExpectedTo)
    else
      var (hi, q) :- PValueToken(toks, p + 1);
      if toks[q].kind != TRBracket && toks[q].kind != TRBrace then Err(ExpectedRangeEnd)
      else Ok((FieldRange(field, lo, hi, toks[pos].kind == TLBracket, toks[q].kind == TRBracket), q + 1))
  }

  /** The whole token list must be one query; an empty list matches everything. */
  function ParseTokens(toks: seq<Token>): Result<Node, Error>
    requires EndsOnce(toks)
  {
    if toks[0].kind == TEof then Ok(MatchAll)
    else
      var (n, p) :- POr(toks, 0);
      if toks[p].kind != TEof then Err(UnexpectedToken(toks[p].text)) else Ok(n)
  }

  function ParseQuery(input: string): Result<Node, Error> {
    match Tokens(input)
    case Err(e) => Err(Lexical(e))
    case Ok(toks) =>
      TokensAreWellLexed(input);
      ParseTokens(toks)
  }

  // ---- the parser ----

  /** The parser's state: the tokens and a position that only moves forward. */
  class Parser {
    const toks: seq<Token>
    var pos: nat

    constructor (toks: seq<Token>)
      requires EndsOnce(toks)
      ensures Valid() && pos == 0 && this.toks == toks
    {
      this.toks := toks;
      pos := 0;
    }

    /** The position is on a token: peeking never runs past the end token. */
    ghost predicate Valid()
      reads this
    {
      EndsOnce(toks) && pos < |toks|
    }

    function Peek(): Token
      requires Valid()
      reads this
    {
      toks[pos]
    }

    /** Takes a token; only the end of a range may take the end token, and then fails without peeking again. */
    method Next() returns (t: Token)
      requires Valid()
      modifies this
      ensures pos == old(pos) + 1 && t == toks[old(pos)]
    {
      t := toks[pos];
      pos := pos + 1;
    }

    /** A method result agrees with the function: same node and position, or the same error. */
    static ghost predicate Agrees(r: Result<Node, Error>, pos: nat, spec: Parsed) {
      match spec
      case Ok((n, p)) => r == Ok(n) && pos == p
      case Err(e) => r == Err(e)
    }

    method ParseOr() returns (r: Result<Node, Error>)
      requires Valid()
      modifies this
      ensures Agrees(r, pos, POr(toks, old(pos)))
      decreases |toks| - pos, 5
    {
      r := ParseAnd();
      if r.Err? {
        return;
      }
      var left := r.value;
      while Peek().kind == TOr
        invariant Valid() && old(pos) < pos
        invariant POr(toks, old(pos)) == OrLoop(toks, pos, left)
        decreases |toks| - pos
      {
        var _ := Next();
        r := ParseAnd();
        if r.Err? {
          return;
        }
        left := Or(left, r.value);
      }
      r := Ok(left);
    }

    method ParseAnd() returns (r: Result<Node, Error>)
      requires Valid()
      modifies this
      ensures Agrees(r, pos, PAnd(toks, old(pos)))
      decreases |toks| - pos, 3
    {
      r := ParseUnary();
      if r.Err? {
        return;
      }
      var left := r.value;
      while !EndsAnd(Peek().kind)
        invariant Valid() && old(pos) < pos
        invariant PAnd(toks, old(pos)) == AndLoop(toks, pos, left)
        decreases |toks| - pos
      {
        if Peek().kind == TAnd {
          var _ := Next();
        }
        r := ParseUnary();
        if r.Err? {
          return;
        }
        left := And(left, r.value);
      }
      r := Ok(left);
    }

    method ParseUnary() returns (r: Result<Node, Error>)
      requires Valid()
      modifies this
      ensures Agrees(r, pos, PUnary(toks, old(pos)))
      decreases |toks| - pos, 1
    {
      if Peek().kind == TNot {
        var _ := Next();
        r := ParseUnary();
        if r.Ok? {
          r := Ok(Not(r.value));
        }
      } else {
        r := ParsePrimary();
      }
    }

    method ParsePrimary() returns (r: Result<Node, Error>)
      requires Valid()
      modifies this
      ensures Agrees(r, pos, PPrimary(toks, old(pos)))
      decreases |toks| - pos, 0
    {
      if Peek().kind == TLParen {
        var _ := Next();
        r := ParseOr();
        if r.Err? {
          return;
        }
        if Peek().kind != TRParen {
          return Err(ExpectedClose);
        }
        var _ := Next();
      } else {
        r := ParseClause();
      }
    }

    method ParseClause() returns (r: Result<Node, Error>)
      requires Valid()
      modifies this
      ensures Agrees(r, pos, PClause(toks, old(pos)))
    {
      var head := Peek();
      if !IsValue(head.kind) {
        return Err(ExpectedTerm(head.text));
      }
      var _ := Next();
      if Peek().kind == TColon {
        var _ := Next();
        r := ParseFieldValue(head.text);
      } else {
        r := Ok(Term(head.text, head.kind == TQuoted));
      }
    }

    method ParseFieldValue(field: string) returns (r: Result<Node, Error>)
      requires Valid()
      modifies this
      ensures Agrees(r, pos, PFieldValue(toks, old(pos), field))
    {
      var kind := Peek().kind;
      if kind == TLBracket || kind == TLBrace {
        r := ParseRange(field);
      } else if IsCompare(kind) {
        var op := Next();
        var v := ParseValueToken();
        r := if v.Err? then Err(v.error) else Ok(FieldCompare(field, op.text, v.value));
      } else if IsValue(kind) {
        var v := Next();
        r := if field == EXISTS then Ok(FieldExists(v.text)) else Ok(FieldEq(field, v.text));
      } else {
        r := Err(ExpectedValueAfter(field));
      }
    }

    method ParseValueToken() returns (r: Result<string, Error>)
      requires Valid()
      modifies this
      ensures match PValueToken(toks, old(pos))
              case Ok((v, p)) => r == Ok(v) && pos == p
              case Err(e) => r == Err(e)
    {
      var t := Peek();
      if !IsValue(t.kind) {
        return Err(ExpectedValue(t.text));
      }
      var _ := Next();
      r := Ok(t.text);
    }

    method ParseRange(field: string) returns (r: Result<Node, Error>)
      requires Valid() && (Peek().kind == TLBracket || Peek().kind == TLBrace)
      modifies this
      ensures Agrees(r, pos, PRange(toks, old(pos), field))
    {
      var open := Next();
      var lo := ParseValueToken();
      if lo.Err? {
        return Err(lo.error);
      }
      if Peek().kind != TTo {
        return Err(ExpectedTo);
      }
      var _ := Next();
      var hi := ParseValueToken();
      if hi.Err? {
        return Err(hi.error);
      }
      var close := Next();
      if close.kind != TRBracket && close.kind != TRBrace {
        return Err(ExpectedRangeEnd);
      }
      r := Ok(FieldRange(field, lo.value, hi.value, open.kind == TLBracket, close.kind == TRBracket));
    }
  }

  /** Turns a query string into a tree, or reports the first error. */
  method Parse(input: string) returns (r: Result<Node, Error>)
    ensures r == ParseQuery(input)
  {
    var lexed := Lex(input);
    if lexed.Err? {
      return Err(Lexical(lexed.error));
    }
    TokensAreWellLexed(input);
    var p := new Parser(lexed.value);
    if p.Peek().kind == TEof {
      return Ok(MatchAll);
    }
    r := p.ParseOr();
    if r.Err? {
      return;
    }
    if p.Peek().kind != TEof {
      return Err(UnexpectedToken(p.Peek().text));
    }
  }
}
