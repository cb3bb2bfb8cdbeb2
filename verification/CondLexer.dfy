/** The tokenizer of the pipeline condition language (internal/pipeline/dsl/lex.go). */
module CondLexer {
  import opened Wrappers

  datatype Kind = EOF | Ident | Str | Number | LParen | RParen | Comma | AndOp | OrOp | NotOp

  datatype Tok = Tok(kind: Kind, text: string)

  datatype LexError = LoneAmpersand | LonePipe | Unterminated | Unexpected(c: char)

  type Lexed = Result<seq<Tok>, LexError>

  predicate Blank(c: char) { c == ' ' || c == '\t' || c == '\n' || c == '\r' }

  predicate Digit(c: char) { '0' <= c <= '9' }

  predicate IdentStart(c: char) { 'a' <= c <= 'z' || 'A' <= c <= 'Z' || c == '_' }

  predicate IdentPart(c: char) { IdentStart(c) || Digit(c) || c == '.' || c == '-' }

  predicate NumberPart(c: char) { Digit(c) || c == '.' }

  predicate IsIdent(s: string) { s != "" && IdentStart(s[0]) && forall i :: 0 <= i < |s| ==> IdentPart(s[i]) }

  // ---- tokens as a function of the text left ----

  /** How many characters of the class come first. */
  function Span(s: string, part: char -> bool): (n: nat)
    ensures n <= |s|
    ensures forall i :: 0 <= i < n ==> part(s[i])
    ensures n < |s| ==> !part(s[n])
  {
    if s != "" && part(s[0]) then 1 + Span(s[1..], part) else 0
  }

  /** A string's text up to its closing quote, a character behind a backslash taken as it is, and what follows. */
  function ReadString(s: string, quote: char): (r: Option<(string, string)>)
    ensures r.Some? ==> |r.value.1| < |s|
  {
    if s == "" then None
    else if s[0] == quote then Some(("", s[1..]))
    else
      var skip := if s[0] == '\\' && |s| > 1 then 2 else 1;
      var r := ReadString(s[skip..], quote);
      if r == None then None else Some(([s[skip - 1]] + r.value.0, r.value.1))
  }

  /** One turn of the lexer: white space, a token with the text behind it, or an error. */
  datatype Turn = Skip | Take(tok: Tok, size: nat) | Fail(error: LexError)

  function TurnAt(s: string): (t: Turn)
    requires s != ""
    ensures t.Take? ==> 0 < t.size <= |s| && t.tok.kind != EOF
  {
    var c := s[0];
    if Blank(c) then Skip
    else if c == '(' then Take(Tok(LParen, "("), 1)
    else if c == ')' then Take(Tok(RParen, ")"), 1)
    else if c == ',' then Take(Tok(Comma, ","), 1)
    else if c == '&' then (if |s| > 1 && s[1] == '&' then Take(Tok(AndOp, "&&"), 2) else Fail(LoneAmpersand))
    else if c == '|' then (if |s| > 1 && s[1] == '|' then Take(Tok(OrOp, "||"), 2) else Fail(LonePipe))
    else if c == '!' then Take(Tok(NotOp, "!"), 1)
    else if c == '"' || c == '\'' then
      var r := ReadString(s[1..], c);
      if r == None then Fail(Unterminated) else Take(Tok(Str, r.value.0), |s| - |r.value.1|)
    else if Digit(c) || c == '-' || c == '+' then
      var n := 1 + Span(s[1..], NumberPart);
      Take(Tok(Number, s[..n]), n)
    else if IdentStart(c) then
      var n := Span(s, IdentPart);
      Take(Tok(Ident, s[..n]), n)
    else Fail(Unexpected(c))
  }

  function Prepend(ts: seq<Tok>, r: Lexed): Lexed { if r.Err? then r else Ok(ts + r.value) }

  function Tokens(s: string): Lexed
    decreases |s|
  {
    if s == "" then Ok([Tok(EOF, "")])
    else
      match TurnAt(s)
      case Skip => Tokens(s[1..])
      case Take(t, n) => Prepend([t], Tokens(s[n..]))
      case Fail(e) => Err(e)
  }

  /** A token list ends in its only end token. */
  predicate Ended(ts: seq<Tok>) {
    ts != [] && ts[|ts| - 1].kind == EOF && forall i :: 0 <= i < |ts| - 1 ==> ts[i].kind != EOF
  }

  lemma {:induction false} TokensEnd(s: string)
    ensures Tokens(s).Ok? ==> Ended(Tokens(s).value)
    decreases |s|
  {
    hide TurnAt;
    if s != "" {
      match TurnAt(s)
      case Skip => TokensEnd(s[1..]);
      case Take(t, n) =>
        TurnIsNoEnd(s);
        TokensEnd(s[n..]);
      case Fail(_) =>
    }
  }

  lemma TurnIsNoEnd(s: string)
    requires s != ""
    ensures TurnAt(s).Take? ==> TurnAt(s).tok.kind != EOF
  {
  }

  // ---- the loop ----

  lemma PrependTwice(a: seq<Tok>, b: seq<Tok>, r: Lexed)
    ensures Prepend(a, Prepend(b, r)) == Prepend(a + b, r)
    ensures Prepend([], r) == r
  {
    if r.Ok? {
      assert a + (b + r.value) == a + b + r.value;
      assert [] + r.value == r.value;
    }
  }

  lemma AfterTurn(s: string, i: nat)
    requires i < |s|
    ensures match TurnAt(s[i..])
            case Skip => Tokens(s[i..]) == Tokens(s[i + 1..])
            case Take(t, n) => i + n <= |s| && Tokens(s[i..]) == Prepend([t], Tokens(s[i + n..]))
            case Fail(e) => Tokens(s[i..]) == Err(e)
  {
    hide TurnAt;
    var u := s[i..];
    assert u[1..] == s[i + 1..];
    if TurnAt(u).Take? {
      TurnSize(u);
      assert u[TurnAt(u).size..] == s[i + TurnAt(u).size..];
    }
  }

  lemma TurnSize(s: string)
    requires s != ""
    ensures TurnAt(s).Take? ==> 0 < TurnAt(s).size <= |s|
  {
  }

  /** The end of the run of characters that starts at i. */
  method SpanFrom(s: string, i: nat, part: char -> bool) returns (j: nat)
    requires i <= |s|
    ensures j == i + Span(s[i..], part) <= |s|
  {
    j := i;
    while j < |s| && part(s[j])
      invariant i <= j <= |s|
      invariant i + Span(s[i..], part) == j + Span(s[j..], part)
    {
      assert s[j..][1..] == s[j + 1..];
      j := j + 1;
    }
  }

  method StringFrom(s: string, i: nat, quote: char) returns (text: string, j: nat, ok: bool)
    requires i <= |s|
    ensures ok == ReadString(s[i..], quote).Some?
    ensures ok ==> j <= |s| && ReadString(s[i..], quote).value == (text, s[j..])
  {
    hide ReadString;
    text, j, ok := "", i, false;
    StringEnd(s, i, quote);
    while j < |s| && s[j] != quote
      invariant i <= j <= |s|
      invariant ReadString(s[i..], quote) == Behind(text, ReadString(s[j..], quote))
    {
      StringStep(s, j, quote, text);
      if s[j] == '\\' && j + 1 < |s| {
        text := text + [s[j + 1]];
        j := j + 2;
      } else {
        text := text + [s[j]];
        j := j + 1;
      }
    }
    StringEnd(s, j, quote);
    if j >= |s| {
      return;
    }
    j, ok := j + 1, true;
  }

  function Behind(text: string, r: Option<(string, string)>): Option<(string, string)> {
    if r == None then None else Some((text + r.value.0, r.value.1))
  }

  lemma StringStep(s: string, j: nat, quote: char, text: string)
    requires j < |s| && s[j] != quote
    ensures var skip := if s[j] == '\\' && j + 1 < |s| then 2 else 1;
            Behind(text, ReadString(s[j..], quote)) ==
            Behind(text + [s[j + skip - 1]], ReadString(s[j + skip..], quote))
  {
    var skip := if s[j] == '\\' && j + 1 < |s| then 2 else 1;
    assert s[j..][skip..] == s[j + skip..];
    var r := ReadString(s[j + skip..], quote);
    assert r.Some? ==> text + ([s[j + skip - 1]] + r.value.0) == text + [s[j + skip - 1]] + r.value.0;
  }

  lemma StringEnd(s: string, j: nat, quote: char)
    requires j <= |s|
    ensures Behind("", ReadString(s[j..], quote)) == ReadString(s[j..], quote)
    ensures j == |s| ==> ReadString(s[j..], quote) == None
    ensures j < |s| && s[j] == quote ==> ReadString(s[j..], quote) == Some(("", s[j + 1..]))
    ensures forall text :: text + "" == text
  {
    var r := ReadString(s[j..], quote);
    assert r.Some? ==> "" + r.value.0 == r.value.0;
    assert j < |s| ==> s[j..][1..] == s[j + 1..];
  }

  /** The turn at position i, read off the input. */
  method ReadTurn(input: string, i: nat) returns (turn: Turn)
    requires i < |input|
    ensures turn == TurnAt(input[i..])
  {
    hide ReadString, Span;
    var c := input[i];
    assert input[i..][1..] == input[i + 1..];
    if Blank(c) {
      return Skip;
    } else if c == '(' {
      return Take(Tok(LParen, "("), 1);
    } else if c == ')' {
      return Take(Tok(RParen, ")"), 1);
    } else if c == ',' {
      return Take(Tok(Comma, ","), 1);
    } else if c == '&' {
      if i + 1 < |input| && input[i + 1] == '&' {
        return Take(Tok(AndOp, "&&"), 2);
      }
      return Fail(LoneAmpersand);
    } else if c == '|' {
      if i + 1 < |input| && input[i + 1] == '|' {
        return Take(Tok(OrOp, "||"), 2);
      }
      return Fail(LonePipe);
    } else if c == '!' {
      return Take(Tok(NotOp, "!"), 1);
    } else if c == '"' || c == '\'' {
      var text, j, ok := StringFrom(input, i + 1, c);
      if !ok {
        return Fail(Unterminated);
      }
      return Take(Tok(Str, text), j - i);
    } else if Digit(c) || c == '-' || c == '+' {
      var j := SpanFrom(input, i + 1, NumberPart);
      assert input[i..][..j - i] == input[i..j];
      return Take(Tok(Number, input[i..j]), j - i);
    } else if IdentStart(c) {
      var j := SpanFrom(input, i, IdentPart);
      assert input[i..][..j - i] == input[i..j];
      return Take(Tok(Ident, input[i..j]), j - i);
    }
    return Fail(Unexpected(c));
  }

  method Lex(input: string) returns (r: Lexed)
    ensures r == Tokens(input)
    ensures r.Ok? ==> Ended(r.value)
  {
    hide Tokens, TurnAt;
    TokensEnd(input);
    var toks: seq<Tok> := [];
    var i := 0;
    assert input[0..] == input;
    PrependTwice([], [], Tokens(input));
    while i < |input|
      invariant 0 <= i <= |input|
      invariant Tokens(input) == Prepend(toks, Tokens(input[i..]))
    {
      AfterTurn(input, i);
      TurnSize(input[i..]);
      var turn := ReadTurn(input, i);
      match turn
      case Skip =>
        i := i + 1;
      case Take(tok, size) =>
        PrependTwice(toks, [tok], Tokens(input[i + size..]));
        toks, i := toks + [tok], i + size;
      case Fail(e) =>
        return Err(e);
    }
    assert input[i..] == "";
    TokensOfNothing();
    return Ok(toks + [Tok(EOF, "")]);
  }

  lemma TokensOfNothing()
    ensures Tokens("") == Ok([Tok(EOF, "")])
  {
  }
}
