/** The tokenizer of the query language. */
module QueryLexer {
  import opened Wrappers

  datatype Kind =
    | TEof | TWord | TQuoted | TColon
    | TLParen | TRParen | TLBracket | TRBracket | TLBrace | TRBrace
    | TAnd | TOr | TNot | TTo
    | TGt | TLt | TGte | TLte

  datatype Token = Token(kind: Kind, text: string)

  datatype LexError = UnterminatedQuote

  const EOF := Token(TEof, "")

  predicate IsSpace(c: char) { c == ' ' || c == '\t' || c == '\n' || c == '\r' }

  /** Does c end a bare word? */
  predicate IsStop(c: char) {
    IsSpace(c) || c == '(' || c == ')' || c == '[' || c == ']' || c == '{' || c == '}'
    || c == ':' || c == '\"' || c == '<' || c == '>'
  }

  // ---- what a token is ----

  /** The text and length of a quoted string, read after its opening quote; a backslash takes the next character. */
  function Unquote(s: string): (r: Option<(string, nat)>)
    ensures r.Some? ==> 0 < r.value.1 <= |s|
  {
    if s == [] then None
    else if s[0] == '\"' then Some(("", 1))
    else if s[0] == '\\' && |s| > 1 then
      match Unquote(s[2..])
      case None => None
      case Some((text, n)) => Some(([s[1]] + text, 2 + n))
    else
      match Unquote(s[1..])
      case None => None
      case Some((text, n)) => Some(([s[0]] + text, 1 + n))
  }

  /** How many leading characters belong to a bare word. */
  function WordLen(s: string): (n: nat)
    ensures n <= |s|
    ensures forall i :: 0 <= i < n ==> !IsStop(s[i])
    ensures n < |s| ==> IsStop(s[n])
  {
    if s == [] || IsStop(s[0]) then 0 else 1 + WordLen(s[1..])
  }

  function WordToken(word: string): Token {
    if word == "AND" then Token(TAnd, word)
    else if word == "OR" then Token(TOr, word)
    else if word == "NOT" then Token(TNot, word)
    else if word == "TO" then Token(TTo, word)
    else Token(TWord, word)
  }

  /** The next lexeme of a non-empty input: skipped space, a token with its length, or an error. */
  datatype Lexeme = Space | Lexeme(token: Token, len: nat) | Bad

  function Single(c: char): Option<Kind> {
    if c == '(' then Some(TLParen)
    else if c == ')' then Some(TRParen)
    else if c == '[' then Some(TLBracket)
    else if c == ']' then Some(TRBracket)
    else if c == '{' then Some(TLBrace)
    else if c == '}' then Some(TRBrace)
    else if c == ':' then Some(TColon)
    else None
  }

  function NextLexeme(s: string): (l: Lexeme)
    requires s != []
    ensures l.Lexeme? ==> 0 < l.len <= |s|
  {
    var c := s[0];
    if IsSpace(c) then Space
    else if Single(c).Some? then Lexeme(Token(Single(c).value, [c]), 1)
    else if c == '>' then
      if |s| > 1 && s[1] == '=' then Lexeme(Token(TGte, ">="), 2) else Lexeme(Token(TGt, ">"), 1)
    else if c == '<' then
      if |s| > 1 && s[1] == '=' then Lexeme(Token(TLte, "<="), 2) else Lexeme(Token(TLt, "<"), 1)
    else if c == '\"' then
      match Unquote(s[1..])
      case None => Bad
      case Some((text, n)) => Lexeme(Token(TQuoted, text), n + 1)
    else Lexeme(WordToken(s[..WordLen(s)]), WordLen(s))
  }

  function Tokens(s: string): Result<seq<Token>, LexError> {
    if s == [] then Ok([EOF])
    else
      match NextLexeme(s)
      case Space => Tokens(s[1..])
      case Bad => Err(UnterminatedQuote)
      case Lexeme(t, n) =>
        match Tokens(s[n..])
        case Err(e) => Err(e)
        case Ok(rest) => Ok([t] + rest)
  }

  // ---- the loop ----

  function Prepend(toks: seq<Token>, r: Result<seq<Token>, LexError>): Result<seq<Token>, LexError> {
    match r
    case Err(e) => Err(e)
    case Ok(rest) => Ok(toks + rest)
  }

  /** Tokenizes the input; the only error is an unterminated quote. */
  method Lex(input: string) returns (r: Result<seq<Token>, LexError>)
    ensures r == Tokens(input)
  {
    hide NextLexeme;
    var toks: seq<Token> := [];
    var i := 0;
    assert input[0..] == input;
    PrependNothing(Tokens(input));
    while i < |input|
      invariant 0 <= i <= |input|
      invariant Prepend(toks, Tokens(input[i..])) == Tokens(input)
    {
      var l := LexAt(input, i);
      match l {
        case Space =>
          assert input[i..][1..] == input[i + 1..];
          i := i + 1;
        case Bad =>
          return Err(UnterminatedQuote);
        case Lexeme(t, n) =>
          assert input[i..][n..] == input[i + n..];
          PrependStep(toks, t, Tokens(input[i + n..]));
          toks := toks + [t];
          i := i + n;
      }
    }
    assert input[i..] == [];
    r := Ok(toks + [EOF]);
  }

  /** The switch at the head of the loop: what starts at i. */
  method LexAt(input: string, i: nat) returns (l: Lexeme)
    requires i < |input|
    ensures l == NextLexeme(input[i..])
  {
    var c := input[i];
    ghost var rest := input[i..];
    assert rest[1..] == input[i + 1..];
    if IsSpace(c) {
      l := Space;
    } else if c == '(' {
      l := Lexeme(Token(TLParen, "("), 1);
    } else if c == ')' {
      l := Lexeme(Token(TRParen, ")"), 1);
    } else if c == '[' {
      l := Lexeme(Token(TLBracket, "["), 1);
    } else if c == ']' {
      l := Lexeme(Token(TRBracket, "]"), 1);
    } else if c == '{' {
      l := Lexeme(Token(TLBrace, "{"), 1);
    } else if c == '}' {
      l := Lexeme(Token(TRBrace, "}"), 1);
    } else if c == ':' {
      l := Lexeme(Token(TColon, ":"), 1);
    } else if c == '>' {
      l := if i + 1 < |input| && input[i + 1] == '=' then Lexeme(Token(TGte, ">="), 2) else Lexeme(Token(TGt, ">"), 1);
    } else if c == '<' {
      l := if i + 1 < |input| && input[i + 1] == '=' then Lexeme(Token(TLte, "<="), 2) else Lexeme(Token(TLt, "<"), 1);
    } else if c == '\"' {
      var text, n, ok := LexQuoted(input, i + 1);
      l := if ok then Lexeme(Token(TQuoted, text), n + 1) else Bad;
    } else {
      var n := LexWord(input, i);
      assert input[i..i + n] == rest[..n];
      l := Lexeme(WordToken(input[i..i + n]), n);
    }
  }

  lemma PrependNothing(r: Result<seq<Token>, LexError>)
    ensures Prepend([], r) == r
  {
    if r.Ok? {
      assert [] + r.value == r.value;
    }
  }

  lemma PrependStep(toks: seq<Token>, t: Token, r: Result<seq<Token>, LexError>)
    ensures Prepend(toks + [t], r) == Prepend(toks, Prepend([t], r))
  {
    if r.Ok? {
      assert toks + [t] + r.value == toks + ([t] + r.value);
    }
  }

  /** The result of unquoting when `text` has been read from the first k characters. */
  ghost function After(text: string, k: nat, r: Option<(string, nat)>): Option<(string, nat)> {
    match r
    case None => None
    case Some((t, m)) => Some((text + t, k + m))
  }

  lemma AfterStep(text: string, k: nat, c: string, n: nat, r: Option<(string, nat)>)
    ensures After(text, k, After(c, n, r)) == After(text + c, k + n, r)
    ensures After("", 0, r) == r
  {
    if r.Some? {
      assert text + c + r.value.0 == text + (c + r.value.0);
      assert "" + r.value.0 == r.value.0;
    }
  }

  lemma UnquoteAt(input: string, j: nat)
    requires j <= |input|
    ensures Unquote(input[j..]) ==
            if j == |input| then None
            else if input[j] == '\"' then Some(("", 1))
            else if input[j] == '\\' && j + 1 < |input| then After([input[j + 1]], 2, Unquote(input[j + 2..]))
            else After([input[j]], 1, Unquote(input[j + 1..]))
  {
  }

  /** Reads a quoted string from just after its opening quote. */
  method LexQuoted(input: string, start: nat) returns (text: string, n: nat, ok: bool)
    requires start <= |input|
    ensures ok <==> Unquote(input[start..]).Some?
    ensures ok ==> Unquote(input[start..]) == Some((text, n))
  {
    hide Unquote, After;
    text := "";
    var j := start;
    AfterStep("", 0, "", 0, Unquote(input[start..]));
    while j < |input| && input[j] != '\"'
      invariant start <= j <= |input|
      invariant Unquote(input[start..]) == After(text, j - start, Unquote(input[j..]))
      decreases |input| - j
    {
      UnquoteAt(input, j);
      if input[j] == '\\' && j + 1 < |input| {
        AfterStep(text, j - start, [input[j + 1]], 2, Unquote(input[j + 2..]));
        text := text + [input[j + 1]];
        j := j + 2;
      } else {
        AfterStep(text, j - start, [input[j]], 1, Unquote(input[j + 1..]));
        text := text + [input[j]];
        j := j + 1;
      }
    }
    n := j + 1 - start;
    ok := j < |input|;
    UnquoteAt(input, j);
    AfterEnd(text, j - start);
  }

  lemma AfterEnd(text: string, k: nat)
    ensures After(text, k, Some(("", 1))) == Some((text, k + 1)) && After(text, k, None) == None
  {
    assert text + "" == text;
  }

  /** The length of the bare word at `start`. */
  method LexWord(input: string, start: nat) returns (n: nat)
    requires start < |input| && !IsStop(input[start])
    ensures n == WordLen(input[start..]) && n > 0
  {
    var j := start;
    while j < |input| && !IsStop(input[j])
      invariant start <= j <= |input|
      invariant WordLen(input[start..]) == j - start + WordLen(input[j..])
    {
      assert input[j..][1..] == input[j + 1..];
      j := j + 1;
    }
    n := j - start;
  }

  // ---- facts about tokens ----

  /** A text that the tokenizer reads as one plain word. */
  predicate IsPlainWord(w: string) {
    w != "" && (forall i :: 0 <= i < |w| ==> !IsStop(w[i])) && w != "AND" && w != "OR" && w != "NOT" && w != "TO"
  }

  /** What every token of the tokenizer satisfies. */
  predicate WellLexed(t: Token) {
    match t.kind
    case TWord => IsPlainWord(t.text)
    case TGt => t.text == ">"
    case TLt => t.text == "<"
    case TGte => t.text == ">="
    case TLte => t.text == "<="
    case _ => true
  }

  /** Token lists the parser is given: one end token, at the end. */
  ghost predicate EndsOnce(toks: seq<Token>) {
    |toks| > 0 && forall i :: 0 <= i < |toks| ==> (toks[i].kind == TEof <==> i == |toks| - 1)
  }

  lemma {:induction false} TokensAreWellLexed(s: string)
    requires Tokens(s).Ok?
    ensures EndsOnce(Tokens(s).value)
    ensures forall i :: 0 <= i < |Tokens(s).value| ==> WellLexed(Tokens(s).value[i])
    decreases |s|
  {
    if s != [] {
      match NextLexeme(s)
      case Space => TokensAreWellLexed(s[1..]);
      case Lexeme(t, n) =>
        TokensAreWellLexed(s[n..]);
        assert WellLexed(t) && t.kind != TEof by { LexemeIsWellLexed(s); }
    }
  }

  lemma LexemeIsWellLexed(s: string)
    requires s != [] && NextLexeme(s).Lexeme?
    ensures WellLexed(NextLexeme(s).token) && NextLexeme(s).token.kind != TEof
  {
    if !IsStop(s[0]) {
      assert WordLen(s) > 0;
    }
  }
}
