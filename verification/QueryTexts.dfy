/** Queries as they are usually written: bare words for fields and values, blanks of any kind, implicit AND. */
module QueryTexts {
  import opened Wrappers
  import opened QueryAst
  import opened QueryLexer
  import opened QueryParser
  import opened QueryGrammar
  import opened QueryPrinter

  /** Characters that end a bare word. */
  predicate Ends(c: char) {
    || c == ' ' || c == '\t' || c == '\n' || c == '\r' || c == '(' || c == ')' || c == '[' || c == ']'
    || c == '{' || c == '}' || c == ':' || c == '"' || c == '<' || c == '>'
  }

  /** A text of other characters that is no keyword. */
  predicate Word(w: string) {
    w != "" && w != "AND" && w != "OR" && w != "NOT" && w != "TO" && forall i :: 0 <= i < |w| ==> !Ends(w[i])
  }

  function W(w: string): Token { Token(TWord, w) }

  /** A bare word is one token up to the first character that ends it, and one of four keywords. */
  lemma WordIsRead(w: string, rest: string)
    requires rest == "" || Ends(rest[0])
    ensures Word(w) ==> Reads(w, [W(w)], rest)
    ensures Reads("AND", [Token(TAnd, "AND")], rest) && Reads("OR", [Token(TOr, "OR")], rest)
    ensures Reads("NOT", [Token(TNot, "NOT")], rest) && Reads("TO", [Token(TTo, "TO")], rest)
  {
    hide Reads;
    if Word(w) {
      ReadsWord(w, rest);
    }
    ReadsWord("AND", rest);
    ReadsWord("OR", rest);
    ReadsWord("NOT", rest);
    ReadsWord("TO", rest);
  }

  lemma BlanksAreSkipped(c: char, s: string)
    requires c == ' ' || c == '\t' || c == '\n' || c == '\r'
    ensures Tokens([c] + s) == Tokens(s)
  {
    assert ([c] + s)[1..] == s;
  }

  /** Only a double quote can make a query fail to tokenize. */
  lemma {:induction false} NoQuoteNoError(s: string)
    requires '"' !in s
    ensures Tokens(s).Ok?
    decreases |s|
  {
    hide WordLen, WordToken;
    if s != "" {
      match NextLexeme(s)
      case Space => NoQuoteNoError(s[1..]);
      case Lexeme(_, n) => NoQuoteNoError(s[n..]);
    }
  }

  /** In quotes, a backslash takes the next character as it is, whatever that is. */
  lemma BackslashTakesNext(c: char, s: string)
    ensures Unquote(['\\', c] + s) ==
            match Unquote(s) case None => None case Some((text, n)) => Some(([c] + text, n + 2))
  {
    assert (['\\', c] + s)[2..] == s;
  }

  // ---- the usual forms ----

  lemma SentenceParses(s: string, toks: seq<Token>, n: Node)
    requires Reads(s, toks, "") && toks != [] && forall i :: 0 <= i < |toks| ==> toks[i].kind != TEof
    requires GOr(toks + [EOF], 0, |toks|, n)
    ensures ParseQuery(s) == Ok(n)
  {
    hide Tokens, ParseTokens, GOr;
    ReadsToEnd(s, toks);
    ParserIsGrammar(toks + [EOF], n);
  }

  /** A field and its value, or a field that is to exist. */
  lemma FieldParses(f: string, v: string)
    requires Word(f) && Word(v)
    ensures ParseQuery(f + ":" + v) == Ok(if f == "_exists_" then FieldExists(v) else FieldEq(f, v))
  {
    hide Reads, ParseQuery, Word, Ends;
    WordIsRead(v, "");
    ColonIsRead(f, v);
    var toks := [W(f), COLON, W(v)];
    assert [W(f), COLON] + [W(v)] == toks && v + "" == v;
    ReadsConcat(f + ":", [W(f), COLON], v, [W(v)], "");
    var node := if f == "_exists_" then FieldExists(v) else FieldEq(f, v);
    assert GClause(toks + [EOF], 0, 3, node);
    SentenceParses(f + ":" + v, toks, node);
  }

  /** A comparison. */
  lemma ComparisonParses(f: string, op: string, v: string)
    requires Word(f) && Word(v) && ValidOp(op) && v[0] != '='
    ensures ParseQuery(f + ":" + op + v) == Ok(FieldCompare(f, op, v))
  {
    hide Reads, ParseQuery, Word, Ends;
    CompareIsRead(f, op, v);
    var toks := [W(f), COLON, OpToken(op), W(v)];
    assert [W(f), COLON] + ([OpToken(op)] + [W(v)]) == toks;
    assert GClause(toks + [EOF], 0, 4, FieldCompare(f, op, v));
    SentenceParses(f + ":" + op + v, toks, FieldCompare(f, op, v));
  }

  lemma ColonIsRead(f: string, rest: string)
    requires Word(f)
    ensures Reads(f + ":", [W(f), COLON], rest)
  {
    hide Reads, Word;
    ReadsSingle(':', rest);
    WordIsRead(f, ":" + rest);
    assert (":" + rest)[0] == ':';
    ReadsConcat(f, [W(f)], ":", [COLON], rest);
    assert [W(f)] + [COLON] == [W(f), COLON];
  }

  lemma CompareIsRead(f: string, op: string, v: string)
    requires Word(f) && Word(v) && ValidOp(op) && v[0] != '='
    ensures Reads(f + ":" + op + v, [W(f), COLON] + ([OpToken(op)] + [W(v)]), "")
  {
    hide Reads;
    WordIsRead(v, "");
    assert v + "" == v && op + v + "" == op + v;
    ReadsOp(op, v);
    ReadsConcat(op, [OpToken(op)], v, [W(v)], "");
    ColonIsRead(f, op + v);
    ReadsConcat(f + ":", [W(f), COLON], op + v, [OpToken(op)] + [W(v)], "");
    assert f + ":" + (op + v) == f + ":" + op + v;
  }

  /** Two terms side by side ask for both. */
  lemma TermsParse(a: string, b: string)
    requires Word(a) && Word(b)
    ensures ParseQuery(a + " " + b) == Ok(And(Term(a, false), Term(b, false)))
  {
    hide Reads, ParseQuery, Word, Ends;
    WordIsRead(b, "");
    assert b + "" == b && " " + b + "" == " " + b;
    ReadsSpace(b);
    ReadsConcat(" ", [], b, [W(b)], "");
    assert [] + [W(b)] == [W(b)] && [W(a)] + [W(b)] == [W(a), W(b)];
    SpaceFollows(a, b);
    ReadsConcat(a, [W(a)], " " + b, [W(b)], "");
    assert a + (" " + b) == a + " " + b;
    var toks := [W(a), W(b)] + [EOF];
    assert GUnary(toks, 0, 1, Term(a, false)) && GUnary(toks, 1, 2, Term(b, false));
    assert AndSplit(toks, 0, 1, 2, And(Term(a, false), Term(b, false)));
    SentenceParses(a + " " + b, [W(a), W(b)], And(Term(a, false), Term(b, false)));
  }

  lemma SpaceFollows(a: string, b: string)
    requires Word(a)
    ensures Reads(a, [W(a)], " " + b)
  {
    hide Reads, Word;
    assert (" " + b)[0] == ' ';
    WordIsRead(a, " " + b);
  }
}
