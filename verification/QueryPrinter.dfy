/** A printer for query trees, and the proof that it and the parser undo each other. */
module QueryPrinter {
  import opened Wrappers
  import opened Quoting
  import opened QueryAst
  import opened QueryLexer
  import opened QueryParser
  import opened QueryGrammar

  /** The trees a query can denote; MatchAll is one only on its own. */
  predicate PrintableBelow(n: Node) {
    match n
    case MatchAll => false
    case And(l, r) => PrintableBelow(l) && PrintableBelow(r)
    case Or(l, r) => PrintableBelow(l) && PrintableBelow(r)
    case Not(e) => PrintableBelow(e)
    case Term(v, phrase) => phrase || IsPlainWord(v)
    case FieldEq(f, _) => f != EXISTS
    case FieldExists(_) => true
    case FieldCompare(_, op, _) => ValidOp(op)
    case FieldRange(_, _, _, _, _) => true
  }

  predicate Printable(n: Node) { n == MatchAll || PrintableBelow(n) }

  /** Every compound is parenthesised, every text but a bare term is quoted. */
  function Print(n: Node): string {
    match n
    case MatchAll => ""
    case And(l, r) => "(" + Print(l) + " AND " + Print(r) + ")"
    case Or(l, r) => "(" + Print(l) + " OR " + Print(r) + ")"
    case Not(e) => "(NOT " + Print(e) + ")"
    case Term(v, phrase) => if phrase then Quote(v) else v
    case FieldEq(f, v) => Quote(f) + ":" + Quote(v)
    case FieldExists(f) => "_exists_:" + Quote(f)
    case FieldCompare(f, op, v) => Quote(f) + ":" + op + Quote(v)
    case FieldRange(f, lo, hi, il, ih) =>
      Quote(f) + ":" + (if il then "[" else "{") + Quote(lo) + " TO " + Quote(hi) + (if ih then "]" else "}")
  }

  // ---- the tokens of a printed tree ----

  function Quoted(s: string): Token { Token(TQuoted, s) }

  function OpToken(op: string): Token
    requires ValidOp(op)
  {
    Token(if op == ">" then TGt else if op == "<" then TLt else if op == ">=" then TGte else TLte, op)
  }

  const COLON := Token(TColon, ":")

  function BinaryTokens(l: seq<Token>, op: Token, r: seq<Token>): (p: seq<Token>)
    ensures |p| == |l| + |r| + 3
  {
    [Token(TLParen, "(")] + l + [op] + r + [Token(TRParen, ")")]
  }

  function NotTokens(e: seq<Token>): (p: seq<Token>)
    ensures |p| == |e| + 3
  {
    [Token(TLParen, "("), Token(TNot, "NOT")] + e + [Token(TRParen, ")")]
  }

  function PrintedTokens(n: Node): seq<Token>
    requires PrintableBelow(n)
  {
    match n
    case And(l, r) => BinaryTokens(PrintedTokens(l), Token(TAnd, "AND"), PrintedTokens(r))
    case Or(l, r) => BinaryTokens(PrintedTokens(l), Token(TOr, "OR"), PrintedTokens(r))
    case Not(e) => NotTokens(PrintedTokens(e))
    case Term(v, phrase) => [Token(if phrase then TQuoted else TWord, v)]
    case FieldEq(f, v) => [Quoted(f), COLON, Quoted(v)]
    case FieldExists(f) => [Token(TWord, EXISTS), COLON, Quoted(f)]
    case FieldCompare(f, op, v) => [Quoted(f), COLON, OpToken(op), Quoted(v)]
    case FieldRange(f, lo, hi, il, ih) =>
      [Quoted(f), COLON, if il then Token(TLBracket, "[") else Token(TLBrace, "{"), Quoted(lo),
       Token(TTo, "TO"), Quoted(hi), if ih then Token(TRBracket, "]") else Token(TRBrace, "}")]
  }

  // ---- the tokenizer on printed text ----

  /** Reading a printed text from the front: the tokens so far, then whatever the rest gives. */
  ghost predicate Reads(text: string, toks: seq<Token>, rest: string) {
    Tokens(text + rest) == Prepend(toks, Tokens(rest))
  }

  lemma ReadsConcat(a: string, ta: seq<Token>, b: string, tb: seq<Token>, rest: string)
    requires Reads(a, ta, b + rest) && Reads(b, tb, rest)
    ensures Reads(a + b, ta + tb, rest)
  {
    assert a + b + rest == a + (b + rest);
    if Tokens(rest).Ok? {
      assert ta + (tb + Tokens(rest).value) == ta + tb + Tokens(rest).value;
    }
  }

  lemma {:induction false} UnquoteEscaped(s: string, rest: string)
    ensures Unquote(Escape(s, '"') + "\"" + rest) == Some((s, |Escape(s, '"')| + 1))
  {
    hide Unquote;
    if s == [] {
      assert Escape(s, '"') + "\"" + rest == "\"" + rest;
      UnquoteEnd(rest);
    } else {
      UnquoteEscaped(s[1..], rest);
      UnquoteCons(s[0], Escape(s[1..], '"') + "\"" + rest);
      assert Escape(s, '"') + "\"" + rest == EscapeChar(s[0], '"') + (Escape(s[1..], '"') + "\"" + rest);
      assert [s[0]] + s[1..] == s;
    }
  }

  lemma UnquoteEnd(rest: string)
    ensures Unquote("\"" + rest) == Some(("", 1))
  {
  }

  lemma UnquoteCons(c: char, tail: string)
    ensures var e := EscapeChar(c, '"');
            match Unquote(tail)
            case None => Unquote(e + tail) == None
            case Some((text, n)) => Unquote(e + tail) == Some(([c] + text, |e| + n))
  {
  }

  lemma ReadsQuoted(s: string, rest: string)
    ensures Reads(Quote(s), [Quoted(s)], rest)
  {
    var t := Quote(s) + rest;
    UnquoteEscaped(s, rest);
    assert t[1..] == Escape(s, '"') + "\"" + rest;
    assert NextLexeme(t) == Lexeme(Quoted(s), |Escape(s, '"')| + 2);
    assert t[|Escape(s, '"')| + 2..] == rest;
  }

  /** One-character tokens read as themselves whatever follows. */
  lemma ReadsSingle(c: char, rest: string)
    requires Single(c).Some?
    ensures Reads([c], [Token(Single(c).value, [c])], rest)
  {
  }

  lemma ReadsSpace(rest: string)
    ensures Reads(" ", [], rest)
  {
    var t := " " + rest;
    assert t[0] == ' ' && t[1..] == rest;
    PrependNothing(Tokens(rest));
  }

  /** A word reads as itself when a stop character or the end follows. */
  lemma ReadsWord(w: string, rest: string)
    requires w != "" && forall i :: 0 <= i < |w| ==> !IsStop(w[i])
    requires rest == "" || IsStop(rest[0])
    ensures Reads(w, [WordToken(w)], rest)
  {
    var t := w + rest;
    WordLenIs(w, rest);
    assert t[0] == w[0] && t[..|w|] == w && t[|w|..] == rest;
    assert NextLexeme(t) == Lexeme(WordToken(w), |w|);
  }

  lemma {:induction false} WordLenIs(w: string, rest: string)
    requires forall i :: 0 <= i < |w| ==> !IsStop(w[i])
    requires rest == "" || IsStop(rest[0])
    ensures WordLen(w + rest) == |w|
  {
    if w == "" {
      assert w + rest == rest;
    } else {
      assert (w + rest)[1..] == w[1..] + rest;
      WordLenIs(w[1..], rest);
    }
  }

  lemma ReadsOp(op: string, rest: string)
    requires ValidOp(op) && rest != "" && rest[0] != '='
    ensures Reads(op, [OpToken(op)], rest)
  {
    var t := op + rest;
    assert t[..|op|] == op && t[|op|..] == rest;
    assert t[0] == op[0];
    assert NextLexeme(t) == Lexeme(OpToken(op), |op|);
  }

  /** " AND ", " OR ", "NOT " and " TO " between two parts. */
  lemma ReadsKeyword(w: string, rest: string)
    requires w == "AND" || w == "OR" || w == "NOT" || w == "TO"
    ensures Reads(w + " ", [WordToken(w)], rest)
    ensures Reads(" " + w + " ", [WordToken(w)], rest)
  {
    hide WordToken, Reads;
    ReadsSpace(rest);
    ReadsWord(w, " " + rest);
    ReadsConcat(w, [WordToken(w)], " ", [], rest);
    assert [WordToken(w)] + [] == [WordToken(w)];
    ReadsSpace(w + " " + rest);
    ReadsConcat(" ", [], w + " ", [WordToken(w)], rest);
    assert [] + [WordToken(w)] == [WordToken(w)];
    assert " " + (w + " ") == " " + w + " ";
  }

  lemma ReadsPair(a: string, ta: seq<Token>, b: string, tb: seq<Token>, c: string, tc: seq<Token>, rest: string)
    requires Reads(a, ta, b + c + rest) && Reads(b, tb, c + rest) && Reads(c, tc, rest)
    ensures Reads(a + b + c, ta + tb + tc, rest)
  {
    hide Reads;
    assert b + c + rest == b + (c + rest);
    ReadsConcat(a, ta, b, tb, c + rest);
    ReadsConcat(a + b, ta + tb, c, tc, rest);
  }

  lemma ReadsBinary(l: string, tl: seq<Token>, w: string, r: string, tr: seq<Token>, rest: string)
    requires w == "AND" || w == "OR"
    requires Reads(l, tl, " " + w + " " + r + ")" + rest) && Reads(r, tr, ")" + rest)
    ensures Reads("(" + l + (" " + w + " ") + r + ")",
                  BinaryTokens(tl, WordToken(w), tr), rest)
  {
    hide Reads, WordToken;
    var mid := " " + w + " ";
    ReadsSingle(')', rest);
    ReadsKeyword(w, r + ")" + rest);
    assert mid + r + ")" + rest == " " + w + " " + r + ")" + rest;
    assert mid + (r + ")" + rest) == mid + r + ")" + rest;
    ReadsSingle('(', l + mid + r + ")" + rest);
    assert l + (mid + r + ")" + rest) == l + mid + r + ")" + rest;
    ReadsConcat("(", [Token(TLParen, "(")], l, tl, mid + r + ")" + rest);
    assert mid + (r + ")" + rest) == mid + r + ")" + rest;
    ReadsConcat("(" + l, [Token(TLParen, "(")] + tl, mid, [WordToken(w)], r + ")" + rest);
    assert r + (")" + rest) == r + ")" + rest;
    ReadsConcat("(" + l + mid, [Token(TLParen, "(")] + tl + [WordToken(w)], r, tr, ")" + rest);
    ReadsConcat("(" + l + mid + r, [Token(TLParen, "(")] + tl + [WordToken(w)] + tr, ")", [Token(TRParen, ")")], rest);
  }

  lemma ReadsNot(e: string, te: seq<Token>, rest: string)
    requires Reads(e, te, ")" + rest)
    ensures Reads("(NOT " + e + ")", NotTokens(te), rest)
  {
    hide Reads;
    var open, close := [Token(TLParen, "("), Token(TNot, "NOT")], [Token(TRParen, ")")];
    ReadsSingle(')', rest);
    assert e + (")" + rest) == e + ")" + rest;
    ReadsKeyword("NOT", e + ")" + rest);
    ReadsSingle('(', "NOT " + (e + ")" + rest));
    assert "(" + "NOT " == "(NOT " && "NOT" + " " == "NOT ";
    assert [Token(TLParen, "(")] + [WordToken("NOT")] == open;
    ReadsConcat("(", [Token(TLParen, "(")], "NOT ", [WordToken("NOT")], e + ")" + rest);
    ReadsConcat("(NOT ", open, e, te, ")" + rest);
    ReadsConcat("(NOT " + e, open + te, ")", close, rest);
  }

  lemma ReadsField(f: string, v: string, tv: seq<Token>, rest: string)
    requires Reads(v, tv, rest)
    ensures Reads(Quote(f) + ":" + v, [Quoted(f), COLON] + tv, rest)
    ensures Reads("_exists_:" + v, [Token(TWord, EXISTS), COLON] + tv, rest)
  {
    hide Reads, Quote;
    ReadsSingle(':', v + rest);
    assert ":" + v + rest == ":" + (v + rest);
    ReadsQuoted(f, ":" + v + rest);
    ReadsPair(Quote(f), [Quoted(f)], ":", [COLON], v, tv, rest);
    assert [Quoted(f)] + [COLON] + tv == [Quoted(f), COLON] + tv;
    ReadsWord(EXISTS, ":" + v + rest);
    ReadsPair(EXISTS, [Token(TWord, EXISTS)], ":", [COLON], v, tv, rest);
    assert EXISTS + ":" + v == "_exists_:" + v;
    assert [Token(TWord, EXISTS)] + [COLON] + tv == [Token(TWord, EXISTS), COLON] + tv;
  }

  function OpenToken(inclusive: bool): Token { if inclusive then Token(TLBracket, "[") else Token(TLBrace, "{") }

  function CloseToken(inclusive: bool): Token { if inclusive then Token(TRBracket, "]") else Token(TRBrace, "}") }

  lemma ReadsRange(lo: string, hi: string, il: bool, ih: bool, rest: string)
    ensures Reads(OpenToken(il).text + Quote(lo) + " TO " + Quote(hi) + CloseToken(ih).text,
                  [OpenToken(il), Quoted(lo), Token(TTo, "TO"), Quoted(hi), CloseToken(ih)], rest)
  {
    hide Reads, Quote;
    var o, c := OpenToken(il).text, CloseToken(ih).text;
    ReadsSingle(c[0], rest);
    ReadsQuoted(hi, c + rest);
    var tail := Quote(hi) + c;
    ReadsConcat(Quote(hi), [Quoted(hi)], c, [CloseToken(ih)], rest);
    ReadsKeyword("TO", tail + rest);
    assert " " + "TO" + " " == " TO ";
    ReadsConcat(" TO ", [Token(TTo, "TO")], tail, [Quoted(hi)] + [CloseToken(ih)], rest);
    var tail2 := " TO " + tail;
    ReadsQuoted(lo, tail2 + rest);
    ReadsSingle(o[0], Quote(lo) + tail2 + rest);
    ReadsPair(o, [OpenToken(il)], Quote(lo), [Quoted(lo)], tail2,
              [Token(TTo, "TO")] + ([Quoted(hi)] + [CloseToken(ih)]), rest);
    assert o + Quote(lo) + tail2 == o + Quote(lo) + " TO " + Quote(hi) + c;
    assert [OpenToken(il)] + [Quoted(lo)] + ([Token(TTo, "TO")] + ([Quoted(hi)] + [CloseToken(ih)])) ==
           [OpenToken(il), Quoted(lo), Token(TTo, "TO"), Quoted(hi), CloseToken(ih)];
  }

  /** What may follow a printed tree inside another: the end, a space or a closing parenthesis. */
  predicate SafeRest(rest: string) { rest == "" || rest[0] == ' ' || rest[0] == ')' }

  /** A printed tree tokenizes to its tokens, wherever it stands. */
  lemma {:induction false} ReadsPrinted(n: Node, rest: string)
    requires PrintableBelow(n) && SafeRest(rest)
    ensures Reads(Print(n), PrintedTokens(n), rest)
  {
    hide Reads, Quote;
    match n
    case And(l, r) =>
      ReadsPrinted(r, ")" + rest);
      ReadsPrinted(l, " " + "AND" + " " + Print(r) + ")" + rest);
      ReadsBinary(Print(l), PrintedTokens(l), "AND", Print(r), PrintedTokens(r), rest);
      assert " " + "AND" + " " == " AND ";
    case Or(l, r) =>
      ReadsPrinted(r, ")" + rest);
      ReadsPrinted(l, " " + "OR" + " " + Print(r) + ")" + rest);
      ReadsBinary(Print(l), PrintedTokens(l), "OR", Print(r), PrintedTokens(r), rest);
      assert " " + "OR" + " " == " OR ";
    case Not(e) =>
      ReadsPrinted(e, ")" + rest);
      ReadsNot(Print(e), PrintedTokens(e), rest);
    case Term(v, phrase) =>
      if phrase {
        ReadsQuoted(v, rest);
      } else {
        ReadsWord(v, rest);
      }
    case FieldEq(f, v) =>
      ReadsQuoted(v, rest);
      ReadsField(f, Quote(v), [Quoted(v)], rest);
      assert [Quoted(f), COLON] + [Quoted(v)] == [Quoted(f), COLON, Quoted(v)];
    case FieldExists(f) =>
      ReadsQuoted(f, rest);
      ReadsField(f, Quote(f), [Quoted(f)], rest);
      assert [Token(TWord, EXISTS), COLON] + [Quoted(f)] == [Token(TWord, EXISTS), COLON, Quoted(f)];
    case FieldCompare(f, op, v) =>
      ReadsCompare(f, op, v, rest);
    case FieldRange(f, lo, hi, il, ih) =>
      ReadsRangeField(f, lo, hi, il, ih, rest);
  }

  lemma ReadsRangeField(f: string, lo: string, hi: string, il: bool, ih: bool, rest: string)
    ensures Reads(Print(FieldRange(f, lo, hi, il, ih)), PrintedTokens(FieldRange(f, lo, hi, il, ih)), rest)
  {
    hide Reads, Quote;
    var v := OpenToken(il).text + Quote(lo) + " TO " + Quote(hi) + CloseToken(ih).text;
    var tv := [OpenToken(il), Quoted(lo), Token(TTo, "TO"), Quoted(hi), CloseToken(ih)];
    ReadsRange(lo, hi, il, ih, rest);
    ReadsField(f, v, tv, rest);
    var n := FieldRange(f, lo, hi, il, ih);
    assert Print(n) == Quote(f) + ":" + v;
    assert PrintedTokens(n) == [Quoted(f), COLON] + tv;
  }

  lemma ReadsCompare(f: string, op: string, v: string, rest: string)
    requires ValidOp(op)
    ensures Reads(Quote(f) + ":" + op + Quote(v), [Quoted(f), COLON, OpToken(op), Quoted(v)], rest)
  {
    hide Reads;
    ReadsQuoted(v, rest);
    assert (Quote(v) + rest)[0] == '\"';
    ReadsOp(op, Quote(v) + rest);
    ReadsConcat(op, [OpToken(op)], Quote(v), [Quoted(v)], rest);
    ReadsField(f, op + Quote(v), [OpToken(op)] + [Quoted(v)], rest);
    assert Quote(f) + ":" + (op + Quote(v)) == Quote(f) + ":" + op + Quote(v);
    assert [Quoted(f), COLON] + ([OpToken(op)] + [Quoted(v)]) == [Quoted(f), COLON, OpToken(op), Quoted(v)];
  }

  // ---- the grammar on printed tokens ----

  /** The tokens p stand at position i. */
  ghost predicate At(toks: seq<Token>, i: nat, p: seq<Token>) {
    i + |p| <= |toks| && forall k :: 0 <= k < |p| ==> toks[i + k] == p[k]
  }

  lemma AtSplit(toks: seq<Token>, i: nat, a: seq<Token>, b: seq<Token>)
    requires At(toks, i, a + b)
    ensures At(toks, i, a) && At(toks, i + |a|, b)
  {
    forall k | 0 <= k < |a| ensures toks[i + k] == a[k] {
      assert (a + b)[k] == a[k];
    }
    forall k | 0 <= k < |b| ensures toks[i + |a| + k] == b[k] {
      assert (a + b)[|a| + k] == b[k];
      assert toks[i + (|a| + k)] == (a + b)[|a| + k];
    }
  }

  lemma AtSplit3(toks: seq<Token>, i: nat, a: seq<Token>, b: seq<Token>, c: seq<Token>)
    requires At(toks, i, a + b + c)
    ensures At(toks, i, a) && At(toks, i + |a|, b) && At(toks, i + |a| + |b|, c)
  {
    hide At;
    AtSplit(toks, i, a + b, c);
    AtSplit(toks, i, a, b);
  }

  lemma AtOne(toks: seq<Token>, i: nat, t: Token)
    requires At(toks, i, [t])
    ensures i < |toks| && toks[i] == t
  {
    assert toks[i + 0] == [t][0];
  }

  /** The tokens of a printed tree, wherever they stand, are a primary of the grammar denoting that tree. */
  lemma {:induction false} PrintedIsPrimary(toks: seq<Token>, i: nat, n: Node)
    requires PrintableBelow(n) && At(toks, i, PrintedTokens(n))
    ensures i + |PrintedTokens(n)| <= |toks| && GPrimary(toks, i, i + |PrintedTokens(n)|, n)
    decreases n
  {
    hide At, GPrimary, BinaryTokens, NotTokens, PrintedTokens;
    if n.And? || n.Or? {
      PrintedBinary(n);
      var tl, tr := PrintedTokens(n.left), PrintedTokens(n.right);
      BinaryAt(toks, i, tl, if n.And? then Token(TAnd, "AND") else Token(TOr, "OR"), tr);
      PrintedIsPrimary(toks, i + 1, n.left);
      PrintedIsPrimary(toks, i + 2 + |tl|, n.right);
      ParenBinary(toks, i, i + 1 + |tl|, i + 2 + |tl| + |tr|, n);
    } else if n.Not? {
      PrintedNot(n);
      var te := PrintedTokens(n.expr);
      NotAt(toks, i, te);
      PrintedIsPrimary(toks, i + 2, n.expr);
      ParenNot(toks, i, i + 2 + |te|, n);
    } else {
      LeafIsPrimary(toks, i, n);
    }
  }

  lemma PrintedBinary(n: Node)
    requires PrintableBelow(n) && (n.And? || n.Or?)
    ensures PrintableBelow(n.left) && PrintableBelow(n.right)
    ensures PrintedTokens(n) ==
            BinaryTokens(PrintedTokens(n.left), if n.And? then Token(TAnd, "AND") else Token(TOr, "OR"),
                         PrintedTokens(n.right))
  {
  }

  lemma PrintedNot(n: Node)
    requires PrintableBelow(n) && n.Not?
    ensures PrintableBelow(n.expr) && PrintedTokens(n) == NotTokens(PrintedTokens(n.expr))
    ensures PrintedTokens(n.expr) != []
  {
  }

  lemma BinaryAt(toks: seq<Token>, i: nat, tl: seq<Token>, op: Token, tr: seq<Token>)
    requires At(toks, i, BinaryTokens(tl, op, tr))
    ensures At(toks, i, [Token(TLParen, "(")]) && At(toks, i + 1, tl) && At(toks, i + 1 + |tl|, [op])
    ensures At(toks, i + 2 + |tl|, tr) && At(toks, i + 2 + |tl| + |tr|, [Token(TRParen, ")")])
  {
    hide At;
    AtSplit3(toks, i, [Token(TLParen, "(")] + tl + [op], tr, [Token(TRParen, ")")]);
    AtSplit3(toks, i, [Token(TLParen, "(")], tl, [op]);
  }

  lemma NotAt(toks: seq<Token>, i: nat, te: seq<Token>)
    requires At(toks, i, NotTokens(te))
    ensures At(toks, i, [Token(TLParen, "(")]) && At(toks, i + 1, [Token(TNot, "NOT")])
    ensures At(toks, i + 2, te) && At(toks, i + 2 + |te|, [Token(TRParen, ")")])
  {
    hide At;
    AtSplit3(toks, i, [Token(TLParen, "("), Token(TNot, "NOT")], te, [Token(TRParen, ")")]);
    assert [Token(TLParen, "("), Token(TNot, "NOT")] == [Token(TLParen, "(")] + [Token(TNot, "NOT")];
    AtSplit(toks, i, [Token(TLParen, "(")], [Token(TNot, "NOT")]);
  }

  lemma ParenBinary(toks: seq<Token>, i: nat, k: nat, j: nat, n: Node)
    requires n.And? || n.Or?
    requires i < k < j
    requires At(toks, i, [Token(TLParen, "(")]) && At(toks, j, [Token(TRParen, ")")])
    requires At(toks, k, [if n.And? then Token(TAnd, "AND") else Token(TOr, "OR")])
    requires GPrimary(toks, i + 1, k, n.left) && GPrimary(toks, k + 1, j, n.right)
    ensures j < |toks| && GPrimary(toks, i, j + 1, n)
  {
    AtOne(toks, i, Token(TLParen, "("));
    AtOne(toks, j, Token(TRParen, ")"));
    AtOne(toks, k, if n.And? then Token(TAnd, "AND") else Token(TOr, "OR"));
    PrimaryIsOr(toks, i + 1, k, n.left);
    PrimaryIsOr(toks, k + 1, j, n.right);
    if n.And? {
      assert AndSplit(toks, i + 1, k, j, n);
      assert GAnd(toks, i + 1, j, n);
      assert GOr(toks, i + 1, j, n);
    } else {
      assert OrSplit(toks, i + 1, k, j, n);
      assert GOr(toks, i + 1, j, n);
    }
  }

  lemma ParenNot(toks: seq<Token>, i: nat, j: nat, n: Node)
    requires n.Not? && i + 2 < j
    requires At(toks, i, [Token(TLParen, "(")]) && At(toks, j, [Token(TRParen, ")")])
    requires At(toks, i + 1, [Token(TNot, "NOT")])
    requires GPrimary(toks, i + 2, j, n.expr)
    ensures j < |toks| && GPrimary(toks, i, j + 1, n)
  {
    AtOne(toks, i, Token(TLParen, "("));
    AtOne(toks, i + 1, Token(TNot, "NOT"));
    AtOne(toks, j, Token(TRParen, ")"));
    PrimaryIsOr(toks, i + 2, j, n.expr);
    assert GUnary(toks, i + 1, j, n);
    assert GAnd(toks, i + 1, j, n);
    assert GOr(toks, i + 1, j, n);
  }

  lemma LeafIsPrimary(toks: seq<Token>, i: nat, n: Node)
    requires PrintableBelow(n) && !n.And? && !n.Or? && !n.Not? && At(toks, i, PrintedTokens(n))
    ensures i + |PrintedTokens(n)| <= |toks| && GPrimary(toks, i, i + |PrintedTokens(n)|, n)
  {
    var p := PrintedTokens(n);
    assert toks[i + 0] == p[0];
    assert |p| > 2 ==> toks[i + 1] == p[1] && toks[i + 2] == p[2];
    assert |p| > 3 ==> toks[i + 3] == p[3];
    assert |p| > 4 ==> toks[i + 4] == p[4] && toks[i + 5] == p[5] && toks[i + 6] == p[6];
    assert GClause(toks, i, i + |p|, n);
  }

  lemma PrimaryIsOr(toks: seq<Token>, i: nat, j: nat, n: Node)
    requires j <= |toks| && GPrimary(toks, i, j, n)
    ensures i < j && GUnary(toks, i, j, n) && GAnd(toks, i, j, n) && GOr(toks, i, j, n)
  {
  }

  // ---- the main results ----

  /** Printing and parsing are inverse: every tree a query can denote is read back from its printed form. */
  lemma ParsePrinted(n: Node)
    requires Printable(n)
    ensures ParseQuery(Print(n)) == Ok(n)
  {
    hide Reads, Print, ParseTokens, PrintedTokens, PrintableBelow;
    if n != MatchAll {
      ReadsPrinted(n, "");
      ReadsToEnd(Print(n), PrintedTokens(n));
      TokensAreWellLexed(Print(n));
      PrintedTokensParse(n, PrintedTokens(n) + [EOF]);
    } else {
      PrintedAll();
    }
  }

  lemma PrintedAll()
    ensures ParseQuery(Print(MatchAll)) == Ok(MatchAll)
  {
  }

  lemma PrintedTokensParse(n: Node, toks: seq<Token>)
    requires PrintableBelow(n) && toks == PrintedTokens(n) + [EOF] && EndsOnce(toks)
    ensures ParseTokens(toks) == Ok(n)
  {
    hide GPrimary, GOr, ParseTokens, At, PrintedTokens;
    var p := PrintedTokens(n);
    AtFront(p, [EOF]);
    PrintedIsPrimary(toks, 0, n);
    PrimaryIsOr(toks, 0, |p|, n);
    ParserIsGrammar(toks, n);
  }

  lemma AtFront(p: seq<Token>, q: seq<Token>)
    ensures At(p + q, 0, p)
  {
  }

  lemma ReadsToEnd(text: string, toks: seq<Token>)
    requires Reads(text, toks, "")
    ensures Tokens(text) == Ok(toks + [EOF])
  {
    assert text + "" == text;
  }

  /** A tree built from well-lexed tokens by the grammar is one the printer can print. */
  lemma {:induction false} SentenceIsPrintable(toks: seq<Token>, i: nat, j: nat, n: Node)
    requires j <= |toks| && GOr(toks, i, j, n)
    requires forall k :: 0 <= k < |toks| ==> WellLexed(toks[k])
    ensures PrintableBelow(n)
    decreases j - i, 4
  {
    if GAnd(toks, i, j, n) {
      AndIsPrintable(toks, i, j, n);
    } else {
      var k: nat :| OrSplit(toks, i, k, j, n);
      SentenceIsPrintable(toks, i, k, n.left);
      AndIsPrintable(toks, k + 1, j, n.right);
    }
  }

  lemma {:induction false} AndIsPrintable(toks: seq<Token>, i: nat, j: nat, n: Node)
    requires j <= |toks| && GAnd(toks, i, j, n)
    requires forall k :: 0 <= k < |toks| ==> WellLexed(toks[k])
    ensures PrintableBelow(n)
    decreases j - i, 2
  {
    if GUnary(toks, i, j, n) {
      UnaryIsPrintable(toks, i, j, n);
    } else {
      var k: nat :| AndSplit(toks, i, k, j, n);
      AndIsPrintable(toks, i, k, n.left);
      UnaryIsPrintable(toks, if GUnary(toks, k, j, n.right) then k else k + 1, j, n.right);
    }
  }

  lemma {:induction false} UnaryIsPrintable(toks: seq<Token>, i: nat, j: nat, n: Node)
    requires j <= |toks| && GUnary(toks, i, j, n)
    requires forall k :: 0 <= k < |toks| ==> WellLexed(toks[k])
    ensures PrintableBelow(n)
    decreases j - i, 1
  {
    if i < j && toks[i].kind == TNot && n.Not? && GUnary(toks, i + 1, j, n.expr) {
      UnaryIsPrintable(toks, i + 1, j, n.expr);
    } else if i + 2 <= j && toks[i].kind == TLParen {
      SentenceIsPrintable(toks, i + 1, j - 1, n);
    } else {
      ClauseIsPrintable(toks, i, j, n);
    }
  }

  lemma ClauseIsPrintable(toks: seq<Token>, i: nat, j: nat, n: Node)
    requires j <= |toks| && GClause(toks, i, j, n)
    requires forall k :: 0 <= k < |toks| ==> WellLexed(toks[k])
    ensures PrintableBelow(n)
  {
    assert WellLexed(toks[i]);
    if j - i == 4 {
      assert WellLexed(toks[i + 2]);
    }
  }

  /** The printable trees are exactly the trees some query string denotes. */
  lemma PrintableIsParseable(n: Node)
    ensures Printable(n) <==> exists s: string :: ParseQuery(s) == Ok(n)
  {
    hide Print, GOr, PrintableBelow, ParseTokens;
    if Printable(n) {
      ParsePrinted(n);
    }
    if s: string :| ParseQuery(s) == Ok(n) {
      TokensAreWellLexed(s);
      var toks := Tokens(s).value;
      if |toks| > 1 {
        ParserIsGrammar(toks, n);
        SentenceIsPrintable(toks, 0, |toks| - 1, n);
      } else {
        EmptyQuery(toks);
      }
    }
  }

  lemma EmptyQuery(toks: seq<Token>)
    requires EndsOnce(toks) && |toks| == 1
    ensures ParseTokens(toks) == Ok(MatchAll)
  {
  }
}
