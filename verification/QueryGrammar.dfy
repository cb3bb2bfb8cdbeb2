/**
  * The grammar the package documents, as a relation between token ranges and trees, and the proof that the
  * parser accepts exactly that language and builds exactly that tree.
  *
  *   or      = or OR and | and
  *   and     = and AND unary | and unary | unary
  *   unary   = NOT unary | primary
  *   primary = ( or ) | clause
  *   clause  = value | value : value | _exists_ : value | value : op value
  *           | value : [ value TO value ]   (either bracket may be a brace)
  */
module QueryGrammar {
  import opened Wrappers
  import opened QueryAst
  import opened QueryLexer
  import opened QueryParser

  ghost predicate GOr(toks: seq<Token>, i: nat, j: nat, n: Node)
    requires j <= |toks|
    decreases j - i, 4
  {
    || GAnd(toks, i, j, n)
    || (n.Or? && exists k: nat :: OrSplit(toks, i, k, j, n))
  }

  ghost predicate OrSplit(toks: seq<Token>, i: nat, k: nat, j: nat, n: Node)
    requires j <= |toks| && n.Or?
    decreases j - i, 3
  {
    i < k < j && GOr(toks, i, k, n.left) && toks[k].kind == TOr && GAnd(toks, k + 1, j, n.right)
  }

  ghost predicate GAnd(toks: seq<Token>, i: nat, j: nat, n: Node)
    requires j <= |toks|
    decreases j - i, 2
  {
    || GUnary(toks, i, j, n)
    || (n.And? && exists k: nat :: AndSplit(toks, i, k, j, n))
  }

  ghost predicate AndSplit(toks: seq<Token>, i: nat, k: nat, j: nat, n: Node)
    requires j <= |toks| && n.And?
    decreases j - i, 1
  {
    && i < k < j && GAnd(toks, i, k, n.left)
    && (GUnary(toks, k, j, n.right) || (toks[k].kind == TAnd && GUnary(toks, k + 1, j, n.right)))
  }

  ghost predicate GUnary(toks: seq<Token>, i: nat, j: nat, n: Node)
    requires j <= |toks|
    decreases j - i, 1
  {
    || (i < j && toks[i].kind == TNot && n.Not? && GUnary(toks, i + 1, j, n.expr))
    || GPrimary(toks, i, j, n)
  }

  ghost predicate GPrimary(toks: seq<Token>, i: nat, j: nat, n: Node)
    requires j <= |toks|
    decreases j - i, 0
  {
    || (i + 2 <= j && toks[i].kind == TLParen && toks[j - 1].kind == TRParen && GOr(toks, i + 1, j - 1, n))
    || GClause(toks, i, j, n)
  }

  ghost predicate GClause(toks: seq<Token>, i: nat, j: nat, n: Node)
    requires j <= |toks|
  {
    && i < j && IsValue(toks[i].kind)
    && if j == i + 1 then n == Term(toks[i].text, toks[i].kind == TQuoted)
       else toks[i + 1].kind == TColon && GFieldValue(toks, i + 2, j, toks[i].text, n)
  }

  ghost predicate GFieldValue(toks: seq<Token>, i: nat, j: nat, field: string, n: Node)
    requires j <= |toks|
  {
    match j - i
    case 1 =>
      && IsValue(toks[i].kind)
      && n == if field == EXISTS then FieldExists(toks[i].text) else FieldEq(field, toks[i].text)
    case 2 =>
      && IsCompare(toks[i].kind) && IsValue(toks[i + 1].kind)
      && n == FieldCompare(field, toks[i].text, toks[i + 1].text)
    case 5 =>
      && (toks[i].kind == TLBracket || toks[i].kind == TLBrace)
      && IsValue(toks[i + 1].kind) && toks[i + 2].kind == TTo && IsValue(toks[i + 3].kind)
      && (toks[i + 4].kind == TRBracket || toks[i + 4].kind == TRBrace)
      && n == FieldRange(field, toks[i + 1].text, toks[i + 3].text,
                         toks[i].kind == TLBracket, toks[i + 4].kind == TRBracket)
    case _ => false
  }

  // ---- everything the parser returns is in the grammar ----

  lemma {:induction false} OrSound(toks: seq<Token>, i: nat)
    requires EndsOnce(toks) && i < |toks|
    ensures match POr(toks, i) case Ok((n, j)) => GOr(toks, i, j, n) case Err(_) => true
    decreases |toks| - i, 5
  {
    AndSound(toks, i);
    if PAnd(toks, i).Ok? {
      var (left, p) := PAnd(toks, i).value;
      OrLoopSound(toks, i, p, left);
    }
  }

  lemma {:induction false} OrLoopSound(toks: seq<Token>, i: nat, p: nat, left: Node)
    requires EndsOnce(toks) && i < p < |toks| && GOr(toks, i, p, left)
    ensures match OrLoop(toks, p, left) case Ok((n, j)) => GOr(toks, i, j, n) case Err(_) => true
    decreases |toks| - p, 4
  {
    if toks[p].kind == TOr {
      AndSound(toks, p + 1);
      if PAnd(toks, p + 1).Ok? {
        var (right, q) := PAnd(toks, p + 1).value;
        assert OrSplit(toks, i, p, q, Or(left, right));
        OrLoopSound(toks, i, q, Or(left, right));
      }
    }
  }

  lemma {:induction false} AndSound(toks: seq<Token>, i: nat)
    requires EndsOnce(toks) && i < |toks|
    ensures match PAnd(toks, i) case Ok((n, j)) => GAnd(toks, i, j, n) case Err(_) => true
    decreases |toks| - i, 3
  {
    UnarySound(toks, i);
    if PUnary(toks, i).Ok? {
      var (left, p) := PUnary(toks, i).value;
      AndLoopSound(toks, i, p, left);
    }
  }

  lemma {:induction false} AndLoopSound(toks: seq<Token>, i: nat, p: nat, left: Node)
    requires EndsOnce(toks) && i < p < |toks| && GAnd(toks, i, p, left)
    ensures match AndLoop(toks, p, left) case Ok((n, j)) => GAnd(toks, i, j, n) case Err(_) => true
    decreases |toks| - p, 2
  {
    if !EndsAnd(toks[p].kind) {
      var start := if toks[p].kind == TAnd then p + 1 else p;
      UnarySound(toks, start);
      if PUnary(toks, start).Ok? {
        var (right, q) := PUnary(toks, start).value;
        assert AndSplit(toks, i, p, q, And(left, right));
        AndLoopSound(toks, i, q, And(left, right));
      }
    }
  }

  lemma {:induction false} UnarySound(toks: seq<Token>, i: nat)
    requires EndsOnce(toks) && i < |toks|
    ensures match PUnary(toks, i) case Ok((n, j)) => GUnary(toks, i, j, n) case Err(_) => true
    decreases |toks| - i, 1
  {
    if toks[i].kind == TNot {
      UnarySound(toks, i + 1);
    } else if toks[i].kind == TLParen {
      OrSound(toks, i + 1);
    } else {
      ClauseAgrees(toks, i);
    }
  }

  /** The clause parser returns a tree and an end exactly as the grammar's clause rule has it. */
  lemma ClauseAgrees(toks: seq<Token>, i: nat)
    requires EndsOnce(toks) && i < |toks|
    ensures match PClause(toks, i) case Ok((n, j)) => GClause(toks, i, j, n) case Err(_) => true
  {
  }

  // ---- everything in the grammar is returned ----

  lemma ClauseComplete(toks: seq<Token>, i: nat, j: nat, n: Node)
    requires EndsOnce(toks) && j < |toks| && GClause(toks, i, j, n) && toks[j].kind != TColon
    ensures PClause(toks, i) == Ok((n, j))
  {
  }

  lemma {:induction false} UnaryComplete(toks: seq<Token>, i: nat, j: nat, n: Node)
    requires EndsOnce(toks) && j < |toks| && GUnary(toks, i, j, n) && toks[j].kind != TColon
    ensures i < j && PUnary(toks, i) == Ok((n, j))
    decreases j - i, 1
  {
    if i < j && toks[i].kind == TNot && n.Not? && GUnary(toks, i + 1, j, n.expr) {
      UnaryComplete(toks, i + 1, j, n.expr);
    } else if i + 2 <= j && toks[i].kind == TLParen {
      OrComplete(toks, i + 1, j - 1, n);
    } else {
      ClauseComplete(toks, i, j, n);
    }
  }

  /** What starts a unary never is a colon, an end of a conjunction, or an AND. */
  lemma {:induction false} UnaryStart(toks: seq<Token>, i: nat, j: nat, n: Node)
    requires j <= |toks| && GUnary(toks, i, j, n)
    ensures i < j && toks[i].kind != TColon && toks[i].kind != TAnd && !EndsAnd(toks[i].kind)
  {
  }

  lemma {:induction false} AndComplete(toks: seq<Token>, i: nat, j: nat, n: Node)
    requires EndsOnce(toks) && j < |toks| && GAnd(toks, i, j, n) && toks[j].kind != TColon
    ensures i < j && PAnd(toks, i) == AndLoop(toks, j, n)
    decreases j - i, 2
  {
    if GUnary(toks, i, j, n) {
      UnaryComplete(toks, i, j, n);
    } else {
      var k: nat :| AndSplit(toks, i, k, j, n);
      var start := if GUnary(toks, k, j, n.right) then k else k + 1;
      UnaryStart(toks, start, j, n.right);
      AndComplete(toks, i, k, n.left);
      UnaryComplete(toks, start, j, n.right);
    }
  }

  lemma {:induction false} OrComplete(toks: seq<Token>, i: nat, j: nat, n: Node)
    requires EndsOnce(toks) && j < |toks| && GOr(toks, i, j, n) && EndsAnd(toks[j].kind)
    ensures i < j && POr(toks, i) == OrLoop(toks, j, n)
    decreases j - i, 4
  {
    if GAnd(toks, i, j, n) {
      AndComplete(toks, i, j, n);
    } else {
      var k: nat :| OrSplit(toks, i, k, j, n);
      OrComplete(toks, i, k, n.left);
      AndComplete(toks, k + 1, j, n.right);
    }
  }

  /** The parser accepts exactly the sentences of the grammar, and returns the sentence's tree. */
  lemma ParserIsGrammar(toks: seq<Token>, n: Node)
    requires EndsOnce(toks) && |toks| > 1
    ensures ParseTokens(toks) == Ok(n) <==> GOr(toks, 0, |toks| - 1, n)
  {
    var last := |toks| - 1;
    OrSound(toks, 0);
    if GOr(toks, 0, last, n) {
      OrComplete(toks, 0, last, n);
    }
  }

  /** The grammar is unambiguous: a sentence has one tree. */
  lemma GrammarIsUnambiguous(toks: seq<Token>, n: Node, m: Node)
    requires EndsOnce(toks) && |toks| > 1
    requires GOr(toks, 0, |toks| - 1, n) && GOr(toks, 0, |toks| - 1, m)
    ensures n == m
  {
    ParserIsGrammar(toks, n);
    ParserIsGrammar(toks, m);
  }
}
