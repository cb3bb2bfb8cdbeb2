/**
  * The grammar of pipeline conditions, and the proof that the parser accepts exactly its sentences, as long as
  * their calls compile. Each relation says that a tree can be read from the front of a token list that ends in
  * its end token, and what is left behind it.
  *
  *   or      = or || and | and
  *   and     = and && unary | unary
  *   unary   = ! unary | primary
  *   primary = ( or ) | true | false | name ( args
  *   args    = ) | value ) | value , args
  */
module CondGrammar {
  import opened Wrappers
  import opened CondLexer
  import opened CondDsl

  ghost predicate GOr(ts: seq<Tok>, rest: seq<Tok>, e: Expr)
    requires Ended(ts)
    decreases |ts|, e, 3
  {
    GAnd(ts, rest, e) || (e.Or? && exists mid :: OrAt(ts, mid, rest, e))
  }

  ghost predicate OrAt(ts: seq<Tok>, mid: seq<Tok>, rest: seq<Tok>, e: Expr)
    requires Ended(ts) && e.Or?
    decreases |ts|, e, 2
  {
    && Ended(mid) && |mid| < |ts| && GOr(ts, mid, e.l) && mid[0].kind == OrOp
    && Ended(mid[1..]) && GAnd(mid[1..], rest, e.r)
  }

  ghost predicate GAnd(ts: seq<Tok>, rest: seq<Tok>, e: Expr)
    requires Ended(ts)
    decreases |ts|, e, 2
  {
    GUnary(ts, rest, e) || (e.And? && exists mid :: AndAt(ts, mid, rest, e))
  }

  ghost predicate AndAt(ts: seq<Tok>, mid: seq<Tok>, rest: seq<Tok>, e: Expr)
    requires Ended(ts) && e.And?
    decreases |ts|, e, 1
  {
    && Ended(mid) && |mid| < |ts| && GAnd(ts, mid, e.l) && mid[0].kind == AndOp
    && Ended(mid[1..]) && GUnary(mid[1..], rest, e.r)
  }

  ghost predicate GUnary(ts: seq<Tok>, rest: seq<Tok>, e: Expr)
    requires Ended(ts)
    decreases |ts|, e, 1
  {
    || (e.Not? && ts[0].kind == NotOp && Ended(ts[1..]) && GUnary(ts[1..], rest, e.e))
    || GPrimary(ts, rest, e)
  }

  ghost predicate GPrimary(ts: seq<Tok>, rest: seq<Tok>, e: Expr)
    requires Ended(ts)
    decreases |ts|, e, 0
  {
    || (ts[0].kind == LParen && Ended(ts[1..]) && exists mid :: Closed(ts[1..], mid, rest, e))
    || GCall(ts, rest, e)
  }

  /** A tree, and the closing parenthesis behind it. */
  ghost predicate Closed(ts: seq<Tok>, mid: seq<Tok>, rest: seq<Tok>, e: Expr)
    requires Ended(ts)
    decreases |ts|, e, 4
  {
    Ended(mid) && GOr(ts, mid, e) && mid[0].kind == RParen && rest == mid[1..]
  }

  ghost predicate GCall(ts: seq<Tok>, rest: seq<Tok>, e: Expr)
    requires Ended(ts)
  {
    && ts[0].kind == Ident
    && match e
       case Lit(b) => ts[0].text == (if b then "true" else "false") && rest == ts[1..]
       case Call(name, args) =>
         && ts[0].text == name && name != "true" && name != "false"
         && |ts| > 2 && ts[1].kind == LParen && GArgs(ts[2..], rest, args)
       case _ => false
  }

  /** Arguments up to the closing parenthesis, in front of which a comma may stand. */
  predicate GArgs(ts: seq<Tok>, rest: seq<Tok>, args: seq<Arg>)
    decreases |ts|
  {
    if args == [] then ts != [] && ts[0].kind == RParen && rest == ts[1..]
    else
      && |ts| > 1 && ts[0].kind in {Ident, Str, Number} && args[0] == Arg(ts[0].kind == Ident, ts[0].text)
      && ((ts[1].kind == Comma && GArgs(ts[2..], rest, args[1..])) || (args[1..] == [] && GArgs(ts[1..], rest, [])))
  }

  // ---- what the parser returns is a sentence ----

  lemma {:induction false} ArgsSound(ts: seq<Tok>)
    requires Ended(ts)
    ensures match PArgs(ts) case Ok((args, rest)) => GArgs(ts, rest, args) case Err(_) => true
    decreases |ts|
  {
    if PArgs(ts).Ok? && ts[0].kind != RParen {
      var u := ts[1..];
      var next := if u[0].kind == Comma then u[1..] else u;
      ArgsSound(next);
      var (args, rest) := PArgs(ts).value;
      assert args[1..] == PArgs(next).value.0;
      assert u[1..] == ts[2..];
    }
  }

  lemma {:induction false} CallSound(env: Env, ts: seq<Tok>)
    requires Ended(ts)
    ensures match PCall(env, ts) case Ok((e, rest)) => GCall(ts, rest, e) case Err(_) => true
  {
    hide PArgs, GArgs, CallError;
    if PCall(env, ts).Ok? && PCall(env, ts).value.0.Call? {
      assert ts[1..][1..] == ts[2..];
      ArgsSound(ts[2..]);
    }
  }

  lemma {:induction false} OrSound(env: Env, ts: seq<Tok>)
    requires Ended(ts)
    ensures match POr(env, ts) case Ok((e, rest)) => GOr(ts, rest, e) case Err(_) => true
    decreases |ts|, 4
  {
    hide PAnd, POrRest, GAnd;
    AndSound(env, ts);
    if PAnd(env, ts).Ok? {
      var (l, mid) := PAnd(env, ts).value;
      OrRestSound(env, ts, l, mid);
    }
  }

  lemma {:induction false} OrRestSound(env: Env, ts: seq<Tok>, left: Expr, mid: seq<Tok>)
    requires Ended(ts) && Ended(mid) && |mid| < |ts| && Buildable(env, left) && GOr(ts, mid, left)
    ensures match POrRest(env, left, mid) case Ok((e, rest)) => GOr(ts, rest, e) case Err(_) => true
    decreases |mid|, 3
  {
    hide PAnd, GAnd;
    if mid[0].kind == OrOp {
      AndSound(env, mid[1..]);
      if PAnd(env, mid[1..]).Ok? {
        var (r, more) := PAnd(env, mid[1..]).value;
        assert OrAt(ts, mid, more, Or(left, r));
        OrRestSound(env, ts, Or(left, r), more);
      }
    }
  }

  lemma {:induction false} AndSound(env: Env, ts: seq<Tok>)
    requires Ended(ts)
    ensures match PAnd(env, ts) case Ok((e, rest)) => GAnd(ts, rest, e) case Err(_) => true
    decreases |ts|, 2
  {
    hide PUnary, PAndRest, GUnary;
    UnarySound(env, ts);
    if PUnary(env, ts).Ok? {
      var (l, mid) := PUnary(env, ts).value;
      AndRestSound(env, ts, l, mid);
    }
  }

  lemma {:induction false} AndRestSound(env: Env, ts: seq<Tok>, left: Expr, mid: seq<Tok>)
    requires Ended(ts) && Ended(mid) && |mid| < |ts| && Buildable(env, left) && GAnd(ts, mid, left)
    ensures match PAndRest(env, left, mid) case Ok((e, rest)) => GAnd(ts, rest, e) case Err(_) => true
    decreases |mid|, 1
  {
    hide PUnary, GUnary;
    if mid[0].kind == AndOp {
      UnarySound(env, mid[1..]);
      if PUnary(env, mid[1..]).Ok? {
        var (r, more) := PUnary(env, mid[1..]).value;
        assert AndAt(ts, mid, more, And(left, r));
        AndRestSound(env, ts, And(left, r), more);
      }
    }
  }

  lemma {:induction false} UnarySound(env: Env, ts: seq<Tok>)
    requires Ended(ts)
    ensures match PUnary(env, ts) case Ok((e, rest)) => GUnary(ts, rest, e) case Err(_) => true
    decreases |ts|, 1
  {
    hide POr, PCall, GOr, GCall;
    if ts[0].kind == NotOp {
      UnarySound(env, ts[1..]);
    } else if ts[0].kind == LParen {
      OrSound(env, ts[1..]);
      if PUnary(env, ts).Ok? {
        var (e, mid) := POr(env, ts[1..]).value;
        assert Closed(ts[1..], mid, mid[1..], e);
      }
    } else {
      CallSound(env, ts);
    }
  }

  // ---- every sentence whose calls compile is accepted ----

  lemma {:induction false} ArgsComplete(ts: seq<Tok>, rest: seq<Tok>, args: seq<Arg>)
    requires Ended(ts) && GArgs(ts, rest, args)
    ensures PArgs(ts) == Ok((args, rest))
    decreases |ts|
  {
    if args != [] {
      var u := ts[1..];
      assert args == [args[0]] + args[1..];
      if u[0].kind == Comma && GArgs(ts[2..], rest, args[1..]) {
        assert u[1..] == ts[2..];
        ArgsComplete(ts[2..], rest, args[1..]);
      } else {
        ArgsComplete(u, rest, []);
      }
    }
  }

  lemma CallComplete(env: Env, ts: seq<Tok>, rest: seq<Tok>, e: Expr)
    requires Ended(ts) && GCall(ts, rest, e) && Buildable(env, e)
    ensures PCall(env, ts) == Ok((e, rest))
  {
    hide PArgs, GArgs, CallError;
    if e.Call? {
      assert ts[1..][1..] == ts[2..];
      ArgsComplete(ts[2..], rest, e.args);
    }
  }

  lemma {:induction false} OrComplete(env: Env, ts: seq<Tok>, rest: seq<Tok>, e: Expr)
    requires Ended(ts) && Ended(rest) && GOr(ts, rest, e) && Buildable(env, e) && rest[0].kind != AndOp
    ensures POr(env, ts) == POrRest(env, e, rest)
    decreases |ts|, e, 4
  {
    hide PAnd, GAnd;
    if GAnd(ts, rest, e) {
      AndComplete(env, ts, rest, e);
      AndStops(env, e, rest);
    } else {
      var mid :| OrAt(ts, mid, rest, e);
      OrComplete(env, ts, mid, e.l);
      AndComplete(env, mid[1..], rest, e.r);
      AndStops(env, e.r, rest);
    }
  }

  lemma AndStops(env: Env, e: Expr, rest: seq<Tok>)
    requires Ended(rest) && Buildable(env, e) && rest[0].kind != AndOp
    ensures PAndRest(env, e, rest) == Ok((e, rest))
  {
  }

  lemma {:induction false} AndComplete(env: Env, ts: seq<Tok>, rest: seq<Tok>, e: Expr)
    requires Ended(ts) && Ended(rest) && GAnd(ts, rest, e) && Buildable(env, e)
    ensures PAnd(env, ts) == PAndRest(env, e, rest)
    decreases |ts|, e, 3
  {
    hide PUnary, GUnary;
    if GUnary(ts, rest, e) {
      UnaryComplete(env, ts, rest, e);
    } else {
      var mid :| AndAt(ts, mid, rest, e);
      AndComplete(env, ts, mid, e.l);
      UnaryComplete(env, mid[1..], rest, e.r);
    }
  }

  lemma {:induction false} UnaryComplete(env: Env, ts: seq<Tok>, rest: seq<Tok>, e: Expr)
    requires Ended(ts) && Ended(rest) && GUnary(ts, rest, e) && Buildable(env, e)
    ensures PUnary(env, ts) == Ok((e, rest))
    decreases |ts|, e, 2
  {
    hide POr, PCall, GOr, GCall, POrRest;
    if e.Not? && ts[0].kind == NotOp && Ended(ts[1..]) && GUnary(ts[1..], rest, e.e) {
      UnaryComplete(env, ts[1..], rest, e.e);
    } else if GCall(ts, rest, e) {
      IsCall(ts, rest, e);
      CallComplete(env, ts, rest, e);
    } else {
      assert GPrimary(ts, rest, e);
      var mid :| Closed(ts[1..], mid, rest, e);
      OrComplete(env, ts[1..], mid, e);
      OrStops(env, e, mid);
    }
  }

  lemma OrStops(env: Env, e: Expr, rest: seq<Tok>)
    requires Ended(rest) && Buildable(env, e) && rest[0].kind != OrOp
    ensures POrRest(env, e, rest) == Ok((e, rest))
  {
  }

  lemma IsCall(ts: seq<Tok>, rest: seq<Tok>, e: Expr)
    requires Ended(ts) && GCall(ts, rest, e)
    ensures ts[0].kind == Ident
  {
  }

  /** Nothing is left but the end token. */
  predicate AtEnd(rest: seq<Tok>) { |rest| == 1 && rest[0].kind == EOF }

  /** The parser returns a tree exactly when the tokens are a sentence denoting it and all its calls compile. */
  lemma ParserIsGrammar(env: Env, ts: seq<Tok>, e: Expr)
    requires Ended(ts)
    ensures ParseTokens(env, ts) == Ok(e) <==> Buildable(env, e) && exists end :: AtEnd(end) && GOr(ts, end, e)
  {
    hide POr, GOr, POrRest;
    OrSound(env, ts);
    if ParseTokens(env, ts) == Ok(e) {
      OnlyEnd(POr(env, ts).value.1);
    }
    if Buildable(env, e) {
      forall end | AtEnd(end) && GOr(ts, end, e) ensures ParseTokens(env, ts) == Ok(e) {
        OrComplete(env, ts, end, e);
        OrStops(env, e, end);
      }
    }
  }

  lemma OnlyEnd(rest: seq<Tok>)
    requires Ended(rest) && rest[0].kind == EOF
    ensures AtEnd(rest)
  {
  }

  /** The grammar is unambiguous: a sentence whose calls compile denotes one tree. */
  lemma GrammarIsUnambiguous(env: Env, ts: seq<Tok>, end: seq<Tok>, e: Expr, f: Expr)
    requires Ended(ts) && AtEnd(end) && GOr(ts, end, e) && GOr(ts, end, f)
    requires Buildable(env, e) && Buildable(env, f)
    ensures e == f
  {
    hide GOr, POr;
    ParserIsGrammar(env, ts, e);
    ParserIsGrammar(env, ts, f);
  }
}
