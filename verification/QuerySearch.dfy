/**
  * From the text of a query to a page of rows (internal/api/search.go, internal/logstore/sqlite/search.go):
  * the parser, the compiler and the fan-out put together.
  */
module QuerySearch {
  import opened Wrappers
  import Ast = QueryAst
  import C = SqlCompile
  import D = DayStore
  import F = Search
  import L = LogStore
  import M = QueryMeaning
  import P = QueryParser
  import SortedSets
  import X = QueryLexer

  /** What a client asks for. */
  datatype Request = Request(text: string, from: Option<int>, to: Option<int>, stream: string,
                             limit: int, offset: nat, asc: bool)

  datatype Failure = BadQuery(syntax: P.Error) | BadCompile(compile: C.CompileError) | BadMatch

  /** How the condition's evaluator sees a stored row: its columns, its fields, the full text of its body. */
  type View = D.Row -> M.Row

  ghost predicate Reads(view: View) {
    forall r :: view(r).ts == r.ts as real && view(r).columns(M.Stream) == Some(r.stream)
  }

  /** Whether the condition selects a row, its arguments bound left to right. */
  function Selects(env: M.Env, view: View, q: C.Sql, args: seq<C.Arg>): D.Row -> bool
    requires |args| == C.Holes(q)
  {
    (r: D.Row) => |args| == C.Holes(q) && C.Eval(env, view(r), q, args) == M.True
  }

  function QueryOf(req: Request, expr: D.Row -> bool): F.Query {
    F.Query(req.from, req.to, expr, req.stream, req.limit, req.offset, req.asc)
  }

  /** The rows a request is about: the query's meaning is true of them, and time and stream are as asked. */
  predicate Wanted(env: M.Env, view: View, n: Ast.Node, req: Request, r: D.Row) {
    var q := QueryOf(req, _ => true);
    && M.Meaning(env, view(r), n) == M.True
    && F.Lo(q) <= r.ts <= F.Hi(q)
    && (req.stream != "" ==> r.stream == req.stream)
  }

  /** The query of a compiled tree: the fan-out's own test of a row is the row's being wanted. */
  lemma MatchesIsWanted(env: M.Env, view: View, n: Ast.Node, req: Request, r: D.Row)
    requires C.Compile(env, n).Ok?
    ensures |C.Compile(env, n).value.1| == C.Holes(C.Compile(env, n).value.0)
    ensures var (sql, args) := C.Compile(env, n).value;
            F.Matches(QueryOf(req, Selects(env, view, sql, args)), r) <==> Wanted(env, view, n, req, r)
  {
    hide M.Meaning, C.Compile, C.Eval;
    C.CompilePreservesMeaning(env, view(r), n);
  }

  /** The WHERE clause that is sent to the database selects the wanted rows. */
  lemma WhereIsWanted(env: M.Env, view: View, n: Ast.Node, req: Request, r: D.Row)
    requires Reads(view) && C.Compile(env, n).Ok?
    ensures var q := QueryOf(req, _ => true);
            var sent := C.Where(env, n, F.Lo(q) as real, F.Hi(q) as real, req.stream);
            && sent.Ok? && |sent.value.1| == C.Holes(sent.value.0)
            && (C.Eval(env, view(r), sent.value.0, sent.value.1) == M.True <==> Wanted(env, view, n, req, r))
  {
    hide M.Meaning, C.Compile, C.Eval;
    var q := QueryOf(req, _ => true);
    C.WhereSelects(env, view(r), n, F.Lo(q) as real, F.Hi(q) as real, req.stream);
  }

  /** A partition is asked at all. */
  ghost predicate SomeDay(parts: map<int, D.Partition>, req: Request) {
    exists d :: d in parts && F.InRange(QueryOf(req, _ => true), d)
  }

  /** Is any listed day in the request's range? */
  method AnyDay(days: seq<int>, req: Request) returns (any: bool)
    ensures any <==> exists i :: 0 <= i < |days| && F.InRange(QueryOf(req, _ => true), days[i])
  {
    any := false;
    for i := 0 to |days|
      invariant any <==> exists k :: 0 <= k < i && F.InRange(QueryOf(req, _ => true), days[k])
    {
      any := any || F.InRange(QueryOf(req, _ => true), days[i]);
    }
  }

  /** What a request's answer is, in terms of the tree of its text. */
  ghost predicate Answers(env: M.Env, view: View, parts: map<int, D.Partition>, req: Request,
                          plan: seq<D.Row> -> seq<D.Row>, r: Result<(seq<D.Row>, nat), Failure>)
  {
    match P.ParseQuery(req.text)
    case Err(e) => r == Err(BadQuery(e))
    case Ok(n) =>
      if !SomeDay(parts, req) then r == Ok(([], 0))
      else match C.Compile(env, n)
        case Err(e) => r == Err(BadCompile(e))
        case Ok((sql, args)) =>
          if !C.Searchable(n) then r == Err(BadMatch)
          else && r.Ok? && |args| == C.Holes(sql)
               && PageOf(parts, QueryOf(req, Selects(env, view, sql, args)), plan, r.value.0, r.value.1)
  }

  /** A page and a total as the fan-out gives them. */
  ghost predicate PageOf(parts: map<int, D.Partition>, q: F.Query, plan: seq<D.Row> -> seq<D.Row>,
                         messages: seq<D.Row>, total: nat)
  {
    forall days :: SortedSets.Ascending(days) && SortedSets.Elements(days) == parts.Keys ==>
      && messages == F.Page(F.AllMatches(parts, days, q, plan), q.offset, F.Limit(q))
      && total == |F.AllMatches(parts, days, q, plan)|
  }

  lemma DaysListed(parts: map<int, D.Partition>, days: seq<int>, req: Request)
    requires SortedSets.Elements(days) == parts.Keys
    ensures SomeDay(parts, req) <==> exists i :: 0 <= i < |days| && F.InRange(QueryOf(req, _ => true), days[i])
  {
    hide F.InRange;
    if SomeDay(parts, req) {
      var d :| d in parts && F.InRange(QueryOf(req, _ => true), d);
      assert d in SortedSets.Elements(days);
    }
    if i :| 0 <= i < |days| && F.InRange(QueryOf(req, _ => true), days[i]) {
      assert days[i] in SortedSets.Elements(days);
    }
  }

  /** Parses, compiles and searches. A rejected full-text expression fails on the first day asked. */
  method SearchText(s: L.Store, env: M.Env, view: View, req: Request, plan: seq<D.Row> -> seq<D.Row>)
    returns (r: Result<(seq<D.Row>, nat), Failure>)
    requires s.Valid() && F.Permutes(plan)
    ensures Answers(env, view, s.parts, req, plan, r)
  {
    hide P.ParseQuery, C.Compile, L.PartsOk, F.Permutes, SortedSets.Elements, SortedSets.Ascending, C.Searchable;
    hide F.InRange, F.Page, F.AllMatches, F.Limit, C.AllInert, C.Holes, Selects, SomeDay;
    var parsed := P.Parse(req.text);
    if parsed.Err? {
      return Err(BadQuery(parsed.error));
    }
    var n := parsed.value;
    var days := s.ListDays();
    DaysListed(s.parts, days, req);
    var any := AnyDay(days, req);
    if !any {
      return Ok(([], 0));
    }
    var c := new C.Compiler(env);
    var sql := c.Walk(n);
    if sql.Err? {
      return Err(BadCompile(sql.error));
    }
    assert [] + c.args == c.args;
    C.SearchableIff(env, n);
    if !C.Searchable(n) {
      return Err(BadMatch);
    }
    ghost var args := C.Compile(env, n).value.1;
    assert c.args == args;
    var q := QueryOf(req, Selects(env, view, sql.value, c.args));
    var messages, total := F.Search(s, q, plan);
    assert PageOf(s.parts, q, plan, messages, total);
    r := Ok((messages, total));
  }

  /** The page of a query text is the page of the store's rows its tree is true of, in time order. */
  lemma PageHoldsWanted(env: M.Env, view: View, parts: map<int, D.Partition>, days: seq<int>, req: Request,
                        plan: seq<D.Row> -> seq<D.Row>, n: Ast.Node, row: D.Row)
    requires F.Permutes(plan) && SortedSets.Elements(days) == parts.Keys && C.Compile(env, n).Ok?
    ensures |C.Compile(env, n).value.1| == C.Holes(C.Compile(env, n).value.0)
    ensures var (sql, args) := C.Compile(env, n).value;
            row in F.AllMatches(parts, days, QueryOf(req, Selects(env, view, sql, args)), plan) <==>
            exists d :: d in parts && row in parts[d].rows && Wanted(env, view, n, req, row)
  {
    hide C.Compile, F.Matches, F.AllMatches, Wanted, F.Permutes, SortedSets.Elements;
    MatchesIsWanted(env, view, n, req, row);
    var (sql, args) := C.Compile(env, n).value;
    F.AllMatchesAreTheMatches(parts, days, QueryOf(req, Selects(env, view, sql, args)), plan, row);
  }

  /** The search AND* parses, and then fails on every store with a day in range. */
  lemma AndStarFails()
    ensures P.ParseQuery("AND*") == Ok(Ast.Term("AND*", false))
    ensures !C.Searchable(Ast.Term("AND*", false))
  {
    hide X.Tokens, P.ParseTokens, M.FtsMatch;
    M.AndStarIsAnOperator();
    M.FtsMatchIsInert("AND*", false);
    AndStarTokens();
    AndStarTree();
  }

  lemma AndStarTokens()
    ensures X.Tokens("AND*") == Ok([X.Token(X.TWord, "AND*"), X.EOF])
  {
    var s := "AND*";
    assert s[..4] == s && s[4..] == "";
    assert X.WordLen("D*") == 2;
    assert X.WordLen(s) == 4;
    assert X.NextLexeme(s) == X.Lexeme(X.Token(X.TWord, s), 4);
    assert X.Tokens(s[4..]) == Ok([X.EOF]);
    assert [X.Token(X.TWord, s)] + [X.EOF] == [X.Token(X.TWord, "AND*"), X.EOF];
  }

  lemma AndStarTree()
    ensures X.EndsOnce([X.Token(X.TWord, "AND*"), X.EOF])
    ensures P.ParseTokens([X.Token(X.TWord, "AND*"), X.EOF]) == Ok(Ast.Term("AND*", false))
  {
    var toks := [X.Token(X.TWord, "AND*"), X.EOF];
    assert P.PClause(toks, 0) == Ok((Ast.Term("AND*", false), 1));
    assert P.PUnary(toks, 0) == P.PClause(toks, 0);
    var leaf := Ast.Term("AND*", false);
    assert P.AndLoop(toks, 1, leaf) == Ok((leaf, 1)) && P.OrLoop(toks, 1, leaf) == Ok((leaf, 1));
    assert P.PAnd(toks, 0) == Ok((leaf, 1));
    assert P.POr(toks, 0) == Ok((leaf, 1));
  }
}
