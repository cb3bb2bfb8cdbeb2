/**
  * A request's page in the request's own terms: which stored messages it is about, how many there are, which of
  * them the page shows and in which order.
  */
module QueryPages {
  import opened Wrappers
  import Ast = QueryAst
  import C = SqlCompile
  import D = DayStore
  import F = Search
  import L = LogStore
  import M = QueryMeaning
  import QS = QuerySearch
  import R = SearchRows
  import SortedSets

  /**
    * The row is asked for: the tree is true of it, the millisecond it is stored under overlaps the request's
    * range of nanoseconds, and it is in the stream asked for, if any.
    */
  predicate Asked(env: M.Env, view: QS.View, n: Ast.Node, req: QS.Request, r: D.Row) {
    && M.Meaning(env, view(r), n) == M.True
    && (req.from.Some? ==> req.from.value < (r.ts + 1) * 1_000_000)
    && (req.to.Some? ==> r.ts * 1_000_000 <= req.to.value)
    && (req.stream == "" || r.stream == req.stream)
  }

  lemma AskedIsWanted(env: M.Env, view: QS.View, n: Ast.Node, req: QS.Request, r: D.Row)
    requires -D.TS_LIMIT < r.ts < D.TS_LIMIT
    ensures Asked(env, view, n, req, r) <==> QS.Wanted(env, view, n, req, r)
  {
    hide M.Meaning;
    R.MatchesIff(QS.QueryOf(req, _ => true), r);
  }

  /** Where the rows asked for lie in the store. */
  ghost function AskedPlaces(env: M.Env, view: QS.View, n: Ast.Node, req: QS.Request, parts: map<int, D.Partition>)
    : set<(int, nat)>
  {
    set d, i | d in parts && 0 <= i < |parts[d].rows| && Asked(env, view, n, req, parts[d].rows[i]) :: (d, i)
  }

  lemma StoredTimes(parts: map<int, D.Partition>, d: int, i: nat)
    requires L.PartsOk(parts) && d in parts && i < |parts[d].rows|
    ensures -D.TS_LIMIT < parts[d].rows[i].ts < D.TS_LIMIT
  {
  }

  lemma PlacesAreAsked(env: M.Env, view: QS.View, n: Ast.Node, req: QS.Request, parts: map<int, D.Partition>)
    requires L.PartsOk(parts) && C.Compile(env, n).Ok?
    ensures |C.Compile(env, n).value.1| == C.Holes(C.Compile(env, n).value.0)
    ensures var (sql, args) := C.Compile(env, n).value;
            R.Places(parts, QS.QueryOf(req, QS.Selects(env, view, sql, args))) == AskedPlaces(env, view, n, req, parts)
  {
    hide C.Compile, F.Matches, QS.Wanted, Asked, L.PartsOk, QS.QueryOf, QS.Selects;
    C.CompilePreservesMeaning(env, view(D.Row(0, "", 0, "", "", "")), n);
    var (sql, args) := C.Compile(env, n).value;
    forall d, i: nat | d in parts && i < |parts[d].rows|
      ensures F.Matches(QS.QueryOf(req, QS.Selects(env, view, sql, args)), parts[d].rows[i]) <==>
              Asked(env, view, n, req, parts[d].rows[i])
    {
      StoredTimes(parts, d, i);
      QS.MatchesIsWanted(env, view, n, req, parts[d].rows[i]);
      AskedIsWanted(env, view, n, req, parts[d].rows[i]);
    }
  }

  /** What a page and a total have to be. */
  ghost predicate RightPage(env: M.Env, view: QS.View, n: Ast.Node, req: QS.Request, parts: map<int, D.Partition>,
                            messages: seq<D.Row>, total: nat)
  {
    && total == |AskedPlaces(env, view, n, req, parts)|
    && |messages| == Max(0, Min(if req.limit <= 0 then 100 else req.limit, total - req.offset))
    && (forall k :: 0 <= k < |messages| ==> StoredAndAsked(env, view, n, req, parts, messages[k]))
    && (forall k, l :: 0 <= k < l < |messages| ==>
          messages[k].id != messages[l].id && NotAfter(req.asc, messages[k], messages[l]))
    && (req.offset == 0 ==>
          forall r, k :: StoredAndAsked(env, view, n, req, parts, r) && r !in messages && 0 <= k < |messages| ==>
            NotAfter(req.asc, messages[k], r))
  }

  ghost predicate StoredAndAsked(env: M.Env, view: QS.View, n: Ast.Node, req: QS.Request, parts: map<int, D.Partition>,
                                 r: D.Row)
  {
    (exists d :: d in parts && r in parts[d].rows) && Asked(env, view, n, req, r)
  }

  predicate NotAfter(asc: bool, a: D.Row, b: D.Row) { if asc then a.ts <= b.ts else a.ts >= b.ts }

  lemma ListedIffAsked(env: M.Env, view: QS.View, parts: map<int, D.Partition>, days: seq<int>, req: QS.Request,
                       plan: seq<D.Row> -> seq<D.Row>, n: Ast.Node, r: D.Row)
    requires F.Permutes(plan) && L.PartsOk(parts) && SortedSets.Elements(days) == parts.Keys
    requires C.Compile(env, n).Ok?
    ensures |C.Compile(env, n).value.1| == C.Holes(C.Compile(env, n).value.0)
    ensures var (sql, args) := C.Compile(env, n).value;
            r in F.AllMatches(parts, days, QS.QueryOf(req, QS.Selects(env, view, sql, args)), plan) <==>
            StoredAndAsked(env, view, n, req, parts, r)
  {
    hide C.Compile, F.AllMatches, QS.Wanted, Asked, F.Permutes, L.PartsOk, SortedSets.Elements, QS.QueryOf, QS.Selects;
    QS.PageHoldsWanted(env, view, parts, days, req, plan, n, r);
    if d :| d in parts && r in parts[d].rows {
      var i :| 0 <= i < |parts[d].rows| && parts[d].rows[i] == r;
      StoredTimes(parts, d, i);
      AskedIsWanted(env, view, n, req, r);
    }
  }

  /** A slice of the ordered list of everything asked for is a right page. */
  lemma SliceIsRight(env: M.Env, view: QS.View, n: Ast.Node, req: QS.Request, parts: map<int, D.Partition>,
                     all: seq<D.Row>, messages: seq<D.Row>)
    requires |all| == |AskedPlaces(env, view, n, req, parts)|
    requires forall r :: r in all <==> StoredAndAsked(env, view, n, req, parts, r)
    requires forall i, j :: 0 <= i < j < |all| ==> all[i].id != all[j].id && NotAfter(req.asc, all[i], all[j])
    requires |messages| == Max(0, Min(if req.limit <= 0 then 100 else req.limit, |all| - req.offset))
    requires forall k :: 0 <= k < |messages| ==> messages[k] == all[req.offset + k]
    ensures RightPage(env, view, n, req, parts, messages, |all|)
  {
    hide AskedPlaces, StoredAndAsked, NotAfter;
    forall k | 0 <= k < |messages| ensures StoredAndAsked(env, view, n, req, parts, messages[k]) {
      assert messages[k] == all[req.offset + k] && all[req.offset + k] in all;
    }
    if req.offset == 0 {
      forall r, k | StoredAndAsked(env, view, n, req, parts, r) && r !in messages && 0 <= k < |messages|
        ensures NotAfter(req.asc, messages[k], r)
      {
        var j :| 0 <= j < |all| && all[j] == r;
        assert j >= |messages| by { NotOnPage(messages, all, j); }
      }
    }
  }

  lemma NotOnPage(messages: seq<D.Row>, all: seq<D.Row>, j: nat)
    requires |messages| <= |all| && forall k :: 0 <= k < |messages| ==> messages[k] == all[k]
    requires j < |all| && all[j] !in messages
    ensures |messages| <= j
  {
  }

  /** Rows further back in the list of all matches are other messages, not earlier in the order asked for. */
  lemma InOrder(parts: map<int, D.Partition>, days: seq<int>, q: F.Query, plan: seq<D.Row> -> seq<D.Row>,
                i: nat, j: nat)
    requires F.Permutes(plan) && L.PartsOk(parts) && L.IdsUnique(parts)
    requires SortedSets.Ascending(days) && SortedSets.Elements(days) == parts.Keys
    requires i < j < |F.AllMatches(parts, days, q, plan)|
    ensures var all := F.AllMatches(parts, days, q, plan);
            all[i].id != all[j].id && NotAfter(q.asc, all[i], all[j])
  {
    hide F.AllMatches, F.Permutes, L.PartsOk, L.IdsUnique, SortedSets.Elements, SortedSets.Ascending;
    R.NoIdTwice(parts, days, q, plan, i, j);
    R.InTimeOrder(parts, days, q, plan, i, j);
  }

  /**
    * The fan-out's page is right: its total counts the stored messages asked for, it shows as many of them from
    * its offset on as the limit allows, none twice, in the order of time asked for, and what a first page leaves
    * out does not come before what it shows.
    */
  lemma PageIsRight(env: M.Env, view: QS.View, parts: map<int, D.Partition>, days: seq<int>, req: QS.Request,
                    plan: seq<D.Row> -> seq<D.Row>, n: Ast.Node, messages: seq<D.Row>, total: nat)
    requires F.Permutes(plan) && L.PartsOk(parts) && L.IdsUnique(parts)
    requires SortedSets.Ascending(days) && SortedSets.Elements(days) == parts.Keys
    requires C.Compile(env, n).Ok? && |C.Compile(env, n).value.1| == C.Holes(C.Compile(env, n).value.0)
    requires var (sql, args) := C.Compile(env, n).value;
             QS.PageOf(parts, QS.QueryOf(req, QS.Selects(env, view, sql, args)), plan, messages, total)
    ensures RightPage(env, view, n, req, parts, messages, total)
  {
    hide C.Compile, F.AllMatches, F.Permutes, L.PartsOk, L.IdsUnique, SortedSets.Elements, SortedSets.Ascending;
    hide QS.Selects, AskedPlaces, R.Places, StoredAndAsked, F.Page, F.Limit, F.Matches, NotAfter, RightPage;
    var (sql, args) := C.Compile(env, n).value;
    var q := QS.QueryOf(req, QS.Selects(env, view, sql, args));
    var all := F.AllMatches(parts, days, q, plan);
    R.TotalIsPlaces(parts, days, q, plan);
    PlacesAreAsked(env, view, n, req, parts);
    R.PageIs(all, q, 0);
    forall k | 0 <= k < |messages| ensures messages[k] == all[q.offset + k] {
      R.PageIs(all, q, k);
    }
    forall r ensures r in all <==> StoredAndAsked(env, view, n, req, parts, r) {
      ListedIffAsked(env, view, parts, days, req, plan, n, r);
    }
    forall i, j | 0 <= i < j < |all| ensures all[i].id != all[j].id && NotAfter(req.asc, all[i], all[j]) {
      InOrder(parts, days, q, plan, i, j);
    }
    SliceIsRight(env, view, n, req, parts, all, messages);
  }
}
