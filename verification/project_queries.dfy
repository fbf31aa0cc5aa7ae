/**
 * The read handlers of controllers/projectController.js that carry their own
 * rules: the feed, the date-range query, pagination, and the request guards of
 * search and filter. A collection is the sequence of projects in the order the
 * database stores them; `sort({ createdAt: -1 })` is `NewestFirst`, with ties
 * kept in stored order.
 */
module ProjectQueries {
  import opened Base
  import opened ProjectModel

  const FeedLimit: int := 20
  const DefaultPage: int := 1
  const DefaultLimit: int := 10

  /** Ordered by creation time, newest first. */
  predicate NewestFirst(s: seq<Project>) {
    forall i, j :: 0 <= i < j < |s| ==> s[i].createdAt >= s[j].createdAt
  }

  /** Insert `p` into a newest-first list ahead of every entry no newer than it. */
  function Insert(p: Project, s: seq<Project>): (r: seq<Project>)
    requires NewestFirst(s)
    ensures NewestFirst(r)
    ensures multiset(r) == multiset(s) + multiset{p}
    ensures |r| == |s| + 1
    ensures r[0] == p || (|s| > 0 && r[0] == s[0])
  {
    if |s| == 0 then [p]
    else if p.createdAt >= s[0].createdAt then
      ConsNewest(p, s);
      [p] + s
    else
      var rest := Insert(p, s[1..]);
      assert s == [s[0]] + s[1..];
      assert multiset(s) == multiset{s[0]} + multiset(s[1..]);
      ConsNewest(s[0], rest);
      [s[0]] + rest
  }

  /** An entry no older than the head of a newest-first list may go in front of it. */
  lemma ConsNewest(x: Project, s: seq<Project>)
    requires NewestFirst(s) && (|s| > 0 ==> s[0].createdAt <= x.createdAt)
    ensures NewestFirst([x] + s)
  {
    var r := [x] + s;
    forall i, j | 0 <= i < j < |r|
      ensures r[i].createdAt >= r[j].createdAt
    {
      assert r[j] == s[j - 1];
      if i > 0 {
        assert r[i] == s[i - 1];
      } else {
        assert s[0].createdAt >= s[j - 1].createdAt;
      }
    }
  }

  /** `sort({ createdAt: -1 })`: a newest-first permutation of the collection. */
  function SortNewest(s: seq<Project>): (r: seq<Project>)
    ensures NewestFirst(r)
    ensures multiset(r) == multiset(s)
    ensures |r| == |s|
  {
    if |s| == 0 then []
    else
      assert s == [s[0]] + s[1..];
      Insert(s[0], SortNewest(s[1..]))
  }

  // ---------------------------------------------------------------------------
  // getFeedProjects

  /** `find().sort({ createdAt: -1 }).limit(20)`. */
  function Feed(all: seq<Project>): (r: seq<Project>)
    ensures |r| == if |all| < FeedLimit then |all| else FeedLimit
    ensures NewestFirst(r)
    ensures forall k :: 0 <= k < |r| ==> r[k] in all
    ensures multiset(r) <= multiset(all)
  {
    var sorted := SortNewest(all);
    var n := if |sorted| < FeedLimit then |sorted| else FeedLimit;
    PrefixFrom(sorted, all, n);
    assert sorted == sorted[..n] + sorted[n..];
    sorted[..n]
  }

  /** A prefix of a newest-first permutation of `all` is newest first and drawn from `all`. */
  lemma PrefixFrom(sorted: seq<Project>, all: seq<Project>, n: nat)
    requires NewestFirst(sorted) && multiset(sorted) == multiset(all) && n <= |sorted|
    ensures NewestFirst(sorted[..n])
    ensures forall k :: 0 <= k < n ==> sorted[..n][k] in all
  {
    forall k | 0 <= k < n
      ensures sorted[..n][k] in all
    {
      assert sorted[k] in multiset(sorted);
    }
  }

  /** The feed holds the newest projects: nothing left out is newer than anything shown. */
  lemma FeedIsNewest(all: seq<Project>, q: Project)
    requires q in all && q !in Feed(all)
    ensures forall k :: 0 <= k < |Feed(all)| ==> Feed(all)[k].createdAt >= q.createdAt
  {
    var sorted := SortNewest(all);
    assert q in multiset(sorted);
    var j :| 0 <= j < |sorted| && sorted[j] == q;
    var r := Feed(all);
    assert r == sorted[..|r|];
  }

  // ---------------------------------------------------------------------------
  // getProjectsByDateRange

  /** `{ createdAt: { $gte: start, $lte: end } }`, each bound present only when given. */
  predicate InRange(p: Project, start: Option<Time>, end: Option<Time>) {
    (start.Some? ==> start.value <= p.createdAt) && (end.Some? ==> p.createdAt <= end.value)
  }

  /** The projects a query's filter `isMatch` accepts, in stored order. */
  function Matching(s: seq<Project>, isMatch: Project -> bool): (r: seq<Project>)
    ensures forall p :: p in r <==> p in s && isMatch(p)
  {
    if |s| == 0 then []
    else (if isMatch(s[0]) then [s[0]] else []) + Matching(s[1..], isMatch)
  }

  /** `find(filter).sort({ createdAt: -1 })`: the matching projects, newest first. */
  function FindSorted(all: seq<Project>, isMatch: Project -> bool): (r: seq<Project>)
    ensures NewestFirst(r)
    ensures forall p :: p in r <==> p in all && isMatch(p)
    ensures multiset(r) == multiset(Matching(all, isMatch))
  {
    var sorted := SortNewest(Matching(all, isMatch));
    assert forall p :: p in sorted <==> p in multiset(Matching(all, isMatch));
    sorted
  }

  /** A filter every project passes keeps the whole collection. */
  lemma {:induction false} MatchingEverything(s: seq<Project>, isMatch: Project -> bool)
    requires forall p :: isMatch(p)
    ensures Matching(s, isMatch) == s
  {
    if |s| > 0 {
      MatchingEverything(s[1..], isMatch);
      assert s == [s[0]] + s[1..];
    }
  }

  /** A filter no project passes keeps nothing. */
  lemma {:induction false} MatchingNothing(s: seq<Project>, isMatch: Project -> bool)
    requires forall p :: !isMatch(p)
    ensures Matching(s, isMatch) == []
  {
    if |s| > 0 {
      MatchingNothing(s[1..], isMatch);
    }
  }

  /** The date-range filter. */
  function InRangeFilter(start: Option<Time>, end: Option<Time>): Project -> bool
  {
    p => InRange(p, start, end)
  }

  /** `getProjectsByDateRange`: the projects within both inclusive bounds, newest first. */
  function ByDateRange(all: seq<Project>, start: Option<Time>, end: Option<Time>): (r: seq<Project>)
    ensures NewestFirst(r)
    ensures forall p :: p in r <==> p in all && InRange(p, start, end)
    ensures multiset(r) == multiset(Matching(all, InRangeFilter(start, end)))
  {
    FindSorted(all, InRangeFilter(start, end))
  }

  /** Without bounds the date-range query returns the whole collection. */
  lemma UnboundedRangeIsEverything(all: seq<Project>)
    ensures multiset(ByDateRange(all, None, None)) == multiset(all)
  {
    MatchingEverything(all, InRangeFilter(None, None));
  }

  // ---------------------------------------------------------------------------
  // getProjectsWithPagination

  /** `Math.ceil(total / limit)` for a positive limit. */
  function CeilDiv(total: nat, limit: int): (r: nat)
    requires limit >= 1
    ensures total > 0 ==> (r - 1) * limit < total <= r * limit
    ensures total == 0 ==> r == 0
  {
    (total + limit - 1) / limit
  }

  /** The `pagination` object of the reply. */
  datatype Pagination = Pagination(currentPage: int, totalPages: nat, totalProjects: nat, limit: int)

  datatype Paged = Paged(projects: seq<Project>, pagination: Pagination)

  const NegativeSkip: string := "skip value must be non-negative"

  /** The part of `s` from position `skip` taking at most `limit` entries. */
  function Window(s: seq<Project>, skip: nat, limit: nat): (r: seq<Project>)
    ensures |r| <= limit
    ensures skip + limit <= |s| ==> r == s[skip..skip + limit]
    ensures skip < |s| < skip + limit ==> r == s[skip..]
    ensures skip >= |s| ==> r == []
  {
    var lo := if skip < |s| then skip else |s|;
    var hi := if skip + limit < |s| then skip + limit else |s|;
    s[lo..hi]
  }

  /**
   * `getProjectsWithPagination`: `page` and `limit` default to 1 and 10, the
   * query skips `(page - 1) * limit` of the newest-first projects and takes
   * `limit`; a negative skip is refused by the database and answered with 400.
   */
  function Paginate(all: seq<Project>, page: Option<int>, limit: Option<int>): (r: Reply<Result<Paged, string>>)
    requires limit.None? || limit.value >= 1
    ensures r.status == 200 <==> page.GetOr(DefaultPage) >= 1
    ensures r.status != 200 ==> r == Reply(400, Err(NegativeSkip))
    ensures r.status == 200 ==>
      && r.body.Ok?
      && var n := limit.GetOr(DefaultLimit);
      && var skip := Skip(page.GetOr(DefaultPage), n);
      && r.body.value.projects == Window(SortNewest(all), skip, n)
      && r.body.value.pagination == Pagination(page.GetOr(DefaultPage), CeilDiv(|all|, n), |all|, n)
  {
    var p := page.GetOr(DefaultPage);
    var n := limit.GetOr(DefaultLimit);
    var skip := Skip(p, n);
    if skip < 0 then Reply(400, Err(NegativeSkip))
    else Reply(200, Ok(Paged(Window(SortNewest(all), skip, n), Pagination(p, CeilDiv(|all|, n), |all|, n))))
  }

  /** `(page - 1) * limit`: with a positive limit, negative exactly when the page is below 1. */
  function Skip(page: int, limit: int): (r: int)
    requires limit >= 1
    ensures r < 0 <==> page < 1
  {
    SkipSign(page, limit);
    (page - 1) * limit
  }

  lemma SkipSign(page: int, limit: int)
    requires limit >= 1
    ensures (page - 1) * limit < 0 <==> page < 1
  {
    if page < 1 {
      assert (page - 1) * limit <= (page - 1) * 1;
    } else {
      assert (page - 1) * limit >= 0;
    }
  }

  /** The first `k` pages of size `limit`, one after another. */
  function Pages(s: seq<Project>, limit: nat, k: nat): seq<Project>
  {
    if k == 0 then [] else Pages(s, limit, k - 1) + Window(s, (k - 1) * limit, limit)
  }

  lemma {:induction false} PagesArePrefix(s: seq<Project>, limit: nat, k: nat)
    ensures var m := if k * limit < |s| then k * limit else |s|;
      Pages(s, limit, k) == s[..m]
  {
    if k > 0 {
      PagesArePrefix(s, limit, k - 1);
      assert (k - 1) * limit + limit == k * limit;
    }
  }

  /**
   * Reading pages 1 to `totalPages` one after another yields every project
   * exactly once, newest first: the pages partition the sorted collection.
   */
  lemma PagesCoverCollection(all: seq<Project>, limit: int)
    requires limit >= 1
    ensures Pages(SortNewest(all), limit, CeilDiv(|all|, limit)) == SortNewest(all)
  {
    var s := SortNewest(all);
    var k := CeilDiv(|all|, limit);
    PagesArePrefix(s, limit, k);
    assert |s| == |all|;
    if |all| == 0 {
      assert k == 0;
    } else {
      assert |s| <= k * limit;
    }
    assert s[..|s|] == s;
  }

  /** Page `p` of the reply is the `p`-th window of the pages lemma. */
  lemma PaginatePageIsWindow(all: seq<Project>, p: int, limit: int)
    requires p >= 1 && limit >= 1
    ensures Paginate(all, Some(p), Some(limit)).body.value.projects
            == Window(SortNewest(all), (p - 1) * limit, limit)
  {
    var r := Paginate(all, Some(p), Some(limit));
    assert Some(p).GetOr(DefaultPage) == p && Some(limit).GetOr(DefaultLimit) == limit;
    assert r.status == 200;
    assert Skip(p, limit) == (p - 1) * limit;
  }

  // ---------------------------------------------------------------------------
  // searchProjects and filterProjects guards

  const SearchQueryRequired: string := "Search query is required"
  const NoProjectsFound: string := "No projects found"
  const FilterCriteriaRequired: string := "Filter criteria is required"

  /**
   * `searchProjects`: a missing or empty query is refused before the search;
   * otherwise the projects the text search `isMatch` accepts, newest first,
   * and 404 when there are none.
   */
  function SearchProjects(all: seq<Project>, query: Option<string>, isMatch: Project -> bool)
    : (r: Reply<Result<seq<Project>, string>>)
    ensures !Truthy(query) ==> r == Reply(400, Err(SearchQueryRequired))
    ensures Truthy(query) ==> (r == Reply(404, Err(NoProjectsFound)) <==> forall p :: p in all ==> !isMatch(p))
    ensures r.status == 200 <==> Truthy(query) && exists p :: p in all && isMatch(p)
    ensures r.status == 200 ==>
      && r.body.Ok?
      && NewestFirst(r.body.value)
      && (forall p :: p in r.body.value <==> p in all && isMatch(p))
      && multiset(r.body.value) == multiset(Matching(all, isMatch))
  {
    if !Truthy(query) then Reply(400, Err(SearchQueryRequired))
    else
      var found := FindSorted(all, isMatch);
      if |found| == 0 then
        assert forall p :: p in all ==> !isMatch(p);
        Reply(404, Err(NoProjectsFound))
      else
        assert found[0] in found;
        Reply(200, Ok(found))
  }

  /**
   * `filterProjects`: a missing or empty criterion is refused; otherwise the
   * projects the filter `isMatch` accepts, newest first, and 200 even when
   * there are none.
   */
  function FilterProjects(all: seq<Project>, criteria: Option<string>, isMatch: Project -> bool)
    : (r: Reply<Result<seq<Project>, string>>)
    ensures r.status == 200 <==> Truthy(criteria)
    ensures !Truthy(criteria) ==> r == Reply(400, Err(FilterCriteriaRequired))
    ensures r.status == 200 ==>
      && r.body.Ok?
      && NewestFirst(r.body.value)
      && (forall p :: p in r.body.value <==> p in all && isMatch(p))
      && multiset(r.body.value) == multiset(Matching(all, isMatch))
  {
    if !Truthy(criteria) then Reply(400, Err(FilterCriteriaRequired))
    else Reply(200, Ok(FindSorted(all, isMatch)))
  }

  /**
   * The filter `filterProjects` builds, `{ category: criteria }`, names a path
   * the project schema does not have (it has `categories`). With Mongoose's
   * `strictQuery` the unknown path is stripped and every project passes;
   * without it no stored document carries the field and none passes.
   */
  function CategoryFilter(strictQuery: bool): Project -> bool
  {
    p => strictQuery
  }

  /** `filterProjects` as written answers the whole collection newest first, or nothing at all. */
  lemma FilterByCategory(all: seq<Project>, criteria: Option<string>, strictQuery: bool)
    ensures var r := FilterProjects(all, criteria, CategoryFilter(strictQuery));
      && (Truthy(criteria) && strictQuery ==> r.status == 200 && multiset(r.body.value) == multiset(all))
      && (Truthy(criteria) && !strictQuery ==> r == Reply(200, Ok([])))
  {
    if strictQuery {
      MatchingEverything(all, CategoryFilter(strictQuery));
    } else {
      MatchingNothing(all, CategoryFilter(strictQuery));
      assert |multiset(FindSorted(all, CategoryFilter(strictQuery)))| == 0;
    }
  }
}
