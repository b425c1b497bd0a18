/**
 The project list endpoint (GET /api/projects): visibility, the status,
 tech and search filters, the sort, the page and the ETag match; and the
 guards of the create endpoint (POST /api/projects).
 */
module ProjectsApi {
  import opened Wrappers
  import opened Json
  import opened Text
  import Schema
  import Sorting
  import Store
  import Seqs

  // ---------------------------------------------------------------------------
  // The query

  datatype SortKey = DateDesc | DateAsc | TitleAsc

  /** The validated query: the optional filters, the sort, the page and the
      page size. */
  datatype Query = Query(status: Option<string>, tech: Option<string>, search: Option<string>,
                         sort: SortKey, page: int, limit: int)

  /** The bounds the query schema enforces before the route sees the query. */
  predicate ValidQuery(q: Query) {
    1 <= q.limit <= 100 && q.page >= 1
  }

  /** A filter given as a non-empty string (an empty one is falsy). */
  predicate Given(f: Option<string>) {
    f.Some? && f.value != ""
  }

  // ---------------------------------------------------------------------------
  // `v?.toLowerCase()`, and the tests built on it

  /** Missing for null and undefined (the chain stops); the lower-cased text
      for a string; Throws for any other value, which has no toLowerCase. */
  datatype Lowered = Missing | Lowered(s: string) | Throws

  function LowerOf(v: Value): (r: Lowered)
    ensures r.Missing? <==> IsNullish(v)
    ensures r.Lowered? <==> v.Str?
  {
    if IsNullish(v) then Missing else if v.Str? then Lowered(ToLower(v.s)) else Throws
  }

  /** A test's outcome: Some(answer), or None when it throws. */
  type Outcome = Option<bool>

  /** `v?.toLowerCase() === t`. */
  function LowerEquals(v: Value, t: string): (r: Outcome)
    ensures r == Some(true) <==> v.Str? && ToLower(v.s) == t
    ensures r.None? <==> LowerOf(v).Throws?
  {
    match LowerOf(v)
    case Missing => Some(false)
    case Lowered(s) => Some(s == t)
    case Throws => None
  }

  /** `v?.toLowerCase().includes(q)`, read as a boolean. */
  function LowerIncludes(v: Value, q: string): (r: Outcome)
    ensures r == Some(true) <==> v.Str? && Contains(ToLower(v.s), q)
    ensures r.None? <==> LowerOf(v).Throws?
  {
    match LowerOf(v)
    case Missing => Some(false)
    case Lowered(s) => Some(Contains(s, q))
    case Throws => None
  }

  /** `xs.some(test)`: left to right, stopping at the first true; a throw
      before that aborts. */
  function AnyOf(xs: seq<Value>, test: Value -> Outcome): (r: Outcome)
    ensures r.Some? ==> (r.value <==> exists i :: 0 <= i < |xs| && test(xs[i]) == Some(true))
    ensures (forall i :: 0 <= i < |xs| ==> test(xs[i]).Some?) ==> r.Some?
  {
    if xs == [] then Some(false)
    else match test(xs[0])
      case None => None
      case Some(true) => Some(true)
      case Some(false) =>
        var rest := AnyOf(xs[1..], test);
        assert forall i :: 0 < i < |xs| ==> xs[i] == xs[1..][i - 1];
        rest
  }

  /** The tech test: the tool, or one of the tags, equals the filter once both
      are lower-cased. Both parts are evaluated. */
  function TechTest(p: Object, tech: string): Outcome {
    var t := ToLower(tech);
    var tool := LowerEquals(Get(p, "tool"), t);
    var tags := Get(p, "tags");
    var inTags := if tags.Arr? then AnyOf(tags.items, v => LowerEquals(v, t)) else Some(false);
    if tool.None? || inTags.None? then None else Some(tool.value || inTags.value)
  }

  /** The search test: the lower-cased title, description or some tag holds
      the lower-cased query. All three parts are evaluated. */
  function SearchTest(p: Object, search: string): Outcome {
    var q := ToLower(search);
    var title := LowerIncludes(Get(p, "title"), q);
    var description := LowerIncludes(Get(p, "description"), q);
    var tags := Get(p, "tags");
    var inTags := if tags.Arr? then AnyOf(tags.items, v => LowerIncludes(v, q)) else Some(false);
    if title.None? || description.None? || inTags.None? then None
    else Some(title.value || description.value || inTags.value)
  }

  /** The filter callback: visibility first, then status, tech and search. */
  function Keep(p: Object, q: Query, isAdmin: bool): Outcome {
    if !isAdmin && Get(p, "status") != Str("published") then Some(false)
    else if Given(q.status) && Get(p, "status") != Str(q.status.value) then Some(false)
    else
      var tech := if Given(q.tech) then TechTest(p, q.tech.value) else Some(true);
      if tech != Some(true) then tech
      else if Given(q.search) then SearchTest(p, q.search.value)
      else Some(true)
  }

  // ---------------------------------------------------------------------------
  // What a kept record satisfies, stated on its own

  predicate LowerIs(v: Value, t: string) {
    v.Str? && ToLower(v.s) == t
  }

  predicate LowerHas(v: Value, q: string) {
    v.Str? && Contains(ToLower(v.s), q)
  }

  predicate SomeTag(p: Object, P: Value -> bool) {
    Get(p, "tags").Arr? && exists i :: 0 <= i < |Get(p, "tags").items| && P(Get(p, "tags").items[i])
  }

  /** A record answers the query: visible to the caller, of the requested
      status, with the tech as tool or tag, and with the search text in its
      title, description or a tag, all without regard to ASCII case. */
  predicate Matches(p: Object, q: Query, isAdmin: bool) {
    && (isAdmin || Get(p, "status") == Str("published"))
    && (Given(q.status) ==> Get(p, "status") == Str(q.status.value))
    && (Given(q.tech) ==>
          LowerIs(Get(p, "tool"), ToLower(q.tech.value))
          || SomeTag(p, v => LowerIs(v, ToLower(q.tech.value))))
    && (Given(q.search) ==>
          LowerHas(Get(p, "title"), ToLower(q.search.value))
          || LowerHas(Get(p, "description"), ToLower(q.search.value))
          || SomeTag(p, v => LowerHas(v, ToLower(q.search.value))))
  }

  lemma TechTestMatches(p: Object, tech: string)
    requires TechTest(p, tech).Some?
    ensures TechTest(p, tech).value <==>
      LowerIs(Get(p, "tool"), ToLower(tech)) || SomeTag(p, v => LowerIs(v, ToLower(tech)))
  {
    var t := ToLower(tech);
    var tags := Get(p, "tags");
    if tags.Arr? {
      var test := v => LowerEquals(v, t);
      assert forall i :: 0 <= i < |tags.items| ==> (test(tags.items[i]) == Some(true) <==> LowerIs(tags.items[i], t));
    }
  }

  lemma SearchTestMatches(p: Object, search: string)
    requires SearchTest(p, search).Some?
    ensures SearchTest(p, search).value <==>
      LowerHas(Get(p, "title"), ToLower(search)) || LowerHas(Get(p, "description"), ToLower(search))
      || SomeTag(p, v => LowerHas(v, ToLower(search)))
  {
    var q := ToLower(search);
    var tags := Get(p, "tags");
    if tags.Arr? {
      var test := v => LowerIncludes(v, q);
      assert forall i :: 0 <= i < |tags.items| ==> (test(tags.items[i]) == Some(true) <==> LowerHas(tags.items[i], q));
    }
  }

  /** When the callback answers, it answers whether the record matches. */
  lemma KeepMatches(p: Object, q: Query, isAdmin: bool)
    requires Keep(p, q, isAdmin).Some?
    ensures Keep(p, q, isAdmin).value <==> Matches(p, q, isAdmin)
  {
    if Given(q.tech) && TechTest(p, q.tech.value).Some? {
      TechTestMatches(p, q.tech.value);
    }
    if Given(q.search) && SearchTest(p, q.search.value).Some? {
      SearchTestMatches(p, q.search.value);
    }
  }

  /** A field that is a string, null or undefined. */
  predicate Lowerable(v: Value) {
    !LowerOf(v).Throws?
  }

  /** The fields the tests lower-case are strings or missing. */
  predicate Plain(p: Object) {
    && Lowerable(Get(p, "tool")) && Lowerable(Get(p, "title")) && Lowerable(Get(p, "description"))
    && (Get(p, "tags").Arr? ==> forall i :: 0 <= i < |Get(p, "tags").items| ==> Lowerable(Get(p, "tags").items[i]))
  }

  /** On a record whose inspected fields are strings or missing, the callback
      never throws. */
  lemma PlainNeverThrows(p: Object, q: Query, isAdmin: bool)
    requires Plain(p)
    ensures Keep(p, q, isAdmin).Some?
  {
    var tags := Get(p, "tags");
    if Given(q.tech) && tags.Arr? {
      var t := ToLower(q.tech.value);
      var test := v => LowerEquals(v, t);
      assert forall i :: 0 <= i < |tags.items| ==> test(tags.items[i]).Some?;
    }
    if Given(q.search) && tags.Arr? {
      var s := ToLower(q.search.value);
      var test := v => LowerIncludes(v, s);
      assert forall i :: 0 <= i < |tags.items| ==> test(tags.items[i]).Some?;
    }
  }

  /** `projects.filter(keep)`: None when a callback throws. */
  function FilterProjects(ps: seq<Object>, q: Query, isAdmin: bool): (r: Option<seq<Object>>)
    ensures r.Some? ==> forall x :: x in r.value ==> x in ps && Keep(x, q, isAdmin) == Some(true)
    ensures r.Some? ==> forall i :: 0 <= i < |ps| && Keep(ps[i], q, isAdmin) == Some(true) ==> ps[i] in r.value
    ensures r.None? <==> exists i :: 0 <= i < |ps| && Keep(ps[i], q, isAdmin).None?
  {
    if ps == [] then Some([])
    else
      assert forall i :: 0 < i < |ps| ==> ps[i] == ps[1..][i - 1];
      match Keep(ps[0], q, isAdmin)
      case None => None
      case Some(k) =>
        match FilterProjects(ps[1..], q, isAdmin)
        case None => None
        case Some(rest) => Some(if k then [ps[0]] + rest else rest)
  }

  /** The records the filter keeps. */
  function Kept(q: Query, isAdmin: bool): Object -> bool {
    p => Keep(p, q, isAdmin) == Some(true)
  }

  /** When no record makes it throw, the filter is `Array.prototype.filter`
      with the kept records' test. */
  lemma {:induction false} FilterProjectsIsFilter(ps: seq<Object>, q: Query, isAdmin: bool)
    requires FilterProjects(ps, q, isAdmin).Some?
    ensures FilterProjects(ps, q, isAdmin).value == Seqs.Filter(Kept(q, isAdmin), ps)
  {
    if ps != [] {
      FilterProjectsIsFilter(ps[1..], q, isAdmin);
    }
  }

  /** The filter keeps the kept records in their original order. */
  lemma FilterProjectsInOrder(ps: seq<Object>, q: Query, isAdmin: bool)
    requires FilterProjects(ps, q, isAdmin).Some?
    ensures Seqs.Subsequence(FilterProjects(ps, q, isAdmin).value, ps)
  {
    FilterProjectsIsFilter(ps, q, isAdmin);
    Seqs.FilterInOrder(Kept(q, isAdmin), ps);
  }

  /** A kept record occurs as often as in the input; any other not at all. */
  lemma FilterProjectsCounts(ps: seq<Object>, q: Query, isAdmin: bool, x: Object)
    requires FilterProjects(ps, q, isAdmin).Some?
    ensures multiset(FilterProjects(ps, q, isAdmin).value)[x] ==
      if Keep(x, q, isAdmin) == Some(true) then multiset(ps)[x] else 0
  {
    FilterProjectsIsFilter(ps, q, isAdmin);
    Seqs.FilterCounts(Kept(q, isAdmin), ps, x);
  }

  // ---------------------------------------------------------------------------
  // The sort

  /** `new Date(a.createdAt) - new Date(b.createdAt)`; NaN counts as equal. */
  function DateAscending(a: Object, b: Object): int {
    if Schema.Timed(a) && Schema.Timed(b) then Schema.TimeOf(a).value - Schema.TimeOf(b).value else 0
  }

  function DateDescending(a: Object, b: Object): int {
    DateAscending(b, a)
  }

  predicate HasTitle(p: Object) {
    Get(p, "title").Str?
  }

  /** `a.title.localeCompare(b.title)`, by character code. */
  function TitleAscending(a: Object, b: Object): int {
    if HasTitle(a) && HasTitle(b) then CompareStrings(Get(a, "title").s, Get(b, "title").s) else 0
  }

  function ComparatorOf(k: SortKey): Sorting.Comparator {
    match k
    case DateDesc => DateDescending
    case DateAsc => DateAscending
    case TitleAsc => TitleAscending
  }

  lemma DatesArePreorders()
    ensures Sorting.TotalPreorderOn(DateAscending, Schema.Timed)
    ensures Sorting.TotalPreorderOn(DateDescending, Schema.Timed)
  {
  }

  lemma TitlesArePreorder()
    ensures Sorting.TotalPreorderOn(TitleAscending, HasTitle)
  {
    forall a, b | HasTitle(a) && HasTitle(b)
      ensures TitleAscending(a, b) <= 0 || TitleAscending(b, a) <= 0
    {
      CompareStringsFlips(Get(a, "title").s, Get(b, "title").s);
    }
    forall a, b, c | HasTitle(a) && HasTitle(b) && HasTitle(c) && TitleAscending(a, b) <= 0 && TitleAscending(b, c) <= 0
      ensures TitleAscending(a, c) <= 0
    {
      CompareStringsTransitive(Get(a, "title").s, Get(b, "title").s, Get(c, "title").s);
    }
  }

  /** The records on which the requested order is a total preorder. */
  function Comparable(k: SortKey): Object -> bool {
    if k == TitleAsc then HasTitle else Schema.Timed
  }

  /** The sorted list is in the requested order: newest first by default,
      oldest first, or by title. */
  lemma SortFollowsKey(f: seq<Object>, k: SortKey)
    requires Sorting.All(f, Comparable(k))
    ensures Sorting.Sorted(Sorting.Sort(f, ComparatorOf(k)), ComparatorOf(k))
  {
    DatesArePreorders();
    TitlesArePreorder();
    Sorting.SortSorted(f, ComparatorOf(k), Comparable(k));
  }

  /** Sorted newest first means creation times never increase. */
  lemma NewestFirst(s: seq<Object>, i: nat, j: nat)
    requires Sorting.Sorted(s, DateDescending) && Sorting.All(s, Schema.Timed)
    requires i < j < |s|
    ensures Schema.TimeOf(s[i]).value >= Schema.TimeOf(s[j]).value
  {
    assert DateDescending(s[i], s[j]) <= 0;
  }

  // ---------------------------------------------------------------------------
  // The page

  /** `filtered.slice((page - 1) * limit, (page - 1) * limit + limit)`. */
  function Paginate(s: seq<Object>, page: int, limit: int): (r: seq<Object>)
    requires page >= 1 && limit >= 1
    ensures |r| <= limit
    ensures forall i :: 0 <= i < |r| ==> (page - 1) * limit + i < |s| && r[i] == s[(page - 1) * limit + i]
    ensures (page - 1) * limit + limit <= |s| ==> |r| == limit
  {
    var start := (page - 1) * limit;
    if start >= |s| then [] else s[start..if start + limit < |s| then start + limit else |s|]
  }

  /** Pages 1 to k, one after the other. */
  function PagesUpTo(s: seq<Object>, k: nat, limit: int): seq<Object>
    requires limit >= 1
  {
    if k == 0 then [] else PagesUpTo(s, k - 1, limit) + Paginate(s, k, limit)
  }

  /** The first k pages are the first k * limit records: pages neither skip
      nor repeat a record. */
  lemma {:induction false} PagesTile(s: seq<Object>, k: nat, limit: int)
    requires limit >= 1
    ensures PagesUpTo(s, k, limit) == s[..if k * limit < |s| then k * limit else |s|]
  {
    if k > 0 {
      PagesTile(s, k - 1, limit);
      var start := (k - 1) * limit;
      assert k * limit == start + limit;
      var a := if start < |s| then start else |s|;
      var b := if start + limit < |s| then start + limit else |s|;
      assert Paginate(s, k, limit) == s[a..b];
      SliceJoin(s, a, b);
    }
  }

  lemma SliceJoin(s: seq<Object>, a: nat, b: nat)
    requires a <= b <= |s|
    ensures s[..a] + s[a..b] == s[..b]
  {
  }

  /** Fifteen records in pages of ten: ten on the first page, five on the
      second, starting with the eleventh. */
  lemma FifteenInPagesOfTen(s: seq<Object>)
    requires |s| == 15
    ensures |Paginate(s, 1, 10)| == 10 && |Paginate(s, 2, 10)| == 5
    ensures Paginate(s, 2, 10)[0] == s[10]
  {
  }

  // ---------------------------------------------------------------------------
  // GET

  /** `W/"<md5 of the JSON>"`; the hash is a parameter. */
  function ETag(hash: string): string {
    "W/\"" + hash + "\""
  }

  /** The page the pipeline computes: filter the listing, sort, slice. None
      when a filter callback throws. */
  function PageOf(items: seq<Object>, q: Query, isAdmin: bool): (r: Option<seq<Object>>)
    requires ValidQuery(q)
  {
    match FilterProjects(Schema.Listing(items), q, isAdmin)
    case None => None
    case Some(f) => Some(Paginate(Sorting.Sort(f, ComparatorOf(q.sort)), q.page, q.limit))
  }

  datatype ListReply =
    | BadQuery
    | NotModified
    | Listed(projects: seq<Object>, etag: string)
    | FetchFailed

  /** `GET(request)`. The parsed query (None when the query schema refuses
      it), the session check, the If-None-Match header and the hash of a page
      are inputs. */
  function ListProjects(items: seq<Object>, query: Option<Query>, isAdmin: bool, ifNoneMatch: Option<string>,
                        hash: seq<Object> -> string): (r: ListReply)
    requires query.Some? ==> ValidQuery(query.value)
    ensures r.BadQuery? <==> query.None?
    ensures r.FetchFailed? <==> query.Some? && PageOf(items, query.value, isAdmin).None?
    ensures r.NotModified? <==>
      && query.Some? && PageOf(items, query.value, isAdmin).Some?
      && ifNoneMatch == Some(ETag(hash(PageOf(items, query.value, isAdmin).value)))
    ensures r.Listed? ==> r.projects == PageOf(items, query.value, isAdmin).value && r.etag == ETag(hash(r.projects))
  {
    if query.None? then BadQuery
    else match PageOf(items, query.value, isAdmin)
      case None => FetchFailed
      case Some(page) =>
        var etag := ETag(hash(page));
        if ifNoneMatch == Some(etag) then NotModified else Listed(page, etag)
  }

  /** A record on a page is a record of the list. */
  lemma OnPage(s: seq<Object>, page: int, limit: int, x: Object)
    requires page >= 1 && limit >= 1 && x in Paginate(s, page, limit)
    ensures x in s
  {
    var r := Paginate(s, page, limit);
    var i :| 0 <= i < |r| && r[i] == x;
  }

  /** The record at index j is on page j / limit + 1. */
  lemma PageOfIndex(s: seq<Object>, j: nat, limit: int)
    requires j < |s| && limit >= 1
    ensures s[j] in Paginate(s, j / limit + 1, limit)
  {
    var page := j / limit + 1;
    assert (page - 1) * limit == j - j % limit;
    assert Paginate(s, page, limit)[j % limit] == s[j];
  }

  /** Sorting keeps exactly the records it was given. */
  lemma InSorted(f: seq<Object>, cmp: Sorting.Comparator, x: Object)
    ensures x in Sorting.Sort(f, cmp) <==> x in f
  {
    assert x in multiset(Sorting.Sort(f, cmp)) <==> x in multiset(f);
  }

  /** Every record on a page is a record of the listing that matches the
      query; in particular a caller without a session sees only published
      records. */
  lemma PageMatches(items: seq<Object>, q: Query, isAdmin: bool, x: Object)
    requires ValidQuery(q) && PageOf(items, q, isAdmin).Some?
    requires x in PageOf(items, q, isAdmin).value
    ensures x in Schema.Listing(items) && Matches(x, q, isAdmin)
    ensures !isAdmin ==> Get(x, "status") == Str("published")
  {
    var f := FilterProjects(Schema.Listing(items), q, isAdmin).value;
    var sorted := Sorting.Sort(f, ComparatorOf(q.sort));
    OnPage(sorted, q.page, q.limit, x);
    InSorted(f, ComparatorOf(q.sort), x);
    KeepMatches(x, q, isAdmin);
  }

  /** A matching record of the list survives the filter. */
  lemma MatchIsKept(ps: seq<Object>, q: Query, isAdmin: bool, x: Object)
    requires FilterProjects(ps, q, isAdmin).Some?
    requires x in ps && Matches(x, q, isAdmin)
    ensures x in FilterProjects(ps, q, isAdmin).value
  {
    var k :| 0 <= k < |ps| && ps[k] == x;
    assert Keep(ps[k], q, isAdmin).Some?;
    KeepMatches(x, q, isAdmin);
  }

  /** Every record of a list is on some page of it. */
  lemma OnSomePage(s: seq<Object>, limit: int, x: Object)
    requires limit >= 1 && x in s
    ensures exists page :: page >= 1 && x in Paginate(s, page, limit)
  {
    var j :| 0 <= j < |s| && s[j] == x;
    var page := j / limit + 1;
    PageOfIndex(s, j, limit);
    assert page >= 1 && x in Paginate(s, page, limit);
  }

  /** Every matching record of the listing is on some page. */
  lemma MatchOnSomePage(items: seq<Object>, q: Query, isAdmin: bool, x: Object)
    requires ValidQuery(q) && PageOf(items, q, isAdmin).Some?
    requires x in Schema.Listing(items) && Matches(x, q, isAdmin)
    ensures exists page :: page >= 1 && x in Paginate(SortedMatches(items, q, isAdmin), page, q.limit)
  {
    var f := FilterProjects(Schema.Listing(items), q, isAdmin).value;
    MatchIsKept(Schema.Listing(items), q, isAdmin, x);
    InSorted(f, ComparatorOf(q.sort), x);
    OnSomePage(SortedMatches(items, q, isAdmin), q.limit, x);
  }

  /** The filtered listing in the requested order, before slicing. */
  function SortedMatches(items: seq<Object>, q: Query, isAdmin: bool): seq<Object>
    requires FilterProjects(Schema.Listing(items), q, isAdmin).Some?
  {
    Sorting.Sort(FilterProjects(Schema.Listing(items), q, isAdmin).value, ComparatorOf(q.sort))
  }

  /** As written, the route calls a query validator that the validation module
      does not define; the call throws inside the try, so every request
      answers 500. */
  function ListProjectsAsWritten(items: seq<Object>, query: Option<Query>, isAdmin: bool,
                                 ifNoneMatch: Option<string>, hash: seq<Object> -> string): (r: ListReply)
    ensures !r.Listed? && !r.NotModified?
  {
    FetchFailed
  }

  /** An empty store with a valid query: the corrected route lists an empty
      page, the route as written fails. */
  lemma MissingValidatorFailsEveryList(q: Query, hash: seq<Object> -> string)
    requires ValidQuery(q)
    ensures ListProjects([], Some(q), false, None, hash) == Listed([], ETag(hash([])))
    ensures ListProjectsAsWritten([], Some(q), false, None, hash) == FetchFailed
  {
    assert Schema.Listing([]) == [];
    assert FilterProjects([], q, false) == Some([]);
    var sorted := Sorting.Sort([], ComparatorOf(q.sort));
    assert |sorted| == 0;
    assert |Paginate(sorted, q.page, q.limit)| == 0;
    assert PageOf([], q, false) == Some([]);
  }

  // ---------------------------------------------------------------------------
  // POST

  datatype CreateReply =
    | CreateRefused(status: nat, message: string)
    | CreateFailed
    | ProjectCreated(records: seq<Object>, project: Object)

  /** `POST(request)`: the origin check, then the session check, both before
      the body is read; then the body schema (data None when it refuses the
      body, answered 400) and createProject, whose throw answers 500. */
  function CreatePost(originOk: bool, authenticated: bool, data: Option<Object>,
                      items: seq<Object>, id: string, now: int): (r: CreateReply)
    ensures !originOk ==> r == CreateRefused(403, "Invalid request origin")
    ensures originOk && !authenticated ==> r == CreateRefused(401, "Unauthorized")
    ensures r.ProjectCreated? ==>
      && originOk && authenticated && data.Some?
      && Store.CreateProject(items, data.value, id, now) == Success(Store.Created(r.records, r.project))
    ensures originOk && authenticated && data.None? ==> r == CreateRefused(400, "Validation failed")
    ensures originOk && authenticated && data.Some? ==>
      (r == CreateFailed <==> Store.CreateProject(items, data.value, id, now).Failure?)
  {
    if !originOk then CreateRefused(403, "Invalid request origin")
    else if !authenticated then CreateRefused(401, "Unauthorized")
    else if data.None? then CreateRefused(400, "Validation failed")
    else match Store.CreateProject(items, data.value, id, now)
      case Failure(_) => CreateFailed
      case Success(c) => ProjectCreated(c.records, c.project)
  }

  /** A request that passes both checks with a body whose title is a
      non-empty string and whose tool is one of the three stores the new
      record after the listed ones. */
  lemma CreatePostStoresRecord(items: seq<Object>, data: Object, id: string, now: int)
    requires id != ""
    requires Schema.IsNonEmptyStr(OrElse(Get(data, "title"), Str(""))) && Schema.IsValidTool(Get(data, "tool"))
    ensures var r := CreatePost(true, true, Some(data), items, id, now);
      && r.ProjectCreated?
      && r.records == Schema.Listing(items) + [r.project]
      && Get(r.project, "id") == Str(id)
  {
    Store.CreateAcceptsExactly(items, data, id, now);
  }
}
