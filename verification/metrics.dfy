/**
 The dashboard metrics: counts over the published projects, the configured
 stats, and a five-second cache in front of the computation.
 */
module Metrics {
  import opened Wrappers
  import opened Json
  import Validation
  import Schema
  import SiteConfig
  import Seqs

  // ---------------------------------------------------------------------------
  // Counting over a list of records

  /** The sum of f over the records. */
  function Sum(s: seq<Object>, f: Object -> nat): nat {
    if s == [] then 0 else f(s[0]) + Sum(s[1..], f)
  }

  lemma {:induction false} SumConcat(s: seq<Object>, t: seq<Object>, f: Object -> nat)
    ensures Sum(s + t, f) == Sum(s, f) + Sum(t, f)
  {
    if s == [] {
      assert s + t == t;
    } else {
      assert (s + t)[1..] == s[1..] + t;
      SumConcat(s[1..], t, f);
    }
  }

  /** A sum does not depend on the order of the records. */
  lemma {:induction false} SumPermutation(s: seq<Object>, t: seq<Object>, f: Object -> nat)
    requires multiset(s) == multiset(t)
    ensures Sum(s, f) == Sum(t, f)
    decreases |s|
  {
    if s == [] {
      assert |t| == |multiset(t)| == 0;
    } else {
      var x := s[0];
      assert x in multiset(t);
      var j :| 0 <= j < |t| && t[j] == x;
      var rest := t[..j] + t[j + 1..];
      RemoveAtMultiset(t, j);
      assert s == [x] + s[1..];
      assert multiset(s[1..]) == multiset(s) - multiset{x};
      SumPermutation(s[1..], rest, f);
      SumRemoveAt(t, j, f);
    }
  }

  lemma RemoveAtMultiset(t: seq<Object>, j: nat)
    requires j < |t|
    ensures multiset(t[..j] + t[j + 1..]) == multiset(t) - multiset{t[j]}
  {
    assert t == t[..j] + [t[j]] + t[j + 1..];
  }

  lemma SumRemoveAt(t: seq<Object>, j: nat, f: Object -> nat)
    requires j < |t|
    ensures Sum(t, f) == f(t[j]) + Sum(t[..j] + t[j + 1..], f)
  {
    var tail := [t[j]] + t[j + 1..];
    assert t == t[..j] + tail;
    SumConcat(t[..j], tail, f);
    assert tail[1..] == t[j + 1..];
    SumConcat(t[..j], t[j + 1..], f);
  }

  // ---------------------------------------------------------------------------
  // calculateMetrics

  /** `p.status === 'published'`. */
  predicate IsPublished(p: Object) {
    Get(p, "status") == Str("published")
  }

  /** The key `toolCounts[p.tool]` looks up, when it is one of the three
      counters: a tool name, or an array holding one element that converts to
      one (String(["Excel"]) is "Excel"). Every other value converts to a key
      that is not a counter, and incrementing such a key leaves the counters
      alone. */
  function ToolName(v: Value): (r: Option<string>)
    ensures r.Some? ==> r.value in Validation.ValidTools
    ensures v.Str? ==> (r.Some? <==> v.s in Validation.ValidTools)
  {
    match v
    case Str(s) => if s in Validation.ValidTools then Some(s) else None
    case Arr(items) => if |items| == 1 then ToolName(items[0]) else None
    case _ => None
  }

  function PublishedWeight(p: Object): nat {
    if IsPublished(p) then 1 else 0
  }

  function ToolWeight(p: Object, tool: string): nat {
    if IsPublished(p) && ToolName(Get(p, "tool")) == Some(tool) then 1 else 0
  }

  function PowerBIWeight(p: Object): nat { ToolWeight(p, "Power BI") }
  function TableauWeight(p: Object): nat { ToolWeight(p, "Tableau") }
  function ExcelWeight(p: Object): nat { ToolWeight(p, "Excel") }

  /** `Array.isArray(v) ? v.length : 0`. */
  function LengthOr0(v: Value): nat {
    if v.Arr? then |v.items| else 0
  }

  function ImagesWeight(p: Object): nat {
    if IsPublished(p) then LengthOr0(Get(p, "images")) else 0
  }

  function DocumentsWeight(p: Object): nat {
    if IsPublished(p) then LengthOr0(Get(p, "documents")) else 0
  }

  function VideoWeight(p: Object): nat {
    if IsPublished(p) && Truthy(Get(p, "video")) then 1 else 0
  }

  function PdfWeight(p: Object): nat {
    if IsPublished(p) && Truthy(Get(p, "pdf")) then 1 else 0
  }

  /** A sum of a weight that is zero outside `keep` is the sum over the
      records `keep` accepts. */
  lemma {:induction false} SumOfFilter(s: seq<Object>, keep: Object -> bool, f: Object -> nat, g: Object -> nat)
    requires forall p :: g(p) == if keep(p) then f(p) else 0
    ensures Sum(s, g) == Sum(Seqs.Filter(keep, s), f)
  {
    if s != [] {
      SumOfFilter(s[1..], keep, f, g);
      var head := if keep(s[0]) then [s[0]] else [];
      SumConcat(head, Seqs.Filter(keep, s[1..]), f);
      if keep(s[0]) {
        assert head[1..] == [];
      }
    }
  }

  /** Summing an indicator counts the records it accepts. */
  lemma {:induction false} CountOfFilter(s: seq<Object>, keep: Object -> bool, g: Object -> nat)
    requires forall p :: g(p) == if keep(p) then 1 else 0
    ensures Sum(s, g) == |Seqs.Filter(keep, s)|
  {
    if s != [] {
      CountOfFilter(s[1..], keep, g);
    }
  }

  /** Summing the indicator of `outer` and `inner` counts the records `inner`
      accepts among those `outer` accepts. */
  lemma CountOfNestedFilter(s: seq<Object>, outer: Object -> bool, inner: Object -> bool, g: Object -> nat)
    requires forall p :: g(p) == if outer(p) && inner(p) then 1 else 0
    ensures Sum(s, g) == |Seqs.Filter(inner, Seqs.Filter(outer, s))|
  {
    var one: Object -> nat := p => if inner(p) then 1 else 0;
    SumOfFilter(s, outer, one, g);
    CountOfFilter(Seqs.Filter(outer, s), inner, one);
  }

  /** `projects.filter(p => p.status === 'published')`. */
  function Published(projects: seq<Object>): seq<Object> {
    Seqs.Filter(IsPublished, projects)
  }

  /** `toolCounts[p.tool]` is the named counter. */
  predicate NamesPowerBI(p: Object) { ToolName(Get(p, "tool")) == Some("Power BI") }
  predicate NamesTableau(p: Object) { ToolName(Get(p, "tool")) == Some("Tableau") }
  predicate NamesExcel(p: Object) { ToolName(Get(p, "tool")) == Some("Excel") }

  /** `if (p.video)` and `if (p.pdf)`. */
  predicate HasVideo(p: Object) { Truthy(Get(p, "video")) }
  predicate HasPdf(p: Object) { Truthy(Get(p, "pdf")) }

  /** The images and documents one record adds. */
  function ImagesOf(p: Object): nat { LengthOr0(Get(p, "images")) }
  function DocumentsOf(p: Object): nat { LengthOr0(Get(p, "documents")) }

  datatype Metrics = Metrics(
    totalProjects: nat,
    powerBI: nat, tableau: nat, excel: nat,
    totalImages: nat, totalVideos: nat, totalPdfs: nat, totalDocuments: nat, totalMedia: nat,
    experienceYears: Value, customStats: Value)

  /** The three tool counters together never exceed the published count. */
  lemma {:induction false} ToolCountsBounded(s: seq<Object>)
    ensures Sum(s, PowerBIWeight) + Sum(s, TableauWeight) + Sum(s, ExcelWeight) <= Sum(s, PublishedWeight)
  {
    if s != [] {
      ToolCountsBounded(s[1..]);
    }
  }

  /** When every published record names a tool, the counters add up to the
      published count. */
  lemma {:induction false} ToolCountsComplete(s: seq<Object>)
    requires forall i :: 0 <= i < |s| && IsPublished(s[i]) ==> ToolName(Get(s[i], "tool")).Some?
    ensures Sum(s, PowerBIWeight) + Sum(s, TableauWeight) + Sum(s, ExcelWeight) == Sum(s, PublishedWeight)
  {
    if s != [] {
      assert forall i :: 0 <= i < |s[1..]| ==> s[1..][i] == s[i + 1];
      ToolCountsComplete(s[1..]);
    }
  }

  /** A count of published records with some property is at most the
      published count. */
  lemma {:induction false} FlagsBounded(s: seq<Object>)
    ensures Sum(s, VideoWeight) <= Sum(s, PublishedWeight)
    ensures Sum(s, PdfWeight) <= Sum(s, PublishedWeight)
  {
    if s != [] {
      FlagsBounded(s[1..]);
    }
  }

  /** The metrics of a list of records under a configuration. */
  function Calculate(projects: seq<Object>, config: Object): (m: Metrics)
    ensures m.totalProjects == |Published(projects)|
    ensures m.powerBI == |Seqs.Filter(NamesPowerBI, Published(projects))|
    ensures m.tableau == |Seqs.Filter(NamesTableau, Published(projects))|
    ensures m.excel == |Seqs.Filter(NamesExcel, Published(projects))|
    ensures m.totalVideos == |Seqs.Filter(HasVideo, Published(projects))|
    ensures m.totalPdfs == |Seqs.Filter(HasPdf, Published(projects))|
    ensures m.totalImages == Sum(Published(projects), ImagesOf)
    ensures m.totalDocuments == Sum(Published(projects), DocumentsOf)
    ensures m.powerBI + m.tableau + m.excel <= m.totalProjects
    ensures m.totalVideos <= m.totalProjects && m.totalPdfs <= m.totalProjects
    ensures m.totalMedia == m.totalImages + m.totalVideos + m.totalPdfs + m.totalDocuments
    ensures m.experienceYears == Get(config, "experience")
    ensures Truthy(Get(config, "customStats")) ==> m.customStats == Get(config, "customStats")
    ensures !Truthy(Get(config, "customStats")) ==> m.customStats == Arr([])
  {
    ToolCountsBounded(projects);
    FlagsBounded(projects);
    CountOfFilter(projects, IsPublished, PublishedWeight);
    CountOfNestedFilter(projects, IsPublished, NamesPowerBI, PowerBIWeight);
    CountOfNestedFilter(projects, IsPublished, NamesTableau, TableauWeight);
    CountOfNestedFilter(projects, IsPublished, NamesExcel, ExcelWeight);
    CountOfNestedFilter(projects, IsPublished, HasVideo, VideoWeight);
    CountOfNestedFilter(projects, IsPublished, HasPdf, PdfWeight);
    SumOfFilter(projects, IsPublished, ImagesOf, ImagesWeight);
    SumOfFilter(projects, IsPublished, DocumentsOf, DocumentsWeight);
    var images := Sum(projects, ImagesWeight);
    var videos := Sum(projects, VideoWeight);
    var pdfs := Sum(projects, PdfWeight);
    var documents := Sum(projects, DocumentsWeight);
    Metrics(
      Sum(projects, PublishedWeight),
      Sum(projects, PowerBIWeight), Sum(projects, TableauWeight), Sum(projects, ExcelWeight),
      images, videos, pdfs, documents, images + videos + pdfs + documents,
      Get(config, "experience"), OrElse(Get(config, "customStats"), Arr([])))
  }

  /** `calculateMetrics()`: over the store's listing and the configuration
      getConfig reads. */
  function CalculateMetrics(items: seq<Object>, parsedConfig: Option<Value>): (m: Metrics)
    ensures m.experienceYears.Num? && m.customStats.Arr?
    ensures m.totalProjects <= |items|
  {
    var listing := Schema.Listing(items);
    SumPermutation(listing, Schema.FixAll(items), PublishedWeight);
    WeightAtMostOne(Schema.FixAll(items), PublishedWeight);
    Calculate(listing, SiteConfig.GetConfig(parsedConfig))
  }

  lemma {:induction false} WeightAtMostOne(s: seq<Object>, f: Object -> nat)
    requires forall p :: f(p) <= 1
    ensures Sum(s, f) <= |s|
  {
    if s != [] {
      WeightAtMostOne(s[1..], f);
    }
  }

  /** The metrics do not depend on the order of the store's records: the
      listing gives what the fixed records give in file order. */
  lemma CalculateMetricsIgnoresOrder(items: seq<Object>, parsedConfig: Option<Value>)
    ensures CalculateMetrics(items, parsedConfig) == Calculate(Schema.FixAll(items), SiteConfig.GetConfig(parsedConfig))
  {
    var s := Schema.Listing(items);
    var t := Schema.FixAll(items);
    SumPermutation(s, t, PublishedWeight);
    SumPermutation(s, t, PowerBIWeight);
    SumPermutation(s, t, TableauWeight);
    SumPermutation(s, t, ExcelWeight);
    SumPermutation(s, t, ImagesWeight);
    SumPermutation(s, t, VideoWeight);
    SumPermutation(s, t, PdfWeight);
    SumPermutation(s, t, DocumentsWeight);
  }

  /** Once fixed, a record counts as published unless its status is exactly
      "draft": a missing or unknown status is published. */
  lemma FixedIsPublished(p: Object)
    ensures IsPublished(Schema.FixProjectSchema(p)) <==> Get(p, "status") != Str("draft")
  {
  }

  // ---------------------------------------------------------------------------
  // getMetrics and invalidateMetricsCache

  const CacheTtl := 5000

  /** `metricsCache` and `lastCacheTime`. */
  datatype Cache = Cache(metrics: Option<Metrics>, lastTime: int)

  const EmptyCache := Cache(None, 0)

  /** The all-zero answer used when the computation throws. */
  const Zero := Metrics(0, 0, 0, 0, 0, 0, 0, 0, 0, Num(0), Arr([]))

  datatype Served = Served(cache: Cache, metrics: Metrics)

  /** The cached metrics are served when not forced, present and younger than
      the TTL. */
  predicate Fresh(cache: Cache, force: bool, now: int) {
    !force && cache.metrics.Some? && now - cache.lastTime < CacheTtl
  }

  /** `getMetrics(forceRefresh)` at time now. `computed` is what
      calculateMetrics returns, None when it throws. */
  function GetMetrics(cache: Cache, force: bool, now: int, computed: Option<Metrics>): (r: Served)
    ensures Fresh(cache, force, now) ==> r == Served(cache, cache.metrics.value)
    ensures !Fresh(cache, force, now) && computed.Some? ==>
      r.metrics == computed.value && r.cache == Cache(computed, now)
    ensures !Fresh(cache, force, now) && computed.None? ==> r == Served(cache, Zero)
  {
    if Fresh(cache, force, now) then Served(cache, cache.metrics.value)
    else if computed.Some? then Served(Cache(computed, now), computed.value)
    else Served(cache, Zero)
  }

  /** Within the TTL of a recomputation, an unforced call answers the same
      metrics, whatever a new computation would give. */
  lemma CacheServesWithinTtl(cache: Cache, force: bool, t: int, m: Metrics, later: int, next: Option<Metrics>)
    requires t <= later < t + CacheTtl
    ensures var first := GetMetrics(cache, true, t, Some(m));
      GetMetrics(first.cache, false, later, next).metrics == m
  {
  }

  /** Once the TTL has passed, the next call recomputes. */
  lemma CacheExpires(cache: Cache, now: int, m: Metrics)
    requires now - cache.lastTime >= CacheTtl
    ensures GetMetrics(cache, false, now, Some(m)).metrics == m
  {
  }

  /** `invalidateMetricsCache()`. */
  function InvalidateMetricsCache(cache: Cache): (r: Cache)
    ensures forall force, now, computed ::
      (!Fresh(r, force, now) && GetMetrics(r, force, now, computed).metrics == computed.GetOr(Zero))
  {
    EmptyCache
  }

  /** A failed computation leaves the cache as it was: a stale entry stays
      for the next call to find. */
  lemma FailureKeepsCache(cache: Cache, force: bool, now: int)
    ensures GetMetrics(cache, force, now, None).cache == cache
  {
  }
}
