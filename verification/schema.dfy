/**
 How the project store reads its file: every record is brought to the current
 schema, then the list is sorted by the `order` field and, within one order,
 newest first. Also the shape check applied before every write.

 Records are JSON objects; `createdAt` is an integer timestamp in this model.
 */
module Schema {
  import opened Wrappers
  import opened Json
  import Validation
  import Sorting

  // ---------------------------------------------------------------------------
  // isValidProjectShape

  /** `VALID_TOOLS.includes(project.tool)`. */
  predicate IsValidTool(v: Value) {
    v.Str? && v.s in Validation.ValidTools
  }

  /** A non-empty string. */
  predicate IsNonEmptyStr(v: Value) {
    v.Str? && |v.s| > 0
  }

  /** `isValidProjectShape(project)` on an object. */
  predicate IsValidProjectShape(p: Object) {
    && IsNonEmptyStr(Get(p, "id"))
    && IsNonEmptyStr(Get(p, "title"))
    && IsValidTool(Get(p, "tool"))
    && Get(p, "tags").Arr?
    && Get(p, "images").Arr?
    && (Truthy(Get(p, "documents")) ==> Get(p, "documents").Arr?)
  }

  /** The shape check refuses a record without an id, with an empty or
      missing title, with a tool outside the three, or without tag and image
      arrays; it accepts one that has them all. */
  lemma ShapeRequirements(p: Object)
    ensures IsValidProjectShape(p) <==>
      && Get(p, "id").Str? && Get(p, "id").s != ""
      && Get(p, "title").Str? && Get(p, "title").s != ""
      && (Get(p, "tool") == Str("Power BI") || Get(p, "tool") == Str("Tableau") || Get(p, "tool") == Str("Excel"))
      && Get(p, "tags").Arr? && Get(p, "images").Arr?
      && (Get(p, "documents").Arr? || !Truthy(Get(p, "documents")))
  {
  }

  // ---------------------------------------------------------------------------
  // fixProjectSchema

  /** The five keys fixProjectSchema rewrites. */
  const FixedKeys: set<string> := {"tags", "images", "status", "order", "documents"}

  function ArrayOr(v: Value): Value {
    if v.Arr? then v else Arr([])
  }

  /** `fixProjectSchema(project)`: the record spread, with tags, images and
      documents forced to arrays, status to draft or published, and order to
      a number. */
  function FixProjectSchema(p: Object): (r: Object)
    ensures Get(r, "tags").Arr? && Get(r, "images").Arr? && Get(r, "documents").Arr?
    ensures Get(r, "status") == Str("draft") || Get(r, "status") == Str("published")
    ensures Get(r, "order").Num?
    ensures forall k :: k !in FixedKeys ==> (k in r <==> k in p)
    ensures forall k :: k in p && k !in FixedKeys ==> r[k] == p[k]
  {
    p + map[
      "tags" := ArrayOr(Get(p, "tags")),
      "images" := ArrayOr(Get(p, "images")),
      "status" := if StrictEquals(Get(p, "status"), Str("draft")) then Str("draft") else Str("published"),
      "order" := if Get(p, "order").Num? then Get(p, "order") else Num(0),
      "documents" := ArrayOr(Get(p, "documents"))]
  }

  /** The fields fixProjectSchema keeps when they already have the right kind. */
  lemma FixKeepsWellTyped(p: Object)
    ensures Get(p, "tags").Arr? ==> Get(FixProjectSchema(p), "tags") == Get(p, "tags")
    ensures Get(p, "order").Num? ==> Get(FixProjectSchema(p), "order") == Get(p, "order")
    ensures Get(p, "status") == Str("draft") ==> Get(FixProjectSchema(p), "status") == Str("draft")
    ensures Get(p, "order").Undefined? ==> Get(FixProjectSchema(p), "order") == Num(0)
    ensures Get(p, "status").Undefined? ==> Get(FixProjectSchema(p), "status") == Str("published")
  {
  }

  /** A record already in the schema is left as it is. */
  lemma FixOfFixed(p: Object)
    requires Get(p, "tags").Arr? && Get(p, "images").Arr? && Get(p, "documents").Arr?
    requires Get(p, "status") == Str("draft") || Get(p, "status") == Str("published")
    requires Get(p, "order").Num?
    ensures FixProjectSchema(p) == p
  {
    var r := FixProjectSchema(p);
    assert forall k :: k in FixedKeys ==> k in p && r[k] == p[k];
    assert r.Keys == p.Keys;
  }

  /** Applying fixProjectSchema twice gives what applying it once gives. */
  lemma FixIdempotent(p: Object)
    ensures FixProjectSchema(FixProjectSchema(p)) == FixProjectSchema(p)
  {
    FixOfFixed(FixProjectSchema(p));
  }

  /** The shape check depends on the fixed keys only through tags and images,
      which fixing turns into arrays: a record with a valid id, title and tool
      passes once fixed. */
  lemma FixedShape(p: Object)
    ensures IsValidProjectShape(FixProjectSchema(p)) <==>
      IsNonEmptyStr(Get(p, "id")) && IsNonEmptyStr(Get(p, "title")) && IsValidTool(Get(p, "tool"))
  {
    var r := FixProjectSchema(p);
    assert Get(r, "id") == Get(p, "id") && Get(r, "title") == Get(p, "title") && Get(r, "tool") == Get(p, "tool");
  }

  // ---------------------------------------------------------------------------
  // The listing order

  /** The numeric order of a fixed record. */
  function OrderOf(p: Object): int {
    if Get(p, "order").Num? then Get(p, "order").n else 0
  }

  /** The largest magnitude `new Date(ms)` accepts. */
  const MaxTime := 8640000000000000

  /** `new Date(p.createdAt).getTime()`: None stands for NaN, which is also
      what a number beyond MaxTime gives. */
  function TimeOf(p: Object): Option<int> {
    var t := Get(p, "createdAt");
    if t.Num? && -MaxTime <= t.n <= MaxTime then Some(t.n) else None
  }

  /** The comparator of getAllProjects, once the records are fixed: by order
      ascending, then newest first. A NaN difference counts as equal. */
  function Compare(a: Object, b: Object): int {
    if OrderOf(a) != OrderOf(b) then OrderOf(a) - OrderOf(b)
    else if TimeOf(a).Some? && TimeOf(b).Some? then TimeOf(b).value - TimeOf(a).value
    else 0
  }

  /** The stable sort of getAllProjects. */
  function SortProjects(s: seq<Object>): (r: seq<Object>)
    ensures |r| == |s|
    ensures multiset(r) == multiset(s)
  {
    Sorting.Sort(s, Compare)
  }

  /** The comparator looks at the order field first. */
  lemma CompareRespectsOrder()
    ensures Sorting.RespectsKey(Compare, OrderOf)
  {
  }

  /** A creation time that is a number. */
  predicate Timed(p: Object) {
    TimeOf(p).Some?
  }

  /** With numeric creation times, comparing is ordering by (order, -time). */
  lemma CompareAsKey(a: Object, b: Object)
    requires Timed(a) && Timed(b)
    ensures Compare(a, b) <= 0 <==>
      OrderOf(a) < OrderOf(b) || (OrderOf(a) == OrderOf(b) && TimeOf(a).value >= TimeOf(b).value)
  {
  }

  /** On records with numeric times the comparator is a total preorder. A
      NaN time compares equal to everything, which breaks transitivity. */
  lemma CompareIsTotalPreorder()
    ensures Sorting.TotalPreorderOn(Compare, Timed)
  {
  }

  function FixAll(items: seq<Object>): (r: seq<Object>)
    ensures |r| == |items|
    ensures forall i :: 0 <= i < |items| ==> r[i] == FixProjectSchema(items[i])
  {
    seq(|items|, i requires 0 <= i < |items| => FixProjectSchema(items[i]))
  }

  /** `getAllProjects()` on the parsed file: every record fixed, then sorted. */
  function Listing(items: seq<Object>): (r: seq<Object>)
    ensures multiset(r) == multiset(FixAll(items))
  {
    SortProjects(FixAll(items))
  }

  /** The listing is in ascending order of the order field. */
  lemma ListingOrderSorted(items: seq<Object>)
    ensures Sorting.KeySorted(Listing(items), OrderOf)
  {
    CompareRespectsOrder();
    Sorting.SortKeySorted(FixAll(items), Compare, OrderOf);
  }

  /** When every creation time is a number, each pair of the listing is in
      comparator order: ascending order, then newest first. */
  lemma ListingSorted(items: seq<Object>)
    requires Sorting.All(items, Timed)
    ensures Sorting.Sorted(Listing(items), Compare)
  {
    var f := FixAll(items);
    forall i | 0 <= i < |f|
      ensures Timed(f[i])
    {
      assert Get(f[i], "createdAt") == Get(items[i], "createdAt");
    }
    CompareIsTotalPreorder();
    Sorting.SortSorted(f, Compare, Timed);
  }

  /** Sorting the listing again changes nothing, when every creation time is
      a number. */
  lemma ListingResorted(items: seq<Object>)
    requires Sorting.All(items, Timed)
    ensures SortProjects(Listing(items)) == Listing(items)
  {
    ListingSorted(items);
    Sorting.SortSortedIsIdentity(Listing(items), Compare);
  }

  /** Every record of the listing is in the schema. */
  lemma ListingIsFixed(items: seq<Object>, p: Object)
    requires p in Listing(items)
    ensures FixProjectSchema(p) == p
  {
    assert p in multiset(Listing(items));
    var i :| 0 <= i < |FixAll(items)| && FixAll(items)[i] == p;
    FixIdempotent(items[i]);
  }
}
