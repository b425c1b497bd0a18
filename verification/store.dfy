/**
 The project store's operations, on the records of the projects file. Every
 operation reads the file through the listing (records fixed and sorted); the
 ones that write return the records they write, and leave the file as it was
 when they write nothing.

 The uuid, the clock and date rendering are parameters: a new record's id is
 given, and timestamps are integer milliseconds.
 */
module Store {
  import opened Wrappers
  import opened Json
  import Seqs
  import opened Schema

  // ---------------------------------------------------------------------------
  // Lookup

  /** `projects.findIndex(p => p.id === id)`, None for -1. */
  function FindIndex(ps: seq<Object>, id: Value): (r: Option<nat>)
    ensures r.Some? ==> r.value < |ps| && StrictEquals(Get(ps[r.value], "id"), id)
    ensures r.Some? ==> forall j :: 0 <= j < r.value ==> !StrictEquals(Get(ps[j], "id"), id)
    ensures r.None? ==> forall j :: 0 <= j < |ps| ==> !StrictEquals(Get(ps[j], "id"), id)
  {
    if ps == [] then None
    else if StrictEquals(Get(ps[0], "id"), id) then Some(0)
    else
      var r := FindIndex(ps[1..], id);
      if r.Some? then Some(r.value + 1) else None
  }

  /** Two lists whose records carry the same ids, position by position, find
      the same index for every id. */
  lemma {:induction false} FindIndexSameIds(ps: seq<Object>, qs: seq<Object>, id: Value)
    requires |ps| == |qs|
    requires forall j :: 0 <= j < |ps| ==> Get(ps[j], "id") == Get(qs[j], "id")
    ensures FindIndex(ps, id) == FindIndex(qs, id)
  {
    if ps != [] {
      FindIndexSameIds(ps[1..], qs[1..], id);
    }
  }

  /** `getProjectById(id)`: the first listed record with that id. */
  function GetProjectById(items: seq<Object>, id: string): (r: Option<Object>)
    ensures r.Some? ==> r.value in Listing(items) && Get(r.value, "id") == Str(id)
    ensures r.None? ==> forall p :: p in Listing(items) ==> Get(p, "id") != Str(id)
  {
    var ps := Listing(items);
    match FindIndex(ps, Str(id))
    case None => None
    case Some(i) =>
      ListingIsFixed(items, ps[i]);
      Some(FixProjectSchema(ps[i]))
  }

  // ---------------------------------------------------------------------------
  // createProject

  const InvalidProjectData := "Invalid project data: missing required fields"

  /** `projects.reduce((max, p) => Math.max(max, p.order || 0), 0)`. */
  function MaxOrder(ps: seq<Object>): (m: int)
    ensures m >= 0
    ensures forall i :: 0 <= i < |ps| ==> OrderOf(ps[i]) <= m
    ensures m == 0 || exists i :: 0 <= i < |ps| && OrderOf(ps[i]) == m
  {
    if ps == [] then 0
    else
      var rest := MaxOrder(ps[..|ps| - 1]);
      var o := OrderOf(ps[|ps| - 1]);
      if o > rest then o else rest
  }

  /** The record createProject builds from the request data. */
  function NewProject(data: Object, id: string, order: int, now: int): (p: Object)
    ensures Get(p, "id") == Str(id)
    ensures Get(p, "title") == OrElse(Get(data, "title"), Str(""))
    ensures Get(p, "tool") == Get(data, "tool")
    ensures Get(p, "tags").Arr? && Get(p, "images").Arr? && Get(p, "documents").Arr?
    ensures Get(p, "order") == if Get(data, "order").Num? then Get(data, "order") else Num(order + 1)
  {
    map[
      "id" := Str(id),
      "title" := OrElse(Get(data, "title"), Str("")),
      "description" := OrElse(Get(data, "description"), Str("")),
      "tool" := Get(data, "tool"),
      "tags" := ArrayOr(Get(data, "tags")),
      "images" := ArrayOr(Get(data, "images")),
      "video" := OrElse(Get(data, "video"), Null),
      "pdf" := OrElse(Get(data, "pdf"), Null),
      "thumbnail" := OrElse(Get(data, "thumbnail"), Null),
      "status" := if StrictEquals(Get(data, "status"), Str("draft")) then Str("draft") else Str("published"),
      "order" := if Get(data, "order").Num? then Get(data, "order") else Num(order + 1),
      "documents" := ArrayOr(Get(data, "documents")),
      "createdAt" := Num(now),
      "updatedAt" := Num(now)]
  }

  datatype Created = Created(records: seq<Object>, project: Object)

  /** `createProject(projectData)` with the new id and the clock given. */
  function CreateProject(items: seq<Object>, data: Object, id: string, now: int): (r: Result<Created, string>)
    ensures r.Failure? ==> r.error == InvalidProjectData
    ensures r.Success? ==>
      && r.value.records == Listing(items) + [r.value.project]
      && IsValidProjectShape(r.value.project)
      && Get(r.value.project, "id") == Str(id)
  {
    var ps := Listing(items);
    var p := NewProject(data, id, MaxOrder(ps), now);
    if !IsValidProjectShape(p) then Failure(InvalidProjectData)
    else Success(Created(ps + [p], p))
  }

  /** createProject succeeds exactly when the id is non-empty, the title is a
      non-empty string and the tool is one of the three. */
  lemma CreateAcceptsExactly(items: seq<Object>, data: Object, id: string, now: int)
    ensures CreateProject(items, data, id, now).Success? <==>
      id != "" && IsNonEmptyStr(OrElse(Get(data, "title"), Str(""))) && IsValidTool(Get(data, "tool"))
  {
  }

  /** A missing or empty title, or a tool outside the three, appends nothing. */
  lemma CreateRejects(items: seq<Object>, data: Object, id: string, now: int)
    requires Get(data, "title") == Undefined || Get(data, "title") == Str("") || !IsValidTool(Get(data, "tool"))
    ensures CreateProject(items, data, id, now).Failure?
  {
    CreateAcceptsExactly(items, data, id, now);
  }

  /** Without a numeric order in the data, the new record comes after every
      existing one: its order is the largest existing order (at least 0) plus 1. */
  lemma CreateOrdersLast(items: seq<Object>, data: Object, id: string, now: int)
    requires !Get(data, "order").Num?
    requires CreateProject(items, data, id, now).Success?
    ensures var c := CreateProject(items, data, id, now).value;
      && OrderOf(c.project) == MaxOrder(Listing(items)) + 1
      && (forall p :: p in Listing(items) ==> OrderOf(p) < OrderOf(c.project))
      && (OrderOf(c.project) == 1 || exists p :: p in Listing(items) && OrderOf(p) + 1 == OrderOf(c.project))
  {
  }

  /** With a numeric order in the data, the new record keeps it. */
  lemma CreateKeepsGivenOrder(items: seq<Object>, data: Object, id: string, now: int)
    requires Get(data, "order").Num?
    requires CreateProject(items, data, id, now).Success?
    ensures Get(CreateProject(items, data, id, now).value.project, "order") == Get(data, "order")
  {
  }

  // ---------------------------------------------------------------------------
  // updateProject

  /** `normalizeTimestamp(timestamp)`: a usable timestamp is kept, anything
      else becomes now. Date strings are outside this model and become now. */
  function NormalizeTimestamp(ts: Value, now: int): (r: Value)
    ensures r.Num?
    ensures Truthy(ts) && ts.Num? && -MaxTime <= ts.n <= MaxTime ==> r == ts
  {
    if !Truthy(ts) then Num(now)
    else if ts.Num? && -MaxTime <= ts.n <= MaxTime then ts
    else Num(now)
  }

  /** The keys updateProject sets itself after spreading the update. */
  const UpdateOwnKeys: set<string> := {"id", "createdAt", "updatedAt"}

  /** `{...existing, ...updateData, id, createdAt, updatedAt}`, then fixed. */
  function Merge(existing: Object, update: Object, now: int): (r: Object)
    ensures Get(r, "id") == Get(existing, "id")
  {
    FixProjectSchema(existing + update + map[
      "id" := Get(existing, "id"),
      "createdAt" := NormalizeTimestamp(Get(existing, "createdAt"), now),
      "updatedAt" := Num(now)])
  }

  /** `updateProject(id, updateData)`: None when the id is absent or the merged
      record fails the shape check; otherwise the listing with that one record
      replaced. */
  function UpdateProject(items: seq<Object>, id: string, update: Object, now: int): (r: Option<Created>)
    ensures FindIndex(Listing(items), Str(id)).None? ==> r.None?
    ensures r.Some? <==>
      && FindIndex(Listing(items), Str(id)).Some?
      && IsValidProjectShape(Merge(Listing(items)[FindIndex(Listing(items), Str(id)).value], update, now))
  {
    var ps := Listing(items);
    match FindIndex(ps, Str(id))
    case None => None
    case Some(i) =>
      var fixed := Merge(ps[i], update, now);
      if !IsValidProjectShape(fixed) then None
      else Some(Created(ps[i := fixed], fixed))
  }

  /** A successful update keeps the id and replaces only the record found:
      every other record of the listing is written back unchanged. */
  lemma UpdateReplacesOnlyMatch(items: seq<Object>, id: string, update: Object, now: int)
    requires UpdateProject(items, id, update, now).Some?
    ensures var ps := Listing(items);
      var i := FindIndex(ps, Str(id)).value;
      var c := UpdateProject(items, id, update, now).value;
      && |c.records| == |ps|
      && c.records[i] == c.project
      && Get(c.project, "id") == Str(id)
      && IsValidProjectShape(c.project)
      && forall j :: 0 <= j < |ps| && j != i ==> c.records[j] == ps[j]
  {
  }

  /** The update's own fields win over the stored ones, except the id and the
      timestamps; fields it does not mention keep their stored values. */
  lemma UpdateOverlays(items: seq<Object>, id: string, update: Object, now: int, k: string)
    requires UpdateProject(items, id, update, now).Some?
    requires k !in UpdateOwnKeys && k !in FixedKeys
    ensures var ps := Listing(items);
      var stored := ps[FindIndex(ps, Str(id)).value];
      var p := UpdateProject(items, id, update, now).value.project;
      && (k in update ==> Get(p, k) == update[k])
      && (k !in update ==> Get(p, k) == Get(stored, k))
  {
    var ps := Listing(items);
    MergeOverlays(ps[FindIndex(ps, Str(id)).value], update, now, k);
  }

  /** The merge keeps the update's fields over the stored ones, except the
      ones it sets itself and the ones the schema fix rewrites. */
  lemma MergeOverlays(existing: Object, update: Object, now: int, k: string)
    requires k !in UpdateOwnKeys && k !in FixedKeys
    ensures k in update ==> Get(Merge(existing, update, now), k) == update[k]
    ensures k !in update ==> Get(Merge(existing, update, now), k) == Get(existing, k)
  {
    var spread := existing + update + map[
      "id" := Get(existing, "id"),
      "createdAt" := NormalizeTimestamp(Get(existing, "createdAt"), now),
      "updatedAt" := Num(now)];
    assert k in spread <==> k in existing || k in update;
    assert k in update ==> spread[k] == update[k];
    assert k !in update && k in existing ==> spread[k] == existing[k];
  }

  /** An update of a listed record succeeds whenever the merged title and
      tool are acceptable: the id is the one looked up, and the schema fix
      supplies the tag, image and document arrays. */
  lemma UpdateSucceeds(items: seq<Object>, id: string, update: Object, now: int)
    requires id != "" && FindIndex(Listing(items), Str(id)).Some?
    requires var stored := Listing(items)[FindIndex(Listing(items), Str(id)).value];
      && IsNonEmptyStr(if "title" in update then update["title"] else Get(stored, "title"))
      && IsValidTool(if "tool" in update then update["tool"] else Get(stored, "tool"))
    ensures UpdateProject(items, id, update, now).Some?
  {
    var ps := Listing(items);
    var stored := ps[FindIndex(ps, Str(id)).value];
    MergeHasShape(stored, update, now);
  }

  /** The merged record has the stored id and the arrays of the schema fix,
      so its title and tool decide the shape check. */
  lemma MergeHasShape(stored: Object, update: Object, now: int)
    requires IsNonEmptyStr(Get(stored, "id"))
    requires IsNonEmptyStr(if "title" in update then update["title"] else Get(stored, "title"))
    requires IsValidTool(if "tool" in update then update["tool"] else Get(stored, "tool"))
    ensures IsValidProjectShape(Merge(stored, update, now))
  {
    MergeOverlays(stored, update, now, "title");
    MergeOverlays(stored, update, now, "tool");
    var m := Merge(stored, update, now);
    assert Get(m, "id") == Get(stored, "id");
    assert Get(m, "tags").Arr? && Get(m, "images").Arr? && Get(m, "documents").Arr?;
  }

  /** An update that cannot name another id: asking to change the id is
      ignored. */
  lemma UpdateIgnoresNewId(items: seq<Object>, id: string, update: Object, now: int)
    requires "id" in update && update["id"] != Str(id)
    requires UpdateProject(items, id, update, now).Some?
    ensures Get(UpdateProject(items, id, update, now).value.project, "id") == Str(id)
  {
  }

  // ---------------------------------------------------------------------------
  // deleteProject

  /** `ps.filter(p => p.id !== id)`. */
  function WithoutId(ps: seq<Object>, id: Value): (r: seq<Object>)
    ensures |r| <= |ps|
  {
    if ps == [] then []
    else (if StrictEquals(Get(ps[0], "id"), id) then [] else [ps[0]]) + WithoutId(ps[1..], id)
  }

  /** The test of deleteProject's filter. */
  function OtherId(id: Value): Object -> bool {
    p => !StrictEquals(Get(p, "id"), id)
  }

  /** The recursive filter is `Array.prototype.filter` with that test. */
  lemma {:induction false} WithoutIdIsFilter(ps: seq<Object>, id: Value)
    ensures WithoutId(ps, id) == Seqs.Filter(OtherId(id), ps)
  {
    if ps != [] {
      WithoutIdIsFilter(ps[1..], id);
    }
  }

  /** Deleting keeps the remaining records in their order. */
  lemma WithoutIdInOrder(ps: seq<Object>, id: Value)
    ensures Seqs.Subsequence(WithoutId(ps, id), ps)
  {
    WithoutIdIsFilter(ps, id);
    Seqs.FilterInOrder(OtherId(id), ps);
  }

  /** A record with another id occurs as often as before; a record with the
      id not at all. */
  lemma WithoutIdCounts(ps: seq<Object>, id: Value, x: Object)
    ensures multiset(WithoutId(ps, id))[x] == if StrictEquals(Get(x, "id"), id) then 0 else multiset(ps)[x]
  {
    WithoutIdIsFilter(ps, id);
    Seqs.FilterCounts(OtherId(id), ps, x);
  }

  /** The filter keeps exactly the records whose id differs. */
  lemma {:induction false} WithoutIdMembers(ps: seq<Object>, id: Value)
    ensures forall p :: p in WithoutId(ps, id) <==> p in ps && !StrictEquals(Get(p, "id"), id)
  {
    if ps != [] {
      WithoutIdMembers(ps[1..], id);
      assert forall p :: p in ps <==> p == ps[0] || p in ps[1..];
    }
  }

  /** Whether the store was written, and what it holds afterwards. */
  datatype Written = Written(changed: bool, records: seq<Object>)

  /** `deleteProject(id)`: false, writing nothing, when no record has the id;
      otherwise the listing without the records carrying it. */
  function DeleteProject(items: seq<Object>, id: string): (r: Written)
    ensures !r.changed <==> FindIndex(Listing(items), Str(id)).None?
    ensures !r.changed ==> r.records == items
    ensures r.changed ==> r.records == WithoutId(Listing(items), Str(id))
  {
    var ps := Listing(items);
    if FindIndex(ps, Str(id)).None? then Written(false, items)
    else Written(true, WithoutId(ps, Str(id)))
  }

  /** Ids are unique in a list. */
  predicate UniqueIds(ps: seq<Object>) {
    forall i, j :: 0 <= i < j < |ps| && Get(ps[i], "id").Str? ==> Get(ps[i], "id") != Get(ps[j], "id")
  }

  /** With unique ids, filtering out a present id removes exactly one record
      and keeps the others in order. */
  lemma {:induction false} WithoutPresentId(ps: seq<Object>, i: nat)
    requires UniqueIds(ps) && i < |ps| && Get(ps[i], "id").Str?
    ensures WithoutId(ps, Get(ps[i], "id")) == ps[..i] + ps[i + 1..]
  {
    var id := Get(ps[i], "id");
    var before, after := ps[..i], ps[i + 1..];
    assert forall j :: 0 <= j < |before| ==> before[j] == ps[j];
    assert forall j :: 0 <= j < |after| ==> after[j] == ps[i + 1 + j];
    WithoutOne(before, ps[i], after);
    assert ps == before + ([ps[i]] + after);
  }

  /** Filtering out the id of x from before + [x] + after, where no other
      record carries it, leaves before + after. */
  lemma WithoutOne(before: seq<Object>, x: Object, after: seq<Object>)
    requires forall j :: 0 <= j < |before| ==> Get(before[j], "id") != Get(x, "id")
    requires forall j :: 0 <= j < |after| ==> Get(after[j], "id") != Get(x, "id")
    requires Get(x, "id").Str?
    ensures WithoutId(before + ([x] + after), Get(x, "id")) == before + after
  {
    var id := Get(x, "id");
    WithoutIdConcat(before, [x] + after, id);
    WithoutIdConcat([x], after, id);
    assert WithoutId([x], id) == [] by {
      assert StrictEquals(Get(x, "id"), id);
      assert [x][1..] == [];
    }
    WithoutAbsentId(before, id);
    WithoutAbsentId(after, id);
    assert WithoutId([x] + after, id) == after by {
      assert [] + after == after;
    }
  }

  lemma {:induction false} WithoutIdConcat(a: seq<Object>, b: seq<Object>, id: Value)
    ensures WithoutId(a + b, id) == WithoutId(a, id) + WithoutId(b, id)
  {
    if a == [] {
      assert a + b == b;
    } else {
      assert (a + b)[1..] == a[1..] + b;
      WithoutIdConcat(a[1..], b, id);
    }
  }

  lemma {:induction false} WithoutAbsentId(ps: seq<Object>, id: Value)
    requires forall j :: 0 <= j < |ps| ==> Get(ps[j], "id") != id
    ensures WithoutId(ps, id) == ps
  {
    if ps != [] {
      WithoutAbsentId(ps[1..], id);
      assert [ps[0]] + ps[1..] == ps;
    }
  }

  // ---------------------------------------------------------------------------
  // updateProjectOrder

  /** One normalised entry of a reorder request. */
  datatype OrderItem = OrderItem(id: Value, order: int)

  /** One step of the forEach: the first record with the item's id takes the
      item's order if it differs. */
  function ApplyOrder(ps: seq<Object>, item: OrderItem): (r: Written)
    ensures |r.records| == |ps|
    ensures !r.changed ==> r.records == ps
    ensures r.changed <==>
      FindIndex(ps, item.id).Some? && OrderOf(ps[FindIndex(ps, item.id).value]) != item.order
    ensures r.changed ==>
      var i := FindIndex(ps, item.id).value;
      && Get(r.records[i], "order") == Num(item.order)
      && (forall k :: k != "order" ==> Get(r.records[i], k) == Get(ps[i], k))
      && (forall j :: 0 <= j < |ps| && j != i ==> r.records[j] == ps[j])
  {
    match FindIndex(ps, item.id)
    case Some(i) =>
      if OrderOf(ps[i]) != item.order then Written(true, ps[i := ps[i]["order" := Num(item.order)]])
      else Written(false, ps)
    case None => Written(false, ps)
  }

  /** The whole forEach, item by item. */
  function ApplyOrders(ps: seq<Object>, items: seq<OrderItem>): (r: Written)
    ensures |r.records| == |ps|
    decreases |items|
  {
    if items == [] then Written(false, ps)
    else
      var first := ApplyOrder(ps, items[0]);
      var rest := ApplyOrders(first.records, items[1..]);
      Written(first.changed || rest.changed, rest.records)
  }

  /** Records that differ at most in their order field. */
  ghost predicate SameExceptOrder(a: Object, b: Object) {
    forall k :: k != "order" ==> (k in a <==> k in b) && (k in a ==> a[k] == b[k])
  }

  /** Reordering touches nothing but order fields, and sets nothing when no
      order differs. */
  lemma {:induction false} ApplyOrdersOnlyOrders(ps: seq<Object>, items: seq<OrderItem>)
    decreases |items|
    ensures var r := ApplyOrders(ps, items);
      && (forall j :: 0 <= j < |ps| ==> SameExceptOrder(r.records[j], ps[j]))
      && (!r.changed ==> r.records == ps)
  {
    if items != [] {
      var first := ApplyOrder(ps, items[0]);
      ApplyOrdersOnlyOrders(first.records, items[1..]);
    }
  }

  /** A record whose id no item names keeps its order. */
  lemma {:induction false} ApplyOrdersIgnoresUnnamed(ps: seq<Object>, items: seq<OrderItem>, j: nat)
    requires j < |ps|
    requires forall k :: 0 <= k < |items| ==> !StrictEquals(Get(ps[j], "id"), items[k].id)
    ensures ApplyOrders(ps, items).records[j] == ps[j]
    decreases |items|
  {
    if items != [] {
      var first := ApplyOrder(ps, items[0]);
      assert first.records[j] == ps[j];
      ApplyOrdersIgnoresUnnamed(first.records, items[1..], j);
    }
  }

  /** With the items' ids distinct, the first record carrying an item's id ends
      with that item's order. */
  lemma {:induction false} ApplyOrdersSets(ps: seq<Object>, items: seq<OrderItem>, k: nat, i: nat)
    requires k < |items|
    requires forall a, b :: 0 <= a < b < |items| ==> !StrictEquals(items[a].id, items[b].id)
    requires FindIndex(ps, items[k].id) == Some(i)
    ensures OrderOf(ApplyOrders(ps, items).records[i]) == items[k].order
    decreases |items|
  {
    var first := ApplyOrder(ps, items[0]);
    FindIndexSameIds(ps, first.records, items[k].id);
    if k == 0 {
      assert OrderOf(first.records[i]) == items[0].order;
      forall m | 0 <= m < |items[1..]|
        ensures !StrictEquals(Get(first.records[i], "id"), items[1..][m].id)
      {
        assert items[1..][m] == items[m + 1];
      }
      ApplyOrdersIgnoresUnnamed(first.records, items[1..], i);
    } else {
      assert items[1..][k - 1] == items[k];
      ApplyOrdersSets(first.records, items[1..], k - 1, i);
    }
  }

  /** `updateProjectOrder(reorderedProjects)`: the listing with the new orders
      is written only when some order changed. */
  function UpdateProjectOrder(items: seq<Object>, reordered: seq<OrderItem>): (r: Written)
    ensures !r.changed ==> r.records == items
    ensures r.changed ==> |r.records| == |items|
  {
    var applied := ApplyOrders(Listing(items), reordered);
    if applied.changed then Written(true, applied.records) else Written(false, items)
  }

  // ---------------------------------------------------------------------------
  // getProjectsByTool and getAllTags

  /** `getProjectsByTool(tool)`: the listed records with that tool, in listing
      order. */
  function GetProjectsByTool(items: seq<Object>, tool: string): (r: seq<Object>)
    ensures forall p :: p in r <==> p in Listing(items) && Get(p, "tool") == Str(tool)
  {
    WithTool(Listing(items), tool)
  }

  function WithTool(ps: seq<Object>, tool: string): (r: seq<Object>)
    ensures forall p :: p in r <==> p in ps && Get(p, "tool") == Str(tool)
  {
    if ps == [] then []
    else (if Get(ps[0], "tool") == Str(tool) then [ps[0]] else []) + WithTool(ps[1..], tool)
  }

  /** The test of getProjectsByTool's filter. */
  function ToolIs(tool: string): Object -> bool {
    p => Get(p, "tool") == Str(tool)
  }

  /** The recursive filter is `Array.prototype.filter` with that test. */
  lemma {:induction false} WithToolIsFilter(ps: seq<Object>, tool: string)
    ensures WithTool(ps, tool) == Seqs.Filter(ToolIs(tool), ps)
  {
    if ps != [] {
      WithToolIsFilter(ps[1..], tool);
    }
  }

  /** `getProjectsByTool` is the listing's filter: the listed records with
      the tool, in listing order, each as often as it is listed. */
  lemma GetProjectsByToolIsFilter(items: seq<Object>, tool: string, x: Object)
    ensures Seqs.Subsequence(GetProjectsByTool(items, tool), Listing(items))
    ensures multiset(GetProjectsByTool(items, tool))[x] ==
      if Get(x, "tool") == Str(tool) then multiset(Listing(items))[x] else 0
  {
    WithToolIsFilter(Listing(items), tool);
    Seqs.FilterInOrder(ToolIs(tool), Listing(items));
    Seqs.FilterCounts(ToolIs(tool), Listing(items), x);
  }

  /** `tags.add(tag)` on a Set kept as its insertion-ordered contents. A Set
      compares arrays and objects by reference, and two elements parsed from
      JSON are never the same reference, so those are always added. */
  function AddTag(acc: seq<Value>, t: Value): (r: seq<Value>)
    ensures forall v :: v in r <==> v in acc || v == t
  {
    if !t.Arr? && !t.Obj? && t in acc then acc else acc + [t]
  }

  function AddTags(acc: seq<Value>, ts: seq<Value>): (r: seq<Value>)
    ensures forall v :: v in r <==> v in acc || v in ts
    decreases |ts|
  {
    if ts == [] then acc else AddTags(AddTag(acc, ts[0]), ts[1..])
  }

  /** The tags of a record, when it has a tags array. */
  function TagsOf(p: Object): seq<Value> {
    if Get(p, "tags").Arr? then Get(p, "tags").items else []
  }

  function CollectTags(acc: seq<Value>, ps: seq<Object>): (r: seq<Value>)
    ensures forall v :: v in r <==> v in acc || exists p :: p in ps && v in TagsOf(p)
    decreases |ps|
  {
    if ps == [] then acc
    else
      var r := CollectTags(AddTags(acc, TagsOf(ps[0])), ps[1..]);
      assert forall p :: p in ps <==> p == ps[0] || p in ps[1..];
      r
  }

  /** `getAllTags()`: every tag of every listed record. */
  function GetAllTags(items: seq<Object>): (r: seq<Value>)
    ensures forall v :: v in r <==> exists p :: p in Listing(items) && v in TagsOf(p)
  {
    CollectTags([], Listing(items))
  }

  /** No tag other than an array or object appears twice. */
  predicate NoRepeats(s: seq<Value>) {
    forall i, j :: 0 <= i < j < |s| && !s[i].Arr? && !s[i].Obj? ==> s[i] != s[j]
  }

  lemma AddTagNoRepeats(acc: seq<Value>, t: Value)
    requires NoRepeats(acc)
    ensures NoRepeats(AddTag(acc, t))
  {
  }

  lemma {:induction false} AddTagsNoRepeats(acc: seq<Value>, ts: seq<Value>)
    requires NoRepeats(acc)
    ensures NoRepeats(AddTags(acc, ts))
    decreases |ts|
  {
    if ts != [] {
      AddTagNoRepeats(acc, ts[0]);
      AddTagsNoRepeats(AddTag(acc, ts[0]), ts[1..]);
    }
  }

  lemma {:induction false} CollectTagsNoRepeats(acc: seq<Value>, ps: seq<Object>)
    requires NoRepeats(acc)
    ensures NoRepeats(CollectTags(acc, ps))
    decreases |ps|
  {
    if ps != [] {
      AddTagsNoRepeats(acc, TagsOf(ps[0]));
      CollectTagsNoRepeats(AddTags(acc, TagsOf(ps[0])), ps[1..]);
    }
  }

  /** getAllTags lists each string, number or other primitive tag once. */
  lemma AllTagsOnce(items: seq<Object>)
    ensures NoRepeats(GetAllTags(items))
  {
    CollectTagsNoRepeats([], Listing(items));
  }
}
