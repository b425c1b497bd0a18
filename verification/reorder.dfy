/**
 The drag-and-drop reorder endpoint (PUT /api/projects/reorder): its guards
 and the normalisation of the `{ id, order }` list it hands to the store.
 */
module ReorderRoute {
  import opened Wrappers
  import opened Json
  import Store
  import Text

  /** `item.id` and `item.order`: an object's own fields; strings, numbers,
      booleans and arrays have neither. */
  function Field(item: Value, k: string): Value {
    if item.Obj? then Get(item.fields, k) else Undefined
  }

  /** An item the filter keeps: a truthy id and an order parseInt reads. */
  predicate Usable(item: Value) {
    !IsNullish(item) && Truthy(Field(item, "id")) && ParseIntValue(Field(item, "order"), true).Some?
  }

  function Normalized(item: Value): Store.OrderItem
    requires Usable(item)
  {
    Store.OrderItem(Field(item, "id"), ParseIntValue(Field(item, "order"), true).value)
  }

  /** `body.map(item => ({ id: item.id, order: parseInt(item.order) }))
      .filter(item => item.id && !isNaN(item.order))`. Reading a field of null
      or undefined throws: None. */
  function Normalize(body: seq<Value>): (r: Option<seq<Store.OrderItem>>)
    ensures r.None? <==> exists i :: 0 <= i < |body| && IsNullish(body[i])
    ensures r.Some? ==> |r.value| <= |body|
    ensures r.Some? ==> forall k :: k in r.value ==> Truthy(k.id)
  {
    if body == [] then Some([])
    else
      assert forall i :: 0 < i < |body| ==> body[i] == body[1..][i - 1];
      if IsNullish(body[0]) then None
      else match Normalize(body[1..])
        case None => None
        case Some(rest) => Some(if Usable(body[0]) then [Normalized(body[0])] + rest else rest)
  }

  /** The usable items, in order, each as its `{ id, order }`. */
  function UsableItems(body: seq<Value>): seq<Store.OrderItem> {
    if body == [] then []
    else if Usable(body[0]) then [Normalized(body[0])] + UsableItems(body[1..])
    else UsableItems(body[1..])
  }

  /** Without a null item, normalising keeps exactly the usable items, in
      order. */
  lemma {:induction false} NormalizeKeepsUsable(body: seq<Value>)
    requires forall i :: 0 <= i < |body| ==> !IsNullish(body[i])
    ensures Normalize(body) == Some(UsableItems(body))
  {
    if body != [] {
      assert forall i :: 0 <= i < |body[1..]| ==> body[1..][i] == body[i + 1];
      NormalizeKeepsUsable(body[1..]);
    }
  }

  /** An item with a truthy id and a numeric order is kept with the order
      parseInt reads from the number's string: the number itself below 10^21
      in magnitude, its leading digit from there on. */
  lemma KeepsNumberedItem(id: string, n: int)
    requires id != ""
    ensures Normalize([Obj(map["id" := Str(id), "order" := Num(n)])]) ==
      Some([Store.OrderItem(Str(id), Text.ReadBackNumber(n))])
    ensures -Text.ExponentFrom < n < Text.ExponentFrom ==>
      Normalize([Obj(map["id" := Str(id), "order" := Num(n)])]) == Some([Store.OrderItem(Str(id), n)])
  {
    var item := Obj(map["id" := Str(id), "order" := Num(n)]);
    assert Field(item, "id") == Str(id);
    assert Field(item, "order") == Num(n);
    ParseIntValueOfNumber(n, [], true);
    assert Usable(item);
    assert Normalized(item) == Store.OrderItem(Str(id), Text.ReadBackNumber(n));
    assert [item][1..] == [];
    assert Normalize([item][1..]) == Some([]);
    assert [Normalized(item)] + [] == [Store.OrderItem(Str(id), Text.ReadBackNumber(n))];
  }

  /** An order of 1e21 is written "1e+21", so parseInt stores order 1. */
  lemma ExponentOrderReadsLeadingDigit(id: string)
    requires id != ""
    ensures Normalize([Obj(map["id" := Str(id), "order" := Num(Text.ExponentFrom)])]) ==
      Some([Store.OrderItem(Str(id), 1)])
  {
    KeepsNumberedItem(id, Text.ExponentFrom);
    Text.ExponentFromIsPow10();
    Text.LeadingDigitOfPow10(21);
  }

  /** An item without an id is dropped. */
  lemma DropsItemWithoutId(n: int)
    ensures Normalize([Obj(map["order" := Num(n)])]) == Some([])
  {
    var item := Obj(map["order" := Num(n)]);
    assert Field(item, "id") == Undefined;
    assert [item][1..] == [];
  }

  datatype ReorderReply =
    | Refused(status: nat, message: string)
    | Crashed
    | Reordered(count: nat, written: Store.Written)

  /** `PUT(request)`. The origin and session checks come before the body is
      read. body is the parsed JSON (Failure when parsing throws); a throw
      answers 500 with its message, which the model does not carry. */
  function Put(originOk: bool, authenticated: bool, body: Result<Value, string>, items: seq<Object>): (r: ReorderReply)
    ensures !originOk ==> r == Refused(403, "Invalid origin")
    ensures originOk && !authenticated ==> r == Refused(401, "Unauthorized")
    ensures originOk && authenticated && body.Success? && !body.value.Arr? ==>
      r == Refused(400, "Invalid body: expected array")
    ensures originOk && authenticated && body.Failure? ==> r == Crashed
    ensures originOk && authenticated && body.Success? && body.value.Arr? ==>
      (r == Crashed <==> exists i :: 0 <= i < |body.value.items| && IsNullish(body.value.items[i]))
    ensures r.Reordered? ==>
      && originOk && authenticated && body.Success? && body.value.Arr?
      && Normalize(body.value.items).Some?
      && r.count == |Normalize(body.value.items).value| > 0
      && r.written == Store.UpdateProjectOrder(items, Normalize(body.value.items).value)
  {
    if !originOk then Refused(403, "Invalid origin")
    else if !authenticated then Refused(401, "Unauthorized")
    else if body.Failure? then Crashed
    else if !body.value.Arr? then Refused(400, "Invalid body: expected array")
    else match Normalize(body.value.items)
      case None => Crashed
      case Some(reordered) =>
        if |reordered| == 0 then Refused(400, "No valid items to reorder")
        else Reordered(|reordered|, Store.UpdateProjectOrder(items, reordered))
  }

  /** An array with no usable item is refused with 400 and writes nothing. */
  lemma NothingUsableIsRefused(body: seq<Value>, items: seq<Object>)
    requires forall i :: 0 <= i < |body| ==> !IsNullish(body[i]) && !Usable(body[i])
    ensures Put(true, true, Success(Arr(body)), items) == Refused(400, "No valid items to reorder")
  {
    NormalizeKeepsUsable(body);
    UsableItemsEmpty(body);
  }

  /** The usable items are empty exactly when no item is usable. */
  lemma {:induction false} UsableItemsEmpty(body: seq<Value>)
    ensures UsableItems(body) == [] <==> forall i :: 0 <= i < |body| ==> !Usable(body[i])
  {
    if body != [] {
      assert forall i :: 0 <= i < |body[1..]| ==> body[1..][i] == body[i + 1];
      UsableItemsEmpty(body[1..]);
      if !Usable(body[0]) {
        assert forall i :: 1 <= i < |body| ==> body[i] == body[1..][i - 1];
      }
    }
  }

  /** On an array without null items, PUT writes the new order exactly when
      some item is usable, and hands the store the usable items in order;
      otherwise it answers 400. */
  lemma PutOnNullFreeArray(body: seq<Value>, items: seq<Object>)
    requires forall i :: 0 <= i < |body| ==> !IsNullish(body[i])
    ensures var r := Put(true, true, Success(Arr(body)), items);
      && (r.Reordered? <==> exists i :: 0 <= i < |body| && Usable(body[i]))
      && (r.Reordered? ==> r == Reordered(|UsableItems(body)|, Store.UpdateProjectOrder(items, UsableItems(body))))
      && (!r.Reordered? ==> r == Refused(400, "No valid items to reorder"))
  {
    NormalizeKeepsUsable(body);
    UsableItemsEmpty(body);
  }
}
