/**
 * The item controller (backend/controllers/itemController.js): the read-only
 * queries over the item collection, and create, update and delete, each
 * decided by a function over the collection and carried out by a method on
 * the database.
 */
module ItemController {
  import opened Wrappers
  import opened Json
  import opened JsString
  import opened Tables
  import opened Validation
  import opened Responses
  import opened ItemModel
  import opened Store

  /** What a create, update or delete leaves in the collection, and what it answers. */
  datatype ItemsOutcome = ItemsOutcome(items: seq<Item>, response: Response)

  function CreatedAtKey(): Item -> int {
    (it: Item) => it.createdAt
  }

  /** `sort('-createdAt')`: the same items, newest first. */
  function NewestFirst(items: seq<Item>): (r: seq<Item>)
    ensures multiset(r) == multiset(items)
    ensures forall i, j :: 0 <= i < j < |r| ==> r[i].createdAt >= r[j].createdAt
  {
    var r := SortDesc(items, CreatedAtKey());
    assert forall i, j :: 0 <= i < j < |r| ==> CreatedAtKey()(r[i]) >= CreatedAtKey()(r[j]);
    r
  }

  predicate IsLowStock(it: Item) {
    it.stock <= it.lowStockThreshold
  }

  /** The low-stock query: exactly the items at or below their own threshold, in natural order; `isActive` is not consulted. */
  function LowStock(items: seq<Item>): (r: seq<Item>)
    ensures forall it :: it in r <==> it in items && it.stock <= it.lowStockThreshold
    ensures forall i :: 0 <= i < |r| ==> r[i].stock <= r[i].lowStockThreshold
  {
    Filter(items, IsLowStock)
  }

  function ListResult(items: seq<Item>): JsValue {
    Obj(map["items" := ItemsJson(items), "count" := Num(|items|)])
  }

  /** `getItems`: 404 "No items found" on an empty collection, otherwise every item, newest first. */
  function GetItems(items: seq<Item>): (r: Response)
    ensures Conforms(r)
    ensures r.httpStatus == 404 <==> items == []
    ensures r.httpStatus != 404 ==> r.httpStatus == 200 && r.body.result == Some(ListResult(NewestFirst(items)))
  {
    if |items| == 0 then SendNoRecord("No items found")
    else SendSuccess("Items retrieved successfully", ListResult(NewestFirst(items)))
  }

  /** `getLowStockItems`: an empty low-stock set is a 404 "No low stock items", not an empty success. */
  function GetLowStockItems(items: seq<Item>): (r: Response)
    ensures Conforms(r)
    ensures r.httpStatus == 404 <==> forall it :: it in items ==> it.stock > it.lowStockThreshold
    ensures r.httpStatus != 404 ==> r.httpStatus == 200 && r.body.result == Some(ListResult(LowStock(items)))
  {
    var found := LowStock(items);
    if |found| == 0 then SendNoRecord("No low stock items")
    else
      assert found[0] in found;
      SendSuccess("Low stock items retrieved successfully", ListResult(found))
  }

  /** `getItem`: the item with that id, or 404 "Item not found". */
  function GetItem(items: seq<Item>, id: Id): (r: Response)
    ensures Conforms(r)
    ensures r.httpStatus == 404 <==> forall i :: 0 <= i < |items| ==> items[i].id != id
    ensures r.httpStatus != 404 ==>
      exists i :: 0 <= i < |items| && items[i].id == id && r.body.result == Some(Obj(map["item" := ItemJson(items[i])]))
  {
    match FindItem(items, id)
    case None => SendNoRecord("Item not found")
    case Some(k) => SendSuccess("Item retrieved successfully", Obj(map["item" := ItemJson(items[k])]))
  }

  // ------------------------------------------------------------ createItem

  /** The fields `createItem` checks before touching the database. */
  const ItemRequired: seq<string> := ["name", "category", "price"]

  /** `new Item(body)` and its validators: the document `Item.create` would insert, or why it is refused. */
  function BuildItem(body: map<string, JsValue>, newId: Id, now: int): (r: Result<Item, Failure>)
    ensures r.Ok? <==>
      Castable(body) && !Get(body, "name").Undefined? && !Get(body, "category").Undefined? && !Get(body, "price").Undefined?
    ensures r.Ok? ==> ValidItem(r.value) && r.value.id == newId && r.value.createdAt == now
    ensures r.Ok? ==> Get(body, "name").Str? && r.value.name == Trim(Get(body, "name").s)
  {
    match CastItemFields(body)
    case Err(f) => Err(f)
    case Ok(fields) => NewItem(newId, fields, now)
  }

  /**
   * The document holds the body's values: the category and price given, and
   * for stock, threshold, unit and active flag the value given or else the
   * schema default.
   */
  lemma BuildItemKeepsBody(body: map<string, JsValue>, newId: Id, now: int)
    requires BuildItem(body, newId, now).Ok?
    ensures var r := BuildItem(body, newId, now);
      && Get(body, "category") == Str(CategoryName(r.value.category)) && Get(body, "price") == Num(r.value.price)
      && r.value.stock == (if Get(body, "stock").Undefined? then DefaultStock else Get(body, "stock").n)
      && r.value.lowStockThreshold == (if Get(body, "lowStockThreshold").Undefined? then DefaultLowStockThreshold
                                       else Get(body, "lowStockThreshold").n)
      && r.value.unit == (if Get(body, "unit").Undefined? then DefaultUnit else Get(body, "unit").s)
      && r.value.isActive == (if Get(body, "isActive").Undefined? then DefaultIsActive else Get(body, "isActive").b)
  {
  }

  /** The insert: refused by the unique indexes on `_id` and `name`, otherwise appended. */
  function InsertItem(items: seq<Item>, it: Item): (o: ItemsOutcome)
    ensures Conforms(o.response)
    ensures o.items == items + [it] <==> forall i :: 0 <= i < |items| ==> items[i].id != it.id && items[i].name != it.name
    ensures o.items != items + [it] ==> o == ItemsOutcome(items, SendCaught(400, DuplicateKey))
  {
    if FindItem(items, it.id).Some? || FirstIndex(items, HasItemName(it.name)).Some? then
      assert |items| < |items + [it]|;
      ItemsOutcome(items, SendCaught(400, DuplicateKey))
    else
      assert forall i :: 0 <= i < |items| ==> items[i].id != it.id && !HasItemName(it.name)(items[i]);
      ItemsOutcome(items + [it], SendCreated("Item created successfully", Obj(map["item" := ItemJson(it)])))
  }

  /** `createItem`: the three required fields first, then `Item.create(body)`. */
  function CreateItemSpec(items: seq<Item>, body: map<string, JsValue>, newId: Id, now: int): (o: ItemsOutcome)
    ensures Conforms(o.response)
    ensures Missing(body, ItemRequired) != [] ==>
      o == ItemsOutcome(items, SendMissingParam(Missing(body, ItemRequired)))
    ensures Missing(body, ItemRequired) == [] && BuildItem(body, newId, now).Err? ==>
      o == ItemsOutcome(items, SendCaught(400, BuildItem(body, newId, now).error))
    ensures Missing(body, ItemRequired) == [] && BuildItem(body, newId, now).Ok? ==>
      o == InsertItem(items, BuildItem(body, newId, now).value)
    ensures BuildItem(body, newId, now).Err? ==> o.items == items && o.response.httpStatus == 400
  {
    var missing := Missing(body, ItemRequired);
    if |missing| > 0 then ItemsOutcome(items, SendMissingParam(missing))
    else match BuildItem(body, newId, now)
      case Err(f) => ItemsOutcome(items, SendCaught(400, f))
      case Ok(it) => InsertItem(items, it)
  }

  /**
   * A complete body that casts, with a fresh id and a name no stored item
   * has, is created: a 201 with the new document, appended to the collection.
   */
  lemma CreateItemAccepts(items: seq<Item>, body: map<string, JsValue>, newId: Id, now: int)
    requires Missing(body, ItemRequired) == [] && BuildItem(body, newId, now).Ok?
    requires forall i :: 0 <= i < |items| ==> items[i].id != newId && items[i].name != BuildItem(body, newId, now).value.name
    ensures var it := BuildItem(body, newId, now).value;
      CreateItemSpec(items, body, newId, now) ==
        ItemsOutcome(items + [it], SendCreated("Item created successfully", Obj(map["item" := ItemJson(it)])))
  {
    var it := BuildItem(body, newId, now).value;
    assert CreateItemSpec(items, body, newId, now) == InsertItem(items, it);
    assert FindItem(items, it.id).None?;
    assert FirstIndex(items, HasItemName(it.name)).None? by {
      assert forall i :: 0 <= i < |items| ==> !HasItemName(it.name)(items[i]);
    }
  }

  /**
   * A create either leaves the collection as it was or appends one valid item
   * whose id and trimmed name no other item has; the collection stays valid.
   */
  lemma CreateItemPreservesTable(items: seq<Item>, body: map<string, JsValue>, newId: Id, now: int)
    requires ItemTableValid(items)
    ensures var o := CreateItemSpec(items, body, newId, now);
      && ItemTableValid(o.items)
      && (o.items == items || exists it :: ValidItem(it) && it.id == newId && o.items == items + [it])
      && (o.items != items <==> o.response.httpStatus == 201)
  {
    var o := CreateItemSpec(items, body, newId, now);
    if Missing(body, ItemRequired) == [] && BuildItem(body, newId, now).Ok? {
      var it := BuildItem(body, newId, now).value;
      assert o == InsertItem(items, it);
      if o.items == items + [it] {
        AppendKeepsItemTable(items, it);
      } else {
        assert o.items == items;
      }
    }
  }

  method CreateItem(db: Database, body: map<string, JsValue>, newId: Id, now: int) returns (resp: Response)
    modifies db
    ensures var o := CreateItemSpec(old(db.items), body, newId, now);
      db.items == o.items && resp == o.response
    ensures db.customers == old(db.customers) && db.sales == old(db.sales) && db.users == old(db.users)
    ensures old(db.Valid()) ==> db.Valid()
  {
    var requiredFields := IsEmpty(body, ItemRequired);
    if |requiredFields| > 0 {
      resp := SendMissingParam(requiredFields);
      return;
    }
    var made := BuildItem(body, newId, now);
    if made.Err? {
      resp := SendCaught(400, made.error);
      return;
    }
    if ItemTableValid(db.items) {
      CreateItemPreservesTable(db.items, body, newId, now);
    }
    var stored := InsertItem(db.items, made.value);
    assert stored == CreateItemSpec(db.items, body, newId, now);
    db.items := stored.items;
    resp := stored.response;
  }

  // ------------------------------------------------------------ updateItem

  /**
   * `updateItem`: `findByIdAndUpdate(id, body, {new: true, runValidators: true})`.
   * The body is cast and validated before the lookup, so a bad body is a 400
   * even for an absent id; an absent id is a 404; a name already used by
   * another item is a duplicate key.
   */
  function UpdateItemSpec(items: seq<Item>, id: Id, body: map<string, JsValue>): (o: ItemsOutcome)
    ensures Conforms(o.response)
    ensures |o.items| == |items|
    ensures forall i :: 0 <= i < |items| && items[i].id != id ==> o.items[i] == items[i]
    ensures CastItemFields(body).Err? ==> o.items == items && o.response.httpStatus == 400
    ensures CastItemFields(body).Ok? && (forall i :: 0 <= i < |items| ==> items[i].id != id) ==>
      o == ItemsOutcome(items, SendNoRecord("Item not found"))
    ensures CastItemFields(body).Ok? && FindItem(items, id).Some? ==>
      var k := FindItem(items, id).value;
      var updated := Patched(items[k], CastItemFields(body).value);
      if NameTakenByOther(items, k, updated.name) then o == ItemsOutcome(items, SendCaught(400, DuplicateKey))
      else o == ItemsOutcome(items[k := updated], SendSuccess("Item updated successfully", Obj(map["item" := ItemJson(updated)])))
  {
    match CastItemFields(body)
    case Err(f) => ItemsOutcome(items, SendCaught(400, f))
    case Ok(fields) =>
      match FindItem(items, id)
      case None => ItemsOutcome(items, SendNoRecord("Item not found"))
      case Some(k) =>
        var updated := Patched(items[k], fields);
        if NameTakenByOther(items, k, updated.name) then ItemsOutcome(items, SendCaught(400, DuplicateKey))
        else ItemsOutcome(items[k := updated], SendSuccess("Item updated successfully", Obj(map["item" := ItemJson(updated)])))
  }

  /** Whether an item other than the one at index `k` already has `name`. */
  predicate NameTakenByOther(items: seq<Item>, k: nat, name: string) {
    exists i :: 0 <= i < |items| && i != k && items[i].name == name
  }

  /** A successful update replaces exactly the target with its patched, still valid, version. */
  lemma UpdateItemPreservesTable(items: seq<Item>, id: Id, body: map<string, JsValue>)
    requires ItemTableValid(items)
    ensures ItemTableValid(UpdateItemSpec(items, id, body).items)
    ensures var o := UpdateItemSpec(items, id, body);
      o.response.httpStatus == 200 ==>
        exists k :: 0 <= k < |items| && items[k].id == id && o.items == items[k := Patched(items[k], CastItemFields(body).value)]
  {
    match CastItemFields(body)
    case Err(_) =>
    case Ok(fields) =>
      match FindItem(items, id)
      case None =>
      case Some(k) =>
        var updated := Patched(items[k], fields);
        if !NameTakenByOther(items, k, updated.name) {
          ReplaceKeepsItemTable(items, k, updated);
        }
  }

  method UpdateItem(db: Database, id: Id, body: map<string, JsValue>) returns (resp: Response)
    modifies db
    ensures var o := UpdateItemSpec(old(db.items), id, body);
      db.items == o.items && resp == o.response
    ensures db.customers == old(db.customers) && db.sales == old(db.sales) && db.users == old(db.users)
    ensures old(db.Valid()) ==> db.Valid()
  {
    if ItemTableValid(db.items) {
      UpdateItemPreservesTable(db.items, id, body);
    }
    var cast := CastItemFields(body);
    if cast.Err? {
      resp := SendCaught(400, cast.error);
      return;
    }
    var found := FindItem(db.items, id);
    if found.None? {
      resp := SendNoRecord("Item not found");
      return;
    }
    var k := found.value;
    var item := Patched(db.items[k], cast.value);
    if NameTakenByOther(db.items, k, item.name) {
      resp := SendCaught(400, DuplicateKey);
      return;
    }
    db.items := db.items[k := item];
    resp := SendSuccess("Item updated successfully", Obj(map["item" := ItemJson(item)]));
  }

  // ------------------------------------------------------------ deleteItem

  /** `deleteItem`: removes only the target; an absent id is a 404 and changes nothing. */
  function DeleteItemSpec(items: seq<Item>, id: Id): (o: ItemsOutcome)
    ensures Conforms(o.response)
    ensures (forall i :: 0 <= i < |items| ==> items[i].id != id) ==>
      o == ItemsOutcome(items, SendNoRecord("Item not found"))
    ensures (exists i :: 0 <= i < |items| && items[i].id == id) ==>
      o.response.httpStatus == 200 && o.response.body.result.None? &&
      exists k :: 0 <= k < |items| && items[k].id == id && o.items == items[..k] + items[k + 1..]
  {
    match FindItem(items, id)
    case None => ItemsOutcome(items, SendNoRecord("Item not found"))
    case Some(k) => ItemsOutcome(items[..k] + items[k + 1..], SendSuccess("Item deleted successfully", Null))
  }

  /** Deleting keeps the collection valid, and in a valid collection the id is gone afterwards. */
  lemma DeleteItemPreservesTable(items: seq<Item>, id: Id)
    requires ItemTableValid(items)
    ensures ItemTableValid(DeleteItemSpec(items, id).items)
    ensures forall it | it in DeleteItemSpec(items, id).items :: it.id != id
  {
    match FindItem(items, id)
    case None =>
      assert DeleteItemSpec(items, id).items == items;
    case Some(k) =>
      assert DeleteItemSpec(items, id).items == items[..k] + items[k + 1..];
      RemoveKeepsItemTable(items, k);
  }

  method DeleteItem(db: Database, id: Id) returns (resp: Response)
    modifies db
    ensures var o := DeleteItemSpec(old(db.items), id);
      db.items == o.items && resp == o.response
    ensures db.customers == old(db.customers) && db.sales == old(db.sales) && db.users == old(db.users)
    ensures old(db.Valid()) ==> db.Valid()
  {
    if ItemTableValid(db.items) {
      DeleteItemPreservesTable(db.items, id);
    }
    var found := FindItem(db.items, id);
    if found.None? {
      resp := SendNoRecord("Item not found");
      return;
    }
    var k := found.value;
    db.items := db.items[..k] + db.items[k + 1..];
    resp := SendSuccess("Item deleted successfully", Null);
  }
}
