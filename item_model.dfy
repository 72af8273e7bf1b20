/**
 * The Item schema (backend/models/Item.js): its fields, the category enum,
 * the numeric bounds, the defaults and the unique, trimmed name; and how a
 * request body is cast against it on create and on update.
 */
module ItemModel {
  import opened Wrappers
  import opened Json
  import opened JsString
  import opened Tables
  import opened Responses

  datatype Category = Tea | Coffee | Snacks | Other

  function CategoryName(c: Category): string {
    match c
    case Tea => "tea"
    case Coffee => "coffee"
    case Snacks => "snacks"
    case Other => "other"
  }

  /** The enum validator: exactly the four category names are accepted. */
  function ParseCategory(s: string): (r: Option<Category>)
    ensures r.Some? ==> CategoryName(r.value) == s
    ensures r.None? ==> forall c: Category :: CategoryName(c) != s
  {
    if s == "tea" then Some(Tea)
    else if s == "coffee" then Some(Coffee)
    else if s == "snacks" then Some(Snacks)
    else if s == "other" then Some(Other)
    else None
  }

  const DefaultStock: int := 0
  const DefaultLowStockThreshold: int := 10
  const DefaultUnit: string := "piece"
  const DefaultIsActive: bool := true

  /** One stored item; `createdAt` is the creation timestamp the schema's `timestamps` option adds. */
  datatype Item = Item(
    id: Id,
    name: string,
    category: Category,
    price: int,
    stock: int,
    lowStockThreshold: int,
    unit: string,
    isActive: bool,
    createdAt: int)

  /** The per-document schema constraints: a non-empty trimmed name, `price >= 0`, `stock >= 0`. */
  predicate ValidItem(it: Item) {
    it.name != "" && Trimmed(it.name) && it.price >= 0 && it.stock >= 0
  }

  /** Every item valid; `_id` and the unique `name` distinct across the collection. */
  predicate ItemTableValid(items: seq<Item>) {
    && (forall i :: 0 <= i < |items| ==> ValidItem(items[i]))
    && (forall i, j :: 0 <= i < j < |items| ==> items[i].id != items[j].id)
    && (forall i, j :: 0 <= i < j < |items| ==> items[i].name != items[j].name)
  }

  /** Appending a valid item whose id and name are both fresh keeps the collection valid. */
  lemma AppendKeepsItemTable(items: seq<Item>, it: Item)
    requires ItemTableValid(items) && ValidItem(it)
    requires forall i :: 0 <= i < |items| ==> items[i].id != it.id && items[i].name != it.name
    ensures ItemTableValid(items + [it])
  {
    var r := items + [it];
    assert forall i :: 0 <= i < |r| ==> r[i] == if i < |items| then items[i] else it;
  }

  /** Replacing one item by a valid one with the same id and a name no other item uses keeps the collection valid. */
  lemma ReplaceKeepsItemTable(items: seq<Item>, k: nat, it: Item)
    requires ItemTableValid(items) && k < |items| && ValidItem(it) && it.id == items[k].id
    requires forall i :: 0 <= i < |items| && i != k ==> items[i].name != it.name
    ensures ItemTableValid(items[k := it])
  {
  }

  /** Removing one item keeps the collection valid, and in a valid collection its id no longer occurs. */
  lemma RemoveKeepsItemTable(items: seq<Item>, k: nat)
    requires ItemTableValid(items) && k < |items|
    ensures ItemTableValid(items[..k] + items[k + 1..])
    ensures forall it | it in items[..k] + items[k + 1..] :: it.id != items[k].id
  {
    var r := items[..k] + items[k + 1..];
    assert forall i :: 0 <= i < |r| ==> r[i] == if i < k then items[i] else items[i + 1];
  }

  /** `Item.findById(id)`: the index of the first item with that id, if any. */
  function FindItem(items: seq<Item>, id: Id): (r: Option<nat>)
    ensures r.Some? ==> r.value < |items| && items[r.value].id == id
    ensures r.Some? ==> forall j :: 0 <= j < r.value ==> items[j].id != id
    ensures r.None? <==> forall j :: 0 <= j < |items| ==> items[j].id != id
  {
    FindItemFrom(items, id, 0)
  }

  function FindItemFrom(items: seq<Item>, id: Id, from: nat): (r: Option<nat>)
    requires from <= |items|
    ensures r.Some? ==> from <= r.value < |items| && items[r.value].id == id
    ensures r.Some? ==> forall j :: from <= j < r.value ==> items[j].id != id
    ensures r.None? <==> forall j :: from <= j < |items| ==> items[j].id != id
    decreases |items| - from
  {
    if from == |items| then None
    else if items[from].id == id then Some(from)
    else FindItemFrom(items, id, from + 1)
  }

  function HasItemName(name: string): Item -> bool {
    (it: Item) => it.name == name
  }

  // ------------------------------------------------------------ casting a body

  /** The schema paths a request body may set; `None` where the body leaves a path undefined. */
  datatype ItemFields = ItemFields(
    name: Option<string>,
    category: Option<Category>,
    price: Option<int>,
    stock: Option<int>,
    lowStockThreshold: Option<int>,
    unit: Option<string>,
    isActive: Option<bool>)

  predicate FieldsValid(f: ItemFields) {
    && (f.name.Some? ==> f.name.value != "" && Trimmed(f.name.value))
    && (f.price.Some? ==> f.price.value >= 0)
    && (f.stock.Some? ==> f.stock.value >= 0)
  }

  /** `name`: undefined, or a string that is not blank once trimmed (`required`). */
  predicate NameCastable(v: JsValue) {
    v.Undefined? || (v.Str? && Trim(v.s) != "")
  }

  /** The stored name is the given string, trimmed; undefined leaves it unset. */
  predicate NameCarried(v: JsValue, o: Option<string>) {
    (o.None? <==> v.Undefined?) && (o.Some? ==> v.Str? && o.value == Trim(v.s))
  }

  /** `name`: a string, stored trimmed; `required` rejects what trims to nothing. */
  function CastName(v: JsValue): (r: Result<Option<string>, Failure>)
    ensures r.Ok? <==> NameCastable(v)
    ensures r.Ok? ==> NameCarried(v, r.value)
    ensures r.Ok? && r.value.Some? ==> r.value.value != "" && Trimmed(r.value.value)
  {
    match v
    case Undefined => Ok(None)
    case Str(s) => if Trim(s) == "" then Err(ValidationFailed) else Ok(Some(Trim(s)))
    case _ => Err(CastFailed)
  }

  predicate CategoryCastable(v: JsValue) {
    v.Undefined? || (v.Str? && ParseCategory(v.s).Some?)
  }

  predicate CategoryCarried(v: JsValue, o: Option<Category>) {
    (o.None? <==> v.Undefined?) && (o.Some? ==> v == Str(CategoryName(o.value)))
  }

  /** `category`: a string the enum validator accepts. */
  function CastCategory(v: JsValue): (r: Result<Option<Category>, Failure>)
    ensures r.Ok? <==> CategoryCastable(v)
    ensures r.Ok? ==> CategoryCarried(v, r.value)
  {
    match v
    case Undefined => Ok(None)
    case Str(s) => if ParseCategory(s).Some? then Ok(ParseCategory(s)) else Err(ValidationFailed)
    case _ => Err(CastFailed)
  }

  predicate NumberCastable(v: JsValue, min: Option<int>) {
    v.Undefined? || (v.Num? && (min.Some? ==> v.n >= min.value))
  }

  predicate NumberCarried(v: JsValue, o: Option<int>) {
    (o.None? <==> v.Undefined?) && (o.Some? ==> v == Num(o.value))
  }

  /** A number path with an optional `min` bound. */
  function CastNumber(v: JsValue, min: Option<int>): (r: Result<Option<int>, Failure>)
    ensures r.Ok? <==> NumberCastable(v, min)
    ensures r.Ok? ==> NumberCarried(v, r.value)
    ensures r.Ok? && r.value.Some? && min.Some? ==> r.value.value >= min.value
  {
    match v
    case Undefined => Ok(None)
    case Num(n) => if min.Some? && n < min.value then Err(ValidationFailed) else Ok(Some(n))
    case _ => Err(CastFailed)
  }

  predicate StringCarried(v: JsValue, o: Option<string>) {
    (o.None? <==> v.Undefined?) && (o.Some? ==> v == Str(o.value))
  }

  function CastString(v: JsValue): (r: Result<Option<string>, Failure>)
    ensures r.Ok? <==> v.Undefined? || v.Str?
    ensures r.Ok? ==> StringCarried(v, r.value)
  {
    match v
    case Undefined => Ok(None)
    case Str(s) => Ok(Some(s))
    case _ => Err(CastFailed)
  }

  predicate BoolCarried(v: JsValue, o: Option<bool>) {
    (o.None? <==> v.Undefined?) && (o.Some? ==> v == Bool(o.value))
  }

  function CastBool(v: JsValue): (r: Result<Option<bool>, Failure>)
    ensures r.Ok? <==> v.Undefined? || v.Bool?
    ensures r.Ok? ==> BoolCarried(v, r.value)
  {
    match v
    case Undefined => Ok(None)
    case Bool(b) => Ok(Some(b))
    case _ => Err(CastFailed)
  }

  /**
   * Whether every schema path the body sets casts and validates: undefined,
   * or a value of the path's kind within its bounds (a name that is not
   * blank after trimming, a category of the enum, `price` and `stock` at
   * least 0).
   */
  predicate Castable(body: map<string, JsValue>) {
    && NameCastable(Get(body, "name"))
    && CategoryCastable(Get(body, "category"))
    && NumberCastable(Get(body, "price"), Some(0))
    && NumberCastable(Get(body, "stock"), Some(0))
    && NumberCastable(Get(body, "lowStockThreshold"), None)
    && (Get(body, "unit").Undefined? || Get(body, "unit").Str?)
    && (Get(body, "isActive").Undefined? || Get(body, "isActive").Bool?)
  }

  /** The fields hold the body's values: a path is set exactly when the body gives it, and then to what the body gives (the name trimmed). */
  predicate CarriesBody(body: map<string, JsValue>, f: ItemFields) {
    && NameCarried(Get(body, "name"), f.name)
    && CategoryCarried(Get(body, "category"), f.category)
    && NumberCarried(Get(body, "price"), f.price)
    && NumberCarried(Get(body, "stock"), f.stock)
    && NumberCarried(Get(body, "lowStockThreshold"), f.lowStockThreshold)
    && StringCarried(Get(body, "unit"), f.unit)
    && BoolCarried(Get(body, "isActive"), f.isActive)
  }

  /**
   * Casts and validates every schema path the body sets, as `Item.create`
   * and `findByIdAndUpdate(..., {runValidators: true})` do; keys outside the
   * schema are ignored (strict mode). Any path that fails fails the whole body.
   */
  function CastItemFields(body: map<string, JsValue>): (r: Result<ItemFields, Failure>)
    ensures r.Ok? <==> Castable(body)
    ensures r.Ok? ==> FieldsValid(r.value) && CarriesBody(body, r.value)
  {
    var name := CastName(Get(body, "name"));
    var category := CastCategory(Get(body, "category"));
    var price := CastNumber(Get(body, "price"), Some(0));
    var stock := CastNumber(Get(body, "stock"), Some(0));
    var threshold := CastNumber(Get(body, "lowStockThreshold"), None);
    var unit := CastString(Get(body, "unit"));
    var active := CastBool(Get(body, "isActive"));
    if name.Err? then Err(name.error)
    else if category.Err? then Err(category.error)
    else if price.Err? then Err(price.error)
    else if stock.Err? then Err(stock.error)
    else if threshold.Err? then Err(threshold.error)
    else if unit.Err? then Err(unit.error)
    else if active.Err? then Err(active.error)
    else Ok(ItemFields(name.value, category.value, price.value, stock.value, threshold.value, unit.value, active.value))
  }

  /** A new document: `name`, `category` and `price` are required, the other paths take their defaults. */
  function NewItem(id: Id, f: ItemFields, now: int): (r: Result<Item, Failure>)
    ensures r.Ok? <==> f.name.Some? && f.category.Some? && f.price.Some?
    ensures r.Ok? && FieldsValid(f) ==> ValidItem(r.value)
    ensures r.Ok? ==> r.value.id == id && r.value.createdAt == now
    ensures r.Ok? ==> r.value.name == f.name.value && r.value.category == f.category.value && r.value.price == f.price.value
    ensures r.Ok? ==> r.value.stock == (if f.stock.Some? then f.stock.value else DefaultStock)
    ensures r.Ok? ==> r.value.lowStockThreshold == (if f.lowStockThreshold.Some? then f.lowStockThreshold.value else DefaultLowStockThreshold)
    ensures r.Ok? ==> r.value.unit == (if f.unit.Some? then f.unit.value else DefaultUnit)
    ensures r.Ok? ==> r.value.isActive == (if f.isActive.Some? then f.isActive.value else DefaultIsActive)
  {
    if f.name.None? || f.category.None? || f.price.None? then Err(ValidationFailed)
    else Ok(Item(
      id, f.name.value, f.category.value, f.price.value,
      f.stock.GetOr(DefaultStock),
      f.lowStockThreshold.GetOr(DefaultLowStockThreshold),
      f.unit.GetOr(DefaultUnit),
      f.isActive.GetOr(DefaultIsActive),
      now))
  }

  /** An update sets exactly the paths the body sets and keeps the rest. */
  function Patched(it: Item, f: ItemFields): (r: Item)
    ensures ValidItem(it) && FieldsValid(f) ==> ValidItem(r)
    ensures r.id == it.id && r.createdAt == it.createdAt
    ensures f == ItemFields(None, None, None, None, None, None, None) ==> r == it
    ensures r.name == (if f.name.Some? then f.name.value else it.name)
    ensures r.category == (if f.category.Some? then f.category.value else it.category)
    ensures r.price == (if f.price.Some? then f.price.value else it.price)
    ensures r.stock == (if f.stock.Some? then f.stock.value else it.stock)
    ensures r.lowStockThreshold == (if f.lowStockThreshold.Some? then f.lowStockThreshold.value else it.lowStockThreshold)
    ensures r.unit == (if f.unit.Some? then f.unit.value else it.unit)
    ensures r.isActive == (if f.isActive.Some? then f.isActive.value else it.isActive)
  {
    it.(
      name := f.name.GetOr(it.name),
      category := f.category.GetOr(it.category),
      price := f.price.GetOr(it.price),
      stock := f.stock.GetOr(it.stock),
      lowStockThreshold := f.lowStockThreshold.GetOr(it.lowStockThreshold),
      unit := f.unit.GetOr(it.unit),
      isActive := f.isActive.GetOr(it.isActive))
  }

  /** The document as the API returns it. */
  function ItemJson(it: Item): JsValue {
    Obj(map[
      "_id" := Str(it.id),
      "name" := Str(it.name),
      "category" := Str(CategoryName(it.category)),
      "price" := Num(it.price),
      "stock" := Num(it.stock),
      "lowStockThreshold" := Num(it.lowStockThreshold),
      "unit" := Str(it.unit),
      "isActive" := Bool(it.isActive),
      "createdAt" := Num(it.createdAt)])
  }

  function ItemsJson(items: seq<Item>): JsValue {
    Arr(seq(|items|, i requires 0 <= i < |items| => ItemJson(items[i])))
  }
}
