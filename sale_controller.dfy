/**
 * The sale controller (backend/controllers/saleController.js): recording a
 * sale, which walks the requested lines, checks and deducts stock item by
 * item and then stores the sale under the next invoice number; changing a
 * sale's payment status; and the read-only listings and statistics.
 */
module SaleController {
  import opened Wrappers
  import opened Json
  import opened JsString
  import opened Tables
  import opened Validation
  import opened Responses
  import opened ItemModel
  import opened SaleModel
  import opened Store

  /** What `createSale` leaves in the item and sale collections, and what it answers. */
  datatype SaleOutcome = SaleOutcome(items: seq<Item>, sales: seq<Sale>, response: Response)

  /** The fields `createSale` checks before touching the database. */
  const SaleRequired: seq<string> := ["customer", "items"]

  // ------------------------------------------------------------ before the loop

  /** `!items || items.length === 0`. */
  predicate NoItems(v: JsValue) {
    || !Truthy(v)
    || (v.Arr? && |v.elems| == 0)
    || (v.Obj? && Get(v.fields, "length") == Num(0))
  }

  /** What `for (const saleItem of items)` visits: array elements, or the characters of a string; anything else is not iterable. */
  function Iterated(v: JsValue): (r: Option<seq<JsValue>>)
    ensures r.Some? <==> v.Arr? || v.Str?
    ensures v.Arr? ==> r == Some(v.elems)
    ensures v.Str? ==> |r.value| == |v.s|
  {
    match v
    case Arr(elems) => Some(elems)
    case Str(s) => Some(seq(|s|, i requires 0 <= i < |s| => Str([s[i]])))
    case _ => None
  }

  /**
   * The checks between `isEmpty` and the loop, in their order: at least one
   * item, then `Customer.findById(customer)`, then an iterable `items`.
   */
  function Precheck(body: map<string, JsValue>, customers: set<Id>): (r: Result<seq<JsValue>, Response>)
    ensures r.Ok? ==> Get(body, "customer").Str? && Get(body, "customer").s in customers
    ensures r.Ok? ==> Iterated(Get(body, "items")) == Some(r.value) && |r.value| > 0
    ensures NoItems(Get(body, "items")) ==> r == Err(SendError(400, "At least one item is required"))
    ensures !NoItems(Get(body, "items")) && Get(body, "customer").Str? && Get(body, "customer").s !in customers ==>
      r == Err(SendNoRecord("Customer not found"))
    ensures !NoItems(Get(body, "items")) && (Get(body, "customer").Null? || Get(body, "customer").Undefined?) ==>
      r == Err(SendNoRecord("Customer not found"))
    ensures !NoItems(Get(body, "items")) && !Get(body, "customer").Null? && !Get(body, "customer").Undefined? && !Get(body, "customer").Str? ==>
      r == Err(SendCaught(400, CastFailed))
    ensures !NoItems(Get(body, "items")) && Get(body, "customer").Str? && Get(body, "customer").s in customers ==>
      r == (if Iterated(Get(body, "items")).None? then Err(SendCaught(400, TypeFailed)) else Ok(Iterated(Get(body, "items")).value))
    ensures r.Err? ==> Conforms(r.error) && (r.error.httpStatus == 400 || r.error.httpStatus == 404)
  {
    var items := Get(body, "items");
    var customer := Get(body, "customer");
    if NoItems(items) then Err(SendError(400, "At least one item is required"))
    else if customer.Null? || customer.Undefined? then Err(SendNoRecord("Customer not found"))
    else if !customer.Str? then Err(SendCaught(400, CastFailed))
    else if customer.s !in customers then Err(SendNoRecord("Customer not found"))
    else match Iterated(items)
      case None => Err(SendCaught(400, TypeFailed))
      case Some(reqs) => Ok(reqs)
  }

  // ------------------------------------------------------------ one line

  /**
   * The quantity as the loop's `<`, `*` and `-=` read it (JavaScript's
   * `ToNumber`): a number as it is, `null` and `false` as 0, `true` as 1, a
   * string as the integer it spells. Any other value reads as `NaN`: the
   * stock check lets it through, and `item.save()` then fails on the `NaN`
   * stock.
   */
  function QuantityOf(v: JsValue): (r: Option<int>)
    ensures v.Num? ==> r == Some(v.n)
    ensures v.Null? || v == Bool(false) ==> r == Some(0)
    ensures v == Bool(true) ==> r == Some(1)
    ensures v.Str? ==> r == NumberOf(v.s)
    ensures v.Undefined? || v.Arr? || v.Obj? ==> r.None?
  {
    match v
    case Num(n) => Some(n)
    case Null => Some(0)
    case Bool(b) => Some(if b then 1 else 0)
    case Str(s) => NumberOf(s)
    case _ => None
  }

  /** A quantity sent as a numeral string counts as the number it spells. */
  lemma NumeralQuantity(q: int)
    ensures QuantityOf(Str(IntToString(q))) == Some(q)
  {
    NumberOfIntToString(q);
  }

  /** `item.stock -= quantity; await item.save()` on the item at index `k`. */
  function TakeStock(items: seq<Item>, k: nat, q: int): (r: seq<Item>)
    requires k < |items|
    ensures |r| == |items|
  {
    items[k := items[k].(stock := items[k].stock - q)]
  }

  /**
   * Why a request line is refused. The loop answers with the refusal's
   * response (`RefusalResponse`) and stops.
   */
  datatype Refusal =
    | Caught(failure: Failure)                // thrown inside the loop and answered by the catch-all
    | UnknownItem(shown: string)              // `Item ${item} not found`, with the reference as a template literal shows it
    | ShortStock(name: string, stock: int)    // `Insufficient stock for ${name}. Available: ${stock}`

  /** The response for a refused line: 404 for an unknown item, 400 otherwise, with the source's message. */
  function RefusalResponse(r: Refusal): (resp: Response)
    ensures Conforms(resp)
    ensures resp.httpStatus == (if r.UnknownItem? then 404 else 400)
    ensures r.ShortStock? ==> resp.body.message == "Insufficient stock for " + r.name + ". Available: " + IntToString(r.stock)
    ensures r.UnknownItem? ==> resp.body.message == "Item " + r.shown + " not found"
  {
    match r
    case Caught(f) => SendCaught(400, f)
    case UnknownItem(shown) => SendNoRecord("Item " + shown + " not found")
    case ShortStock(name, stock) => SendError(400, "Insufficient stock for " + name + ". Available: " + IntToString(stock))
  }

  /** One iteration of the loop decides either to take the line (from the item at index `k`) or to refuse it. */
  datatype LineCheck = Accept(k: nat, line: SaleLine) | Reject(refusal: Refusal)

  /**
   * One request line: find the referenced item (unknown item when there is
   * none), compare its stock with the quantity (short stock when it is
   * lower) and make the line snapshot with the item's current name and price.
   */
  function CheckLine(items: seq<Item>, req: JsValue): (r: LineCheck)
    ensures r.Accept? ==>
      && r.k < |items|
      && r.line.item == items[r.k].id
      && r.line.itemName == Some(items[r.k].name)
      && r.line.price == items[r.k].price
      && r.line.subtotal == r.line.price * r.line.quantity
      && r.line.quantity <= items[r.k].stock
    ensures r.Accept? ==>
      req.Obj? && Get(req.fields, "item") == Str(r.line.item) && QuantityOf(Get(req.fields, "quantity")) == Some(r.line.quantity)
    ensures req.Null? || req.Undefined? ==> r == Reject(Caught(TypeFailed))
    ensures !req.Obj? && !req.Null? && !req.Undefined? ==> r == Reject(UnknownItem("undefined"))
    ensures r == Reject(UnknownItem("undefined")) <== req.Obj? && Get(req.fields, "item").Undefined?
    ensures r == Reject(UnknownItem("null")) <== req.Obj? && Get(req.fields, "item").Null?
    ensures req.Obj? && !Get(req.fields, "item").Undefined? && !Get(req.fields, "item").Null? && !Get(req.fields, "item").Str? ==>
      r == Reject(Caught(CastFailed))
    ensures req.Obj? && Get(req.fields, "item").Str? && FindItem(items, Get(req.fields, "item").s).None? ==>
      r == Reject(UnknownItem(Get(req.fields, "item").s))
    ensures req.Obj? && Get(req.fields, "item").Str? && FindItem(items, Get(req.fields, "item").s).Some? ==>
      var k := FindItem(items, Get(req.fields, "item").s).value;
      var q := QuantityOf(Get(req.fields, "quantity"));
      && (q.None? ==> r == Reject(Caught(CastFailed)))
      && (q.Some? && items[k].stock < q.value ==> r == Reject(ShortStock(items[k].name, items[k].stock)))
      && (q.Some? && q.value <= items[k].stock ==> r.Accept? && r.k == k)
    ensures r.Reject? && r.refusal.ShortStock? ==>
      exists k :: 0 <= k < |items| && items[k].name == r.refusal.name && items[k].stock == r.refusal.stock
  {
    if req.Null? || req.Undefined? then Reject(Caught(TypeFailed))
    else
      var ref := if req.Obj? then Get(req.fields, "item") else Undefined;
      var quantity := if req.Obj? then Get(req.fields, "quantity") else Undefined;
      if ref.Undefined? then Reject(UnknownItem("undefined"))
      else if ref.Null? then Reject(UnknownItem("null"))
      else if !ref.Str? then Reject(Caught(CastFailed))
      else match FindItem(items, ref.s)
        case None => Reject(UnknownItem(ref.s))
        case Some(k) =>
          var item := items[k];
          match QuantityOf(quantity)
          case None => Reject(Caught(CastFailed))
          case Some(q) =>
            if item.stock < q then Reject(ShortStock(item.name, item.stock))
            else Accept(k, SaleLine(item.id, Some(item.name), q, item.price, item.price * q))
  }

  /** A line whose item exists with too little stock is refused with the item's name and its stock in the message. */
  lemma InsufficientStockRejected(items: seq<Item>, req: JsValue, k: nat, q: int)
    requires req.Obj? && k < |items|
    requires Get(req.fields, "item") == Str(items[k].id) && Get(req.fields, "quantity") == Num(q)
    requires forall i :: 0 <= i < k ==> items[i].id != items[k].id
    requires items[k].stock < q
    ensures CheckLine(items, req) == Reject(ShortStock(items[k].name, items[k].stock))
    ensures RefusalResponse(CheckLine(items, req).refusal) ==
      SendError(400, "Insufficient stock for " + items[k].name + ". Available: " + IntToString(items[k].stock))
  {
    assert FindItem(items, items[k].id) == Some(k);
  }

  // ------------------------------------------------------------ the loop

  /** Where the loop over the request lines ends: all lines taken, or stopped with a response. */
  datatype Walk =
    | Walked(items: seq<Item>, lines: seq<SaleLine>)
    | Halted(items: seq<Item>, lines: seq<SaleLine>, refusal: Refusal)

  /**
   * The loop from the current table, with the lines taken so far (`done`),
   * over the requests from index `i` on.
   */
  function WalkLines(items: seq<Item>, reqs: seq<JsValue>, i: nat, done: seq<SaleLine>): (w: Walk)
    requires i <= |reqs|
    ensures |w.items| == |items|
    ensures |done| <= |w.lines| && forall n :: 0 <= n < |done| ==> w.lines[n] == done[n]
    ensures w.Walked? ==> |w.lines| == |done| + |reqs| - i
    ensures w.Halted? ==> |w.lines| < |done| + |reqs| - i
    decreases |reqs| - i
  {
    if i == |reqs| then Walked(items, done)
    else match CheckLine(items, reqs[i])
      case Reject(why) => Halted(items, done, why)
      case Accept(k, line) =>
        var w := WalkLines(TakeStock(items, k, line.quantity), reqs, i + 1, done + [line]);
        w
  }

  /** Total quantity of item `id` over `lines` from index `from` on. */
  function Consumed(lines: seq<SaleLine>, from: nat, id: Id): int
    requires from <= |lines|
    decreases |lines| - from
  {
    if from == |lines| then 0
    else (if lines[from].item == id then lines[from].quantity else 0) + Consumed(lines, from + 1, id)
  }

  predicate DistinctIds(items: seq<Item>) {
    forall i, j :: 0 <= i < j < |items| ==> items[i].id != items[j].id
  }

  /** Item `id` with its stock lowered by `q`. */
  function Lowered(it: Item, q: int): Item {
    it.(stock := it.stock - q)
  }

  /** One accepted line (at index `from`) moves its quantity from "still to account for" to "taken". */
  lemma AccountingStep(items: seq<Item>, j: nat, lines: seq<SaleLine>, from: nat, after: seq<Item>)
    requires DistinctIds(items) && j < |items| && from < |lines| && lines[from].item == items[j].id && |after| == |items|
    requires var next := TakeStock(items, j, lines[from].quantity);
      forall k :: 0 <= k < |items| ==> after[k] == Lowered(next[k], Consumed(lines, from + 1, next[k].id))
    ensures forall k :: 0 <= k < |items| ==> after[k] == Lowered(items[k], Consumed(lines, from, items[k].id))
  {
    var next := TakeStock(items, j, lines[from].quantity);
    forall k | 0 <= k < |items| ensures after[k] == Lowered(items[k], Consumed(lines, from, items[k].id)) {
      if k != j {
        assert lines[from].item != items[k].id;
        assert next[k] == items[k];
      }
    }
  }

  /**
   * Stock accounting of the loop, whether it finishes or stops: every item
   * keeps everything but its stock, which drops by exactly the quantity of
   * the lines taken for it.
   */
  lemma {:induction false} WalkAccounting(items: seq<Item>, reqs: seq<JsValue>, i: nat, done: seq<SaleLine>)
    requires i <= |reqs| && DistinctIds(items)
    ensures var w := WalkLines(items, reqs, i, done);
      forall k :: 0 <= k < |items| ==> w.items[k] == Lowered(items[k], Consumed(w.lines, |done|, items[k].id))
    decreases |reqs| - i
  {
    if i < |reqs| {
      match CheckLine(items, reqs[i])
      case Reject(_) =>
      case Accept(j, line) =>
        TakeStockKeepsIds(items, j, line.quantity);
        WalkAccounting(TakeStock(items, j, line.quantity), reqs, i + 1, done + [line]);
        AcceptedAccounting(items, reqs, i, done, j, line);
    }
  }

  /** The accounting of the walk after an accepted line, given that of the rest of the walk. */
  lemma AcceptedAccounting(items: seq<Item>, reqs: seq<JsValue>, i: nat, done: seq<SaleLine>, j: nat, line: SaleLine)
    requires i < |reqs| && DistinctIds(items) && CheckLine(items, reqs[i]) == Accept(j, line)
    requires var next := TakeStock(items, j, line.quantity);
      var w := WalkLines(next, reqs, i + 1, done + [line]);
      forall k :: 0 <= k < |next| ==> w.items[k] == Lowered(next[k], Consumed(w.lines, |done| + 1, next[k].id))
    ensures var w := WalkLines(items, reqs, i, done);
      forall k :: 0 <= k < |items| ==> w.items[k] == Lowered(items[k], Consumed(w.lines, |done|, items[k].id))
  {
    var w := WalkLines(TakeStock(items, j, line.quantity), reqs, i + 1, done + [line]);
    assert w.lines[|done|] == (done + [line])[|done|];
    AccountingStep(items, j, w.lines, |done|, w.items);
  }

  /** Lowering one item's stock keeps the ids. */
  lemma TakeStockKeepsIds(items: seq<Item>, k: nat, q: int)
    requires k < |items| && DistinctIds(items)
    ensures DistinctIds(TakeStock(items, k, q))
  {
    var next := TakeStock(items, k, q);
    assert forall n :: 0 <= n < |items| ==> next[n].id == items[n].id;
  }

  /** Taking no more than the stock keeps the item collection valid. */
  lemma TakeStockKeepsTable(items: seq<Item>, k: nat, q: int)
    requires ItemTableValid(items) && k < |items| && q <= items[k].stock
    ensures ItemTableValid(TakeStock(items, k, q)) && SameCatalogue(items, TakeStock(items, k, q))
  {
    var next := TakeStock(items, k, q);
    assert forall n :: 0 <= n < |items| ==> next[n] == if n == k then Lowered(items[k], q) else items[n];
  }

  /** The loop keeps the item collection valid: stock never goes below zero, names and ids do not change. */
  lemma {:induction false} WalkPreservesItemTable(items: seq<Item>, reqs: seq<JsValue>, i: nat, done: seq<SaleLine>)
    requires i <= |reqs| && ItemTableValid(items)
    ensures ItemTableValid(WalkLines(items, reqs, i, done).items)
    ensures SameCatalogue(items, WalkLines(items, reqs, i, done).items)
    decreases |reqs| - i
  {
    if i < |reqs| {
      match CheckLine(items, reqs[i])
      case Reject(_) =>
      case Accept(j, line) =>
        TakeStockKeepsTable(items, j, line.quantity);
        WalkPreservesItemTable(TakeStock(items, j, line.quantity), reqs, i + 1, done + [line]);
    }
  }

  /** The line answers the request: same item and quantity, subtotal = price × quantity, name and price those of the item. */
  predicate LineAnswers(line: SaleLine, req: JsValue, items: seq<Item>) {
    && req.Obj?
    && Get(req.fields, "item") == Str(line.item)
    && QuantityOf(Get(req.fields, "quantity")) == Some(line.quantity)
    && line.subtotal == line.price * line.quantity
    && exists k :: 0 <= k < |items| && items[k].id == line.item && line.price == items[k].price && line.itemName == Some(items[k].name)
  }

  /** The two tables agree on every item's id, name and price. */
  predicate SameCatalogue(items: seq<Item>, other: seq<Item>) {
    && |other| == |items|
    && forall k :: 0 <= k < |items| ==>
         other[k].id == items[k].id && other[k].name == items[k].name && other[k].price == items[k].price
  }

  /** Whether a line answers a request does not depend on the stock levels. */
  lemma AnswersIgnoreStock(line: SaleLine, req: JsValue, items: seq<Item>, other: seq<Item>)
    requires SameCatalogue(items, other) && LineAnswers(line, req, other)
    ensures LineAnswers(line, req, items)
  {
    var k :| 0 <= k < |other| && other[k].id == line.item && line.price == other[k].price && line.itemName == Some(other[k].name);
    assert items[k].id == line.item;
  }

  /** The accepted line of one step answers its request. */
  lemma FirstLineAnswers(items: seq<Item>, reqs: seq<JsValue>, i: nat, done: seq<SaleLine>)
    requires i < |reqs| && CheckLine(items, reqs[i]).Accept?
    ensures var c := CheckLine(items, reqs[i]);
      var w := WalkLines(TakeStock(items, c.k, c.line.quantity), reqs, i + 1, done + [c.line]);
      |done| < |w.lines| && LineAnswers(w.lines[|done|], reqs[i], items)
  {
    var c := CheckLine(items, reqs[i]);
    var d := done + [c.line];
    var w := WalkLines(TakeStock(items, c.k, c.line.quantity), reqs, i + 1, d);
    assert w.lines[|done|] == d[|done|];
    assert items[c.k].id == c.line.item;
  }

  /** The `j`-th line of the walk answers request `r`, the one `j` lines after the walk started. */
  lemma {:induction false} WalkLineAnswers(items: seq<Item>, reqs: seq<JsValue>, i: nat, done: seq<SaleLine>, j: nat, r: nat)
    requires i <= |reqs| && |done| <= j < |WalkLines(items, reqs, i, done).lines| && r == i + j - |done|
    ensures r < |reqs| && LineAnswers(WalkLines(items, reqs, i, done).lines[j], reqs[r], items)
    decreases |reqs| - i, 1
  {
    if i == |reqs| || CheckLine(items, reqs[i]).Reject? {
      assert false;
    } else if j == |done| {
      FirstLineAnswers(items, reqs, i, done);
    } else {
      LaterLineAnswers(items, reqs, i, done, j, r);
    }
  }

  /** A line after the first accepted one answers its request: by induction on the rest of the walk. */
  lemma {:induction false} LaterLineAnswers(items: seq<Item>, reqs: seq<JsValue>, i: nat, done: seq<SaleLine>, j: nat, r: nat)
    requires i < |reqs| && CheckLine(items, reqs[i]).Accept?
    requires |done| < j < |WalkLines(items, reqs, i, done).lines| && r == i + j - |done|
    ensures r < |reqs| && LineAnswers(WalkLines(items, reqs, i, done).lines[j], reqs[r], items)
    decreases |reqs| - i, 0
  {
    var c := CheckLine(items, reqs[i]);
    var next := TakeStock(items, c.k, c.line.quantity);
    var w := WalkLines(next, reqs, i + 1, done + [c.line]);
    WalkLineAnswers(next, reqs, i + 1, done + [c.line], j, r);
    TakeStockKeepsCatalogue(items, c.k, c.line.quantity);
    AnswersIgnoreStock(w.lines[j], reqs[r], items, next);
  }

  /** Lowering one item's stock keeps the catalogue. */
  lemma TakeStockKeepsCatalogue(items: seq<Item>, k: nat, q: int)
    requires k < |items|
    ensures SameCatalogue(items, TakeStock(items, k, q))
  {
  }

  /** Each line taken answers one request, in request order, and snapshots that item's name and price. */
  lemma WalkFollowsRequests(items: seq<Item>, reqs: seq<JsValue>)
    ensures var w := WalkLines(items, reqs, 0, []);
      forall j :: 0 <= j < |w.lines| ==> LineAnswers(w.lines[j], reqs[j], items)
  {
    var w := WalkLines(items, reqs, 0, []);
    forall j | 0 <= j < |w.lines| ensures LineAnswers(w.lines[j], reqs[j], items) {
      WalkLineAnswers(items, reqs, 0, [], j, j);
    }
  }

  /** A request line naming a stored item by a string id, with a quantity that reads as a number of at least 0. */
  predicate OrdersStored(items: seq<Item>, req: JsValue) {
    && req.Obj? && Get(req.fields, "item").Str?
    && (exists k :: 0 <= k < |items| && items[k].id == Get(req.fields, "item").s)
    && QuantityOf(Get(req.fields, "quantity")).Some? && QuantityOf(Get(req.fields, "quantity")).value >= 0
  }

  /** The quantity the request lines from index `from` on ask of item `id`. */
  function Requested(reqs: seq<JsValue>, from: nat, id: Id): int
    requires from <= |reqs|
    decreases |reqs| - from
  {
    if from == |reqs| then 0
    else
      var req := reqs[from];
      var asked := if req.Obj? && Get(req.fields, "item") == Str(id) && QuantityOf(Get(req.fields, "quantity")).Some?
        then QuantityOf(Get(req.fields, "quantity")).value else 0;
      asked + Requested(reqs, from + 1, id)
  }

  lemma {:induction false} RequestedNonNegative(items: seq<Item>, reqs: seq<JsValue>, from: nat, id: Id)
    requires from <= |reqs|
    requires forall n :: from <= n < |reqs| ==> OrdersStored(items, reqs[n])
    ensures Requested(reqs, from, id) >= 0
    decreases |reqs| - from
  {
    if from < |reqs| {
      RequestedNonNegative(items, reqs, from + 1, id);
    }
  }

  /**
   * When every line names a stored item with a quantity of at least 0, and
   * no item is asked for more than its stock over the whole request, the
   * loop takes every line.
   */
  lemma {:induction false} WalkCompletes(items: seq<Item>, reqs: seq<JsValue>, i: nat, done: seq<SaleLine>)
    requires i <= |reqs|
    requires forall n :: i <= n < |reqs| ==> OrdersStored(items, reqs[n])
    requires forall k :: 0 <= k < |items| ==> Requested(reqs, i, items[k].id) <= items[k].stock
    ensures WalkLines(items, reqs, i, done).Walked?
    decreases |reqs| - i
  {
    if i < |reqs| {
      var req := reqs[i];
      var id := Get(req.fields, "item").s;
      var q := QuantityOf(Get(req.fields, "quantity")).value;
      var k := FindItem(items, id).value;
      RequestedNonNegative(items, reqs, i + 1, id);
      assert Requested(reqs, i, id) == q + Requested(reqs, i + 1, id);
      var c := CheckLine(items, req);
      assert c.Accept? && c.k == k && c.line.quantity == q;
      var next := TakeStock(items, k, q);
      forall n | i + 1 <= n < |reqs| ensures OrdersStored(next, reqs[n]) {
        var j :| 0 <= j < |items| && items[j].id == Get(reqs[n].fields, "item").s;
        assert next[j].id == items[j].id;
      }
      forall j | 0 <= j < |next| ensures Requested(reqs, i + 1, next[j].id) <= next[j].stock {
        var other := items[j].id;
        assert next[j].id == other;
        if other != id {
          assert Requested(reqs, i, other) == Requested(reqs, i + 1, other);
        }
      }
      WalkCompletes(next, reqs, i + 1, done + [c.line]);
    }
  }

  // ------------------------------------------------------------ storing the sale

  /** `req.body.paymentStatus || 'pending'` through the enum validator. */
  function SuppliedStatus(v: JsValue): (r: Option<PaymentStatus>)
    ensures !Truthy(v) ==> r == Some(DefaultPaymentStatus)
    ensures v.Str? && v.s != "" ==> r == ParseStatus(v.s)
    ensures r.Some? ==> !Truthy(v) || (v.Str? && StatusName(r.value) == v.s)
  {
    if !Truthy(v) then Some(DefaultPaymentStatus)
    else if v.Str? then ParseStatus(v.s)
    else None
  }

  /** The line quantities all pass the `min: 1` validator. */
  predicate QuantitiesValid(lines: seq<SaleLine>) {
    forall i :: 0 <= i < |lines| ==> lines[i].quantity >= 1
  }

  /** The document `Sale.create` validates: paymentStatus in the enum, every quantity at least 1, `totalAmount >= 0`. */
  function BuildSale(id: Id, invoice: string, customer: Id, lines: seq<SaleLine>, total: int, status: JsValue, now: int, userId: Id): (r: Result<Sale, Failure>)
    requires invoice != ""
    ensures r.Ok? <==> SuppliedStatus(status).Some? && QuantitiesValid(lines) && total >= 0
    ensures r.Ok? ==> ValidSale(r.value)
    ensures r.Ok? ==> r.value == Sale(id, invoice, customer, lines, total, Some(SuppliedStatus(status).value), now, userId)
    ensures r.Err? ==> r.error == ValidationFailed
  {
    match SuppliedStatus(status)
    case None => Err(ValidationFailed)
    case Some(p) =>
      if !QuantitiesValid(lines) || total < 0 then Err(ValidationFailed)
      else Ok(Sale(id, invoice, customer, lines, total, Some(p), now, userId))
  }

  /** The insert: refused by the unique indexes on `_id` and `invoiceNumber`, otherwise appended. */
  function InsertSale(sales: seq<Sale>, sale: Sale): (r: Result<seq<Sale>, Failure>)
    ensures r.Ok? <==> forall i :: 0 <= i < |sales| ==> sales[i].id != sale.id && sales[i].invoiceNumber != sale.invoiceNumber
    ensures r.Ok? ==> r.value == sales + [sale]
    ensures r.Err? ==> r.error == DuplicateKey
  {
    if FirstIndex(sales, HasSaleId(sale.id)).Some? || FirstIndex(sales, HasInvoice(sale.invoiceNumber)).Some? then
      Err(DuplicateKey)
    else
      assert forall i :: 0 <= i < |sales| ==> !HasSaleId(sale.id)(sales[i]) && !HasInvoice(sale.invoiceNumber)(sales[i]);
      Ok(sales + [sale])
  }

  /** After the loop: number the sale, validate it, insert it; failures answer 400 and keep the stock already deducted. */
  function RecordSale(items: seq<Item>, sales: seq<Sale>, made: Result<Sale, Failure>): (o: SaleOutcome)
    ensures o.items == items
  {
    match made
    case Err(f) => SaleOutcome(items, sales, SendCaught(400, f))
    case Ok(sale) =>
      match InsertSale(sales, sale)
      case Err(f) => SaleOutcome(items, sales, SendCaught(400, f))
      case Ok(stored) => SaleOutcome(items, stored, SendCreated("Sale created successfully", Obj(map["sale" := SaleJson(sale)])))
  }

  /**
   * `createSale` with the clock (`year`, `month`, `now`), the new document id
   * and the authenticated user's id as parameters.
   */
  function CreateSaleSpec(
    items: seq<Item>, customers: set<Id>, sales: seq<Sale>, body: map<string, JsValue>,
    userId: Id, newId: Id, year: nat, month: nat, now: int): (o: SaleOutcome)
    ensures Missing(body, SaleRequired) != [] ==>
      o == SaleOutcome(items, sales, SendMissingParam(Missing(body, SaleRequired)))
    ensures Missing(body, SaleRequired) == [] && Precheck(body, customers).Err? ==>
      o == SaleOutcome(items, sales, Precheck(body, customers).error)
    ensures Missing(body, SaleRequired) == [] && Precheck(body, customers).Ok? ==>
      o == SellSpec(items, sales, Precheck(body, customers).value, Get(body, "customer").s, Get(body, "paymentStatus"),
                    userId, newId, year, month, now)
  {
    var missing := Missing(body, SaleRequired);
    if |missing| > 0 then SaleOutcome(items, sales, SendMissingParam(missing))
    else match Precheck(body, customers)
      case Err(resp) => SaleOutcome(items, sales, resp)
      case Ok(reqs) =>
        SellSpec(items, sales, reqs, Get(body, "customer").s, Get(body, "paymentStatus"), userId, newId, year, month, now)
  }

  /** `createSale` from the loop on: take the lines, then number, validate and insert the sale. */
  function SellSpec(
    items: seq<Item>, sales: seq<Sale>, reqs: seq<JsValue>, customer: Id, status: JsValue,
    userId: Id, newId: Id, year: nat, month: nat, now: int): (o: SaleOutcome)
  {
    match WalkLines(items, reqs, 0, [])
    case Halted(after, _, why) => SaleOutcome(after, sales, RefusalResponse(why))
    case Walked(after, lines) =>
      var invoice := InvoiceNumber(year, month, |sales|);
      RecordSale(after, sales, BuildSale(newId, invoice, customer, lines, SumSubtotals(lines), status, now, userId))
  }

  // ------------------------------------------------------------ what a sale does to the collections

  /** Storing a valid sale numbered after the last one keeps the sales valid; they grow exactly on a 201. */
  lemma RecordSaleKeepsTable(items: seq<Item>, sales: seq<Sale>, made: Result<Sale, Failure>)
    requires SaleTableValid(sales)
    requires made.Ok? ==> ValidSale(made.value) && InvoiceSequence(made.value.invoiceNumber) == Some(|sales| + 1)
    ensures var o := RecordSale(items, sales, made);
      SaleTableValid(o.sales) && (o.sales == sales <==> o.response.httpStatus != 201)
  {
    if made.Ok? && InsertSale(sales, made.value).Ok? {
      AppendKeepsSaleTable(sales, made.value);
      assert |sales + [made.value]| != |sales|;
    }
  }

  /** The loop and the insert keep both collections valid, and the sales grow exactly when the answer is 201. */
  lemma SellPreservesTables(
    items: seq<Item>, sales: seq<Sale>, reqs: seq<JsValue>, customer: Id, status: JsValue,
    userId: Id, newId: Id, year: nat, month: nat, now: int)
    requires ItemTableValid(items) && SaleTableValid(sales)
    ensures var o := SellSpec(items, sales, reqs, customer, status, userId, newId, year, month, now);
      && ItemTableValid(o.items) && SaleTableValid(o.sales)
      && (o.sales == sales <==> o.response.httpStatus != 201)
  {
    WalkPreservesItemTable(items, reqs, 0, []);
    var w := WalkLines(items, reqs, 0, []);
    if w.Walked? {
      NumberedSaleKeepsTable(w.items, sales, w.lines, customer, status, userId, newId, year, month, now);
    }
  }

  /** The sale built after a complete walk carries the next invoice number, so recording it keeps the sales valid. */
  lemma NumberedSaleKeepsTable(
    items: seq<Item>, sales: seq<Sale>, lines: seq<SaleLine>, customer: Id, status: JsValue,
    userId: Id, newId: Id, year: nat, month: nat, now: int)
    requires SaleTableValid(sales)
    ensures var made := BuildSale(newId, InvoiceNumber(year, month, |sales|), customer, lines, SumSubtotals(lines), status, now, userId);
      var o := RecordSale(items, sales, made);
      SaleTableValid(o.sales) && (o.sales == sales <==> o.response.httpStatus != 201)
  {
    InvoiceSequenceRoundTrip(year, month, |sales|);
    RecordSaleKeepsTable(items, sales, BuildSale(newId, InvoiceNumber(year, month, |sales|), customer, lines, SumSubtotals(lines), status, now, userId));
  }

  /**
   * When the loop takes every line and the document validates, the sale is
   * stored under the next invoice number with the walked lines, their total,
   * the supplied (or default) status, the clock and the user; the unique
   * indexes never refuse it, because invoice numbers follow the count.
   */
  lemma SellRecords(
    items: seq<Item>, sales: seq<Sale>, reqs: seq<JsValue>, customer: Id, status: JsValue,
    userId: Id, newId: Id, year: nat, month: nat, now: int)
    requires SaleTableValid(sales) && forall i :: 0 <= i < |sales| ==> sales[i].id != newId
    ensures var w := WalkLines(items, reqs, 0, []);
      var o := SellSpec(items, sales, reqs, customer, status, userId, newId, year, month, now);
      && o.items == w.items
      && (o.response.httpStatus == 201 <==>
            w.Walked? && SuppliedStatus(status).Some? && QuantitiesValid(w.lines) && SumSubtotals(w.lines) >= 0)
      && (o.response.httpStatus == 201 ==>
            o.sales == sales + [Sale(newId, InvoiceNumber(year, month, |sales|), customer, w.lines,
                                     SumSubtotals(w.lines), SuppliedStatus(status), now, userId)])
  {
    NextInvoiceIsFresh(sales, year, month);
  }

  /**
   * `createSale` keeps both collections valid; sales grow exactly on a 201;
   * a request refused before the loop changes nothing.
   */
  lemma CreateSalePreservesTables(
    items: seq<Item>, customers: set<Id>, sales: seq<Sale>, body: map<string, JsValue>,
    userId: Id, newId: Id, year: nat, month: nat, now: int)
    requires ItemTableValid(items) && SaleTableValid(sales)
    ensures var o := CreateSaleSpec(items, customers, sales, body, userId, newId, year, month, now);
      && ItemTableValid(o.items) && SaleTableValid(o.sales)
      && (o.sales == sales <==> o.response.httpStatus != 201)
      && (Missing(body, SaleRequired) != [] || Precheck(body, customers).Err? ==> o.items == items && o.sales == sales)
  {
    if Missing(body, SaleRequired) == [] && Precheck(body, customers).Ok? {
      SellPreservesTables(items, sales, Precheck(body, customers).value, Get(body, "customer").s, Get(body, "paymentStatus"),
        userId, newId, year, month, now);
    }
  }

  /**
   * A 201 from `createSale` means: all required fields, an existing customer,
   * every request line taken, and the sale stored as the walk made it, after
   * the sales already recorded.
   */
  lemma CreateSaleRecords(
    items: seq<Item>, customers: set<Id>, sales: seq<Sale>, body: map<string, JsValue>,
    userId: Id, newId: Id, year: nat, month: nat, now: int)
    requires SaleTableValid(sales) && forall i :: 0 <= i < |sales| ==> sales[i].id != newId
    ensures var o := CreateSaleSpec(items, customers, sales, body, userId, newId, year, month, now);
      o.response.httpStatus == 201 ==>
        && Missing(body, SaleRequired) == []
        && Precheck(body, customers).Ok?
        && Get(body, "customer").Str? && Get(body, "customer").s in customers
        && var w := WalkLines(items, Precheck(body, customers).value, 0, []);
           && w.Walked?
           && o.items == w.items
           && o.sales == sales + [Sale(newId, InvoiceNumber(year, month, |sales|), Get(body, "customer").s, w.lines,
                                       SumSubtotals(w.lines), SuppliedStatus(Get(body, "paymentStatus")), now, userId)]
  {
    if Missing(body, SaleRequired) == [] && Precheck(body, customers).Ok? {
      SellRecords(items, sales, Precheck(body, customers).value, Get(body, "customer").s, Get(body, "paymentStatus"),
        userId, newId, year, month, now);
    }
  }

  /** An item priced 10 with 5 in stock: a line of 3 is taken, leaving 2 and a total of 30. */
  lemma TakeThreeOfFive()
    ensures var tea := Item("t1", "Masala tea", Tea, 10, 5, 10, "cup", true, 0);
      var req := Obj(map["item" := Str("t1"), "quantity" := Num(3)]);
      var w := WalkLines([tea], [req], 0, []);
      && w == Walked([tea.(stock := 2)], [SaleLine("t1", Some("Masala tea"), 3, 10, 30)])
      && SumSubtotals(w.lines) == 30
  {
    var tea := Item("t1", "Masala tea", Tea, 10, 5, 10, "cup", true, 0);
    var req := Obj(map["item" := Str("t1"), "quantity" := Num(3)]);
    assert Get(req.fields, "item") == Str("t1");
    assert Get(req.fields, "quantity") == Num(3);
    assert FindItem([tea], "t1") == Some(0);
    assert CheckLine([tea], req) == Accept(0, SaleLine("t1", Some("Masala tea"), 3, 10, 30));
  }

  /**
   * Two lines of 3 against a stock of 5: the second is refused with the stock
   * left after the first, and the first deduction is not undone.
   */
  lemma SecondLineShort()
    ensures var tea := Item("t1", "Masala tea", Tea, 10, 5, 10, "cup", true, 0);
      var req := Obj(map["item" := Str("t1"), "quantity" := Num(3)]);
      var w := WalkLines([tea], [req, req], 0, []);
      w == Halted([tea.(stock := 2)], [SaleLine("t1", Some("Masala tea"), 3, 10, 30)], ShortStock("Masala tea", 2))
  {
    var tea := Item("t1", "Masala tea", Tea, 10, 5, 10, "cup", true, 0);
    var req := Obj(map["item" := Str("t1"), "quantity" := Num(3)]);
    assert Get(req.fields, "item") == Str("t1");
    assert Get(req.fields, "quantity") == Num(3);
    assert FindItem([tea], "t1") == Some(0);
    assert CheckLine([tea], req) == Accept(0, SaleLine("t1", Some("Masala tea"), 3, 10, 30));
    var after := [tea.(stock := 2)];
    assert FindItem(after, "t1") == Some(0);
    assert CheckLine(after, req) == Reject(ShortStock("Masala tea", 2));
  }

  /**
   * The loop of `createSale` over the request lines: per line, the item's
   * stock is checked and lowered and the line snapshot appended, with the
   * running total; it stops at the first line that is refused.
   */
  method TakeLines(db: Database, lines: seq<JsValue>) returns (saleItems: seq<SaleLine>, totalAmount: int, stop: Option<Refusal>)
    modifies db
    ensures stop.None? ==> WalkLines(old(db.items), lines, 0, []) == Walked(db.items, saleItems)
    ensures stop.Some? ==> WalkLines(old(db.items), lines, 0, []) == Halted(db.items, saleItems, stop.value)
    ensures totalAmount == SumSubtotals(saleItems)
    ensures db.customers == old(db.customers) && db.sales == old(db.sales) && db.users == old(db.users)
  {
    totalAmount := 0;
    saleItems := [];
    stop := None;
    ghost var walk := WalkLines(db.items, lines, 0, []);
    for i := 0 to |lines|
      invariant WalkLines(db.items, lines, i, saleItems) == walk
      invariant totalAmount == SumSubtotals(saleItems)
      invariant db.customers == old(db.customers) && db.sales == old(db.sales) && db.users == old(db.users)
    {
      var check := CheckLine(db.items, lines[i]);
      if check.Reject? {
        stop := Some(check.refusal);
        return;
      }
      var line := check.line;
      assert WalkLines(db.items, lines, i, saleItems) ==
        WalkLines(TakeStock(db.items, check.k, line.quantity), lines, i + 1, saleItems + [line]);
      totalAmount := totalAmount + line.subtotal;
      saleItems := saleItems + [line];
      db.items := TakeStock(db.items, check.k, line.quantity);
    }
  }

  /** `createSale` after the checks on the body: the loop, then the insert. */
  method Sell(
    db: Database, reqs: seq<JsValue>, customer: Id, status: JsValue,
    userId: Id, newId: Id, year: nat, month: nat, now: int)
    returns (resp: Response)
    modifies db
    ensures var o := SellSpec(old(db.items), old(db.sales), reqs, customer, status, userId, newId, year, month, now);
      db.items == o.items && db.sales == o.sales && resp == o.response
    ensures db.customers == old(db.customers) && db.users == old(db.users)
    ensures old(db.Valid()) ==> db.Valid()
  {
    if ItemTableValid(db.items) && SaleTableValid(db.sales) {
      SellPreservesTables(db.items, db.sales, reqs, customer, status, userId, newId, year, month, now);
    }
    var saleItems, totalAmount, stop := TakeLines(db, reqs);
    if stop.Some? {
      resp := RefusalResponse(stop.value);
      return;
    }
    var invoiceNumber := InvoiceNumber(year, month, |db.sales|);
    var made := BuildSale(newId, invoiceNumber, customer, saleItems, totalAmount, status, now, userId);
    if made.Err? {
      resp := SendCaught(400, made.error);
      return;
    }
    var stored := InsertSale(db.sales, made.value);
    if stored.Err? {
      resp := SendCaught(400, stored.error);
      return;
    }
    db.sales := stored.value;
    resp := SendCreated("Sale created successfully", Obj(map["sale" := SaleJson(made.value)]));
  }

  method CreateSale(
    db: Database, body: map<string, JsValue>, userId: Id, newId: Id, year: nat, month: nat, now: int)
    returns (resp: Response)
    modifies db
    ensures var o := CreateSaleSpec(old(db.items), old(db.customers), old(db.sales), body, userId, newId, year, month, now);
      db.items == o.items && db.sales == o.sales && resp == o.response
    ensures db.customers == old(db.customers) && db.users == old(db.users)
    ensures old(db.Valid()) ==> db.Valid()
  {
    var requiredFields := IsEmpty(body, SaleRequired);
    if |requiredFields| > 0 {
      resp := SendMissingParam(requiredFields);
      return;
    }
    var pre := Precheck(body, db.customers);
    if pre.Err? {
      resp := pre.error;
      return;
    }
    resp := Sell(db, pre.value, Get(body, "customer").s, Get(body, "paymentStatus"), userId, newId, year, month, now);
  }
}
