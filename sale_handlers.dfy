/**
 * The other handlers of the sale controller
 * (backend/controllers/saleController.js): `getSales` with its date,
 * customer and status filter, `getSale`, `updateSale`, which changes a
 * sale's payment status, and the summary of `getSalesStats`.
 */
module SaleHandlers {
  import opened Wrappers
  import opened Json
  import opened Tables
  import opened Responses
  import opened SaleModel
  import opened Store

  // ------------------------------------------------------------ the filter of getSales and getSalesStats

  /** The conditions `getSales` puts in its query object; each is there only when its parameter was given. */
  datatype SaleFilter = SaleFilter(from: Option<int>, to: Option<int>, customer: Option<Id>, status: Option<string>)

  /** A query-string parameter as the destructuring `const { x } = req.query` sees it: absent and `''` are both falsy. */
  function Param(query: map<string, string>, key: string): (r: Option<string>)
    ensures r.Some? <==> key in query && query[key] != ""
    ensures r.Some? ==> r.value == query[key]
  {
    if key in query && query[key] != "" then Some(query[key]) else None
  }

  /**
   * `new Date(text)` as a bound on `saleDate`: the date parser is a
   * parameter, and a text it cannot read makes the query's cast fail.
   */
  function DateBound(text: Option<string>, parseDate: string -> Option<int>): (r: Result<Option<int>, Failure>)
    ensures text.None? ==> r == Ok(None)
    ensures text.Some? ==> (r.Ok? <==> parseDate(text.value).Some?)
    ensures text.Some? && r.Ok? ==> r.value == parseDate(text.value)
  {
    match text
    case None => Ok(None)
    case Some(t) =>
      match parseDate(t)
      case None => Err(CastFailed)
      case Some(d) => Ok(Some(d))
  }

  /** The `saleDate` range of the query: `$gte` from `startDate`, `$lte` from `endDate`. */
  function ReadDates(query: map<string, string>, parseDate: string -> Option<int>): (r: Result<SaleFilter, Failure>)
    ensures r.Ok? <==> DateBound(Param(query, "startDate"), parseDate).Ok? && DateBound(Param(query, "endDate"), parseDate).Ok?
    ensures r.Ok? ==> r.value.customer.None? && r.value.status.None?
    ensures r.Ok? && Param(query, "startDate").None? ==> r.value.from.None?
    ensures r.Ok? && Param(query, "endDate").None? ==> r.value.to.None?
  {
    match DateBound(Param(query, "startDate"), parseDate)
    case Err(f) => Err(f)
    case Ok(from) =>
      match DateBound(Param(query, "endDate"), parseDate)
      case Err(f) => Err(f)
      case Ok(to) => Ok(SaleFilter(from, to, None, None))
  }

  /** The whole query object of `getSales`: the date range, then `customer` and `paymentStatus` when given. */
  function ReadFilter(query: map<string, string>, parseDate: string -> Option<int>): (r: Result<SaleFilter, Failure>)
    ensures r.Ok? <==> ReadDates(query, parseDate).Ok?
    ensures r.Ok? ==> r.value.customer == Param(query, "customer") && r.value.status == Param(query, "paymentStatus")
    ensures r.Ok? ==> r.value.from == ReadDates(query, parseDate).value.from && r.value.to == ReadDates(query, parseDate).value.to
  {
    match ReadDates(query, parseDate)
    case Err(f) => Err(f)
    case Ok(dates) => Ok(dates.(customer := Param(query, "customer"), status := Param(query, "paymentStatus")))
  }

  /** Whether a sale satisfies every condition of the filter; the date range is inclusive at both ends. */
  predicate Matches(f: SaleFilter, s: Sale) {
    && (f.from.Some? ==> s.saleDate >= f.from.value)
    && (f.to.Some? ==> s.saleDate <= f.to.value)
    && (f.customer.Some? ==> s.customer == f.customer.value)
    && (f.status.Some? ==> s.paymentStatus.Some? && StatusName(s.paymentStatus.value) == f.status.value)
  }

  function Matching(f: SaleFilter): Sale -> bool {
    (s: Sale) => Matches(f, s)
  }

  function SaleDateKey(): Sale -> int {
    (s: Sale) => s.saleDate
  }

  /** `Sale.find(query).sort('-saleDate')`: the matching sales, each as often as stored, latest first. */
  function Selected(sales: seq<Sale>, f: SaleFilter): (r: seq<Sale>)
    ensures multiset(r) == multiset(Filter(sales, Matching(f)))
    ensures forall s :: s in r <==> s in sales && Matches(f, s)
    ensures forall i, j :: 0 <= i < j < |r| ==> r[i].saleDate >= r[j].saleDate
  {
    var found := Filter(sales, Matching(f));
    var r := SortDesc(found, SaleDateKey());
    assert forall s :: s in r <==> s in multiset(found);
    assert forall i, j :: 0 <= i < j < |r| ==> SaleDateKey()(r[i]) >= SaleDateKey()(r[j]);
    r
  }

  /** A filter that keeps everything keeps the sequence as it is. */
  lemma {:induction false} FilterEverything(sales: seq<Sale>, f: SaleFilter)
    requires forall i :: 0 <= i < |sales| ==> Matches(f, sales[i])
    ensures Filter(sales, Matching(f)) == sales
  {
    if sales != [] {
      FilterEverything(sales[1..], f);
    }
  }

  /** Without any query parameter, `getSales` lists every stored sale exactly once. */
  lemma UnfilteredListsAll(sales: seq<Sale>, parseDate: string -> Option<int>)
    ensures ReadFilter(map[], parseDate) == Ok(SaleFilter(None, None, None, None))
    ensures multiset(Selected(sales, SaleFilter(None, None, None, None))) == multiset(sales)
  {
    FilterEverything(sales, SaleFilter(None, None, None, None));
  }

  /** Nothing is selected exactly when no stored sale matches. */
  lemma SelectedEmpty(sales: seq<Sale>, f: SaleFilter)
    ensures |Selected(sales, f)| == 0 <==> forall i :: 0 <= i < |sales| ==> !Matches(f, sales[i])
  {
    var found := Selected(sales, f);
    if |found| == 0 {
      forall i | 0 <= i < |sales|
        ensures !Matches(f, sales[i])
      {
        assert sales[i] !in found;
      }
    } else {
      assert found[0] in found;
    }
  }

  function ListResult(sales: seq<Sale>): JsValue {
    Obj(map["sales" := SalesJson(sales), "count" := Num(|sales|)])
  }

  /**
   * `getSales`: an unreadable date is a 500; no matching sale is a 404
   * "No sales found"; otherwise the matching sales, latest first, and their count.
   */
  function GetSales(sales: seq<Sale>, query: map<string, string>, parseDate: string -> Option<int>): (r: Response)
    ensures Conforms(r)
    ensures r.httpStatus == 500 <==> ReadFilter(query, parseDate).Err?
    ensures r.httpStatus == 404 <==>
      ReadFilter(query, parseDate).Ok? && forall i :: 0 <= i < |sales| ==> !Matches(ReadFilter(query, parseDate).value, sales[i])
    ensures r.httpStatus != 404 && r.httpStatus != 500 ==>
      r.httpStatus == 200 && r.body.result == Some(ListResult(Selected(sales, ReadFilter(query, parseDate).value)))
  {
    match ReadFilter(query, parseDate)
    case Err(e) => SendCaught(500, e)
    case Ok(f) =>
      var found := Selected(sales, f);
      SelectedEmpty(sales, f);
      if |found| == 0 then SendNoRecord("No sales found")
      else SendSuccess("Sales retrieved successfully", ListResult(found))
  }

  // ------------------------------------------------------------ getSale

  /** `getSale`: the sale with that id, or 404 "Sale not found". */
  function GetSale(sales: seq<Sale>, id: Id): (r: Response)
    ensures Conforms(r)
    ensures r.httpStatus == 404 <==> forall i :: 0 <= i < |sales| ==> sales[i].id != id
    ensures r.httpStatus != 404 ==>
      exists i :: 0 <= i < |sales| && sales[i].id == id && r.body.result == Some(Obj(map["sale" := SaleJson(sales[i])]))
  {
    match FirstIndex(sales, HasSaleId(id))
    case None => SendNoRecord("Sale not found")
    case Some(k) => SendSuccess("Sale retrieved successfully", Obj(map["sale" := SaleJson(sales[k])]))
  }

  // ------------------------------------------------------------ updateSale

  /** What `{ paymentStatus }` does to the stored field under `runValidators`. */
  datatype StatusPatch = Keep | Clear | SetTo(status: PaymentStatus)

  /**
   * An absent `paymentStatus` leaves the field alone, `null` clears it (the
   * enum validator lets null through), a member of the enum sets it; any
   * other value fails validation or the string cast.
   */
  function ReadStatusPatch(v: JsValue): (r: Result<StatusPatch, Failure>)
    ensures v.Undefined? ==> r == Ok(Keep)
    ensures v.Null? ==> r == Ok(Clear)
    ensures r.Ok? <==> v.Undefined? || v.Null? || (v.Str? && ParseStatus(v.s).Some?)
    ensures r.Ok? && r.value.SetTo? ==> v.Str? && StatusName(r.value.status) == v.s
  {
    match v
    case Undefined => Ok(Keep)
    case Null => Ok(Clear)
    case Str(s) =>
      (match ParseStatus(s)
       case Some(p) => Ok(SetTo(p))
       case None => Err(ValidationFailed))
    case Num(_) => Err(ValidationFailed)
    case Bool(_) => Err(ValidationFailed)
    case Arr(_) => Err(CastFailed)
    case Obj(_) => Err(CastFailed)
  }

  /** The sale after the patch: only `paymentStatus` can differ, and the sale stays valid. */
  function Patch(s: Sale, p: StatusPatch): (r: Sale)
    ensures r.(paymentStatus := s.paymentStatus) == s
    ensures p.Keep? ==> r == s
    ensures p.Clear? ==> r.paymentStatus.None?
    ensures p.SetTo? ==> r.paymentStatus == Some(p.status)
    ensures ValidSale(s) ==> ValidSale(r)
  {
    match p
    case Keep => s
    case Clear => s.(paymentStatus := None)
    case SetTo(status) => s.(paymentStatus := Some(status))
  }

  /** What `updateSale` leaves in the sale collection, and what it answers. */
  datatype SalesOutcome = SalesOutcome(sales: seq<Sale>, response: Response)

  /**
   * `updateSale`: the update is validated before the lookup, so a bad status
   * is a 400 even for an absent id; an absent id is a 404; otherwise only the
   * target's payment status changes.
   */
  function UpdateSaleSpec(sales: seq<Sale>, id: Id, body: map<string, JsValue>): (o: SalesOutcome)
    ensures Conforms(o.response)
    ensures |o.sales| == |sales|
    ensures forall i :: 0 <= i < |sales| ==> o.sales[i].(paymentStatus := sales[i].paymentStatus) == sales[i]
    ensures forall i :: 0 <= i < |sales| && sales[i].id != id ==> o.sales[i] == sales[i]
    ensures ReadStatusPatch(Get(body, "paymentStatus")).Err? ==> o.sales == sales && o.response.httpStatus == 400
    ensures ReadStatusPatch(Get(body, "paymentStatus")).Ok? && (forall i :: 0 <= i < |sales| ==> sales[i].id != id) ==>
      o == SalesOutcome(sales, SendNoRecord("Sale not found"))
    ensures ReadStatusPatch(Get(body, "paymentStatus")).Ok? && FirstIndex(sales, HasSaleId(id)).Some? ==>
      var k := FirstIndex(sales, HasSaleId(id)).value;
      var updated := Patch(sales[k], ReadStatusPatch(Get(body, "paymentStatus")).value);
      o == SalesOutcome(sales[k := updated], SendSuccess("Sale updated successfully", Obj(map["sale" := SaleJson(updated)])))
  {
    match ReadStatusPatch(Get(body, "paymentStatus"))
    case Err(f) => SalesOutcome(sales, SendCaught(400, f))
    case Ok(p) =>
      match FirstIndex(sales, HasSaleId(id))
      case None => SalesOutcome(sales, SendNoRecord("Sale not found"))
      case Some(k) =>
        var updated := Patch(sales[k], p);
        SalesOutcome(sales[k := updated], SendSuccess("Sale updated successfully", Obj(map["sale" := SaleJson(updated)])))
  }

  /** Patching twice with the same value is patching once. */
  lemma PatchIdempotent(s: Sale, p: StatusPatch)
    ensures Patch(Patch(s, p), p) == Patch(s, p)
  {
  }

  /** A successful update replaces exactly the first sale with that id by its patched version; the collection stays valid. */
  lemma UpdateSalePreservesTable(sales: seq<Sale>, id: Id, body: map<string, JsValue>)
    requires SaleTableValid(sales)
    ensures SaleTableValid(UpdateSaleSpec(sales, id, body).sales)
    ensures var o := UpdateSaleSpec(sales, id, body);
      o.response.httpStatus == 200 ==>
        exists k :: 0 <= k < |sales| && sales[k].id == id &&
          o.sales == sales[k := Patch(sales[k], ReadStatusPatch(Get(body, "paymentStatus")).value)]
  {
    var patch := ReadStatusPatch(Get(body, "paymentStatus"));
    if patch.Ok? {
      var found := FirstIndex(sales, HasSaleId(id));
      if found.Some? {
        var k := found.value;
        ReplaceKeepsSaleTable(sales, k, Patch(sales[k], patch.value));
      }
    }
  }

  /** Repeating an update changes nothing more: `updateSale` is idempotent. */
  lemma UpdateSaleIdempotent(sales: seq<Sale>, id: Id, body: map<string, JsValue>)
    ensures var once := UpdateSaleSpec(sales, id, body).sales;
      UpdateSaleSpec(once, id, body).sales == once
  {
    var patch := ReadStatusPatch(Get(body, "paymentStatus"));
    if patch.Ok? {
      var found := FirstIndex(sales, HasSaleId(id));
      if found.Some? {
        var k := found.value;
        var once := sales[k := Patch(sales[k], patch.value)];
        assert forall j :: 0 <= j < |once| ==> once[j].id == sales[j].id;
        assert FirstIndex(once, HasSaleId(id)) == Some(k);
        PatchIdempotent(sales[k], patch.value);
      }
    }
  }

  method UpdateSale(db: Database, id: Id, body: map<string, JsValue>) returns (resp: Response)
    modifies db
    ensures var o := UpdateSaleSpec(old(db.sales), id, body);
      db.sales == o.sales && resp == o.response
    ensures db.items == old(db.items) && db.customers == old(db.customers) && db.users == old(db.users)
    ensures old(db.Valid()) ==> db.Valid()
  {
    if SaleTableValid(db.sales) {
      UpdateSalePreservesTable(db.sales, id, body);
    }
    var patch := ReadStatusPatch(Get(body, "paymentStatus"));
    if patch.Err? {
      resp := SendCaught(400, patch.error);
      return;
    }
    var found := FirstIndex(db.sales, HasSaleId(id));
    if found.None? {
      resp := SendNoRecord("Sale not found");
      return;
    }
    var k := found.value;
    var sale := Patch(db.sales[k], patch.value);
    db.sales := db.sales[k := sale];
    resp := SendSuccess("Sale updated successfully", Obj(map["sale" := SaleJson(sale)]));
  }

  // ------------------------------------------------------------ getSalesStats

  /** The `$group` of `getSalesStats`: how many sales matched and the sum of their totals. */
  datatype Summary = Summary(totalSales: nat, totalRevenue: int)

  function Revenue(sales: seq<Sale>): int {
    if sales == [] then 0 else Revenue(sales[..|sales| - 1]) + sales[|sales| - 1].totalAmount
  }

  /** Recorded sales never have negative totals, so neither has their revenue. */
  lemma {:induction false} RevenueNonNegative(sales: seq<Sale>)
    requires forall i :: 0 <= i < |sales| ==> sales[i].totalAmount >= 0
    ensures Revenue(sales) >= 0
  {
    if sales != [] {
      RevenueNonNegative(sales[..|sales| - 1]);
    }
  }

  /**
   * `stats[0] || { totalSales: 0, totalRevenue: 0 }`: an aggregation over no
   * documents yields no group, and the default agrees with the count and sum
   * of nothing, so the summary is always the count and sum of the matches.
   */
  function StatsSummary(matching: seq<Sale>): (r: Summary)
    ensures r.totalSales == |matching|
    ensures r.totalRevenue == Revenue(matching)
  {
    if matching == [] then Summary(0, 0)
    else Summary(|matching|, Revenue(matching))
  }

  function SummaryJson(s: Summary): JsValue {
    Obj(map["totalSales" := Num(s.totalSales), "totalRevenue" := Num(s.totalRevenue)])
  }

  /** The time value 0, 1970-01-01T00:00:00Z. */
  const Epoch: int := 0

  /**
   * `new Date(text)` as a bound in the `$match` of `getSalesStats`. An
   * aggregation pipeline is not cast, so an unreadable text is no error
   * there: the invalid date is sent to the server as the epoch.
   */
  function StatsBound(text: Option<string>, parseDate: string -> Option<int>): (r: Option<int>)
    ensures r.None? <==> text.None?
    ensures text.Some? && parseDate(text.value).None? ==> r == Some(Epoch)
    ensures DateBound(text, parseDate).Ok? ==> r == DateBound(text, parseDate).value
  {
    match text
    case None => None
    case Some(t) =>
      match parseDate(t)
      case None => Some(Epoch)
      case Some(d) => Some(d)
  }

  /** The `$match` stage of `getSalesStats`: only the two dates, and the same range `getSales` uses whenever both dates read. */
  function StatsDates(query: map<string, string>, parseDate: string -> Option<int>): (r: SaleFilter)
    ensures r.customer.None? && r.status.None?
    ensures (r.from.None? <==> Param(query, "startDate").None?) && (r.to.None? <==> Param(query, "endDate").None?)
    ensures ReadDates(query, parseDate).Ok? ==> r == ReadDates(query, parseDate).value
  {
    SaleFilter(StatsBound(Param(query, "startDate"), parseDate), StatsBound(Param(query, "endDate"), parseDate), None, None)
  }

  /**
   * `getSalesStats`: only `startDate` and `endDate` are read, and the answer
   * is always a 200 with the count and revenue of the sales in the range,
   * even when nothing matched.
   */
  function GetSalesStats(sales: seq<Sale>, query: map<string, string>, parseDate: string -> Option<int>): (r: Response)
    ensures Conforms(r) && r.httpStatus == 200
    ensures var matching := Filter(sales, Matching(StatsDates(query, parseDate)));
      r.body.result == Some(Obj(map["summary" := SummaryJson(Summary(|matching|, Revenue(matching)))]))
  {
    var summary := StatsSummary(Filter(sales, Matching(StatsDates(query, parseDate))));
    SendSuccess("Sales statistics retrieved successfully", Obj(map["summary" := SummaryJson(summary)]))
  }

  /**
   * An unreadable `startDate` without an `endDate` bounds nothing away from
   * sales dated at or after the epoch: the summary covers all of them.
   */
  lemma UnreadableStartSummarisesAll(sales: seq<Sale>, query: map<string, string>, parseDate: string -> Option<int>)
    requires Param(query, "startDate").Some? && parseDate(Param(query, "startDate").value).None?
    requires Param(query, "endDate").None?
    requires forall i :: 0 <= i < |sales| ==> sales[i].saleDate >= Epoch
    ensures GetSalesStats(sales, query, parseDate) ==
      SendSuccess("Sales statistics retrieved successfully", Obj(map["summary" := SummaryJson(Summary(|sales|, Revenue(sales)))]))
  {
    FilterEverything(sales, StatsDates(query, parseDate));
  }

  /**
   * Over a valid collection the summary's revenue is never negative, and its
   * count is the number of sales `getSales` lists for the same dates.
   */
  lemma StatsSummaryBounds(sales: seq<Sale>, query: map<string, string>, parseDate: string -> Option<int>)
    requires SaleTableValid(sales)
    ensures var f := StatsDates(query, parseDate);
      var summary := StatsSummary(Filter(sales, Matching(f)));
      && summary.totalRevenue >= 0
      && summary.totalSales == |Selected(sales, f)|
      && summary.totalSales <= |sales|
  {
    var f := StatsDates(query, parseDate);
    var found := Filter(sales, Matching(f));
    assert forall i :: 0 <= i < |found| ==> found[i].totalAmount >= 0 by {
      forall i | 0 <= i < |found|
        ensures found[i].totalAmount >= 0
      {
        assert found[i] in sales;
      }
    }
    RevenueNonNegative(found);
    assert |multiset(Selected(sales, f))| == |Selected(sales, f)|;
  }
}
