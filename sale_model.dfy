/**
 * The Sale schema and its line items (backend/models/Sale.js), the invoice
 * number format of the sale controller, and the collection-wide invariant
 * that makes invoice numbers unique.
 */
module SaleModel {
  import opened Wrappers
  import opened Json
  import opened JsString

  datatype PaymentStatus = Paid | Pending | Cancelled

  const DefaultPaymentStatus: PaymentStatus := Pending

  function StatusName(p: PaymentStatus): string {
    match p
    case Paid => "paid"
    case Pending => "pending"
    case Cancelled => "cancelled"
  }

  /** The enum validator for `paymentStatus`. */
  function ParseStatus(s: string): (r: Option<PaymentStatus>)
    ensures r.Some? ==> StatusName(r.value) == s
    ensures r.None? ==> forall p: PaymentStatus :: StatusName(p) != s
  {
    if s == "paid" then Some(Paid)
    else if s == "pending" then Some(Pending)
    else if s == "cancelled" then Some(Cancelled)
    else None
  }

  /** A line snapshot: the item reference, the name and unit price at sale time, quantity and subtotal. */
  datatype SaleLine = SaleLine(item: Id, itemName: Option<string>, quantity: int, price: int, subtotal: int)

  datatype Sale = Sale(
    id: Id,
    invoiceNumber: string,
    customer: Id,
    items: seq<SaleLine>,
    totalAmount: int,
    paymentStatus: Option<PaymentStatus>,  // `None` once an update has set it to null
    saleDate: int,
    createdBy: Id)

  /** Schema validators of one sale: a non-empty invoice number, every `quantity >= 1`, `totalAmount >= 0`. */
  predicate ValidSale(s: Sale) {
    && s.invoiceNumber != ""
    && (forall i :: 0 <= i < |s.items| ==> s.items[i].quantity >= 1)
    && s.totalAmount >= 0
  }

  function SumSubtotals(lines: seq<SaleLine>): int {
    if lines == [] then 0 else SumSubtotals(lines[..|lines| - 1]) + lines[|lines| - 1].subtotal
  }

  // ------------------------------------------------------------ invoice numbers

  /**
   * `generateInvoiceNumber` once the clock and `countDocuments()` are read:
   * "INV-" + year + two-digit month + "-" + (existing + 1) padded to at least
   * four digits. `existing` counts every sale ever recorded, not those of the month.
   */
  function InvoiceNumber(year: nat, month: nat, existing: nat): string {
    "INV-" + Dec(year) + PadStart(Dec(month), 2, '0') + "-" + PadStart(Dec(existing + 1), 4, '0')
  }

  /** The number after the last '-' of an invoice number. */
  function InvoiceSequence(invoice: string): Option<nat> {
    var parts := Split(invoice, '-');
    ParseDec(parts[|parts| - 1])
  }

  /**
   * The sequence part of an invoice number is the zero-padded count, at least
   * four characters long and never truncated: it reads back as `existing + 1`.
   */
  lemma InvoiceSequenceRoundTrip(year: nat, month: nat, existing: nat)
    ensures InvoiceSequence(InvoiceNumber(year, month, existing)) == Some(existing + 1)
    ensures var parts := Split(InvoiceNumber(year, month, existing), '-');
            parts[|parts| - 1] == PadStart(Dec(existing + 1), 4, '0')
  {
    var head := "INV-" + Dec(year) + PadStart(Dec(month), 2, '0');
    var tail := PadStart(Dec(existing + 1), 4, '0');
    assert InvoiceNumber(year, month, existing) == head + ['-'] + tail;
    SplitConcat(head, '-', tail);
    assert '-' !in tail by {
      assert forall i :: 0 <= i < |tail| ==> IsDigit(tail[i]) by {
        forall i | 0 <= i < |tail| ensures IsDigit(tail[i]) {
          var d := Dec(existing + 1);
          if i < |tail| - |d| {
            assert tail[i] == '0';
          } else {
            assert tail[i] == tail[|tail| - |d|..][i - (|tail| - |d|)];
          }
        }
      }
    }
    SplitWithoutSeparator(tail, '-');
    PaddedDecRoundTrip(existing + 1, 4);
  }

  /** Two invoice numbers are equal only if they were made from the same count. */
  lemma InvoiceNumberDeterminesCount(y1: nat, m1: nat, e1: nat, y2: nat, m2: nat, e2: nat)
    requires InvoiceNumber(y1, m1, e1) == InvoiceNumber(y2, m2, e2)
    ensures e1 == e2
  {
    InvoiceSequenceRoundTrip(y1, m1, e1);
    InvoiceSequenceRoundTrip(y2, m2, e2);
  }

  // ------------------------------------------------------------ the collection

  /**
   * Sales are only ever appended (there is no delete), each with the invoice
   * number made from the count before it: the i-th sale carries sequence i+1.
   */
  predicate SaleTableValid(sales: seq<Sale>) {
    && (forall i :: 0 <= i < |sales| ==> ValidSale(sales[i]))
    && (forall i :: 0 <= i < |sales| ==> InvoiceSequence(sales[i].invoiceNumber) == Some(i + 1))
    && (forall i, j :: 0 <= i < j < |sales| ==> sales[i].id != sales[j].id)
  }

  function HasSaleId(id: Id): Sale -> bool {
    (s: Sale) => s.id == id
  }

  function HasInvoice(invoice: string): Sale -> bool {
    (s: Sale) => s.invoiceNumber == invoice
  }

  /** Appending a valid sale that carries the next sequence number and a fresh id keeps the collection valid. */
  lemma AppendKeepsSaleTable(sales: seq<Sale>, s: Sale)
    requires SaleTableValid(sales) && ValidSale(s)
    requires InvoiceSequence(s.invoiceNumber) == Some(|sales| + 1)
    requires forall i :: 0 <= i < |sales| ==> sales[i].id != s.id
    ensures SaleTableValid(sales + [s])
  {
    var r := sales + [s];
    assert forall i :: 0 <= i < |r| ==> r[i] == if i < |sales| then sales[i] else s;
  }

  /** Replacing a sale by a valid one with the same id and invoice number keeps the collection valid. */
  lemma ReplaceKeepsSaleTable(sales: seq<Sale>, k: nat, s: Sale)
    requires SaleTableValid(sales) && k < |sales| && ValidSale(s)
    requires s.id == sales[k].id && s.invoiceNumber == sales[k].invoiceNumber
    ensures SaleTableValid(sales[k := s])
  {
  }

  /** The unique index on `invoiceNumber` is never violated by the recorded sales. */
  lemma InvoicesUnique(sales: seq<Sale>)
    requires SaleTableValid(sales)
    ensures forall i, j :: 0 <= i < j < |sales| ==> sales[i].invoiceNumber != sales[j].invoiceNumber
  {
  }

  /** The next invoice number differs from every recorded one, whatever the year and month. */
  lemma NextInvoiceIsFresh(sales: seq<Sale>, year: nat, month: nat)
    requires SaleTableValid(sales)
    ensures forall i :: 0 <= i < |sales| ==> sales[i].invoiceNumber != InvoiceNumber(year, month, |sales|)
  {
    InvoiceSequenceRoundTrip(year, month, |sales|);
  }

  function LineJson(l: SaleLine): JsValue {
    Obj(map[
      "item" := Str(l.item),
      "itemName" := (if l.itemName.Some? then Str(l.itemName.value) else Undefined),
      "quantity" := Num(l.quantity),
      "price" := Num(l.price),
      "subtotal" := Num(l.subtotal)])
  }

  /** The stored document as the API returns it (references are not populated in this model). */
  function SaleJson(s: Sale): JsValue {
    Obj(map[
      "_id" := Str(s.id),
      "invoiceNumber" := Str(s.invoiceNumber),
      "customer" := Str(s.customer),
      "items" := Arr(seq(|s.items|, i requires 0 <= i < |s.items| => LineJson(s.items[i]))),
      "totalAmount" := Num(s.totalAmount),
      "paymentStatus" := (if s.paymentStatus.Some? then Str(StatusName(s.paymentStatus.value)) else Null),
      "saleDate" := Num(s.saleDate),
      "createdBy" := Str(s.createdBy)])
  }

  function SalesJson(sales: seq<Sale>): JsValue {
    Arr(seq(|sales|, i requires 0 <= i < |sales| => SaleJson(sales[i])))
  }
}
