/** The invoice table of services/databaseService.js as a sequence of rows:
    the parameters `saveInvoice` binds, the `items` decoding of the two readers,
    and the lookup by id. */
module InvoiceStore {
  import opened Wrappers
  import opened Json
  import opened Extraction

  /** One row of the `invoices` table as the driver returns it; None is SQL NULL.
      Amounts are integers in this model and `created_at` is left out. */
  datatype InvoiceRow = InvoiceRow(
    id: int,
    filename: Option<string>,
    invoiceNumber: Option<string>,
    invoiceDate: Option<string>,
    vendorName: Option<string>,
    totalAmount: Option<int>,
    currency: Option<string>,
    items: Option<string>,
    rawResponse: Option<string>)

  /** A row with its `items` column decoded, as both readers resolve it. */
  datatype Invoice = Invoice(row: InvoiceRow, items: Json)

  /** `JSON.stringify`, library code taken as a parameter. */
  type Stringifier = Json -> string

  /** The eight values bound to the INSERT's placeholders, in column order. */
  datatype InsertParams = InsertParams(
    filename: string,
    invoiceNumber: Json,
    invoiceDate: Json,
    vendorName: Json,
    totalAmount: Json,
    currency: Json,
    items: string,
    rawResponse: string)

  /** `value || fallback` for a property read that may be `undefined`. */
  function OrElse(o: Option<Json>, fallback: Json): (r: Json)
    ensures TruthyOpt(o) ==> r == o.value
    ensures !TruthyOpt(o) ==> r == fallback
  {
    if TruthyOpt(o) then o.value else fallback
  }

  /** `saveInvoice`'s parameter array. Reading a property of `null` data throws
      inside the promise executor, which rejects: Failure. */
  function SaveParams(data: Json, filename: string, rawResponse: string, stringify: Stringifier): (r: Result<InsertParams, string>)
    ensures r.Failure? <==> data.JNull?
    ensures r.Failure? ==> r.error == "Cannot read properties of null (reading 'invoice_number')"
    ensures r.Success? ==>
      var p := r.value;
      && p.filename == filename && p.rawResponse == rawResponse
      && (p.invoiceNumber == JNull || Truthy(p.invoiceNumber))
      && (p.invoiceDate == JNull || Truthy(p.invoiceDate))
      && (p.vendorName == JNull || Truthy(p.vendorName))
      && (p.currency == JNull || Truthy(p.currency))
      && (p.totalAmount == JNumber(0) || Truthy(p.totalAmount))
  {
    match Property(data, "invoice_number")
    case Failure(e) => Failure(e)
    case Success(number) =>
      var date := Property(data, "invoice_date").value;
      var vendor := Property(data, "vendor_name").value;
      var amount := Property(data, "total_amount").value;
      var currency := Property(data, "currency").value;
      var items := Property(data, "items").value;
      Success(InsertParams(
        filename,
        OrElse(number, JNull),
        OrElse(date, JNull),
        OrElse(vendor, JNull),
        OrElse(amount, JNumber(0)),
        OrElse(currency, JNull),
        stringify(OrElse(items, JArray([]))),
        rawResponse))
  }

  /** Field by field: a truthy field is bound as it is, a missing or falsy one as
      null (text fields), 0 (the amount) or the serialised empty array (items). */
  lemma SaveParamsFields(fields: map<string, Json>, filename: string, rawResponse: string, stringify: Stringifier)
    ensures var r := SaveParams(JObject(fields), filename, rawResponse, stringify);
      && r.Success?
      && r.value.invoiceNumber == (if "invoice_number" in fields && Truthy(fields["invoice_number"]) then fields["invoice_number"] else JNull)
      && r.value.invoiceDate == (if "invoice_date" in fields && Truthy(fields["invoice_date"]) then fields["invoice_date"] else JNull)
      && r.value.vendorName == (if "vendor_name" in fields && Truthy(fields["vendor_name"]) then fields["vendor_name"] else JNull)
      && r.value.totalAmount == (if "total_amount" in fields && Truthy(fields["total_amount"]) then fields["total_amount"] else JNumber(0))
      && r.value.currency == (if "currency" in fields && Truthy(fields["currency"]) then fields["currency"] else JNull)
      && r.value.items == stringify(if "items" in fields && Truthy(fields["items"]) then fields["items"] else JArray([]))
  {
  }

  /** Data that is not an object (a number, a string, an array) has no such
      properties: every field takes its fallback. */
  lemma SaveParamsNonObject(data: Json, filename: string, rawResponse: string, stringify: Stringifier)
    requires !data.JNull? && !data.JObject?
    ensures SaveParams(data, filename, rawResponse, stringify) ==
      Success(InsertParams(filename, JNull, JNull, JNull, JNumber(0), JNull, stringify(JArray([])), rawResponse))
  {
  }

  /** The text `JSON.parse` receives for the `items` column: the column, or
      "[]" when it is NULL or empty. */
  function ItemsText(column: Option<string>): (t: string)
    ensures column.None? || column == Some("") ==> t == "[]"
    ensures column.Some? && column.value != "" ==> t == column.value
  {
    if column.Some? && column.value != "" then column.value else "[]"
  }

  /** `JSON.parse(row.items || '[]')`. */
  function DecodeItems(column: Option<string>, parse: Parser): (r: Result<Json, string>)
    ensures column.None? || column == Some("") ==> r == parse("[]")
    ensures column.Some? && column.value != "" ==> r == parse(column.value)
  {
    parse(ItemsText(column))
  }

  /** With a parser that reads "[]" as the empty array, a NULL or empty column
      decodes as the empty array. */
  lemma EmptyItemsDecodeEmpty(column: Option<string>, parse: Parser)
    requires parse("[]") == Success(JArray([]))
    requires column.None? || column == Some("")
    ensures DecodeItems(column, parse) == Success(JArray([]))
  {
  }

  /** One row with its items decoded. In the service a parse error is thrown
      inside the driver's callback, where nothing catches it; Failure stands
      for that uncaught exception. */
  function DecodeRow(row: InvoiceRow, parse: Parser): (r: Result<Invoice, string>)
    ensures r.Success? <==> DecodeItems(row.items, parse).Success?
    ensures r.Success? ==> r.value.row == row && r.value.items == DecodeItems(row.items, parse).value
  {
    match DecodeItems(row.items, parse)
    case Failure(e) => Failure(e)
    case Success(items) => Success(Invoice(row, items))
  }

  /** `getAllInvoices`: every row, in the order the query returns them, decoded. */
  function GetAllInvoices(rows: seq<InvoiceRow>, parse: Parser): (r: Result<seq<Invoice>, string>)
    ensures r.Success? <==> forall i :: 0 <= i < |rows| ==> DecodeRow(rows[i], parse).Success?
    ensures r.Success? ==> |r.value| == |rows|
    ensures r.Success? ==> forall i :: 0 <= i < |rows| ==> r.value[i] == DecodeRow(rows[i], parse).value
  {
    if |rows| == 0 then Success([])
    else
      match DecodeRow(rows[0], parse)
      case Failure(e) => Failure(e)
      case Success(first) =>
        match GetAllInvoices(rows[1..], parse)
        case Failure(e) =>
          assert forall i :: 1 <= i < |rows| ==> rows[i] == rows[1..][i - 1];
          Failure(e)
        case Success(rest) =>
          assert forall i :: 1 <= i < |rows| ==> rows[i] == rows[1..][i - 1];
          Success([first] + rest)
  }

  /** `getInvoiceById`: the first row with the id, decoded, or None (`null`). */
  function GetInvoiceById(rows: seq<InvoiceRow>, id: int, parse: Parser): (r: Result<Option<Invoice>, string>)
    ensures r.Success? && r.value.None? <==> forall i :: 0 <= i < |rows| ==> rows[i].id != id
    ensures r.Success? && r.value.Some? ==> r.value.value.row.id == id && r.value.value.row in rows
  {
    if |rows| == 0 then Success(None)
    else if rows[0].id == id then
      match DecodeRow(rows[0], parse)
      case Failure(e) => Failure(e)
      case Success(inv) => Success(Some(inv))
    else
      var r := GetInvoiceById(rows[1..], id, parse);
      assert forall i :: 1 <= i < |rows| ==> rows[i] == rows[1..][i - 1];
      r
  }

  /** With unique ids, the lookup returns the one row carrying the id. */
  lemma {:induction false} GetInvoiceByIdFinds(rows: seq<InvoiceRow>, k: nat, parse: Parser)
    requires k < |rows|
    requires forall i, j :: 0 <= i < j < |rows| ==> rows[i].id != rows[j].id
    ensures GetInvoiceById(rows, rows[k].id, parse) ==
      match DecodeRow(rows[k], parse)
      case Failure(e) => Failure(e)
      case Success(inv) => Success(Some(inv))
  {
    if k > 0 {
      assert rows[0].id != rows[k].id;
      assert rows[1..][k - 1] == rows[k];
      GetInvoiceByIdFinds(rows[1..], k - 1, parse);
    }
  }

  /** `getAllInvoices` hands out a row whose items column is NULL or empty with
      the empty array as its items. */
  lemma GetAllInvoicesDefaultsItems(rows: seq<InvoiceRow>, parse: Parser, k: nat)
    requires parse("[]") == Success(JArray([]))
    requires k < |rows| && (rows[k].items.None? || rows[k].items == Some(""))
    requires GetAllInvoices(rows, parse).Success?
    ensures GetAllInvoices(rows, parse).value[k] == Invoice(rows[k], JArray([]))
  {
    EmptyItemsDecodeEmpty(rows[k].items, parse);
  }

  /** So does `getInvoiceById`, which then cannot fail on that row. */
  lemma GetInvoiceByIdDefaultsItems(rows: seq<InvoiceRow>, k: nat, parse: Parser)
    requires parse("[]") == Success(JArray([]))
    requires k < |rows| && (rows[k].items.None? || rows[k].items == Some(""))
    requires forall i, j :: 0 <= i < j < |rows| ==> rows[i].id != rows[j].id
    ensures GetInvoiceById(rows, rows[k].id, parse) == Success(Some(Invoice(rows[k], JArray([]))))
  {
    GetInvoiceByIdFinds(rows, k, parse);
    EmptyItemsDecodeEmpty(rows[k].items, parse);
  }
}
