/** The pure fragments of the Telegram bot's handlers in bot.js: the `/stats`
    aggregates, the `/history` cut, the choice of photo size and the extension
    the downloaded photo is saved under. */
module BotCommands {
  import opened Wrappers
  import opened JsArrays
  import opened InvoiceStore
  import opened StatisticsQueries
  import opened PosixPath
  import opened Extraction

  /** The rows behind a list of decoded invoices. */
  function RowsOf(invs: seq<Invoice>): (rows: seq<InvoiceRow>)
    ensures |rows| == |invs|
    ensures forall i :: 0 <= i < |invs| ==> rows[i] == invs[i].row
  {
    if |invs| == 0 then [] else RowsOf(invs[..|invs| - 1]) + [invs[|invs| - 1].row]
  }

  /** `inv.total_amount || 0`: NULL and 0 both count as 0. */
  function AmountOrZero(row: InvoiceRow): (a: int)
    ensures a == row.totalAmount.GetOr(0)
  {
    if row.totalAmount.Some? && row.totalAmount.value != 0 then row.totalAmount.value else 0
  }

  /** The `/stats` total: the amounts reduced with `+` from 0, a missing amount
      counting as 0. It is the SQL SUM over the non-null amounts. */
  function StatsTotal(invs: seq<Invoice>): (t: int)
    ensures t == Sum(Amounts(RowsOf(invs)))
  {
    if |invs| == 0 then 0
    else
      var init := invs[..|invs| - 1];
      assert RowsOf(invs)[..|invs| - 1] == RowsOf(init);
      StatsTotal(init) + AmountOrZero(invs[|invs| - 1].row)
  }

  /** The `/stats` total agrees with the overview query's total on the same
      table, an empty one giving 0 where SUM gives NULL. */
  lemma StatsTotalMatchesOverview(rows: seq<InvoiceRow>, parse: Parser, invs: seq<Invoice>)
    requires GetAllInvoices(rows, parse) == Success(invs)
    ensures StatsTotal(invs) == Overview(rows).totalAmount.GetOr(0)
  {
    assert RowsOf(invs) == rows;
  }

  /** `invoices.map(inv => inv.vendor_name).filter(Boolean)`: the non-null,
      non-empty vendor names in order. */
  function TruthyVendors(invs: seq<Invoice>): (vs: seq<string>)
    ensures forall v :: v in vs <==> v != "" && exists inv :: inv in invs && inv.row.vendorName == Some(v)
  {
    if |invs| == 0 then []
    else
      var init := TruthyVendors(invs[..|invs| - 1]);
      var last := invs[|invs| - 1];
      assert invs == invs[..|invs| - 1] + [last];
      if last.row.vendorName.Some? && last.row.vendorName.value != "" then init + [last.row.vendorName.value] else init
  }

  /** The `/stats` vendor count: the size of the Set of truthy vendor names. */
  function StatsVendorCount(invs: seq<Invoice>): (n: nat)
    ensures n == |set v | v in TruthyVendors(invs)|
  {
    DistinctCount(TruthyVendors(invs));
    |Distinct(TruthyVendors(invs))|
  }

  /** When every row has an amount and no vendor name is empty, the bot counts
      the same vendors as the overview's COUNT(DISTINCT vendor_name). */
  lemma StatsVendorCountMatchesOverview(rows: seq<InvoiceRow>, parse: Parser, invs: seq<Invoice>)
    requires GetAllInvoices(rows, parse) == Success(invs)
    requires forall i :: 0 <= i < |rows| ==> rows[i].totalAmount.Some? && rows[i].vendorName != Some("")
    ensures StatsVendorCount(invs) == Overview(rows).uniqueVendors
  {
    assert RowsOf(invs) == rows;
    SameVendors(invs);
  }

  lemma {:induction false} SameVendors(invs: seq<Invoice>)
    requires forall i :: 0 <= i < |invs| ==> invs[i].row.totalAmount.Some? && invs[i].row.vendorName != Some("")
    ensures TruthyVendors(invs) == PricedVendors(RowsOf(invs))
  {
    if |invs| > 0 {
      var init := invs[..|invs| - 1];
      SameVendors(init);
      assert RowsOf(invs)[..|invs| - 1] == RowsOf(init);
    }
  }

  /** The `/history` list: the first ten invoices of the returned order. */
  function History(invs: seq<Invoice>): (h: seq<Invoice>)
    ensures |h| == if |invs| < 10 then |invs| else 10
    ensures forall i :: 0 <= i < |h| ==> h[i] == invs[i]
  {
    FirstN(invs, 10)
  }

  /** One entry of a Telegram message's `photo` array. */
  datatype PhotoSize = PhotoSize(fileId: string, width: nat, height: nat)

  function Area(p: PhotoSize): nat {
    p.width * p.height
  }

  /** Reading `file_id` of `msg.photo[-1]` on an empty array throws. */
  const NoPhotoMessage: string := "Cannot read properties of undefined (reading 'file_id')"

  /** `msg.photo[msg.photo.length - 1]`: the last size, whose `file_id` the
      handler reads; an empty array makes that read throw. */
  function PickPhoto(photos: seq<PhotoSize>): (r: Result<PhotoSize, string>)
    ensures r.Failure? <==> |photos| == 0
    ensures r.Failure? ==> r.error == NoPhotoMessage
    ensures r.Success? ==> r.value in photos
  {
    if |photos| == 0 then Failure(NoPhotoMessage) else Success(photos[|photos| - 1])
  }

  /** Telegram lists the sizes of a photo smallest first, so the pick is the
      highest resolution on offer. */
  lemma {:induction false} PickPhotoLargest(photos: seq<PhotoSize>)
    requires |photos| > 0
    requires forall i :: 0 < i < |photos| ==> Area(photos[i - 1]) <= Area(photos[i])
    ensures forall p :: p in photos ==> Area(p) <= Area(PickPhoto(photos).value)
  {
    AscendingToLast(photos, 0);
    forall p | p in photos
      ensures Area(p) <= Area(photos[|photos| - 1])
    {
      var i :| 0 <= i < |photos| && photos[i] == p;
      AscendingToLast(photos, i);
    }
  }

  lemma {:induction false} AscendingToLast(photos: seq<PhotoSize>, i: nat)
    requires i < |photos|
    requires forall k :: 0 < k < |photos| ==> Area(photos[k - 1]) <= Area(photos[k])
    ensures Area(photos[i]) <= Area(photos[|photos| - 1])
    decreases |photos| - i
  {
    if i < |photos| - 1 {
      AscendingToLast(photos, i + 1);
    }
  }

  /** The extension the photo is saved under: `path.extname(filePath) || '.jpg'`. */
  function SavedExtension(filePath: string): (ext: string)
    ensures |ext| > 0 && ext[0] == '.'
    ensures |ExtName(filePath)| > 0 ==> ext == ExtName(filePath)
    ensures |ExtName(filePath)| == 0 ==> ext == ".jpg"
  {
    var e := ExtName(filePath);
    if |e| > 0 then e else ".jpg"
  }

  /** Telegram's `photos/file_N.jpg` keeps its own extension. */
  lemma SavedExtensionOfFile(dir: string, stem: string, ext: string, filePath: string)
    requires |stem| > 0 && |ext| > 0
    requires forall i :: 0 <= i < |stem| ==> stem[i] != '/'
    requires forall i :: 0 <= i < |ext| ==> ext[i] != '/' && ext[i] != '.'
    requires filePath == dir + ['/'] + stem + ['.'] + ext
    ensures SavedExtension(filePath) == ['.'] + ext
  {
    ExtNameOfFile(dir, stem, ext, filePath);
  }

  /** A path whose last component has no '.' is saved as JPEG. */
  lemma SavedExtensionDefault(filePath: string)
    requires forall i :: 0 <= i < |BaseName(filePath)| ==> BaseName(filePath)[i] != '.'
    ensures SavedExtension(filePath) == ".jpg"
  {
    ExtNameWithoutDot(filePath);
  }
}
