/** The data handling of the statistics page, public/js/statistics.js: the
    empty-state test, the vendor doughnut's top ten, and the amount-range bar
    chart's fill to five ranges. Drawing is left out. */
module StatisticsPage {
  import opened Wrappers
  import opened JsArrays
  import opened InvoiceStore
  import opened StatisticsQueries

  // ---------------------------------------------------------------------------
  // Empty state
  // ---------------------------------------------------------------------------

  /** `!overview || overview.total_invoices === 0`. */
  predicate EmptyState(overview: Option<OverviewRow>) {
    overview.None? || overview.value.totalInvoices == 0
  }

  /** With the overview the statistics query sends, the page shows its empty
      state exactly when no invoice has an amount. */
  lemma EmptyStateIffNoAmounts(rows: seq<InvoiceRow>)
    ensures EmptyState(Some(Overview(rows))) <==> forall i :: 0 <= i < |rows| ==> rows[i].totalAmount.None?
  {
    AmountsEmptyIffUnpriced(rows);
  }

  lemma {:induction false} AmountsEmptyIffUnpriced(rows: seq<InvoiceRow>)
    ensures |Amounts(rows)| == 0 <==> forall i :: 0 <= i < |rows| ==> rows[i].totalAmount.None?
  {
    if |rows| > 0 {
      var init := rows[..|rows| - 1];
      AmountsEmptyIffUnpriced(init);
      assert forall i :: 0 <= i < |init| ==> init[i] == rows[i];
    }
  }

  // ---------------------------------------------------------------------------
  // Vendor chart
  // ---------------------------------------------------------------------------

  /** One slice of the doughnut: its title and its value. */
  datatype Slice = Slice(title: string, amount: int)

  /** `d.vendor_name || 'Unknown'`. */
  function VendorLabel(name: string): (l: string)
    ensures |l| > 0
    ensures name != "" ==> l == name
    ensures name == "" ==> l == "Unknown"
  {
    if name != "" then name else "Unknown"
  }

  /** `renderVendorChart`: the first ten rows, labelled by vendor name with
      'Unknown' for an empty one, valued by their summed amount. The amount's
      `|| 0` is the identity on integers: a group's SUM is never NULL. */
  function VendorChart(data: seq<VendorRow>): (slices: seq<Slice>)
    ensures |slices| == if |data| < 10 then |data| else 10
    ensures forall i :: 0 <= i < |slices| ==>
      slices[i] == Slice(VendorLabel(data[i].vendorName), data[i].totalAmount)
  {
    var top := FirstN(data, 10);
    SlicesOf(top)
  }

  function SlicesOf(data: seq<VendorRow>): (slices: seq<Slice>)
    ensures |slices| == |data|
    ensures forall i :: 0 <= i < |data| ==> slices[i] == Slice(VendorLabel(data[i].vendorName), data[i].totalAmount)
  {
    if |data| == 0 then [] else SlicesOf(data[..|data| - 1]) + [Slice(VendorLabel(data[|data| - 1].vendorName), data[|data| - 1].totalAmount)]
  }

  /** Adjacent order is order: in a list sorted by total, every group comes
      before the ones with smaller totals. */
  lemma {:induction false} SortedPairwise(g: seq<VendorRow>, i: nat, j: nat)
    requires SortedByTotal(g)
    requires i <= j < |g|
    ensures g[i].totalAmount >= g[j].totalAmount
    decreases j - i
  {
    if i < j {
      SortedPairwise(g, i, j - 1);
    }
  }

  /** Fed the per-vendor query, the doughnut shows the ten largest vendors:
      its values never increase, and no vendor left out has a larger total
      than one shown. */
  lemma VendorChartTopTen(rows: seq<InvoiceRow>)
    ensures var data := ByVendor(rows);
      var slices := VendorChart(data);
      && (forall i :: 0 < i < |slices| ==> slices[i - 1].amount >= slices[i].amount)
      && (forall i, j :: 0 <= i < |slices| <= j < |data| ==> slices[i].amount >= data[j].totalAmount)
  {
    var data := ByVendor(rows);
    var slices := VendorChart(data);
    forall i, j | 0 <= i < |slices| <= j < |data|
      ensures slices[i].amount >= data[j].totalAmount
    {
      SortedPairwise(data, i, j);
    }
  }

  // ---------------------------------------------------------------------------
  // Amount-range chart
  // ---------------------------------------------------------------------------

  /** `data.find(d => d.amount_range === range)`, then its count or 0. */
  function FoundCount(data: seq<RangeRow>, range: string): (n: nat)
    ensures (forall k :: 0 <= k < |data| ==> data[k].amountRange != range) ==> n == 0
    ensures forall k :: 0 <= k < |data| && data[k].amountRange == range && (forall j :: 0 <= j < k ==> data[j].amountRange != range) ==>
      n == data[k].count
  {
    if |data| == 0 then 0
    else if data[0].amountRange == range then data[0].count
    else
      var n := FoundCount(data[1..], range);
      assert forall k :: 1 <= k < |data| ==> data[k] == data[1..][k - 1];
      n
  }

  /** `renderAmountRangeChart`'s series: one value per range, in the fixed
      order, the count of the first row with that label or 0. */
  function RangeSeries(data: seq<RangeRow>): (series: seq<nat>)
    ensures |series| == 5
    ensures forall i :: 0 <= i < 5 ==> series[i] == FoundCount(data, RangeLabels[i])
  {
    seq(5, i requires 0 <= i < 5 => FoundCount(data, RangeLabels[i]))
  }

  /** A row whose label is none of the five changes no value of the series. */
  lemma {:induction false} RangeSeriesIgnoresOtherLabels(data: seq<RangeRow>, row: RangeRow)
    requires row.amountRange !in RangeLabels
    ensures RangeSeries(data + [row]) == RangeSeries(data)
  {
    forall i | 0 <= i < 5
      ensures FoundCount(data + [row], RangeLabels[i]) == FoundCount(data, RangeLabels[i])
    {
      FoundCountAppend(data, row, RangeLabels[i]);
    }
  }

  lemma {:induction false} FoundCountAppend(data: seq<RangeRow>, row: RangeRow, range: string)
    requires row.amountRange != range
    ensures FoundCount(data + [row], range) == FoundCount(data, range)
  {
    if |data| > 0 {
      assert (data + [row])[1..] == data[1..] + [row];
      FoundCountAppend(data[1..], row, range);
    }
  }

  /** Fed the histogram query, the series holds exactly the count of every
      range: no grouped count is dropped, and an empty range shows 0. */
  lemma RangeSeriesOfHistogram(rows: seq<InvoiceRow>)
    ensures forall i :: 0 <= i < 5 ==> RangeSeries(ByAmountRange(rows))[i] == BucketCount(Amounts(rows), i)
  {
    var c := BucketCounts(Amounts(rows));
    var js := NonEmptyRanges(c, 0);
    var data := ByAmountRange(rows);
    forall i | 0 <= i < 5
      ensures FoundCount(data, RangeLabels[i]) == c[i]
    {
      if c[i] > 0 {
        NonEmptyRangesCover(c, 0, i);
        var k :| 0 <= k < |js| && js[k] == i;
        forall j | 0 <= j < k
          ensures data[j].amountRange != RangeLabels[i]
        {
          AscendingBefore(js, j, k);
          LabelsDiffer(js[j], i);
        }
      } else {
        forall k | 0 <= k < |data|
          ensures data[k].amountRange != RangeLabels[i]
        {
          LabelsDiffer(js[k], i);
        }
      }
    }
  }

  lemma {:induction false} AscendingBefore(js: seq<nat>, j: nat, k: nat)
    requires forall m :: 0 < m < |js| ==> js[m - 1] < js[m]
    requires j < k < |js|
    ensures js[j] < js[k]
    decreases k - j
  {
    if j + 1 < k {
      AscendingBefore(js, j, k - 1);
    }
  }

  /** The five values of the series add up to the invoices that have an amount. */
  lemma RangeSeriesTotal(rows: seq<InvoiceRow>)
    ensures var s := RangeSeries(ByAmountRange(rows));
      s[0] + s[1] + s[2] + s[3] + s[4] == |Amounts(rows)|
  {
    var xs := Amounts(rows);
    var c := BucketCounts(xs);
    RangeSeriesOfHistogram(rows);
    BucketsPartition(xs);
    assert RangeSum(c, 0) == c[0] + c[1] + c[2] + c[3] + c[4];
  }
}
