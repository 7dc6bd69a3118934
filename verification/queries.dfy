/** The statistics queries of services/databaseService.js, each a pure function
    of the table's rows: the overview aggregates, the per-vendor grouping and
    the amount-range histogram. */
module StatisticsQueries {
  import opened Wrappers
  import opened JsArrays
  import opened InvoiceStore

  // ---------------------------------------------------------------------------
  // Rows with an amount (`WHERE total_amount IS NOT NULL`)
  // ---------------------------------------------------------------------------

  /** The non-null amounts, in row order. */
  function Amounts(rows: seq<InvoiceRow>): (xs: seq<int>)
    ensures |xs| <= |rows|
    ensures forall x :: x in xs <==> exists row :: row in rows && row.totalAmount == Some(x)
  {
    if |rows| == 0 then []
    else
      var init := Amounts(rows[..|rows| - 1]);
      var last := rows[|rows| - 1];
      assert rows == rows[..|rows| - 1] + [last];
      if last.totalAmount.Some? then init + [last.totalAmount.value] else init
  }

  /** A row without an amount changes no aggregate: it is not in the amounts. */
  lemma AmountsSkipUnpriced(rows: seq<InvoiceRow>, row: InvoiceRow)
    requires row.totalAmount.None?
    ensures Amounts(rows + [row]) == Amounts(rows)
  {
    assert (rows + [row])[..|rows|] == rows;
  }

  /** The non-null vendor names of rows that have an amount, in row order. */
  function PricedVendors(rows: seq<InvoiceRow>): (vs: seq<string>)
    ensures forall v :: v in vs <==> exists row :: row in rows && row.vendorName == Some(v) && row.totalAmount.Some?
  {
    if |rows| == 0 then []
    else
      var init := PricedVendors(rows[..|rows| - 1]);
      var last := rows[|rows| - 1];
      assert rows == rows[..|rows| - 1] + [last];
      if last.totalAmount.Some? && last.vendorName.Some? then init + [last.vendorName.value] else init
  }

  function Sum(xs: seq<int>): int
  {
    if |xs| == 0 then 0 else Sum(xs[..|xs| - 1]) + xs[|xs| - 1]
  }

  function MinOf(xs: seq<int>): (m: int)
    requires |xs| > 0
    ensures m in xs
    ensures forall i :: 0 <= i < |xs| ==> m <= xs[i]
  {
    if |xs| == 1 then xs[0]
    else
      var m := MinOf(xs[1..]);
      assert forall i :: 1 <= i < |xs| ==> xs[i] == xs[1..][i - 1];
      if xs[0] < m then xs[0] else m
  }

  function MaxOf(xs: seq<int>): (m: int)
    requires |xs| > 0
    ensures m in xs
    ensures forall i :: 0 <= i < |xs| ==> xs[i] <= m
  {
    if |xs| == 1 then xs[0]
    else
      var m := MaxOf(xs[1..]);
      assert forall i :: 1 <= i < |xs| ==> xs[i] == xs[1..][i - 1];
      if xs[0] > m then xs[0] else m
  }

  // ---------------------------------------------------------------------------
  // getInvoiceStatistics
  // ---------------------------------------------------------------------------

  /** The one row of the overview query. `AVG` is left out. */
  datatype OverviewRow = OverviewRow(
    totalInvoices: nat,
    totalAmount: Option<int>,
    minAmount: Option<int>,
    maxAmount: Option<int>,
    uniqueVendors: nat)

  /** COUNT(*), SUM, MIN, MAX and COUNT(DISTINCT vendor_name) over the rows with
      an amount. SUM, MIN and MAX of no rows are NULL; COUNT(DISTINCT) skips NULL. */
  function Overview(rows: seq<InvoiceRow>): (o: OverviewRow)
    ensures o.totalInvoices == |Amounts(rows)|
    ensures o.totalAmount.None? <==> o.totalInvoices == 0
    ensures o.totalAmount.Some? ==> o.totalAmount.value == Sum(Amounts(rows))
    ensures o.minAmount.None? <==> o.totalInvoices == 0
    ensures o.maxAmount.None? <==> o.totalInvoices == 0
    ensures o.minAmount.Some? ==> o.minAmount.value in Amounts(rows) && forall x :: x in Amounts(rows) ==> o.minAmount.value <= x
    ensures o.maxAmount.Some? ==> o.maxAmount.value in Amounts(rows) && forall x :: x in Amounts(rows) ==> x <= o.maxAmount.value
    ensures o.uniqueVendors == |set v | v in PricedVendors(rows)|
  {
    var xs := Amounts(rows);
    DistinctCount(PricedVendors(rows));
    if |xs| == 0 then OverviewRow(0, None, None, None, |Distinct(PricedVendors(rows))|)
    else OverviewRow(|xs|, Some(Sum(xs)), Some(MinOf(xs)), Some(MaxOf(xs)), |Distinct(PricedVendors(rows))|)
  }

  /** With at least one amount, the minimum does not exceed the maximum. */
  lemma OverviewMinMax(rows: seq<InvoiceRow>)
    requires Overview(rows).totalInvoices > 0
    ensures Overview(rows).minAmount.value <= Overview(rows).maxAmount.value
  {
    var o := Overview(rows);
    assert o.maxAmount.value in Amounts(rows);
  }

  /** Rows without an amount leave the whole overview unchanged. */
  lemma OverviewIgnoresUnpriced(rows: seq<InvoiceRow>, row: InvoiceRow)
    requires row.totalAmount.None?
    ensures Overview(rows + [row]) == Overview(rows)
  {
    AmountsSkipUnpriced(rows, row);
    assert (rows + [row])[..|rows|] == rows;
    assert PricedVendors(rows + [row]) == PricedVendors(rows);
  }

  // ---------------------------------------------------------------------------
  // getInvoicesByVendor
  // ---------------------------------------------------------------------------

  /** One row of the per-vendor query. */
  datatype VendorRow = VendorRow(vendorName: string, count: nat, totalAmount: int)

  /** `WHERE vendor_name IS NOT NULL AND total_amount IS NOT NULL`. */
  predicate Included(row: InvoiceRow) {
    row.vendorName.Some? && row.totalAmount.Some?
  }

  /** How many included rows name the vendor. */
  function VendorCount(rows: seq<InvoiceRow>, v: string): nat
  {
    if |rows| == 0 then 0
    else
      var last := rows[|rows| - 1];
      VendorCount(rows[..|rows| - 1], v) + (if Included(last) && last.vendorName.value == v then 1 else 0)
  }

  /** The summed amount of the included rows that name the vendor. */
  function VendorTotal(rows: seq<InvoiceRow>, v: string): int
  {
    if |rows| == 0 then 0
    else
      var last := rows[|rows| - 1];
      VendorTotal(rows[..|rows| - 1], v) + (if Included(last) && last.vendorName.value == v then last.totalAmount.value else 0)
  }

  /** How many rows are included at all. */
  function IncludedCount(rows: seq<InvoiceRow>): nat
  {
    if |rows| == 0 then 0
    else IncludedCount(rows[..|rows| - 1]) + (if Included(rows[|rows| - 1]) then 1 else 0)
  }

  /** No two groups share a vendor name. */
  predicate DistinctNames(g: seq<VendorRow>) {
    forall i, j :: 0 <= i < j < |g| ==> g[i].vendorName != g[j].vendorName
  }

  /** The summed counts of a list of groups. */
  function SumCounts(g: seq<VendorRow>): nat
  {
    if |g| == 0 then 0 else SumCounts(g[..|g| - 1]) + g[|g| - 1].count
  }

  /** Replacing one group changes the summed counts by the difference. */
  lemma {:induction false} SumCountsUpdate(g: seq<VendorRow>, k: nat, e: VendorRow)
    requires k < |g|
    ensures SumCounts(g[k := e]) == SumCounts(g) - g[k].count + e.count
    decreases |g|
  {
    var n := |g| - 1;
    if k < n {
      assert g[k := e][..n] == g[..n][k := e];
      SumCountsUpdate(g[..n], k, e);
    } else {
      assert g[k := e][..n] == g[..n];
    }
  }

  /** The position of the group named v, or -1. */
  function FindGroup(g: seq<VendorRow>, v: string, i: nat): (k: int)
    requires i <= |g|
    ensures k == -1 || i <= k < |g|
    ensures k == -1 ==> forall j :: i <= j < |g| ==> g[j].vendorName != v
    ensures k >= 0 ==> g[k].vendorName == v
    decreases |g| - i
  {
    if i == |g| then -1
    else if g[i].vendorName == v then i
    else FindGroup(g, v, i + 1)
  }

  /** Adding a row of vendor v with amount a to the groups: the group of v gains
      the row and its amount, or a new group is appended at the end. */
  function Bump(g: seq<VendorRow>, v: string, a: int): (r: seq<VendorRow>)
    requires DistinctNames(g)
    ensures DistinctNames(r)
    ensures exists k :: 0 <= k < |r| && r[k].vendorName == v
    ensures |r| == |g| || (|r| == |g| + 1 && r[|g|] == VendorRow(v, 1, a) && forall j :: 0 <= j < |g| ==> g[j].vendorName != v)
    ensures forall j :: 0 <= j < |g| && g[j].vendorName != v ==> r[j] == g[j]
    ensures forall j :: 0 <= j < |g| && g[j].vendorName == v ==>
      r[j] == VendorRow(v, g[j].count + 1, g[j].totalAmount + a)
    ensures SumCounts(r) == SumCounts(g) + 1
  {
    var k := FindGroup(g, v, 0);
    if k < 0 then
      var r := g + [VendorRow(v, 1, a)];
      assert r[..|g|] == g;
      assert r[|g|].vendorName == v;
      r
    else
      var e := VendorRow(v, g[k].count + 1, g[k].totalAmount + a);
      SumCountsUpdate(g, k, e);
      var r := g[k := e];
      assert r[k].vendorName == v;
      r
  }

  /** A vendor without included rows has nothing summed either. */
  lemma {:induction false} NoRowsNoTotal(rows: seq<InvoiceRow>, v: string)
    requires VendorCount(rows, v) == 0
    ensures VendorTotal(rows, v) == 0
  {
    if |rows| > 0 {
      NoRowsNoTotal(rows[..|rows| - 1], v);
    }
  }

  /** What the grouping holds for a list of rows. */
  ghost predicate TallyFacts(rows: seq<InvoiceRow>, g: seq<VendorRow>) {
    && DistinctNames(g)
    && (forall i :: 0 <= i < |g| ==> g[i].count > 0)
    && (forall i :: 0 <= i < |g| ==>
          g[i].count == VendorCount(rows, g[i].vendorName) && g[i].totalAmount == VendorTotal(rows, g[i].vendorName))
    && (forall v :: VendorCount(rows, v) > 0 ==> exists i :: 0 <= i < |g| && g[i].vendorName == v)
    && SumCounts(g) == IncludedCount(rows)
  }

  /** One included row more changes the count and the total of its vendor only. */
  lemma StepCounts(init: seq<InvoiceRow>, last: InvoiceRow, rows: seq<InvoiceRow>, w: string)
    requires rows == init + [last]
    requires Included(last)
    ensures VendorCount(rows, w) == VendorCount(init, w) + (if w == last.vendorName.value then 1 else 0)
    ensures VendorTotal(rows, w) == VendorTotal(init, w) + (if w == last.vendorName.value then last.totalAmount.value else 0)
  {
    assert rows[..|rows| - 1] == init;
  }

  /** One included row more: bumping its vendor keeps the grouping right. */
  lemma TallyStep(init: seq<InvoiceRow>, last: InvoiceRow, rows: seq<InvoiceRow>, g0: seq<VendorRow>)
    requires rows == init + [last]
    requires Included(last)
    requires TallyFacts(init, g0)
    ensures TallyFacts(rows, Bump(g0, last.vendorName.value, last.totalAmount.value))
  {
    StepGroups(init, last, rows, g0);
    StepCoversAll(init, last, rows, g0);
    StepIncluded(init, last, rows);
  }

  /** Every vendor with an included row has a group after the bump. */
  lemma StepCoversAll(init: seq<InvoiceRow>, last: InvoiceRow, rows: seq<InvoiceRow>, g0: seq<VendorRow>)
    requires rows == init + [last]
    requires Included(last)
    requires TallyFacts(init, g0)
    ensures var r := Bump(g0, last.vendorName.value, last.totalAmount.value);
      forall w :: VendorCount(rows, w) > 0 ==> exists i :: 0 <= i < |r| && r[i].vendorName == w
  {
    var r := Bump(g0, last.vendorName.value, last.totalAmount.value);
    forall w | VendorCount(rows, w) > 0
      ensures exists i :: 0 <= i < |r| && r[i].vendorName == w
    {
      StepCovers(init, last, rows, g0, w);
    }
  }

  /** One included row more adds one to the included count. */
  lemma StepIncluded(init: seq<InvoiceRow>, last: InvoiceRow, rows: seq<InvoiceRow>)
    requires rows == init + [last]
    requires Included(last)
    ensures IncludedCount(rows) == IncludedCount(init) + 1
  {
    assert rows[..|rows| - 1] == init;
  }

  /** A vendor with an included row, old or new, still has a group after the bump. */
  lemma StepCovers(init: seq<InvoiceRow>, last: InvoiceRow, rows: seq<InvoiceRow>, g0: seq<VendorRow>, w: string)
    requires rows == init + [last]
    requires Included(last)
    requires TallyFacts(init, g0)
    requires VendorCount(rows, w) > 0
    ensures var r := Bump(g0, last.vendorName.value, last.totalAmount.value);
      exists i :: 0 <= i < |r| && r[i].vendorName == w
  {
    var v := last.vendorName.value;
    var r := Bump(g0, v, last.totalAmount.value);
    StepCounts(init, last, rows, w);
    if w != v {
      var k :| 0 <= k < |g0| && g0[k].vendorName == w;
      assert r[k].vendorName == w;
    }
  }

  /** Each group after the bump has the count and total of its vendor. */
  lemma StepGroups(init: seq<InvoiceRow>, last: InvoiceRow, rows: seq<InvoiceRow>, g0: seq<VendorRow>)
    requires rows == init + [last]
    requires Included(last)
    requires TallyFacts(init, g0)
    ensures var r := Bump(g0, last.vendorName.value, last.totalAmount.value);
      forall i :: 0 <= i < |r| ==>
        r[i].count > 0 && r[i].count == VendorCount(rows, r[i].vendorName) && r[i].totalAmount == VendorTotal(rows, r[i].vendorName)
  {
    var r := Bump(g0, last.vendorName.value, last.totalAmount.value);
    forall i | 0 <= i < |r|
      ensures r[i].count > 0 && r[i].count == VendorCount(rows, r[i].vendorName) && r[i].totalAmount == VendorTotal(rows, r[i].vendorName)
    {
      if i < |g0| {
        StepOldGroup(init, last, rows, g0, i);
      } else {
        NewVendorUncounted(init, g0, last.vendorName.value);
        StepNewGroup(init, last, rows, r[i]);
      }
    }
  }

  /** A group that existed before the bump: its vendor's row, if it is the new
      row's vendor, adds one to its count and the amount to its total. */
  lemma StepOldGroup(init: seq<InvoiceRow>, last: InvoiceRow, rows: seq<InvoiceRow>, g0: seq<VendorRow>, i: nat)
    requires rows == init + [last]
    requires Included(last)
    requires DistinctNames(g0)
    requires i < |g0|
    requires g0[i].count > 0
    requires g0[i].count == VendorCount(init, g0[i].vendorName) && g0[i].totalAmount == VendorTotal(init, g0[i].vendorName)
    ensures var r := Bump(g0, last.vendorName.value, last.totalAmount.value);
      i < |r| && r[i].count > 0 && r[i].count == VendorCount(rows, r[i].vendorName) && r[i].totalAmount == VendorTotal(rows, r[i].vendorName)
  {
    var v := last.vendorName.value;
    var r := Bump(g0, v, last.totalAmount.value);
    var prev := g0[i];
    StepCounts(init, last, rows, prev.vendorName);
    if prev.vendorName == v {
      assert r[i] == VendorRow(v, prev.count + 1, prev.totalAmount + last.totalAmount.value);
    } else {
      assert r[i] == prev;
    }
  }

  /** The group the bump appends for a vendor seen for the first time counts
      that one row and its amount. */
  lemma StepNewGroup(init: seq<InvoiceRow>, last: InvoiceRow, rows: seq<InvoiceRow>, g: VendorRow)
    requires rows == init + [last]
    requires Included(last)
    requires VendorCount(init, last.vendorName.value) == 0 && VendorTotal(init, last.vendorName.value) == 0
    requires g == VendorRow(last.vendorName.value, 1, last.totalAmount.value)
    ensures g.count > 0 && g.count == VendorCount(rows, g.vendorName) && g.totalAmount == VendorTotal(rows, g.vendorName)
  {
    StepCounts(init, last, rows, g.vendorName);
  }

  /** A vendor no group names has no included rows yet. */
  lemma NewVendorUncounted(init: seq<InvoiceRow>, g0: seq<VendorRow>, v: string)
    requires TallyFacts(init, g0)
    requires forall j :: 0 <= j < |g0| ==> g0[j].vendorName != v
    ensures VendorCount(init, v) == 0 && VendorTotal(init, v) == 0
  {
    assert VendorCount(init, v) == 0;
    NoRowsNoTotal(init, v);
  }

  /** GROUP BY vendor_name over the included rows: one group per vendor, in
      order of first appearance, with its row count and summed amount. */
  function Tally(rows: seq<InvoiceRow>): (g: seq<VendorRow>)
    ensures DistinctNames(g)
    ensures forall i :: 0 <= i < |g| ==> g[i].count > 0
    ensures forall i :: 0 <= i < |g| ==>
      g[i].count == VendorCount(rows, g[i].vendorName) && g[i].totalAmount == VendorTotal(rows, g[i].vendorName)
    ensures forall v :: VendorCount(rows, v) > 0 ==> exists i :: 0 <= i < |g| && g[i].vendorName == v
    ensures SumCounts(g) == IncludedCount(rows)
  {
    if |rows| == 0 then []
    else
      var init := rows[..|rows| - 1];
      var last := rows[|rows| - 1];
      var g0 := Tally(init);
      assert rows == init + [last];
      assert TallyFacts(init, g0);
      if Included(last) then
        TallyStep(init, last, rows, g0);
        Bump(g0, last.vendorName.value, last.totalAmount.value)
      else
        SkipStep(init, last, rows, g0);
        g0
  }

  /** A row that is not included leaves the grouping right as it is. */
  lemma SkipStep(init: seq<InvoiceRow>, last: InvoiceRow, rows: seq<InvoiceRow>, g0: seq<VendorRow>)
    requires rows == init + [last]
    requires !Included(last)
    requires TallyFacts(init, g0)
    ensures TallyFacts(rows, g0)
  {
    assert rows[..|rows| - 1] == init;
    assert forall w :: VendorCount(rows, w) == VendorCount(init, w) && VendorTotal(rows, w) == VendorTotal(init, w);
  }

  /** Groups ordered by summed amount, largest first. */
  predicate SortedByTotal(g: seq<VendorRow>) {
    forall i :: 0 < i < |g| ==> g[i - 1].totalAmount >= g[i].totalAmount
  }

  /** Insert one group into a list sorted by total, before the first group with
      a total not larger than its own. */
  function InsertByTotal(x: VendorRow, g: seq<VendorRow>): (r: seq<VendorRow>)
    requires SortedByTotal(g)
    ensures SortedByTotal(r)
    ensures |r| > 0 && (r[0] == x || (|g| > 0 && r[0] == g[0]))
    ensures multiset(r) == multiset(g) + multiset{x}
  {
    if |g| == 0 then [x]
    else if x.totalAmount >= g[0].totalAmount then [x] + g
    else
      var rt := InsertByTotal(x, g[1..]);
      assert g == [g[0]] + g[1..];
      [g[0]] + rt
  }

  /** Insertion sort by total, descending; groups with equal totals keep their
      first-appearance order. */
  function SortByTotal(g: seq<VendorRow>): (r: seq<VendorRow>)
    ensures SortedByTotal(r)
    ensures multiset(r) == multiset(g)
  {
    if |g| == 0 then []
    else
      assert g == [g[0]] + g[1..];
      InsertByTotal(g[0], SortByTotal(g[1..]))
  }

  /** Inserting a group whose name is new keeps the names distinct. */
  lemma {:induction false} InsertKeepsNamesDistinct(x: VendorRow, g: seq<VendorRow>)
    requires SortedByTotal(g) && DistinctNames(g)
    requires forall j :: 0 <= j < |g| ==> g[j].vendorName != x.vendorName
    ensures DistinctNames(InsertByTotal(x, g))
    decreases |g|
  {
    if |g| > 0 && x.totalAmount < g[0].totalAmount {
      var tail := g[1..];
      assert forall j :: 1 <= j < |g| ==> g[j] == tail[j - 1];
      InsertKeepsNamesDistinct(x, tail);
      var rt := InsertByTotal(x, tail);
      var r := InsertByTotal(x, g);
      assert r == [g[0]] + rt;
      forall k | 0 <= k < |rt|
        ensures rt[k].vendorName != g[0].vendorName
      {
        assert multiset(tail + [x]) == multiset(tail) + multiset{x};
        PermutationMember(rt, tail + [x], rt[k]);
        assert rt[k] == x || rt[k] in tail;
      }
    } else if |g| > 0 {
      var r := InsertByTotal(x, g);
      assert r == [x] + g;
      assert forall j :: 1 <= j < |r| ==> r[j] == g[j - 1];
    }
  }

  /** An element of one of two permutations of each other is in the other. */
  lemma PermutationMember(a: seq<VendorRow>, b: seq<VendorRow>, e: VendorRow)
    requires multiset(a) == multiset(b)
    requires e in a
    ensures e in b
  {
    assert e in multiset(a);
  }

  /** Sorting keeps the names distinct. */
  lemma {:induction false} SortKeepsNamesDistinct(g: seq<VendorRow>)
    requires DistinctNames(g)
    ensures DistinctNames(SortByTotal(g))
  {
    if |g| > 0 {
      var tail := g[1..];
      assert forall j :: 1 <= j < |g| ==> g[j] == tail[j - 1];
      SortKeepsNamesDistinct(tail);
      var st := SortByTotal(tail);
      forall j | 0 <= j < |st|
        ensures st[j].vendorName != g[0].vendorName
      {
        PermutationMember(st, tail, st[j]);
      }
      InsertKeepsNamesDistinct(g[0], st);
    }
  }

  /** A group in the middle counts once. */
  lemma {:induction false} SumCountsMiddle(p: seq<VendorRow>, x: VendorRow, q: seq<VendorRow>)
    ensures SumCounts(p + [x] + q) == SumCounts(p + q) + x.count
    decreases |q|
  {
    if |q| == 0 {
      assert p + [x] + q == p + [x];
      assert p + q == p;
      assert (p + [x])[..|p|] == p;
    } else {
      var n := |q| - 1;
      SumCountsMiddle(p, x, q[..n]);
      assert (p + [x] + q)[..|p| + 1 + n] == p + [x] + q[..n];
      assert (p + q)[..|p| + n] == p + q[..n];
    }
  }

  /** A permutation keeps the summed counts. */
  lemma {:induction false} SumCountsPermutation(a: seq<VendorRow>, b: seq<VendorRow>)
    requires multiset(a) == multiset(b)
    ensures SumCounts(a) == SumCounts(b)
    decreases |a|
  {
    if |a| > 0 {
      var n := |a| - 1;
      var x := a[n];
      assert a == a[..n] + [x];
      assert x in multiset(b);
      var k :| 0 <= k < |b| && b[k] == x;
      var rest := b[..k] + b[k + 1..];
      assert b == b[..k] + [x] + b[k + 1..];
      assert multiset(b) == multiset(b[..k]) + multiset{x} + multiset(b[k + 1..]);
      assert multiset(a) == multiset(a[..n]) + multiset{x};
      assert multiset(rest) == multiset(b[..k]) + multiset(b[k + 1..]);
      assert multiset(a[..n]) == multiset(a) - multiset{x};
      assert multiset(rest) == multiset(b) - multiset{x};
      SumCountsPermutation(a[..n], rest);
      SumCountsMiddle(b[..k], x, b[k + 1..]);
    }
  }

  /** `getInvoicesByVendor`: the groups ordered by summed amount, descending. */
  function ByVendor(rows: seq<InvoiceRow>): (r: seq<VendorRow>)
    ensures SortedByTotal(r)
    ensures DistinctNames(r)
    ensures multiset(r) == multiset(Tally(rows))
  {
    SortKeepsNamesDistinct(Tally(rows));
    SortByTotal(Tally(rows))
  }

  /** Each per-vendor row is one vendor with its number of included rows and
      their summed amount. */
  lemma ByVendorRowsCounted(rows: seq<InvoiceRow>)
    ensures var r := ByVendor(rows);
      forall i :: 0 <= i < |r| ==>
        r[i].count > 0 && r[i].count == VendorCount(rows, r[i].vendorName) && r[i].totalAmount == VendorTotal(rows, r[i].vendorName)
  {
    var g := Tally(rows);
    var r := ByVendor(rows);
    forall i | 0 <= i < |r|
      ensures r[i].count > 0 && r[i].count == VendorCount(rows, r[i].vendorName) && r[i].totalAmount == VendorTotal(rows, r[i].vendorName)
    {
      PermutationMember(r, g, r[i]);
      var k :| 0 <= k < |g| && g[k] == r[i];
    }
  }

  /** Every vendor of an included row has its per-vendor row. */
  lemma ByVendorCoversVendors(rows: seq<InvoiceRow>)
    ensures var r := ByVendor(rows);
      forall v :: VendorCount(rows, v) > 0 ==> exists i :: 0 <= i < |r| && r[i].vendorName == v
  {
    var g := Tally(rows);
    var r := ByVendor(rows);
    forall v | VendorCount(rows, v) > 0
      ensures exists i :: 0 <= i < |r| && r[i].vendorName == v
    {
      var k :| 0 <= k < |g| && g[k].vendorName == v;
      PermutationMember(g, r, g[k]);
    }
  }

  /** The per-vendor counts add up to the included rows. */
  lemma ByVendorCountsSum(rows: seq<InvoiceRow>)
    ensures SumCounts(ByVendor(rows)) == IncludedCount(rows)
  {
    SumCountsPermutation(ByVendor(rows), Tally(rows));
  }

  // ---------------------------------------------------------------------------
  // getInvoicesByAmountRange
  // ---------------------------------------------------------------------------

  /** The CASE labels, in the order of the ORDER BY rank (rank = index + 1). */
  const RangeLabels: seq<string> := ["0-100", "100-500", "500-1000", "1000-5000", "5000+"]

  /** The thresholds of the CASE, each the exclusive upper end of one range. */
  const Thresholds: seq<int> := [100, 500, 1000, 5000]

  /** The CASE expression: the index of the first range whose upper end lies
      above the amount; lower ends are inclusive. */
  function BucketIndex(a: int): (i: nat)
    ensures i < 5
    ensures i == 0 || Thresholds[i - 1] <= a
    ensures i == 4 || a < Thresholds[i]
  {
    if a < 100 then 0 else if a < 500 then 1 else if a < 1000 then 2 else if a < 5000 then 3 else 4
  }

  /** Bucketing is monotone: a larger amount never lands in an earlier range. */
  lemma BucketMonotone(a: int, b: int)
    requires a <= b
    ensures BucketIndex(a) <= BucketIndex(b)
  {
  }

  /** The ORDER BY's CASE: the rank of a label, None (NULL) for any other text. */
  function Rank(name: string): (k: Option<nat>)
    ensures k.Some? <==> name in RangeLabels
    ensures k.Some? ==> 1 <= k.value <= 5 && RangeLabels[k.value - 1] == name
  {
    if name == "0-100" then Some(1)
    else if name == "100-500" then Some(2)
    else if name == "500-1000" then Some(3)
    else if name == "1000-5000" then Some(4)
    else if name == "5000+" then Some(5)
    else None
  }

  /** Each label has exactly its own rank; in particular the labels differ. */
  lemma RankOfLabel(i: nat)
    requires i < 5
    ensures Rank(RangeLabels[i]) == Some(i + 1)
  {
  }

  /** Different ranges have different labels. */
  lemma LabelsDiffer(i: nat, j: nat)
    requires i < 5 && j < 5 && i != j
    ensures RangeLabels[i] != RangeLabels[j]
  {
    RankOfLabel(i);
    RankOfLabel(j);
  }

  /** How many amounts fall into range i. */
  function BucketCount(xs: seq<int>, i: nat): nat
  {
    if |xs| == 0 then 0
    else BucketCount(xs[..|xs| - 1], i) + (if BucketIndex(xs[|xs| - 1]) == i then 1 else 0)
  }

  /** The five range counts of a list of amounts. */
  function BucketCounts(xs: seq<int>): (c: seq<nat>)
    ensures |c| == 5
    ensures forall i :: 0 <= i < 5 ==> c[i] == BucketCount(xs, i)
  {
    [BucketCount(xs, 0), BucketCount(xs, 1), BucketCount(xs, 2), BucketCount(xs, 3), BucketCount(xs, 4)]
  }

  /** The counts of ranges i and above. */
  function RangeSum(c: seq<nat>, i: nat): nat
    requires |c| == 5 && i <= 5
    decreases 5 - i
  {
    if i == 5 then 0 else c[i] + RangeSum(c, i + 1)
  }

  /** Every amount falls into exactly one range: the five counts add up to the
      number of amounts. */
  lemma {:induction false} BucketsPartition(xs: seq<int>)
    ensures RangeSum(BucketCounts(xs), 0) == |xs|
  {
    if |xs| > 0 {
      BucketsPartition(xs[..|xs| - 1]);
    }
  }

  /** The ranges from i on with a non-zero count, in increasing order. */
  function NonEmptyRanges(c: seq<nat>, i: nat): (js: seq<nat>)
    requires |c| == 5 && i <= 5
    ensures forall k :: 0 <= k < |js| ==> i <= js[k] < 5 && c[js[k]] > 0
    ensures forall k :: 0 < k < |js| ==> js[k - 1] < js[k]
    decreases 5 - i
  {
    if i == 5 then []
    else if c[i] > 0 then
      var rest := NonEmptyRanges(c, i + 1);
      var js := [i] + rest;
      assert forall k :: 1 <= k < |js| ==> js[k] == rest[k - 1];
      js
    else NonEmptyRanges(c, i + 1)
  }

  /** Every range from i on with a non-zero count is listed. */
  lemma {:induction false} NonEmptyRangesCover(c: seq<nat>, i: nat, j: nat)
    requires |c| == 5 && i <= j < 5 && c[j] > 0
    ensures j in NonEmptyRanges(c, i)
    decreases j - i
  {
    if i < j {
      NonEmptyRangesCover(c, i + 1, j);
      var rest := NonEmptyRanges(c, i + 1);
      if c[i] > 0 {
        assert NonEmptyRanges(c, i) == [i] + rest;
      }
    } else {
      assert NonEmptyRanges(c, i)[0] == i;
    }
  }
  /** One row of the histogram query. */
  datatype RangeRow = RangeRow(amountRange: string, count: nat)

  /** The histogram row of each listed range. */
  function RangeRows(c: seq<nat>, js: seq<nat>): (r: seq<RangeRow>)
    requires |c| == 5
    requires forall k :: 0 <= k < |js| ==> js[k] < 5
    ensures |r| == |js|
    ensures forall k :: 0 <= k < |js| ==> r[k] == RangeRow(RangeLabels[js[k]], c[js[k]])
  {
    if |js| == 0 then []
    else RangeRows(c, js[..|js| - 1]) + [RangeRow(RangeLabels[js[|js| - 1]], c[js[|js| - 1]])]
  }

  /** `getInvoicesByAmountRange`: one row per range that holds an amount, in
      rank order, with the number of amounts in it. */
  function ByAmountRange(rows: seq<InvoiceRow>): (r: seq<RangeRow>)
    ensures forall k :: 0 <= k < |r| ==> r[k].amountRange in RangeLabels && r[k].count > 0
  {
    var c := BucketCounts(Amounts(rows));
    RangeRows(c, NonEmptyRanges(c, 0))
  }

  /** Sum of the counts of a histogram. */
  function SumRangeCounts(r: seq<RangeRow>): nat
  {
    if |r| == 0 then 0 else r[0].count + SumRangeCounts(r[1..])
  }

  /** The summed counts of the listed ranges. */
  function SumAt(c: seq<nat>, js: seq<nat>): nat
    requires |c| == 5
    requires forall k :: 0 <= k < |js| ==> js[k] < 5
  {
    if |js| == 0 then 0 else c[js[0]] + SumAt(c, js[1..])
  }

  /** The rows of the listed ranges carry their counts. */
  lemma {:induction false} SumRows(c: seq<nat>, js: seq<nat>)
    requires |c| == 5
    requires forall k :: 0 <= k < |js| ==> js[k] < 5
    ensures SumRangeCounts(RangeRows(c, js)) == SumAt(c, js)
  {
    if |js| > 0 {
      var r := RangeRows(c, js);
      var t := js[1..];
      assert forall k :: 0 <= k < |t| ==> t[k] == js[k + 1];
      SumRows(c, t);
      assert r[1..] == RangeRows(c, t);
    }
  }

  /** Skipping empty ranges loses nothing from the sum. */
  lemma {:induction false} RangeRowsSum(c: seq<nat>, i: nat)
    requires |c| == 5 && i <= 5
    ensures SumAt(c, NonEmptyRanges(c, i)) == RangeSum(c, i)
    decreases 5 - i
  {
    if i < 5 {
      RangeRowsSum(c, i + 1);
      var jr := NonEmptyRanges(c, i + 1);
      if c[i] > 0 {
        var js := NonEmptyRanges(c, i);
        assert js == [i] + jr;
        assert js[1..] == jr;
      }
    }
  }

  /** The histogram rows are in strictly increasing rank. */
  lemma ByAmountRangeOrdered(rows: seq<InvoiceRow>)
    ensures var r := ByAmountRange(rows);
      forall k :: 0 < k < |r| ==> Rank(r[k - 1].amountRange).value < Rank(r[k].amountRange).value
  {
    var js := NonEmptyRanges(BucketCounts(Amounts(rows)), 0);
    var r := ByAmountRange(rows);
    forall k | 0 < k < |r|
      ensures Rank(r[k - 1].amountRange).value < Rank(r[k].amountRange).value
    {
      RankOfLabel(js[k - 1]);
      RankOfLabel(js[k]);
    }
  }

  /** Every range that holds an amount is listed with its count, and the counts
      add up to the rows that have an amount. */
  lemma ByAmountRangeComplete(rows: seq<InvoiceRow>)
    ensures var r := ByAmountRange(rows);
      && (forall j :: 0 <= j < 5 && BucketCount(Amounts(rows), j) > 0 ==>
            RangeRow(RangeLabels[j], BucketCount(Amounts(rows), j)) in r)
      && (forall k :: 0 <= k < |r| ==> exists j :: 0 <= j < 5 && r[k] == RangeRow(RangeLabels[j], BucketCount(Amounts(rows), j)))
      && SumRangeCounts(r) == |Amounts(rows)|
  {
    var xs := Amounts(rows);
    var c := BucketCounts(xs);
    var js := NonEmptyRanges(c, 0);
    var r := ByAmountRange(rows);
    forall j | 0 <= j < 5 && BucketCount(xs, j) > 0
      ensures RangeRow(RangeLabels[j], BucketCount(xs, j)) in r
    {
      NonEmptyRangesCover(c, 0, j);
      var k :| 0 <= k < |js| && js[k] == j;
      assert r[k] == RangeRow(RangeLabels[j], BucketCount(xs, j));
    }
    RangeRowsSum(c, 0);
    SumRows(c, js);
    BucketsPartition(xs);
  }
}
