/**
  One press of the calculate button: the fetched records are indexed, the
  rows are computed and sorted, and the page shows a table. Two renderings
  are given: the one the program performs, which fails when nothing
  qualifies, and the corrected one the rest of the model relies on.
 */
module TradeScreen {
  import opened ItemIds
  import opened MarketIndex
  import opened Calculator
  import opened Ranking

  /** What the page shows after the button is pressed. */
  datatype Screen =
    | Blank                          // nothing is drawn
    | NoDataNotice                   // an explicit "no data" message
    | Table(rows: seq<Row>)          // the sorted result table
    | MissingColumn(column: string)  // the sort raises a missing-column error

  /** The column the result table is sorted on. */
  const SortColumn: string := "Total Trip Profit"

  /** The rows of one calculation, before sorting. */
  function UnsortedRows(records: seq<PriceRecord>, mount: string, rrr: real): seq<Row>
    requires mount in Mounts
  {
    Rows(HomeSellOrders(records), BestHideBuy(records), Mounts[mount], rrr)
  }

  /**
    The sorted result rows for the fetched records, the chosen mount and the
    return rate: a reordering of the computed rows, each at least as
    profitable per trip as the next.
   */
  function Calculate(records: seq<PriceRecord>, mount: string, rrr: real): (rows: seq<Row>)
    requires mount in Mounts && rrr >= MinReturnRate
    ensures multiset(rows) == multiset(UnsortedRows(records, mount, rrr))
    ensures forall i :: 0 <= i < |rows| - 1 ==> rows[i].totalTripProfit >= rows[i + 1].totalTripProfit
    ensures |rows| <= 25
  {
    var rows := SortByTripProfit(UnsortedRows(records, mount, rrr));
    assert |rows| == |multiset(rows)|;
    rows
  }

  /** Where a row of a reordering sits in the original. */
  lemma RowOfPermutation(a: seq<Row>, b: seq<Row>, i: int) returns (j: int)
    requires multiset(a) == multiset(b) && 0 <= i < |a|
    ensures 0 <= j < |b| && b[j] == a[i]
  {
    assert a[i] in multiset(b);
    j :| 0 <= j < |b| && b[j] == a[i];
  }

  /** Reordering rows keeps which combinations have a row. */
  lemma HasRowForPermutation(a: seq<Row>, b: seq<Row>, t: int, e: int)
    requires multiset(a) == multiset(b)
    ensures HasRowFor(a, t, e) <==> HasRowFor(b, t, e)
  {
    if HasRowFor(a, t, e) {
      var i :| 0 <= i < |a| && a[i].tier == t && a[i].enchant == e;
      assert a[i] in multiset(b);
      var j :| 0 <= j < |b| && b[j] == a[i];
    }
    if HasRowFor(b, t, e) {
      var j :| 0 <= j < |b| && b[j].tier == t && b[j].enchant == e;
      assert b[j] in multiset(a);
      var i :| 0 <= i < |a| && a[i] == b[j];
    }
  }

  /**
    A combination appears in the sorted result exactly when its leather has a
    home-town sell order above 0 and its hide a buy order above 0 somewhere.
   */
  lemma RowIffBothPricesPositive(records: seq<PriceRecord>, mount: string, rrr: real, t: int, e: int)
    requires mount in Mounts && rrr >= MinReturnRate
    requires ValidTier(t) && ValidEnchant(e)
    ensures HasRowFor(Calculate(records, mount, rrr), t, e) <==>
      Lookup(HomeSellOrders(records), LeatherId(t, e)) > 0 && Lookup(BestHideBuy(records), HideId(t, e)) > 0
  {
    HasRowForPermutation(Calculate(records, mount, rrr), UnsortedRows(records, mount, rrr), t, e);
  }

  /** Reordering rows keeps every row fitting the same lookups. */
  lemma FitsAfterReorder(a: seq<Row>, b: seq<Row>, sell: map<string, int>, best: map<string, int>, capacity: int, rrr: real)
    requires multiset(a) == multiset(b) && capacity >= 0
    requires forall j :: 0 <= j < |b| ==> RowFits(b[j], sell, best, capacity, rrr)
    ensures forall i :: 0 <= i < |a| ==> RowFits(a[i], sell, best, capacity, rrr)
  {
    forall i | 0 <= i < |a|
      ensures RowFits(a[i], sell, best, capacity, rrr)
    {
      var j := RowOfPermutation(a, b, i);
    }
  }

  /**
    Every row of the sorted result says what a row should say about the
    lookups it came from; `Calculate` sorts exactly these rows for the
    lookups built from the fetched records.
   */
  lemma SortedRowsFit(sell: map<string, int>, best: map<string, int>, capacity: int, rrr: real)
    requires capacity >= 0
    ensures forall i :: 0 <= i < |SortByTripProfit(Rows(sell, best, capacity, rrr))| ==>
      RowFits(SortByTripProfit(Rows(sell, best, capacity, rrr))[i], sell, best, capacity, rrr)
  {
    FitsAfterReorder(SortByTripProfit(Rows(sell, best, capacity, rrr)), Rows(sell, best, capacity, rrr),
                     sell, best, capacity, rrr);
  }

  /** An empty fetch yields no rows. */
  lemma NoRecordsNoRows(mount: string, rrr: real)
    requires mount in Mounts && rrr >= MinReturnRate
    ensures Calculate([], mount, rrr) == []
  {
    assert HomeSellOrders([]) == map[];
    NoSellOrdersNoRows(BestHideBuy([]), Mounts[mount], rrr);
  }

  /**
    Records reach the result only through the home-town records and the best
    hide bids: two fetches that agree on those give the same result.
   */
  lemma OtherTownsOnlyReachHideBids(a: seq<PriceRecord>, b: seq<PriceRecord>, mount: string, rrr: real)
    requires mount in Mounts && rrr >= MinReturnRate
    requires HomeRecords(a) == HomeRecords(b)
    requires BestHideBuy(a) == BestHideBuy(b)
    ensures Calculate(a, mount, rrr) == Calculate(b, mount, rrr)
  {
    SameHomeRecordsSameSellOrders(a, b);
  }

  // ---------------------------------------------------------------------
  // Rendering
  // ---------------------------------------------------------------------

  /**
    The page as the program draws it: nothing when the fetch came back
    empty; otherwise the rows are put in a table and sorted by the trip
    profit column, and a table built from no rows has no such column, so
    the sort fails.
   */
  function RenderAsWritten(records: seq<PriceRecord>, mount: string, rrr: real): (s: Screen)
    requires mount in Mounts && rrr >= MinReturnRate
    ensures s.Blank? || s.Table? || s == MissingColumn(SortColumn)
    ensures s.Blank? <==> records == []
    ensures records != [] ==> (s == MissingColumn(SortColumn) <==> UnsortedRows(records, mount, rrr) == [])
    ensures s.Table? ==> s.rows == Calculate(records, mount, rrr) && s.rows != []
  {
    if records == [] then Blank
    else
      var rows := Calculate(records, mount, rrr);
      assert |rows| == |multiset(rows)| == |multiset(UnsortedRows(records, mount, rrr))| == |UnsortedRows(records, mount, rrr)|;
      if rows == [] then MissingColumn(SortColumn) else Table(rows)
  }

  /** A fetch with records but none from the home town makes the program fail. */
  lemma NoHomeRecordsFails(records: seq<PriceRecord>, mount: string, rrr: real)
    requires mount in Mounts && rrr >= MinReturnRate
    requires records != []
    requires forall i :: 0 <= i < |records| ==> !AtHome(records[i])
    ensures RenderAsWritten(records, mount, rrr) == MissingColumn(SortColumn)
  {
    assert HomeSellOrders(records) == map[];
    NoSellOrdersNoRows(BestHideBuy(records), Mounts[mount], rrr);
  }

  /** A single hide bid from another town is enough to make the program fail. */
  lemma SingleForeignHideBidFails()
    ensures RenderAsWritten([PriceRecord("T4_HIDE", "Lymhurst", 0, 120)], "Stag (T4)", MinReturnRate)
         == MissingColumn(SortColumn)
  {
    var records := [PriceRecord("T4_HIDE", "Lymhurst", 0, 120)];
    assert !AtHome(records[0]);
    NoHomeRecordsFails(records, "Stag (T4)", MinReturnRate);
  }

  /**
    The page as intended: the sorted table when some combination qualifies,
    and an explicit notice otherwise, including when the fetch was empty.
    It never fails and never stays blank.
   */
  function Render(records: seq<PriceRecord>, mount: string, rrr: real): (s: Screen)
    requires mount in Mounts && rrr >= MinReturnRate
    ensures s.Table? || s.NoDataNotice?
    ensures s.NoDataNotice? <==> UnsortedRows(records, mount, rrr) == []
    ensures s.Table? ==> multiset(s.rows) == multiset(UnsortedRows(records, mount, rrr))
    ensures s.Table? ==> forall i :: 0 <= i < |s.rows| - 1 ==> s.rows[i].totalTripProfit >= s.rows[i + 1].totalTripProfit
    ensures records == [] ==> s == NoDataNotice
  {
    if records == [] then
      NoRecordsNoRows(mount, rrr);
      NoDataNotice
    else
      var rows := Calculate(records, mount, rrr);
      if rows == [] then NoDataNotice else Table(rows)
  }
}
