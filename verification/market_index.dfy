/**
  The two price lookups built from the fetched order book: the sell orders of
  the home town, where leather is sold and ingredients are bought, and the
  highest hide buy order found in any town.
 */
module MarketIndex {
  import opened ItemIds

  /** One row of the fetched price table: the best orders for an item in a town, in silver. */
  datatype PriceRecord = PriceRecord(itemId: string, city: string, sellPriceMin: int, buyPriceMax: int)

  /** The town whose tannery crafts and whose market the leather is sold on. */
  const HomeCity: string := "Martlock"

  predicate AtHome(r: PriceRecord) {
    r.city == HomeCity
  }

  /** A price lookup that answers 0 for an item with no entry. */
  function Lookup(m: map<string, int>, id: string): int {
    if id in m then m[id] else 0
  }

  // ---------------------------------------------------------------------
  // Home-town sell orders
  // ---------------------------------------------------------------------

  /** Record i is a home-town record for `id` and no later home-town record is. */
  predicate LastHomeRecordFor(recs: seq<PriceRecord>, i: int, id: string) {
    && 0 <= i < |recs|
    && AtHome(recs[i]) && recs[i].itemId == id
    && forall j :: i < j < |recs| ==> !(AtHome(recs[j]) && recs[j].itemId == id)
  }

  predicate HasHomeRecordFor(recs: seq<PriceRecord>, id: string) {
    exists i :: 0 <= i < |recs| && AtHome(recs[i]) && recs[i].itemId == id
  }

  /** `m` answers, for every item with a home-town record, the sell price of the last such record. */
  ghost predicate IsHomeSellIndex(recs: seq<PriceRecord>, m: map<string, int>) {
    && (forall id :: id in m <==> HasHomeRecordFor(recs, id))
    && (forall id :: id in m ==>
          exists i :: LastHomeRecordFor(recs, i, id) && m[id] == recs[i].sellPriceMin)
  }

  /**
    The home-town sell-order lookup: the records of the home town, keyed by
    item, folded from left to right so that a later record for an item
    overwrites an earlier one.
   */
  function HomeSellOrders(recs: seq<PriceRecord>): (m: map<string, int>)
    ensures IsHomeSellIndex(recs, m)
    decreases |recs|
  {
    if recs == [] then map[]
    else
      var init := recs[..|recs| - 1];
      var r := recs[|recs| - 1];
      var m := HomeSellOrders(init);
      var m' := if AtHome(r) then m[r.itemId := r.sellPriceMin] else m;
      assert recs == init + [r];
      HomeSellStep(init, r, m, m');
      m'
  }

  /** Folding one more record into a home-town sell index keeps it one. */
  lemma HomeSellStep(init: seq<PriceRecord>, r: PriceRecord, m: map<string, int>, m': map<string, int>)
    requires IsHomeSellIndex(init, m)
    requires m' == if AtHome(r) then m[r.itemId := r.sellPriceMin] else m
    ensures IsHomeSellIndex(init + [r], m')
  {
    var recs := init + [r];
    var n := |init|;
    assert recs[n] == r;
    forall id
      ensures id in m' <==> HasHomeRecordFor(recs, id)
    {
      if HasHomeRecordFor(recs, id) {
        var i :| 0 <= i < |recs| && AtHome(recs[i]) && recs[i].itemId == id;
        if i < n {
          assert init[i] == recs[i];
        }
      }
      if id in m {
        var i :| LastHomeRecordFor(init, i, id) && m[id] == init[i].sellPriceMin;
        assert recs[i] == init[i];
      }
    }
    forall id | id in m'
      ensures exists i :: LastHomeRecordFor(recs, i, id) && m'[id] == recs[i].sellPriceMin
    {
      if AtHome(r) && id == r.itemId {
        assert LastHomeRecordFor(recs, n, id);
      } else {
        var i :| LastHomeRecordFor(init, i, id) && m[id] == init[i].sellPriceMin;
        assert recs[i] == init[i];
        assert LastHomeRecordFor(recs, i, id);
      }
    }
  }

  function HomeRecords(recs: seq<PriceRecord>): (hs: seq<PriceRecord>)
    ensures forall r :: r in hs <==> r in recs && AtHome(r)
    ensures |hs| <= |recs|
    decreases |recs|
  {
    if recs == [] then []
    else
      var rest := HomeRecords(recs[..|recs| - 1]);
      var r := recs[|recs| - 1];
      if AtHome(r) then rest + [r] else rest
  }

  /** Filtering a single record keeps it exactly when it is a home-town record. */
  lemma HomeRecordsSingle(r: PriceRecord)
    ensures HomeRecords([r]) == if AtHome(r) then [r] else []
  {
    assert [r][..0] == [];
  }

  /**
    Filtering distributes over concatenation, so the filter keeps the
    home-town records in their original order and with their repetitions.
   */
  lemma {:induction false} HomeRecordsAppend(a: seq<PriceRecord>, b: seq<PriceRecord>)
    ensures HomeRecords(a + b) == HomeRecords(a) + HomeRecords(b)
    decreases |b|
  {
    if b != [] {
      var ab := a + b;
      var binit := b[..|b| - 1];
      assert ab[..|ab| - 1] == a + binit;
      assert ab[|ab| - 1] == b[|b| - 1];
      HomeRecordsAppend(a, binit);
    } else {
      assert a + b == a;
    }
  }

  /** Records from other towns have no effect on the home-town sell orders. */
  lemma {:induction false} HomeSellOrdersIgnoreOtherTowns(recs: seq<PriceRecord>)
    ensures HomeSellOrders(recs) == HomeSellOrders(HomeRecords(recs))
    decreases |recs|
  {
    if recs != [] {
      var init := recs[..|recs| - 1];
      HomeSellOrdersIgnoreOtherTowns(init);
      var r := recs[|recs| - 1];
      if AtHome(r) {
        var hs := HomeRecords(init) + [r];
        assert HomeRecords(recs) == hs;
        assert hs[..|hs| - 1] == HomeRecords(init);
      }
    }
  }

  /** Two order books with the same home-town records give the same home-town sell orders. */
  lemma SameHomeRecordsSameSellOrders(a: seq<PriceRecord>, b: seq<PriceRecord>)
    requires HomeRecords(a) == HomeRecords(b)
    ensures HomeSellOrders(a) == HomeSellOrders(b)
  {
    HomeSellOrdersIgnoreOtherTowns(a);
    HomeSellOrdersIgnoreOtherTowns(b);
  }

  // ---------------------------------------------------------------------
  // Best hide buy orders across all towns
  // ---------------------------------------------------------------------

  predicate IsHideRecord(r: PriceRecord) {
    Contains(r.itemId, "HIDE")
  }

  predicate HasHideRecordFor(recs: seq<PriceRecord>, id: string) {
    exists i :: 0 <= i < |recs| && IsHideRecord(recs[i]) && recs[i].itemId == id
  }

  /** `m` answers, for every hide item, the highest buy order among its records. */
  ghost predicate IsBestHideIndex(recs: seq<PriceRecord>, m: map<string, int>) {
    && (forall id :: id in m <==> HasHideRecordFor(recs, id))
    && (forall i :: 0 <= i < |recs| && IsHideRecord(recs[i]) ==>
          recs[i].itemId in m && recs[i].buyPriceMax <= m[recs[i].itemId])
    && (forall id :: id in m ==>
          exists i :: 0 <= i < |recs| && recs[i].itemId == id && recs[i].buyPriceMax == m[id])
  }

  /**
    The best hide buy-order lookup: for every item whose identifier contains
    HIDE, the highest buy order over the records of all towns.
   */
  function BestHideBuy(recs: seq<PriceRecord>): (m: map<string, int>)
    ensures IsBestHideIndex(recs, m)
    ensures forall id :: id in m ==> Contains(id, "HIDE")
    decreases |recs|
  {
    if recs == [] then map[]
    else
      var init := recs[..|recs| - 1];
      var r := recs[|recs| - 1];
      var m := BestHideBuy(init);
      var m' :=
        if !IsHideRecord(r) then m
        else if r.itemId in m && r.buyPriceMax <= m[r.itemId] then m
        else m[r.itemId := r.buyPriceMax];
      assert recs == init + [r];
      BestHideStep(init, r, m, m');
      m'
  }

  /** Folding one more record into a best hide index keeps it one. */
  lemma BestHideStep(init: seq<PriceRecord>, r: PriceRecord, m: map<string, int>, m': map<string, int>)
    requires IsBestHideIndex(init, m)
    requires m' ==
      if !IsHideRecord(r) then m
      else if r.itemId in m && r.buyPriceMax <= m[r.itemId] then m
      else m[r.itemId := r.buyPriceMax]
    ensures IsBestHideIndex(init + [r], m')
  {
    var recs := init + [r];
    var n := |init|;
    assert recs[n] == r;
    forall id
      ensures id in m' <==> HasHideRecordFor(recs, id)
    {
      if HasHideRecordFor(recs, id) {
        var i :| 0 <= i < |recs| && IsHideRecord(recs[i]) && recs[i].itemId == id;
        if i < n {
          assert init[i] == recs[i];
        }
      }
      if id in m {
        var i :| 0 <= i < |init| && IsHideRecord(init[i]) && init[i].itemId == id;
        assert recs[i] == init[i];
      }
    }
    forall i | 0 <= i < |recs| && IsHideRecord(recs[i])
      ensures recs[i].itemId in m' && recs[i].buyPriceMax <= m'[recs[i].itemId]
    {
      if i < n {
        assert init[i] == recs[i];
      }
    }
    forall id | id in m'
      ensures exists i :: 0 <= i < |recs| && recs[i].itemId == id && recs[i].buyPriceMax == m'[id]
    {
      if id in m && m'[id] == m[id] {
        var i :| 0 <= i < |init| && init[i].itemId == id && init[i].buyPriceMax == m[id];
        assert recs[i] == init[i];
      } else {
        assert recs[n].itemId == id && recs[n].buyPriceMax == m'[id];
      }
    }
  }

  /** The best hide buy orders do not depend on the order in which the records arrive. */
  lemma BestHideBuyOrderIndependent(a: seq<PriceRecord>, b: seq<PriceRecord>)
    requires multiset(a) == multiset(b)
    ensures BestHideBuy(a) == BestHideBuy(b)
  {
    var ma, mb := BestHideBuy(a), BestHideBuy(b);
    forall id | id in ma
      ensures id in mb && ma[id] <= mb[id]
    {
      var i :| 0 <= i < |a| && a[i].itemId == id && a[i].buyPriceMax == ma[id];
      assert a[i] in multiset(b);
      var j :| 0 <= j < |b| && b[j] == a[i];
    }
    forall id | id in mb
      ensures id in ma && mb[id] <= ma[id]
    {
      var j :| 0 <= j < |b| && b[j].itemId == id && b[j].buyPriceMax == mb[id];
      assert b[j] in multiset(a);
      var i :| 0 <= i < |a| && a[i] == b[j];
    }
    assert ma.Keys == mb.Keys;
  }
}
