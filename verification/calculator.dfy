/**
  The profit calculator: the static game tables, the per-bar and per-trip
  profit formulas, and the tier/enchant loop that turns the two price lookups
  into result rows. Prices are whole silver; profits are exact reals.
 */
module Calculator {
  import opened ItemIds
  import opened MarketIndex

  // ---------------------------------------------------------------------
  // Static tables
  // ---------------------------------------------------------------------

  /** Hides consumed by one leather bar, per tier. */
  const HideReq: map<int, int> := map[4 := 2, 5 := 3, 6 := 4, 7 := 5, 8 := 5]

  /** Carrying capacity of each selectable mount. */
  const Mounts: map<string, int> := map[
    "Stag (T4)" := 454, "Transport Ox (T5)" := 1139, "Transport Ox (T8)" := 3281,
    "Grizzly Bear (T7)" := 2382, "Elite Winter Bear (T8)" := 3485, "Mammoth (T8)" := 23412]

  /** Weight of one hide, per tier. */
  const HideWeights: map<int, real> := map[4 := 0.3, 5 := 0.5, 6 := 0.8, 7 := 1.2, 8 := 2.0]

  /** Share of a leather sale kept after the 6.5% sell-order tax. */
  const AfterTax: real := 0.935

  /** The smallest return rate the rate input accepts, in percent. */
  const MinReturnRate: real := 15.0

  predicate ValidTier(t: int) {
    4 <= t <= 8
  }

  predicate ValidEnchant(e: int) {
    0 <= e <= 4
  }

  // ---------------------------------------------------------------------
  // Formulas
  // ---------------------------------------------------------------------

  /**
    Profit of crafting and selling one bar: the taxed leather price minus the
    hides and ingredient bought, discounted by the resource return rate.
   */
  function ProfitPerBar(leatherPrice: int, hidePrice: int, ingredientCost: int, t: int, rrr: real): real
    requires ValidTier(t)
  {
    leatherPrice as real * AfterTax - (hidePrice * HideReq[t] + ingredientCost) as real * (1.0 - rrr / 100.0)
  }

  /** A dearer leather always means more profit per bar. */
  lemma ProfitRisesWithLeatherPrice(l1: int, l2: int, hidePrice: int, ingredientCost: int, t: int, rrr: real)
    requires ValidTier(t) && l1 < l2
    ensures ProfitPerBar(l1, hidePrice, ingredientCost, t, rrr) < ProfitPerBar(l2, hidePrice, ingredientCost, t, rrr)
  {
  }

  /** While the return rate stays at most 100%, dearer hides never raise the profit per bar. */
  lemma ProfitFallsWithHidePrice(leatherPrice: int, h1: int, h2: int, ingredientCost: int, t: int, rrr: real)
    requires ValidTier(t) && h1 <= h2 && rrr <= 100.0
    ensures ProfitPerBar(leatherPrice, h2, ingredientCost, t, rrr) <= ProfitPerBar(leatherPrice, h1, ingredientCost, t, rrr)
  {
    var keep := 1.0 - rrr / 100.0;
    var extra := ((h2 - h1) * HideReq[t]) as real;
    assert extra >= 0.0 && keep >= 0.0;
    MulNonNegative(extra, keep);
    assert (h2 * HideReq[t] + ingredientCost) as real * keep
        == (h1 * HideReq[t] + ingredientCost) as real * keep + extra * keep;
  }

  lemma MulNonNegative(a: real, b: real)
    requires a >= 0.0 && b >= 0.0
    ensures a * b >= 0.0
  {
  }

  /** How many hides of tier t the mount carries: the capacity over the hide weight, truncated like a cast to int. */
  function HidesPerTrip(capacity: int, t: int): int
    requires ValidTier(t)
  {
    (capacity as real / HideWeights[t]).Floor
  }

  /**
    The hides per trip are the whole number of hides whose total weight fits
    in the capacity: one more would overload the mount.
   */
  lemma HidesPerTripFits(capacity: int, t: int)
    requires ValidTier(t) && capacity >= 0
    ensures HidesPerTrip(capacity, t) >= 0
    ensures HidesPerTrip(capacity, t) as real * HideWeights[t] <= capacity as real
    ensures capacity as real < (HidesPerTrip(capacity, t) + 1) as real * HideWeights[t]
  {
    var w := HideWeights[t];
    var q := capacity as real / w;
    var n := HidesPerTrip(capacity, t);
    assert q * w == capacity as real;
    assert n as real <= q < (n + 1) as real;
    MulMonotone(n as real, q, w);
    MulMonotone(q, (n + 1) as real, w);
  }

  lemma MulMonotone(a: real, b: real, c: real)
    requires a <= b && c > 0.0
    ensures a * c <= b * c
    ensures a < b ==> a * c < b * c
  {
  }

  /** Every mount carries at least one hide of every tier. */
  lemma MountsCarryHides(mount: string, t: int)
    requires mount in Mounts && ValidTier(t)
    ensures HidesPerTrip(Mounts[mount], t) > 0
  {
    HidesPerTripFits(Mounts[mount], t);
    assert Mounts[mount] >= 454;
    assert HideWeights[t] <= 2.0;
  }

  /**
    Profit of one trip: the hides carried, divided by the hides a bar
    needs (a real division, not a whole number of bars), times the profit
    per bar.
   */
  function TripProfit(hidesPerTrip: int, t: int, perBar: real): real
    requires ValidTier(t)
  {
    (hidesPerTrip as real / HideReq[t] as real) * perBar
  }

  /** With at least one hide per trip, the trip profit has the sign of the profit per bar. */
  lemma TripProfitSign(hidesPerTrip: int, t: int, perBar: real)
    requires ValidTier(t) && hidesPerTrip > 0
    ensures TripProfit(hidesPerTrip, t, perBar) > 0.0 <==> perBar > 0.0
    ensures TripProfit(hidesPerTrip, t, perBar) < 0.0 <==> perBar < 0.0
    ensures TripProfit(hidesPerTrip, t, perBar) == 0.0 <==> perBar == 0.0
  {
    var k := hidesPerTrip as real / HideReq[t] as real;
    assert k > 0.0;
    if perBar > 0.0 {
      assert k * perBar > 0.0;
    } else if perBar < 0.0 {
      assert k * -perBar > 0.0;
    }
  }

  // ---------------------------------------------------------------------
  // Rounding for display
  // ---------------------------------------------------------------------

  /** Rounds to the nearest whole number, halves going to the even neighbour. */
  function RoundHalfEven(x: real): (r: int)
    ensures x - 0.5 <= r as real <= x + 0.5
    ensures (r as real - x == 0.5 || x - r as real == 0.5) ==> r % 2 == 0
  {
    var f := x.Floor;
    var d := x - f as real;
    if d < 0.5 then f
    else if d > 0.5 then f + 1
    else if f % 2 == 0 then f
    else f + 1
  }

  /** Rounding keeps order: a larger amount never displays as a smaller one. */
  lemma RoundMonotone(x: real, y: real)
    requires x <= y
    ensures RoundHalfEven(x) <= RoundHalfEven(y)
  {
  }

  // ---------------------------------------------------------------------
  // Rows
  // ---------------------------------------------------------------------

  /**
    One result row: the leather item with its tier and enchantment, the two
    prices it was computed from, and the profits rounded for display.
   */
  datatype Row = Row(
    tier: int,
    enchant: int,
    item: string,
    hideBuyOrder: int,
    leatherSellOrder: int,
    profitPerBar: int,
    totalTripProfit: int)

  /** A row is produced only when the leather sells and the hide is bid for somewhere. */
  predicate Qualifies(sell: map<string, int>, best: map<string, int>, t: int, e: int)
    requires ValidTier(t) && ValidEnchant(e)
  {
    Lookup(sell, LeatherId(t, e)) > 0 && Lookup(best, HideId(t, e)) > 0
  }

  function MakeRow(t: int, e: int, sell: map<string, int>, best: map<string, int>, capacity: int, rrr: real): Row
    requires ValidTier(t) && ValidEnchant(e) && capacity >= 0
  {
    var hidePrice := Lookup(best, HideId(t, e));
    var ingredientCost := Lookup(sell, IngredientId(t, e));
    var leatherPrice := Lookup(sell, LeatherId(t, e));
    var perBar := ProfitPerBar(leatherPrice, hidePrice, ingredientCost, t, rrr);
    Row(t, e, LeatherId(t, e), hidePrice, leatherPrice,
        RoundHalfEven(perBar), RoundHalfEven(TripProfit(HidesPerTrip(capacity, t), t, perBar)))
  }

  /**
    What a row of the result says: its leather identifier and prices come from
    the lookups (sell orders at home, best hide bid anywhere, 0 when missing),
    both prices are positive, and its profits are the formulas, rounded.
   */
  predicate RowFits(r: Row, sell: map<string, int>, best: map<string, int>, capacity: int, rrr: real)
    requires capacity >= 0
  {
    && ValidTier(r.tier) && ValidEnchant(r.enchant)
    && r.item == LeatherId(r.tier, r.enchant)
    && r.hideBuyOrder == Lookup(best, HideId(r.tier, r.enchant)) && r.hideBuyOrder > 0
    && r.leatherSellOrder == Lookup(sell, LeatherId(r.tier, r.enchant)) && r.leatherSellOrder > 0
    && var perBar := ProfitPerBar(r.leatherSellOrder, r.hideBuyOrder,
                                  Lookup(sell, IngredientId(r.tier, r.enchant)), r.tier, rrr);
       && r.profitPerBar == RoundHalfEven(perBar)
       && r.totalTripProfit == RoundHalfEven(TripProfit(HidesPerTrip(capacity, r.tier), r.tier, perBar))
  }

  /** Position of (t, e) in the tier-major, enchant-minor loop order. */
  function Combo(t: int, e: int): int {
    5 * (t - 4) + e
  }

  predicate HasRowFor(rows: seq<Row>, t: int, e: int) {
    exists i :: 0 <= i < |rows| && rows[i].tier == t && rows[i].enchant == e
  }

  /** Every row fits the lookups. */
  predicate AllFit(rows: seq<Row>, sell: map<string, int>, best: map<string, int>, capacity: int, rrr: real)
    requires capacity >= 0
  {
    forall i :: 0 <= i < |rows| ==> RowFits(rows[i], sell, best, capacity, rrr)
  }

  /** Rows sit at loop position k or later, in strictly increasing loop order. */
  predicate InLoopOrderFrom(rows: seq<Row>, k: int) {
    && |rows| <= 25 - k
    && (forall i :: 0 <= i < |rows| ==>
          ValidTier(rows[i].tier) && ValidEnchant(rows[i].enchant) && k <= Combo(rows[i].tier, rows[i].enchant))
    && (forall i, j :: 0 <= i < j < |rows| ==>
          Combo(rows[i].tier, rows[i].enchant) < Combo(rows[j].tier, rows[j].enchant))
  }

  /** No combination at loop position k or later qualifies. */
  ghost predicate NoneQualifiesFrom(k: int, sell: map<string, int>, best: map<string, int>) {
    forall t, e :: ValidTier(t) && ValidEnchant(e) && k <= Combo(t, e) ==> !Qualifies(sell, best, t, e)
  }

  /** From loop position k on, exactly the qualifying combinations have a row. */
  ghost predicate CoversFrom(rows: seq<Row>, k: int, sell: map<string, int>, best: map<string, int>) {
    && (forall t, e :: ValidTier(t) && ValidEnchant(e) && k <= Combo(t, e) ==>
          (HasRowFor(rows, t, e) <==> Qualifies(sell, best, t, e)))
    && (NoneQualifiesFrom(k, sell, best) ==> rows == [])
  }

  /**
    The rows the loop produces from loop position k on. Every row fits its
    lookups, rows follow the loop order without repeats, and a combination
    has a row exactly when it qualifies.
   */
  function RowsFrom(k: int, sell: map<string, int>, best: map<string, int>, capacity: int, rrr: real): (rows: seq<Row>)
    requires 0 <= k <= 25 && capacity >= 0
    ensures AllFit(rows, sell, best, capacity, rrr)
    ensures InLoopOrderFrom(rows, k)
    ensures CoversFrom(rows, k, sell, best)
    decreases 25 - k
  {
    if k == 25 then []
    else
      var t, e := 4 + k / 5, k % 5;
      assert ValidTier(t) && ValidEnchant(e) && Combo(t, e) == k;
      var rest := RowsFrom(k + 1, sell, best, capacity, rrr);
      var keep := Qualifies(sell, best, t, e);
      var r := MakeRow(t, e, sell, best, capacity, rrr);
      var rows := if keep then [r] + rest else rest;
      assert keep ==> RowFits(r, sell, best, capacity, rrr) by {
        if keep {
          MakeRowFits(t, e, sell, best, capacity, rrr);
        }
      }
      FitStep(keep, r, rest, rows, sell, best, capacity, rrr);
      OrderStep(k, keep, r, rest, rows);
      CoverStep(k, r, rest, rows, sell, best);
      rows
  }

  /** Putting a fitting row in front of fitting rows, or nothing, keeps every row fitting. */
  lemma FitStep(keep: bool, r: Row, rest: seq<Row>, rows: seq<Row>,
                sell: map<string, int>, best: map<string, int>, capacity: int, rrr: real)
    requires capacity >= 0
    requires rows == if keep then [r] + rest else rest
    requires keep ==> RowFits(r, sell, best, capacity, rrr)
    requires AllFit(rest, sell, best, capacity, rrr)
    ensures AllFit(rows, sell, best, capacity, rrr)
  {
    if keep {
      forall i | 0 <= i < |rows|
        ensures RowFits(rows[i], sell, best, capacity, rrr)
      {
        if i > 0 {
          assert rows[i] == rest[i - 1];
        }
      }
    }
  }

  /** Putting the row of position k in front of rows from k + 1 on, or nothing, keeps loop order. */
  lemma OrderStep(k: int, keep: bool, r: Row, rest: seq<Row>, rows: seq<Row>)
    requires 0 <= k < 25
    requires ValidTier(r.tier) && ValidEnchant(r.enchant) && Combo(r.tier, r.enchant) == k
    requires rows == if keep then [r] + rest else rest
    requires InLoopOrderFrom(rest, k + 1)
    ensures InLoopOrderFrom(rows, k)
  {
    if keep {
      assert forall i :: 0 < i < |rows| ==> rows[i] == rest[i - 1];
    }
  }

  /** Position k adds its row exactly when it qualifies, so coverage extends from k + 1 to k. */
  lemma CoverStep(k: int, r: Row, rest: seq<Row>, rows: seq<Row>, sell: map<string, int>, best: map<string, int>)
    requires 0 <= k < 25
    requires ValidTier(r.tier) && ValidEnchant(r.enchant) && Combo(r.tier, r.enchant) == k
    requires rows == if Qualifies(sell, best, r.tier, r.enchant) then [r] + rest else rest
    requires InLoopOrderFrom(rest, k + 1)
    requires CoversFrom(rest, k + 1, sell, best)
    ensures CoversFrom(rows, k, sell, best)
  {
    if Qualifies(sell, best, r.tier, r.enchant) {
      assert !NoneQualifiesFrom(k, sell, best);
    }
    forall t, e | ValidTier(t) && ValidEnchant(e) && k <= Combo(t, e)
      ensures HasRowFor(rows, t, e) <==> Qualifies(sell, best, t, e)
    {
      if Combo(t, e) == k {
        CoverOwnPosition(k, r, t, e, rest, rows, sell, best);
      } else {
        CoverLaterPosition(r, t, e, rest, rows, sell, best);
      }
    }
  }

  /** The combination at position k itself has a row exactly when it qualifies. */
  lemma CoverOwnPosition(k: int, r: Row, t: int, e: int, rest: seq<Row>, rows: seq<Row>,
                         sell: map<string, int>, best: map<string, int>)
    requires 0 <= k < 25
    requires ValidTier(r.tier) && ValidEnchant(r.enchant) && Combo(r.tier, r.enchant) == k
    requires ValidTier(t) && ValidEnchant(e) && Combo(t, e) == k
    requires rows == if Qualifies(sell, best, r.tier, r.enchant) then [r] + rest else rest
    requires InLoopOrderFrom(rest, k + 1)
    ensures HasRowFor(rows, t, e) <==> Qualifies(sell, best, t, e)
  {
    assert t == r.tier && e == r.enchant;
    if Qualifies(sell, best, t, e) {
      assert rows[0].tier == t && rows[0].enchant == e;
    } else {
      assert !HasRowFor(rest, t, e);
    }
  }

  /** A later combination has a row in front of the rest exactly when it has one in the rest. */
  lemma CoverLaterPosition(r: Row, t: int, e: int, rest: seq<Row>, rows: seq<Row>,
                           sell: map<string, int>, best: map<string, int>)
    requires ValidTier(r.tier) && ValidEnchant(r.enchant)
    requires ValidTier(t) && ValidEnchant(e) && Combo(t, e) != Combo(r.tier, r.enchant)
    requires rows == if Qualifies(sell, best, r.tier, r.enchant) then [r] + rest else rest
    ensures HasRowFor(rows, t, e) <==> HasRowFor(rest, t, e)
  {
    if Qualifies(sell, best, r.tier, r.enchant) {
      if HasRowFor(rows, t, e) {
        var i :| 0 <= i < |rows| && rows[i].tier == t && rows[i].enchant == e;
        assert i > 0;
        assert rest[i - 1] == rows[i];
      }
      if HasRowFor(rest, t, e) {
        var i :| 0 <= i < |rest| && rest[i].tier == t && rest[i].enchant == e;
        assert rows[i + 1] == rest[i];
      }
    }
  }

  /** The row built for a qualifying combination says what a row should say. */
  lemma MakeRowFits(t: int, e: int, sell: map<string, int>, best: map<string, int>, capacity: int, rrr: real)
    requires ValidTier(t) && ValidEnchant(e) && capacity >= 0
    requires Qualifies(sell, best, t, e)
    ensures RowFits(MakeRow(t, e, sell, best, capacity, rrr), sell, best, capacity, rrr)
    ensures MakeRow(t, e, sell, best, capacity, rrr).tier == t
    ensures MakeRow(t, e, sell, best, capacity, rrr).enchant == e
  {
  }

  /**
    The result rows for one press of the calculate button, in loop order:
    tiers 4 to 8, and within a tier enchantments 0 to 4.
   */
  function Rows(sell: map<string, int>, best: map<string, int>, capacity: int, rrr: real): (rows: seq<Row>)
    requires capacity >= 0
    ensures |rows| <= 25
    ensures forall i :: 0 <= i < |rows| ==> RowFits(rows[i], sell, best, capacity, rrr)
    ensures forall i, j :: 0 <= i < j < |rows| ==>
      Combo(rows[i].tier, rows[i].enchant) < Combo(rows[j].tier, rows[j].enchant)
    ensures forall t, e :: ValidTier(t) && ValidEnchant(e) ==>
      (HasRowFor(rows, t, e) <==> Qualifies(sell, best, t, e))
    ensures NoneQualifiesFrom(0, sell, best) ==> rows == []
  {
    var rows := RowsFrom(0, sell, best, capacity, rrr);
    assert AllFit(rows, sell, best, capacity, rrr) && InLoopOrderFrom(rows, 0) && CoversFrom(rows, 0, sell, best);
    rows
  }

  /** Without any home-town sell order no combination qualifies, so there are no rows. */
  lemma NoSellOrdersNoRows(best: map<string, int>, capacity: int, rrr: real)
    requires capacity >= 0
    ensures Rows(map[], best, capacity, rrr) == []
  {
    forall t, e | ValidTier(t) && ValidEnchant(e)
      ensures !Qualifies(map[], best, t, e)
    {
      assert Lookup(map[], LeatherId(t, e)) == 0;
    }
  }

  /** A row fitting the lookups is the row built for its own tier and enchantment. */
  lemma FittingRowIsMadeRow(r: Row, sell: map<string, int>, best: map<string, int>, capacity: int, rrr: real)
    requires capacity >= 0
    requires RowFits(r, sell, best, capacity, rrr)
    ensures r == MakeRow(r.tier, r.enchant, sell, best, capacity, rrr)
  {
  }

  /** When exactly one combination qualifies, the result is its row alone. */
  lemma SingleQualifierSingleRow(sell: map<string, int>, best: map<string, int>, capacity: int, rrr: real, t: int, e: int)
    requires capacity >= 0 && ValidTier(t) && ValidEnchant(e)
    requires forall t', e' :: ValidTier(t') && ValidEnchant(e') ==> (Qualifies(sell, best, t', e') <==> t' == t && e' == e)
    ensures Rows(sell, best, capacity, rrr) == [MakeRow(t, e, sell, best, capacity, rrr)]
  {
    var rows := Rows(sell, best, capacity, rrr);
    RowsCoverQualifiers(rows, sell, best, capacity, rrr, t, e);
    var r := rows[0];
    assert RowFits(r, sell, best, capacity, rrr);
    FittingRowIsMadeRow(r, sell, best, capacity, rrr);
    assert rows == [r];
  }

  /** The rows of a lookup pair where only (t, e) qualifies are one row, for (t, e). */
  lemma RowsCoverQualifiers(rows: seq<Row>, sell: map<string, int>, best: map<string, int>, capacity: int, rrr: real, t: int, e: int)
    requires capacity >= 0 && ValidTier(t) && ValidEnchant(e)
    requires rows == Rows(sell, best, capacity, rrr)
    requires forall t', e' :: ValidTier(t') && ValidEnchant(e') ==> (Qualifies(sell, best, t', e') <==> t' == t && e' == e)
    ensures |rows| == 1 && rows[0].tier == t && rows[0].enchant == e
  {
    forall t', e' | ValidTier(t') && ValidEnchant(e')
      ensures HasRowFor(rows, t', e') <==> t' == t && e' == e
    {
    }
    assert forall i :: 0 <= i < |rows| ==> ValidTier(rows[i].tier) && ValidEnchant(rows[i].enchant);
    OnlyOneCombo(rows, t, e);
  }

  /** Rows in strict loop order, covering exactly one combination, are a single row. */
  lemma OnlyOneCombo(rows: seq<Row>, t: int, e: int)
    requires ValidTier(t) && ValidEnchant(e)
    requires forall i :: 0 <= i < |rows| ==> ValidTier(rows[i].tier) && ValidEnchant(rows[i].enchant)
    requires forall i, j :: 0 <= i < j < |rows| ==>
      Combo(rows[i].tier, rows[i].enchant) < Combo(rows[j].tier, rows[j].enchant)
    requires forall t', e' :: ValidTier(t') && ValidEnchant(e') ==> (HasRowFor(rows, t', e') <==> t' == t && e' == e)
    ensures |rows| == 1 && rows[0].tier == t && rows[0].enchant == e
  {
    assert HasRowFor(rows, t, e);
    if |rows| > 1 {
      assert HasRowFor(rows, rows[0].tier, rows[0].enchant);
      assert HasRowFor(rows, rows[1].tier, rows[1].enchant);
      assert false;
    }
    assert HasRowFor(rows, rows[0].tier, rows[0].enchant);
  }

  /**
    A worked case: tier-4 hides bid at 100, tier-3 leather offered at 150 and
    tier-4 leather at 600 in the home town, a stag (capacity 454) and a 15.2%
    return rate. The stag carries 1513 hides of weight 0.3; a bar makes
    600 * 0.935 - (100 * 2 + 150) * 0.848 = 264.2 profit, and a trip
    1513 / 2 * 264.2 = 199867.3.
   */
  lemma WorkedExample()
    ensures Rows(map["T3_LEATHER" := 150, "T4_LEATHER" := 600], map["T4_HIDE" := 100], 454, 15.2)
         == [Row(4, 0, "T4_LEATHER", 100, 600, 264, 199867)]
  {
    var sell := map["T3_LEATHER" := 150, "T4_LEATHER" := 600];
    var best := map["T4_HIDE" := 100];
    forall t, e | ValidTier(t) && ValidEnchant(e)
      ensures Qualifies(sell, best, t, e) <==> t == 4 && e == 0
    {
      ExampleQualifier(t, e);
    }
    SingleQualifierSingleRow(sell, best, 454, 15.2, 4, 0);
    ExampleRow();
  }

  lemma ExampleQualifier(t: int, e: int)
    requires ValidTier(t) && ValidEnchant(e)
    ensures Qualifies(map["T3_LEATHER" := 150, "T4_LEATHER" := 600], map["T4_HIDE" := 100], t, e)
        <==> t == 4 && e == 0
  {
    assert LeatherId(3, 0) == "T3_LEATHER";
    assert LeatherId(4, 0) == "T4_LEATHER";
    assert HideId(4, 0) == "T4_HIDE";
    IdInjective(Item(Leather, t, e), Item(Leather, 3, 0));
    IdInjective(Item(Leather, t, e), Item(Leather, 4, 0));
  }

  lemma ExampleRow()
    ensures MakeRow(4, 0, map["T3_LEATHER" := 150, "T4_LEATHER" := 600], map["T4_HIDE" := 100], 454, 15.2)
         == Row(4, 0, "T4_LEATHER", 100, 600, 264, 199867)
  {
    assert LeatherId(4, 0) == "T4_LEATHER";
    assert HideId(4, 0) == "T4_HIDE";
    assert IngredientId(4, 0) == "T3_LEATHER";
    HidesPerTripFits(454, 4);
    var n := HidesPerTrip(454, 4);
    assert n == 1513;
    var perBar := ProfitPerBar(600, 100, 150, 4, 15.2);
    assert perBar == 264.2;
    assert TripProfit(n, 4, perBar) == 199867.3;
  }
}
