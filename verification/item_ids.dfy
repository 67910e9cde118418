/**
  Market item identifiers: `T<tier>_HIDE<suffix>` and `T<tier>_LEATHER<suffix>`,
  where the suffix is `@<enchant>` for an enchanted item and empty otherwise.
  Besides building identifiers, this module parses them back, which is what
  makes the identifier list provably free of duplicates.
 */
module ItemIds {
  import opened Wrappers

  /** The raw material bought and the crafted material sold. */
  datatype Material = Hide | Leather

  /** One tradeable item: a material at a tier and an enchantment level. */
  datatype Item = Item(material: Material, tier: int, enchant: int)

  /** Tiers and enchantments are written as single decimal digits. */
  predicate ValidItem(it: Item) {
    0 <= it.tier <= 9 && 0 <= it.enchant <= 9
  }

  predicate IsDigit(c: char) {
    '0' <= c <= '9'
  }

  function DigitValue(c: char): int {
    c as int - '0' as int
  }

  /** The decimal digit that prints `d`. */
  function DigitChar(d: int): (c: char)
    requires 0 <= d <= 9
    ensures IsDigit(c) && DigitValue(c) == d
  {
    ('0' as int + d) as char
  }

  function MaterialName(m: Material): string {
    match m
    case Hide => "HIDE"
    case Leather => "LEATHER"
  }

  /** The enchantment suffix: `@e` when e > 0, nothing for an unenchanted item. */
  function Suffix(e: int): (s: string)
    requires 0 <= e <= 9
    ensures s == [] <==> e == 0
  {
    if e > 0 then ['@', DigitChar(e)] else ""
  }

  /** The market identifier of an item. */
  function Id(it: Item): string
    requires ValidItem(it)
  {
    "T" + [DigitChar(it.tier)] + "_" + MaterialName(it.material) + Suffix(it.enchant)
  }

  function HideId(t: int, e: int): string
    requires 0 <= t <= 9 && 0 <= e <= 9
  {
    Id(Item(Hide, t, e))
  }

  function LeatherId(t: int, e: int): string
    requires 0 <= t <= 9 && 0 <= e <= 9
  {
    Id(Item(Leather, t, e))
  }

  /** The unenchanted tier-3 leather every tier-4 recipe consumes. */
  const BaseIngredient: string := "T3_LEATHER"

  /**
    The secondary ingredient of the tier-t, enchant-e leather recipe: the
    base tier-3 leather for tier 4, otherwise the leather one tier lower with
    the same enchantment.
   */
  function IngredientId(t: int, e: int): string
    requires 4 <= t <= 9 && 0 <= e <= 9
  {
    if t == 4 then BaseIngredient else LeatherId(t - 1, e)
  }

  // ---------------------------------------------------------------------
  // Parsing identifiers back into items
  // ---------------------------------------------------------------------

  function ParseSuffix(s: string): Option<int> {
    if s == [] then Some(0)
    else if |s| == 2 && s[0] == '@' && IsDigit(s[1]) && s[1] != '0' then Some(DigitValue(s[1]))
    else None
  }

  /** The material name at the head of `s` and what follows it. */
  function ParseMaterial(s: string): Option<(Material, string)> {
    if |s| >= 4 && s[..4] == "HIDE" then Some((Hide, s[4..]))
    else if |s| >= 7 && s[..7] == "LEATHER" then Some((Leather, s[7..]))
    else None
  }

  function ParseId(s: string): Option<Item> {
    if |s| < 3 || s[0] != 'T' || !IsDigit(s[1]) || s[2] != '_' then None
    else
      match ParseMaterial(s[3..])
      case None => None
      case Some((m, rest)) =>
        match ParseSuffix(rest)
        case None => None
        case Some(e) => Some(Item(m, DigitValue(s[1]), e))
  }

  /** Parsing recovers every item from its identifier. */
  lemma ParseIdOfId(it: Item)
    requires ValidItem(it)
    ensures ParseId(Id(it)) == Some(it)
  {
    var s := Id(it);
    var name := MaterialName(it.material);
    var suffix := Suffix(it.enchant);
    assert s[3..] == name + suffix;
    assert (name + suffix)[..|name|] == name;
    assert (name + suffix)[|name|..] == suffix;
    match it.material
    case Hide =>
      assert ParseMaterial(s[3..]) == Some((Hide, suffix));
    case Leather =>
      assert (name + suffix)[..4] != "HIDE" by {
        assert (name + suffix)[0] == 'L';
      }
      assert ParseMaterial(s[3..]) == Some((Leather, suffix));
  }

  /** Every string the parser accepts is exactly the identifier of what it returns. */
  lemma IdOfParseId(s: string)
    requires ParseId(s).Some?
    ensures ValidItem(ParseId(s).value) && Id(ParseId(s).value) == s
  {
    var it := ParseId(s).value;
    var pm := ParseMaterial(s[3..]).value;
    var rest := pm.1;
    assert s[3..] == MaterialName(pm.0) + rest;
    assert rest == Suffix(it.enchant);
    assert [s[1]] == [DigitChar(it.tier)];
    assert s == "T" + [s[1]] + "_" + s[3..];
  }

  /** Distinct items have distinct identifiers. */
  lemma IdInjective(a: Item, b: Item)
    requires ValidItem(a) && ValidItem(b)
    ensures Id(a) == Id(b) <==> a == b
  {
    if Id(a) == Id(b) {
      ParseIdOfId(a);
      ParseIdOfId(b);
    }
  }

  /** The ingredient is the base tier-3 leather exactly for tier-4 recipes,
      and is always a leather one tier below the recipe's tier. */
  lemma IngredientIsLowerLeather(t: int, e: int)
    requires 4 <= t <= 8 && 0 <= e <= 4
    ensures IngredientId(t, e) == BaseIngredient <==> t == 4
    ensures ParseId(IngredientId(t, e)) == Some(Item(Leather, t - 1, if t == 4 then 0 else e))
  {
    assert BaseIngredient == LeatherId(3, 0);
    ParseIdOfId(Item(Leather, t - 1, if t == 4 then 0 else e));
    IdInjective(Item(Leather, t - 1, e), Item(Leather, 3, 0));
  }

  // ---------------------------------------------------------------------
  // Substring test used to pick hide records
  // ---------------------------------------------------------------------

  /** Whether `p` occurs somewhere in `s`. */
  predicate Contains(s: string, p: string)
    decreases |s|
  {
    p <= s || (|s| > 0 && Contains(s[1..], p))
  }

  /** Every hide identifier contains the word HIDE. */
  lemma HideIdContainsHide(t: int, e: int)
    requires 0 <= t <= 9 && 0 <= e <= 9
    ensures Contains(HideId(t, e), "HIDE")
  {
    var s := HideId(t, e);
    assert "HIDE" <= s[3..];
    assert s[1..][1..] == s[2..];
    assert s[2..][1..] == s[3..];
    assert Contains(s[3..], "HIDE");
    assert Contains(s[2..], "HIDE");
    assert Contains(s[1..], "HIDE");
  }

  // ---------------------------------------------------------------------
  // The identifier list sent to the price query
  // ---------------------------------------------------------------------

  /** Position of the tier-t, enchant-e hide in the fetched list; its leather follows it. */
  function HideSlot(t: int, e: int): int {
    1 + 10 * (t - 4) + 2 * e
  }

  /** An item that the nested tier/enchant loop has already emitted before reaching (t, e). */
  predicate EmittedBefore(it: Item, t: int, e: int) {
    it.tier < t || (it.tier == t && it.enchant < e)
  }

  /** What the identifier list holds once every tier below t has been emitted. */
  predicate ListedBefore(ids: seq<string>, t: int, e: int) {
    && 0 <= e <= 5 && |ids| == HideSlot(t, e)
    && |ids| > 0 && ids[0] == BaseIngredient
    && (forall k :: 0 <= k < |ids| ==>
          ParseId(ids[k]).Some? && EmittedBefore(ParseId(ids[k]).value, t, e))
    && (forall i, j :: 0 <= i < j < |ids| ==> ids[i] != ids[j])
    && (forall t', e' :: 4 <= t' <= 8 && 0 <= e' <= 4 && (t' < t || (t' == t && e' < e)) ==>
          ids[HideSlot(t', e')] == HideId(t', e') && ids[HideSlot(t', e') + 1] == LeatherId(t', e'))
  }

  /** One step of the inner loop: append the hide and the leather of (t, e). */
  method AppendPair(ids: seq<string>, t: int, e: int) returns (ids': seq<string>)
    requires 4 <= t <= 8 && 0 <= e <= 4
    requires ListedBefore(ids, t, e)
    ensures ListedBefore(ids', t, e + 1)
    ensures ids' == ids + [HideId(t, e), LeatherId(t, e)]
  {
    var hideId, leatherId := HideId(t, e), LeatherId(t, e);
    ParseIdOfId(Item(Hide, t, e));
    ParseIdOfId(Item(Leather, t, e));
    forall k | 0 <= k < |ids|
      ensures ids[k] != hideId && ids[k] != leatherId
    {
      assert EmittedBefore(ParseId(ids[k]).value, t, e);
    }
    ids' := ids + [hideId, leatherId];
  }

  /**
    Builds the identifiers of every price the calculator needs: the base
    ingredient, then for each tier 4..8 and enchantment 0..4 the hide
    followed by the leather. No identifier appears twice, and every
    ingredient a recipe consumes is in the list.
   */
  method FetchIds() returns (ids: seq<string>)
    ensures |ids| == 51
    ensures ids[0] == BaseIngredient
    ensures forall t, e :: 4 <= t <= 8 && 0 <= e <= 4 ==>
      ids[HideSlot(t, e)] == HideId(t, e) && ids[HideSlot(t, e) + 1] == LeatherId(t, e)
    ensures forall i, j :: 0 <= i < j < |ids| ==> ids[i] != ids[j]
    ensures forall t, e :: 4 <= t <= 8 && 0 <= e <= 4 ==> IngredientId(t, e) in ids
  {
    assert BaseIngredient == LeatherId(3, 0);
    ParseIdOfId(Item(Leather, 3, 0));
    ids := [BaseIngredient];
    var t := 4;
    while t <= 8
      invariant 4 <= t <= 9
      invariant ListedBefore(ids, t, 0)
    {
      var e := 0;
      while e <= 4
        invariant 0 <= e <= 5
        invariant ListedBefore(ids, t, e)
      {
        ids := AppendPair(ids, t, e);
        e := e + 1;
      }
      t := t + 1;
    }
    forall t, e | 4 <= t <= 8 && 0 <= e <= 4
      ensures IngredientId(t, e) in ids
    {
      if t == 4 {
        assert ids[0] == IngredientId(t, e);
      } else {
        assert ids[HideSlot(t - 1, e) + 1] == IngredientId(t, e);
      }
    }
  }
}
