/**
 The reward catalog and the weighted roll: odds, pity floors, and the choice between an item
 that is still missing and a duplicate.
 */
module RewardRolls {
  import opened Common
  import opened NatSets

  datatype Rarity = Common | Rare | Epic | Legendary

  const RARITY_ORDER: seq<Rarity> := [Common, Rare, Epic, Legendary]

  function Rank(r: Rarity): nat {
    match r
    case Common => 0
    case Rare => 1
    case Epic => 2
    case Legendary => 3
  }

  /** Item ids.  Other stands for every id that is not in the catalog. */
  datatype ItemId =
    | Squad | Cheers | Boba | StickerHello | StickerGg
    | Comet | Rocket | StickerCat | FxConfetti | FxHearts
    | Crown | Diamond | StickerCosmic | FxFireworks
    | Legend | FxAurora
    | Other(name: string)

  const CATALOG: seq<ItemId> :=
    [Squad, Cheers, Boba, StickerHello, StickerGg,
     Comet, Rocket, StickerCat, FxConfetti, FxHearts,
     Crown, Diamond, StickerCosmic, FxFireworks,
     Legend, FxAurora]

  /** The lookup by id; None when the id is unknown. */
  function RarityOf(id: ItemId): Option<Rarity> {
    match id
    case Squad | Cheers | Boba | StickerHello | StickerGg => Some(Common)
    case Comet | Rocket | StickerCat | FxConfetti | FxHearts => Some(Rare)
    case Crown | Diamond | StickerCosmic | FxFireworks => Some(Epic)
    case Legend | FxAurora => Some(Legendary)
    case Other(_) => None
  }

  predicate Known(id: ItemId) { RarityOf(id).Some? }

  function RankOf(id: ItemId): nat
    requires Known(id)
  {
    Rank(RarityOf(id).value)
  }

  const WEIGHTS: seq<nat> := [60, 28, 10, 2]
  const PITY_RARE_AFTER := 3
  const PITY_EPIC_AFTER := 9

  function ShardsForDuplicate(r: Rarity): nat {
    match r
    case Common => 10
    case Rare => 30
    case Epic => 80
    case Legendary => 250
  }

  function CraftCost(r: Rarity): nat {
    match r
    case Common => 30
    case Rare => 90
    case Epic => 250
    case Legendary => 700
  }

  // ----- Choosing a rarity

  function WeightSum(weights: seq<nat>, lo: nat, hi: nat): nat
    requires lo <= hi <= |weights|
  {
    if lo == hi then 0 else WeightSum(weights, lo, hi - 1) + weights[hi - 1]
  }

  /** Draw n lands in the slice of the odds table that belongs to rarity r. */
  ghost predicate Lands(weights: seq<nat>, floor: nat, n: nat, r: nat)
    requires floor <= |weights|
  {
    floor <= r < |weights| &&
    WeightSum(weights, floor, r) <= n < WeightSum(weights, floor, r) + weights[r]
  }

  method TotalWeight(weights: seq<nat>, floor: nat) returns (total: nat)
    requires floor <= |weights|
    ensures total == WeightSum(weights, floor, |weights|)
  {
    total := 0;
    var r := 0;
    while r < |weights|
      invariant 0 <= r <= |weights|
      invariant total == if r < floor then 0 else WeightSum(weights, floor, r)
    {
      if r >= floor {
        total := total + weights[r];
      }
      r := r + 1;
    }
  }

  /** The selection loop.  The default assigned before the loop is never what is returned. */
  method PickRarity(weights: seq<nat>, floor: nat, draw: nat) returns (rarity: nat)
    requires floor < |weights| && draw < WeightSum(weights, floor, |weights|)
    ensures Lands(weights, floor, draw, rarity)
  {
    rarity := floor;
    var n := draw;
    var r := 0;
    while r < |weights|
      invariant 0 <= r <= |weights|
      invariant r < floor ==> n == draw
      invariant r >= floor ==> draw == WeightSum(weights, floor, r) + n
    {
      if r >= floor {
        if n < weights[r] {
          rarity := r;
          return;
        }
        n := n - weights[r];
      }
      r := r + 1;
    }
    assert false;
  }

  lemma {:induction false} WeightSumMonotone(weights: seq<nat>, floor: nat, a: nat, b: nat)
    requires floor <= a <= b <= |weights|
    ensures WeightSum(weights, floor, a) <= WeightSum(weights, floor, b)
    decreases b
  {
    if a < b {
      WeightSumMonotone(weights, floor, a, b - 1);
    }
  }

  /** Every draw lands in exactly one rarity, and that rarity is not below the floor. */
  lemma {:induction false} DrawLandsOnce(weights: seq<nat>, floor: nat, n: nat, r: nat, q: nat)
    requires floor <= |weights|
    requires Lands(weights, floor, n, r) && Lands(weights, floor, n, q)
    ensures r == q
  {
    if r < q {
      WeightSumMonotone(weights, floor, r + 1, q);
    } else if q < r {
      WeightSumMonotone(weights, floor, q + 1, r);
    }
  }

  /** Of the total draws exactly weights[r] select rarity r: the displayed odds are exact. */
  lemma OddsAreExact(weights: seq<nat>, floor: nat, r: nat)
    requires floor <= r < |weights|
    ensures var total := WeightSum(weights, floor, |weights|);
            |set n: nat | 0 <= n < total && Lands(weights, floor, n, r)| == weights[r]
  {
    var total := WeightSum(weights, floor, |weights|);
    var lo := WeightSum(weights, floor, r);
    WeightSumMonotone(weights, floor, r + 1, |weights|);
    assert (set n: nat | 0 <= n < total && Lands(weights, floor, n, r)) == Range(lo, lo + weights[r]);
  }

  // ----- Pity

  /** How many known items have come up since the last one of at least the given rank. */
  function Since(drops: seq<ItemId>, rank: nat): nat {
    if drops == [] then 0
    else
      var earlier, last := drops[..|drops| - 1], drops[|drops| - 1];
      if !Known(last) then Since(earlier, rank)
      else if RankOf(last) >= rank then 0
      else Since(earlier, rank) + 1
  }

  method PityCounters(drops: seq<ItemId>) returns (sinceRare: nat, sinceEpic: nat)
    ensures sinceRare == Since(drops, 1) && sinceEpic == Since(drops, 2)
  {
    sinceRare, sinceEpic := 0, 0;
    for i := 0 to |drops|
      invariant sinceRare == Since(drops[..i], 1) && sinceEpic == Since(drops[..i], 2)
    {
      assert drops[..i + 1][..i] == drops[..i];
      var id := drops[i];
      if !Known(id) {
        continue;
      }
      if RankOf(id) >= 1 {
        sinceRare := 0;
      } else {
        sinceRare := sinceRare + 1;
      }
      if RankOf(id) >= 2 {
        sinceEpic := 0;
      } else {
        sinceEpic := sinceEpic + 1;
      }
    }
    assert drops[..|drops|] == drops;
  }

  function Floor(sinceRare: nat, sinceEpic: nat): (floor: nat)
    ensures floor < |WEIGHTS|
  {
    if sinceEpic >= PITY_EPIC_AFTER then 2 else if sinceRare >= PITY_RARE_AFTER then 1 else 0
  }

  function PityFloor(drops: seq<ItemId>): nat {
    Floor(Since(drops, 1), Since(drops, 2))
  }

  /** Every item was at least as rare as the pity floor computed from the items before it. */
  ghost predicate Fair(items: seq<ItemId>) {
    forall k :: 0 <= k < |items| ==> Known(items[k]) && RankOf(items[k]) >= PityFloor(items[..k])
  }

  lemma FairAppend(items: seq<ItemId>, it: ItemId)
    requires Fair(items) && Known(it) && RankOf(it) >= PityFloor(items)
    ensures Fair(items + [it])
  {
    var longer := items + [it];
    forall k | 0 <= k < |longer| ensures Known(longer[k]) && RankOf(longer[k]) >= PityFloor(longer[..k]) {
      if k < |items| {
        assert longer[..k] == items[..k];
      } else {
        assert longer[..k] == items;
      }
    }
  }

  lemma {:induction false} DryStreak(items: seq<ItemId>, lo: nat, hi: nat, rank: nat)
    requires lo <= hi <= |items|
    requires forall k :: lo <= k < hi ==> Known(items[k]) && RankOf(items[k]) < rank
    ensures Since(items[..hi], rank) >= hi - lo
    decreases hi
  {
    if lo < hi {
      DryStreak(items, lo, hi - 1, rank);
      assert items[..hi][..hi - 1] == items[..hi - 1];
    }
  }

  /** Bad luck has a ceiling: 4 in a row hold a rare or better, 10 in a row an epic or better. */
  lemma PityWindows(items: seq<ItemId>, i: nat)
    requires Fair(items)
    ensures i + PITY_RARE_AFTER < |items| ==>
              exists k :: i <= k <= i + PITY_RARE_AFTER && Known(items[k]) && RankOf(items[k]) >= 1
    ensures i + PITY_EPIC_AFTER < |items| ==>
              exists k :: i <= k <= i + PITY_EPIC_AFTER && Known(items[k]) && RankOf(items[k]) >= 2
  {
    if i + PITY_RARE_AFTER < |items| {
      var last := i + PITY_RARE_AFTER;
      if forall k :: i <= k < last ==> RankOf(items[k]) < 1 {
        DryStreak(items, i, last, 1);
        assert RankOf(items[last]) >= 1;
      }
    }
    if i + PITY_EPIC_AFTER < |items| {
      var last := i + PITY_EPIC_AFTER;
      if forall k :: i <= k < last ==> RankOf(items[k]) < 2 {
        DryStreak(items, i, last, 2);
        assert RankOf(items[last]) >= 2;
      }
    }
  }

  // ----- Choosing an item

  /** Catalog items of one rarity among the first n, in catalog order. */
  function OfRarity(rarity: Rarity, n: nat): (s: seq<ItemId>)
    requires n <= |CATALOG|
  {
    if n == 0 then []
    else OfRarity(rarity, n - 1) + (if RarityOf(CATALOG[n - 1]) == Some(rarity) then [CATALOG[n - 1]] else [])
  }

  function Missing(owned: set<ItemId>, rarity: Rarity, n: nat): (s: seq<ItemId>)
    requires n <= |CATALOG|
  {
    if n == 0 then []
    else Missing(owned, rarity, n - 1) +
         (if RarityOf(CATALOG[n - 1]) == Some(rarity) && CATALOG[n - 1] !in owned then [CATALOG[n - 1]] else [])
  }

  /** What the second draw chooses from: the missing items of that rarity, else all of them. */
  function Choices(owned: set<ItemId>, rarity: Rarity): seq<ItemId> {
    var missing := Missing(owned, rarity, |CATALOG|);
    if missing != [] then missing else OfRarity(rarity, |CATALOG|)
  }

  lemma {:induction false} MissingMembers(owned: set<ItemId>, rarity: Rarity, n: nat, id: ItemId)
    requires n <= |CATALOG|
    ensures id in Missing(owned, rarity, n) <==>
            id in CATALOG[..n] && RarityOf(id) == Some(rarity) && id !in owned
  {
    if n > 0 {
      MissingMembers(owned, rarity, n - 1, id);
      assert CATALOG[..n] == CATALOG[..n - 1] + [CATALOG[n - 1]];
    }
  }

  lemma {:induction false} OfRarityMembers(rarity: Rarity, n: nat, id: ItemId)
    requires n <= |CATALOG|
    ensures id in OfRarity(rarity, n) <==> id in CATALOG[..n] && RarityOf(id) == Some(rarity)
  {
    if n > 0 {
      OfRarityMembers(rarity, n - 1, id);
      assert CATALOG[..n] == CATALOG[..n - 1] + [CATALOG[n - 1]];
    }
  }

  lemma CatalogHasEveryRarity(rarity: Rarity)
    ensures OfRarity(rarity, |CATALOG|) != []
  {
    var id := match rarity case Common => Squad case Rare => Comet case Epic => Crown case Legendary => Legend;
    InCatalog(id);
    OfRarityMembers(rarity, |CATALOG|, id);
    assert CATALOG[..|CATALOG|] == CATALOG;
  }

  /** Position in the catalog. */
  function IndexOf(id: ItemId): nat
    requires Known(id)
  {
    match id
    case Squad => 0 case Cheers => 1 case Boba => 2 case StickerHello => 3 case StickerGg => 4
    case Comet => 5 case Rocket => 6 case StickerCat => 7 case FxConfetti => 8 case FxHearts => 9
    case Crown => 10 case Diamond => 11 case StickerCosmic => 12 case FxFireworks => 13
    case Legend => 14 case FxAurora => 15
  }

  lemma CatalogAt(i: nat)
    requires i < |CATALOG|
    ensures Known(CATALOG[i]) && IndexOf(CATALOG[i]) == i
  {
    assert i == 0 || i == 1 || i == 2 || i == 3 || i == 4 || i == 5 || i == 6 || i == 7 || i == 8 ||
           i == 9 || i == 10 || i == 11 || i == 12 || i == 13 || i == 14 || i == 15;
  }

  lemma KnownIsInCatalog(id: ItemId)
    requires Known(id)
    ensures id == CATALOG[IndexOf(id)]
  {
  }

  lemma InCatalog(id: ItemId)
    ensures Known(id) <==> id in CATALOG
  {
    if Known(id) {
      KnownIsInCatalog(id);
    }
    if id in CATALOG {
      var i :| 0 <= i < |CATALOG| && CATALOG[i] == id;
      CatalogAt(i);
    }
  }

  /** The two loops at the end of the roll, as one pass over the catalog. */
  method Candidates(owned: set<ItemId>, rarity: Rarity) returns (missing: seq<ItemId>, all: seq<ItemId>)
    ensures missing == Missing(owned, rarity, |CATALOG|)
    ensures all == OfRarity(rarity, |CATALOG|)
  {
    missing, all := [], [];
    for i := 0 to |CATALOG|
      invariant missing == Missing(owned, rarity, i)
      invariant all == OfRarity(rarity, i)
    {
      var c := CATALOG[i];
      if RarityOf(c) != Some(rarity) {
        continue;
      }
      all := all + [c];
      if c !in owned {
        missing := missing + [c];
      }
    }
  }

  /** A possible result of one roll, for some pair of draws in range. */
  ghost predicate CanRoll(owned: set<ItemId>, drops: seq<ItemId>, it: ItemId, dupe: bool) {
    exists n: nat, r: nat :: RollsTo(owned, PityFloor(drops), n, r, it, dupe)
  }

  ghost predicate RollsTo(owned: set<ItemId>, floor: nat, n: nat, r: nat, it: ItemId, dupe: bool)
    requires floor <= |WEIGHTS|
  {
    && Lands(WEIGHTS, floor, n, r)
    && it in Choices(owned, RARITY_ORDER[r])
    && dupe == (Missing(owned, RARITY_ORDER[r], |CATALOG|) == [])
  }

  /** intn(n) is a number below n, whichever. */
  ghost predicate InRange(intn: nat -> nat) {
    forall n: nat :: n > 0 ==> intn(n) < n
  }

  /** The total of the odds from the pity floor up. */
  function TotalFrom(floor: nat): nat
    requires floor <= |WEIGHTS|
  {
    WeightSum(WEIGHTS, floor, |WEIGHTS|)
  }

  /**
   What two given draws roll: the first lands in the slice of the item's rarity, the second counts the items
   of that rarity in catalog order, the missing ones while there are any.
   */
  ghost predicate RolledBy(owned: set<ItemId>, floor: nat, first: nat, second: nat, it: ItemId, dupe: bool)
    requires floor <= |WEIGHTS|
  {
    && Known(it) && Lands(WEIGHTS, floor, first, RankOf(it))
    && var choices := Choices(owned, RarityOf(it).value);
       && second < |choices| && it == choices[second]
       && (dupe <==> Missing(owned, RarityOf(it).value, |CATALOG|) == [])
  }

  /** The same for the random source itself: the first draw is below the total, the second below the choices. */
  ghost predicate RolledWith(
    owned: set<ItemId>, drops: seq<ItemId>, draw: nat -> nat, pick: nat -> nat, it: ItemId, dupe: bool)
  {
    && Known(it)
    && RolledBy(owned, PityFloor(drops), draw(TotalFrom(PityFloor(drops))),
                pick(|Choices(owned, RarityOf(it).value)|), it, dupe)
  }

  lemma {:induction false} CatalogPartHasRarity(owned: set<ItemId>, rarity: Rarity, n: nat, k: nat)
    requires n <= |CATALOG|
    ensures k < |OfRarity(rarity, n)| ==> RarityOf(OfRarity(rarity, n)[k]) == Some(rarity)
    ensures k < |Missing(owned, rarity, n)| ==> RarityOf(Missing(owned, rarity, n)[k]) == Some(rarity)
  {
    if n > 0 {
      CatalogPartHasRarity(owned, rarity, n - 1, k);
    }
  }

  /** draw and pick are the two uses of the random source. */
  method RollReward(owned: set<ItemId>, drops: seq<ItemId>, draw: nat -> nat, pick: nat -> nat)
    returns (it: ItemId, dupe: bool)
    requires InRange(draw) && InRange(pick)
    ensures RolledWith(owned, drops, draw, pick, it, dupe)
    ensures CanRoll(owned, drops, it, dupe)
  {
    var sinceRare, sinceEpic := PityCounters(drops);
    var floor := Floor(sinceRare, sinceEpic);
    var total := TotalWeight(WEIGHTS, floor);
    WeightSumMonotone(WEIGHTS, floor, floor + 1, |WEIGHTS|);
    var n := draw(total);
    var r := PickRarity(WEIGHTS, floor, n);
    var rarity := RARITY_ORDER[r];
    var missing, all := Candidates(owned, rarity);
    var k;
    if |missing| > 0 {
      k := pick(|missing|);
      it, dupe := missing[k], false;
    } else {
      CatalogHasEveryRarity(rarity);
      k := pick(|all|);
      it, dupe := all[k], true;
    }
    CatalogPartHasRarity(owned, rarity, |CATALOG|, k);
    assert RarityOf(it) == Some(rarity) && RankOf(it) == r;
    assert RollsTo(owned, PityFloor(drops), n, r, it, dupe);
  }

  // ----- Every draw counts

  /** The choices are the items of the rarity, less the owned ones while one is missing. */
  lemma ChoicesAre(owned: set<ItemId>, rarity: Rarity, id: ItemId)
    ensures id in Choices(owned, rarity) <==>
            && RarityOf(id) == Some(rarity)
            && (id !in owned || forall other :: RarityOf(other) == Some(rarity) ==> other in owned)
  {
    assert CATALOG[..|CATALOG|] == CATALOG;
    InCatalog(id);
    MissingMembers(owned, rarity, |CATALOG|, id);
    OfRarityMembers(rarity, |CATALOG|, id);
    var missing := Missing(owned, rarity, |CATALOG|);
    if missing == [] {
      forall other | RarityOf(other) == Some(rarity) ensures other in owned {
        NothingMissingMeansAllOwned(owned, rarity, other);
      }
    } else {
      MissingMembers(owned, rarity, |CATALOG|, missing[0]);
    }
  }

  /** They stand in catalog order. */
  lemma {:induction false} MissingInOrder(owned: set<ItemId>, rarity: Rarity, n: nat)
    requires n <= |CATALOG|
    ensures InOrder(Missing(owned, rarity, n), n)
  {
    if n > 0 {
      MissingInOrder(owned, rarity, n - 1);
      CatalogAt(n - 1);
    }
  }

  lemma {:induction false} OfRarityInOrder(rarity: Rarity, n: nat)
    requires n <= |CATALOG|
    ensures InOrder(OfRarity(rarity, n), n)
  {
    if n > 0 {
      OfRarityInOrder(rarity, n - 1);
      CatalogAt(n - 1);
    }
  }

  /** Known items below position n, by rising position. */
  ghost predicate InOrder(s: seq<ItemId>, n: nat) {
    && (forall i :: 0 <= i < |s| ==> Known(s[i]) && IndexOf(s[i]) < n)
    && (forall i, j :: 0 <= i < j < |s| ==> IndexOf(s[i]) < IndexOf(s[j]))
  }

  lemma ChoicesInOrder(owned: set<ItemId>, rarity: Rarity)
    ensures InOrder(Choices(owned, rarity), |CATALOG|)
  {
    var all := |CATALOG|;
    MissingInOrder(owned, rarity, all);
    OfRarityInOrder(rarity, all);
  }

  /**
   Over all pairs of draws: an item that may drop is rolled by exactly one second draw together with any of
   the first draws of its rarity, and by no other pair; and exactly weight-many of the total first draws are
   of its rarity.
   */
  lemma EveryDrawCounts(owned: set<ItemId>, floor: nat, it: ItemId, dupe: bool) returns (at: nat)
    requires floor < |WEIGHTS| && Known(it) && floor <= RankOf(it) && it in Choices(owned, RarityOf(it).value)
    requires dupe <==> Missing(owned, RarityOf(it).value, |CATALOG|) == []
    ensures at < |Choices(owned, RarityOf(it).value)|
    ensures forall first: nat, second: nat ::
              RolledBy(owned, floor, first, second, it, dupe) <==>
              Lands(WEIGHTS, floor, first, RankOf(it)) && second == at
    ensures |set n: nat | 0 <= n < TotalFrom(floor) && Lands(WEIGHTS, floor, n, RankOf(it))| == WEIGHTS[RankOf(it)]
  {
    var choices := Choices(owned, RarityOf(it).value);
    ChoicesInOrder(owned, RarityOf(it).value);
    at := OnePlace(choices, |CATALOG|, it);
    OddsAreExact(WEIGHTS, floor, RankOf(it));
    forall first: nat, second: nat
      ensures RolledBy(owned, floor, first, second, it, dupe) <==>
              Lands(WEIGHTS, floor, first, RankOf(it)) && second == at
    {
      assert second < |choices| ==> (choices[second] == it <==> second == at);
    }
  }

  lemma OnePlace(s: seq<ItemId>, n: nat, it: ItemId) returns (at: nat)
    requires InOrder(s, n) && it in s
    ensures at < |s| && forall k :: 0 <= k < |s| ==> (s[k] == it <==> k == at)
  {
    at :| 0 <= at < |s| && s[at] == it;
    assert forall k :: 0 <= k < at ==> IndexOf(s[k]) < IndexOf(s[at]);
    assert forall k :: at < k < |s| ==> IndexOf(s[at]) < IndexOf(s[k]);
  }

  /** Two draws in range roll exactly one item. */
  lemma DrawsRollOneItem(
    owned: set<ItemId>, floor: nat, first: nat, second: nat, a: ItemId, b: ItemId, da: bool, db: bool)
    requires floor <= |WEIGHTS|
    requires RolledBy(owned, floor, first, second, a, da) && RolledBy(owned, floor, first, second, b, db)
    ensures a == b && da == db
  {
    DrawLandsOnce(WEIGHTS, floor, first, RankOf(a), RankOf(b));
    assert RarityOf(a) == RarityOf(b);
  }

  /** Without pity, 60, 28, 10 and 2 of 100 first draws give the four rarities, in slices from below. */
  lemma OddsWithoutPity()
    ensures TotalFrom(0) == 100
    ensures forall n: nat :: Lands(WEIGHTS, 0, n, 0) <==> 0 <= n < 60
    ensures forall n: nat :: Lands(WEIGHTS, 0, n, 1) <==> 60 <= n < 88
    ensures forall n: nat :: Lands(WEIGHTS, 0, n, 2) <==> 88 <= n < 98
    ensures forall n: nat :: Lands(WEIGHTS, 0, n, 3) <==> 98 <= n < 100
  {
    assert WeightSum(WEIGHTS, 0, 1) == 60 && WeightSum(WEIGHTS, 0, 2) == 88;
    assert WeightSum(WEIGHTS, 0, 3) == 98 && WeightSum(WEIGHTS, 0, 4) == 100;
  }

  /** The item has the drawn rarity, and is owned exactly if nothing of that rarity was missing. */
  lemma RolledItem(owned: set<ItemId>, floor: nat, n: nat, r: nat, it: ItemId, dupe: bool)
    requires floor <= |WEIGHTS| && RollsTo(owned, floor, n, r, it, dupe)
    ensures RarityOf(it) == Some(RARITY_ORDER[r]) && floor <= r == RankOf(it)
    ensures dupe <==> it in owned
  {
    var rarity := RARITY_ORDER[r];
    assert CATALOG[..|CATALOG|] == CATALOG;
    MissingMembers(owned, rarity, |CATALOG|, it);
    OfRarityMembers(rarity, |CATALOG|, it);
  }

  lemma NothingMissingMeansAllOwned(owned: set<ItemId>, rarity: Rarity, other: ItemId)
    requires Missing(owned, rarity, |CATALOG|) == [] && RarityOf(other) == Some(rarity)
    ensures other in owned
  {
    InCatalog(other);
    assert CATALOG[..|CATALOG|] == CATALOG;
    MissingMembers(owned, rarity, |CATALOG|, other);
  }

  /**
   What a roll promises: at or above the pity floor, always something new while anything of
   that rarity is missing, and a duplicate only when every item of the rarity is owned.
   */
  lemma RollIsFairAndFresh(owned: set<ItemId>, drops: seq<ItemId>, it: ItemId, dupe: bool)
    requires CanRoll(owned, drops, it, dupe)
    ensures Known(it) && RankOf(it) >= PityFloor(drops)
    ensures dupe <==> it in owned
    ensures dupe <==> forall other :: RarityOf(other) == RarityOf(it) ==> other in owned
  {
    var n: nat, r: nat :| RollsTo(owned, PityFloor(drops), n, r, it, dupe);
    RolledItem(owned, PityFloor(drops), n, r, it, dupe);
    if dupe {
      forall other | RarityOf(other) == RarityOf(it) ensures other in owned {
        NothingMissingMeansAllOwned(owned, RARITY_ORDER[r], other);
      }
    }
  }
}
