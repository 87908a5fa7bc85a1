/** The reward operations as the server runs them, on the tables. */
module RewardStore {
  import opened Common
  import opened RewardRolls
  import opened RewardTables
  import Race = CrateRace
  import Ledger = RewardLedger
  import Grants = CrateGrants

  datatype OpenResult = NoCrates | Opened(item: ItemId, dupe: bool, shards: nat)

  method InCatalogOrder(have: set<ItemId>) returns (out: seq<ItemId>)
    ensures forall id :: id in out <==> id in CATALOG && id in have
    ensures forall k :: 0 <= k < |out| ==> Known(out[k])
    ensures forall i, j :: 0 <= i < j < |out| ==> IndexOf(out[i]) < IndexOf(out[j])
  {
    out := [];
    for i := 0 to |CATALOG|
      invariant forall id :: id in out <==> id in CATALOG[..i] && id in have
      invariant forall k :: 0 <= k < |out| ==> Known(out[k]) && IndexOf(out[k]) < i
      invariant forall k, l :: 0 <= k < l < |out| ==> IndexOf(out[k]) < IndexOf(out[l])
    {
      CatalogAt(i);
      assert CATALOG[..i + 1] == CATALOG[..i] + [CATALOG[i]];
      if CATALOG[i] in have {
        out := out + [CATALOG[i]];
      }
    }
    assert CATALOG[..|CATALOG|] == CATALOG;
  }

  lemma InventoryOf(crates: seq<Crate>, crafts: seq<Craft>, owner: string, have: set<ItemId>)
    requires forall id :: id in have <==> id in RolledItems(crates, owner) || id in Crafted(crafts, owner)
    ensures forall id :: id in CATALOG && id in have <==> id in Inventory(crates, crafts, owner)
  {
    forall id ensures id in CATALOG && id in have <==> id in Inventory(crates, crafts, owner) {
      InCatalog(id);
    }
  }

  /** The shards of a drop: 10, 30, 80 or 250 for a duplicate, by its place in the catalog. */
  function WorthOfDrop(item: ItemId, dupe: bool): nat {
    if !dupe || !Known(item) then 0
    else if IndexOf(item) < 5 then 10
    else if IndexOf(item) < 10 then 30
    else if IndexOf(item) < 14 then 80
    else 250
  }

  function PriceOf(item: ItemId): nat {
    if !Known(item) then 0
    else if IndexOf(item) < 5 then 30
    else if IndexOf(item) < 10 then 90
    else if IndexOf(item) < 14 then 250
    else 700
  }

  lemma PricesByPlace(item: ItemId)
    requires Known(item)
    ensures PriceOf(item) == CraftCost(RarityOf(item).value)
    ensures WorthOfDrop(item, true) == ShardsForDuplicate(RarityOf(item).value)
  {
  }

  /** Which outcome, and what is inserted. */
  ghost predicate CraftIs(t: Ledger.Tables, crafts: seq<Craft>, owner: string, item: ItemId, r: Ledger.CraftResult) {
    && (r.Unknown? <==> item !in CATALOG)
    && (r.AlreadyOwned? <==> item in CATALOG && item in Ledger.Owned(t, owner))
    && (r.NotEnough? <==>
          item in CATALOG && item !in Ledger.Owned(t, owner) && Ledger.Balance(t, owner) < PriceOf(item))
    && crafts == if r.Crafted? then t.crafts + [Craft(owner, item, PriceOf(item))] else t.crafts
  }

  lemma CraftStepIs(t: Ledger.Tables, owner: string, item: ItemId)
    ensures CraftIs(t, Ledger.AfterCraft(t, owner, item).crafts, owner, item, Ledger.CraftOutcome(t, owner, item))
  {
    InCatalog(item);
    if Known(item) {
      PricesByPlace(item);
    }
  }

  /** The owner's first unopened crate holds the item from now on; nothing else changes. */
  ghost predicate SpendsCrate(
    before: seq<Crate>, after: seq<Crate>, k: nat, owner: string, item: ItemId, shards: nat, now: nat)
  {
    && k < |before| == |after|
    && before[k].owner == owner && before[k].item.None?
    && (forall i :: 0 <= i < k && before[i].owner == owner ==> before[i].item.Some?)
    && after[k] == Crate(before[k].id, owner, before[k].source, Some(item), shards, before[k].createdAt, now)
    && forall i :: 0 <= i < |before| && i != k ==> after[i] == before[i]
  }

  class Store {
    var crates: seq<Crate>
    var crafts: seq<Craft>
    var users: seq<Grants.User>
    var now: nat

    ghost function Contents(): Ledger.Tables
      reads this
    {
      Ledger.Tables(crates, crafts, now)
    }

    constructor ()
      ensures Contents() == Ledger.NO_ROWS && users == []
    {
      crates, crafts, users, now := [], [], [], 0;
    }

    /** The inventory, in catalog order. */
    method OpenedItems(owner: string) returns (out: seq<ItemId>)
      ensures forall id :: id in out <==> id in Ledger.Owned(Contents(), owner)
      ensures forall k :: 0 <= k < |out| ==> Known(out[k])
      ensures forall i, j :: 0 <= i < j < |out| ==> IndexOf(out[i]) < IndexOf(out[j])
    {
      var rolled := RolledItems(crates, owner);
      var have: set<ItemId> := {};
      for i := 0 to |rolled|
        invariant forall id :: id in have <==> id in rolled[..i]
      {
        assert rolled[..i + 1] == rolled[..i] + [rolled[i]];
        have := have + {rolled[i]};
      }
      assert rolled[..|rolled|] == rolled;
      have := have + Crafted(crafts, owner);
      out := InCatalogOrder(have);
      InventoryOf(crates, crafts, owner, have);
    }

    /** Spends the oldest unopened crate on what the two draws roll. */
    method OpenCrate(owner: string, draw: nat -> nat, pick: nat -> nat) returns (r: OpenResult)
      requires InRange(draw) && InRange(pick)
      modifies this`crates
      ensures r.NoCrates? <==> forall i :: 0 <= i < |old(crates)| && old(crates)[i].owner == owner ==>
                                 old(crates)[i].item.Some?
      ensures r.NoCrates? ==> crates == old(crates)
      ensures r.Opened? ==>
                && RolledWith(Ledger.Owned(old(Contents()), owner), RolledItems(old(crates), owner), draw, pick,
                              r.item, r.dupe)
                && r.shards == WorthOfDrop(r.item, r.dupe)
                && exists k :: SpendsCrate(old(crates), crates, k, owner, r.item, r.shards, now)
      ensures r.Opened? ==>
                && Ledger.Possible(old(Contents()), Ledger.OpenCrate(owner, r.item, r.dupe))
                && Contents() == Ledger.Step(old(Contents()), Ledger.OpenCrate(owner, r.item, r.dupe))
    {
      var crate := FirstUnopened(crates, owner);
      FirstUnopenedIsFirst(crates, owner);
      if crate.None? {
        return NoCrates;
      }
      var items := OpenedItems(owner);
      var owned := set id | id in items;
      assert owned == Ledger.Owned(Contents(), owner);
      var item, dupe := RollReward(owned, RolledItems(crates, owner), draw, pick);
      var shards := Race.Shards(item, dupe);
      PricesByPlace(item);
      RollIsFairAndFresh(owned, RolledItems(crates, owner), item, dupe);
      ghost var was := crates;
      crates := crates[crate.value := Race.Open(crates[crate.value], item, shards, now)];
      assert SpendsCrate(was, crates, crate.value, owner, item, shards, now);
      r := Opened(item, dupe, shards);
    }

    /** The three tests of a craft, in order. */
    method JudgeCraft(owner: string, item: ItemId) returns (r: Ledger.CraftResult)
      ensures r == Ledger.CraftOutcome(Contents(), owner, item)
    {
      if !Known(item) {
        return Ledger.Unknown;
      }
      var items := OpenedItems(owner);
      if item in items {
        return Ledger.AlreadyOwned;
      }
      var balance := Ledger.Balance(Ledger.Tables(crates, crafts, now), owner);
      if balance < CraftCost(RarityOf(item).value) {
        return Ledger.NotEnough;
      }
      return Ledger.CraftResult.Crafted;
    }

    /** Spends shards on a specific item the owner does not have. */
    method CraftReward(owner: string, item: ItemId) returns (r: Ledger.CraftResult)
      modifies this`crafts
      ensures CraftIs(old(Contents()), crafts, owner, item, r)
      ensures r == Ledger.CraftOutcome(old(Contents()), owner, item)
      ensures Contents() == Ledger.Step(old(Contents()), Ledger.CraftReward(owner, item))
    {
      CraftStepIs(Contents(), owner, item);
      r := JudgeCraft(owner, item);
      if r.Crafted? {
        crafts := crafts + [Craft(owner, item, CraftCost(RarityOf(item).value))];
      }
    }

    /** Grants the crates that verified referrals have earned; clock(i) is the time of statement i. */
    method SyncCrates(owner: string, clock: nat -> nat) returns (granted: nat)
      modifies this`crates
      ensures old(crates) <= crates && Grants.NewRowsAreReferrals(|old(crates)|, crates, users, owner)
      ensures crates == Grants.SyncCrates(old(crates), users, owner, clock)
      ensures granted == |crates| - |old(crates)|
    {
      var cands := Grants.Candidates(users, crates, owner);
      Grants.CallGrantsOnlyReferrals(crates, users, owner, clock);
      granted := 0;
      var i := 0;
      var stopped := false;
      while i < |cands| && !stopped
        invariant 0 <= i <= |cands|
        invariant Grants.Progress(crates, stopped) == Grants.After(old(crates), users, owner, cands, clock, i)
        invariant granted == |crates| - |old(crates)|
        decreases |cands| - i
      {
        var c := cands[i];
        OneTurn(old(crates), users, owner, cands, clock, i);
        if Grants.Today(crates, owner, clock(2 * i)) >= Grants.MAX_CRATES_PER_DAY {
          stopped := true;
        } else if c.signupIp == "" || Grants.SameIp(crates, users, owner, c.signupIp) < Grants.MAX_CRATES_PER_IP {
          if !HasSource(crates, c.name) {
            crates := crates + [NewRow(crates, owner, c.name, clock(2 * i + 1))];
            granted := granted + 1;
          }
        }
        i := i + 1;
      }
      StoppedStays(old(crates), users, owner, cands, clock, i);
    }
  }

  /** One turn of the grant loop, unfolded. */
  lemma OneTurn(
    crates: seq<Crate>, users: seq<Grants.User>, owner: string, cands: seq<Grants.User>, clock: nat -> nat, i: nat)
    requires i < |cands| && !Grants.After(crates, users, owner, cands, clock, i).stopped
    ensures var rows := Grants.After(crates, users, owner, cands, clock, i).crates;
            var next := Grants.After(crates, users, owner, cands, clock, i + 1);
            var verdict := Grants.Judge(rows, users, owner, cands[i], clock(2 * i));
            && (verdict.Stop? ==> next == Grants.Progress(rows, true))
            && (verdict.Skip? ==> next == Grants.Progress(rows, false))
            && (verdict.Give? ==>
                  next == Grants.Progress(InsertOrIgnore(rows, owner, cands[i].name, clock(2 * i + 1)), false))
  {
  }

  lemma {:induction false} StoppedStays(
    crates: seq<Crate>, users: seq<Grants.User>, owner: string, cands: seq<Grants.User>, clock: nat -> nat, k: nat)
    requires k <= |cands|
    requires k == |cands| || Grants.After(crates, users, owner, cands, clock, k).stopped
    ensures Grants.After(crates, users, owner, cands, clock, |cands|).crates ==
            Grants.After(crates, users, owner, cands, clock, k).crates
    decreases |cands| - k
  {
    if k < |cands| {
      var p := Grants.After(crates, users, owner, cands, clock, k);
      assert Grants.After(crates, users, owner, cands, clock, k + 1) == p;
      StoppedStays(crates, users, owner, cands, clock, k + 1);
    }
  }
}
