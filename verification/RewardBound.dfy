/**
 How many crates make every missing item affordable.  An owner's books are summed up in a purse: how many
 crates were opened, the pity counters, how many items of each rarity are owned, and the shards.
 */
module RewardBound {
  import opened Common
  import opened RewardRolls
  import opened RewardTables
  import opened RewardLedger

  // ----- Items by rarity

  function Size(rank: nat): nat {
    if rank <= 1 then 5 else if rank == 2 then 4 else if rank == 3 then 2 else 0
  }

  predicate HasRank(id: ItemId, rank: nat) {
    Known(id) && RankOf(id) == rank
  }

  /** How many of the first n catalog items are in s and of the given rank. */
  function CountTo(n: nat, s: set<ItemId>, rank: nat): nat
    requires n <= |CATALOG|
  {
    if n == 0 then 0
    else CountTo(n - 1, s, rank) + (if CATALOG[n - 1] in s && HasRank(CATALOG[n - 1], rank) then 1 else 0)
  }

  function Count(s: set<ItemId>, rank: nat): nat {
    CountTo(|CATALOG|, s, rank)
  }

  lemma FoundAt(i: nat, id: ItemId)
    requires i < |CATALOG| && Known(id)
    ensures CATALOG[i] == id <==> IndexOf(id) == i
  {
    CatalogAt(i);
    KnownIsInCatalog(id);
  }

  lemma {:induction false} CountToOneMore(n: nat, s: set<ItemId>, id: ItemId, more: set<ItemId>, rank: nat)
    requires n <= |CATALOG| && Known(id) && id !in s && more == s + {id}
    ensures CountTo(n, more, rank) == CountTo(n, s, rank) + (if IndexOf(id) < n && HasRank(id, rank) then 1 else 0)
  {
    if n > 0 {
      CountToOneMore(n - 1, s, id, more, rank);
      FoundAt(n - 1, id);
      var x := CATALOG[n - 1];
      assert x in more <==> x in s || x == id;
    }
  }

  lemma CountOneMore(s: set<ItemId>, id: ItemId, rank: nat)
    requires Known(id) && id !in s
    ensures Count(s + {id}, rank) == Count(s, rank) + (if HasRank(id, rank) then 1 else 0)
  {
    CountToOneMore(|CATALOG|, s, id, s + {id}, rank);
    KnownIsInCatalog(id);
  }

  lemma RankAt(i: nat)
    requires i < |CATALOG|
    ensures HasRank(CATALOG[i], if i < 5 then 0 else if i < 10 then 1 else if i < 14 then 2 else 3)
  {
    CatalogAt(i);
  }

  /** Items of a rank among the first n of the catalog. */
  function SizeTo(n: nat, rank: nat): nat {
    if rank == 0 then (if n < 5 then n else 5)
    else if rank == 1 then (if n < 5 then 0 else if n < 10 then n - 5 else 5)
    else if rank == 2 then (if n < 10 then 0 else if n < 14 then n - 10 else 4)
    else if rank == 3 then (if n < 14 then 0 else n - 14)
    else 0
  }

  lemma {:induction false} CountToAtMost(n: nat, s: set<ItemId>, rank: nat)
    requires n <= |CATALOG|
    ensures CountTo(n, s, rank) <= SizeTo(n, rank)
    ensures (forall i :: 0 <= i < n && HasRank(CATALOG[i], rank) ==> CATALOG[i] in s) ==>
              CountTo(n, s, rank) == SizeTo(n, rank)
  {
    if n > 0 {
      CountToAtMost(n - 1, s, rank);
      RankAt(n - 1);
    }
  }

  lemma CountAtMost(s: set<ItemId>, rank: nat)
    ensures Count(s, rank) <= Size(rank)
  {
    CountToAtMost(|CATALOG|, s, rank);
  }

  /** A rarity is complete exactly if the count says so. */
  lemma CompleteExactly(s: set<ItemId>, id: ItemId)
    requires Known(id)
    ensures Count(s, RankOf(id)) == Size(RankOf(id)) <==>
            forall other :: RarityOf(other) == RarityOf(id) ==> other in s
  {
    var rank := RankOf(id);
    if Count(s, rank) == Size(rank) {
      forall other | RarityOf(other) == RarityOf(id) ensures other in s {
        if other !in s {
          CountOneMore(s, other, rank);
          CountAtMost(s + {other}, rank);
        }
      }
    }
    if forall other :: RarityOf(other) == RarityOf(id) ==> other in s {
      forall i | 0 <= i < |CATALOG| && HasRank(CATALOG[i], rank) ensures CATALOG[i] in s {
        SameRank(CATALOG[i], id);
      }
      CountToAtMost(|CATALOG|, s, rank);
    }
  }

  lemma SameRank(a: ItemId, b: ItemId)
    requires Known(a) && Known(b) && RankOf(a) == RankOf(b)
    ensures RarityOf(a) == RarityOf(b)
  {
  }

  // ----- The purse

  /** n crates opened, sr and se the pity counters, lg legendaries dropped, c, r, e and l commons, rares, epics
      and legendaries owned, ke epics crafted. */
  datatype Purse = Purse(n: nat, sr: nat, se: nat, lg: nat, c: nat, r: nat, e: nat, l: nat, ke: nat, shards: int)

  function Own(p: Purse, rank: nat): nat {
    if rank == 0 then p.c else if rank == 1 then p.r else if rank == 2 then p.e else p.l
  }

  function OneMore(p: Purse, rank: nat): Purse {
    if rank == 0 then p.(c := p.c + 1)
    else if rank == 1 then p.(r := p.r + 1)
    else if rank == 2 then p.(e := p.e + 1)
    else p.(l := p.l + 1)
  }

  function WorthOf(rank: nat): nat {
    if rank == 0 then 10 else if rank == 1 then 30 else if rank == 2 then 80 else 250
  }

  function CostOf(rank: nat): nat {
    if rank == 0 then 30 else if rank == 1 then 90 else if rank == 2 then 250 else 700
  }

  function Counted(p: Purse, rank: nat): Purse {
    p.(n := p.n + 1, sr := if rank >= 1 then 0 else p.sr + 1, se := if rank >= 2 then 0 else p.se + 1,
       lg := if rank >= 3 then p.lg + 1 else p.lg)
  }

  /** A drop is new while its rarity is incomplete, and a paid duplicate afterwards. */
  function Dropped(p: Purse, rank: nat): Purse {
    if Own(p, rank) < Size(rank) then OneMore(Counted(p, rank), rank)
    else Counted(p, rank).(shards := p.shards + WorthOf(rank))
  }

  function Bought(p: Purse, rank: nat): Purse {
    OneMore(p, rank).(shards := p.shards - CostOf(rank), ke := if rank == 2 then p.ke + 1 else p.ke)
  }

  /** What the drops are worth at least: no drop is worth less than it adds to this. */
  function Floor21(n: nat, sr: nat, se: nat): int {
    21 * n - 11 * se + 20 * ((se - sr + 3) / 4)
  }

  lemma WorthAtLeast(n: nat, sr: nat, se: nat, rank: nat)
    requires sr <= 3 && se <= 9 && sr <= se && Floor(sr, se) <= rank <= 3
    ensures var sr', se' := if rank >= 1 then 0 else sr + 1, if rank >= 2 then 0 else se + 1;
            && Floor21(n + 1, sr', se') <= Floor21(n, sr, se) + (if rank >= 2 then 80 else WorthOf(rank))
            && sr' <= 3 && se' <= 9 && sr' <= se'
  {
  }

  ghost predicate Bounded(p: Purse) {
    p.sr <= 3 && p.se <= 9 && p.sr <= p.se && p.c <= 5 && p.r <= 5 && p.ke <= p.e <= 4 && p.l <= 2
  }

  /** The price of everything owned. */
  function FullPrice(p: Purse): nat {
    30 * p.c + 90 * p.r + 250 * p.e + 700 * p.l
  }

  /** The same with epics at their worth, but for one of them if any was crafted. */
  function FairPrice(p: Purse): nat {
    30 * p.c + 90 * p.r + 80 * p.e + 700 * p.l + (if p.ke > 0 then 170 else 0)
  }

  /** The shards cover what the drops are worth at least, less what was paid for what is owned. */
  ghost predicate Priced(p: Purse, worth: int) {
    p.shards >= 0 && p.shards >= worth + 170 * p.lg - FullPrice(p) && p.shards >= worth - FairPrice(p)
  }

  /** Epics not all owned have been dropped fresh or crafted, so there has not been much time. */
  ghost predicate InTime(p: Purse) {
    && (p.e < 4 ==> p.n <= p.se + 10 * (p.e - p.ke + p.lg))
    && (p.e < 4 && p.r == 0 ==> p.n <= p.sr + 4 * (p.e - p.ke + p.lg))
    && (p.lg <= p.l || p.l == 2)
  }

  ghost predicate Sound(p: Purse) {
    Bounded(p) && InTime(p) && Priced(p, Floor21(p.n, p.sr, p.se))
  }

  lemma DropKeepsPrice(p: Purse, rank: nat, worth: int, more: int)
    requires Bounded(p) && Priced(p, worth) && rank <= 3
    requires more <= worth + (if rank >= 2 then 80 else WorthOf(rank))
    ensures Priced(Dropped(p, rank), more)
  {
  }

  lemma DropKeepsTime(p: Purse, rank: nat)
    requires Bounded(p) && InTime(p) && Floor(p.sr, p.se) <= rank <= 3
    ensures Bounded(Dropped(p, rank)) && InTime(Dropped(p, rank))
  {
  }

  lemma DropKeepsSound(p: Purse, rank: nat)
    requires Sound(p) && Floor(p.sr, p.se) <= rank <= 3
    ensures Sound(Dropped(p, rank))
  {
    var q := Dropped(p, rank);
    DropKeepsTime(p, rank);
    WorthAtLeast(p.n, p.sr, p.se, rank);
    DropKeepsPrice(p, rank, Floor21(p.n, p.sr, p.se), Floor21(q.n, q.sr, q.se));
  }

  /** A second crafted epic: the time there has been did not yield the shards, but for duplicate legendaries. */
  lemma SecondEpic(p: Purse)
    requires Sound(p) && p.e < 4 && p.ke > 0 && p.shards >= 250
    ensures Bought(p, 2).shards >= Floor21(p.n, p.sr, p.se) - FairPrice(Bought(p, 2))
  {
    var q := p.e - p.ke;
    assert q <= 2;
    if p.lg < 3 {
      assert Floor21(p.n, p.sr, p.se) <= 210 * (q + p.lg) + 150;
    }
  }

  lemma BuyKeepsTime(p: Purse, rank: nat)
    requires Bounded(p) && InTime(p) && rank <= 3 && Own(p, rank) < Size(rank)
    ensures Bounded(Bought(p, rank)) && InTime(Bought(p, rank))
  {
  }

  lemma BuyKeepsPrice(p: Purse, rank: nat, worth: int)
    requires Bounded(p) && Priced(p, worth) && rank <= 3 && p.shards >= CostOf(rank)
    requires rank == 2 && p.ke > 0 ==> p.shards - 250 >= worth - FairPrice(Bought(p, 2))
    ensures Priced(Bought(p, rank), worth)
  {
  }

  lemma BuyKeepsSound(p: Purse, rank: nat)
    requires Sound(p) && rank <= 3 && Own(p, rank) < Size(rank) && p.shards >= CostOf(rank)
    ensures Sound(Bought(p, rank))
  {
    BuyKeepsTime(p, rank);
    if rank == 2 && p.ke > 0 {
      SecondEpic(p);
    }
    BuyKeepsPrice(p, rank, Floor21(p.n, p.sr, p.se));
  }

  const ENOUGH_CRATES := 122

  /** After 122 crates a sound purse covers whatever is missing. */
  lemma EnoughForAnything(p: Purse, rank: nat)
    requires Sound(p) && p.n >= ENOUGH_CRATES && rank <= 3 && Own(p, rank) < Size(rank)
    ensures p.shards >= CostOf(rank)
  {
    assert Floor21(p.n, p.sr, p.se) >= 21 * p.n - 59;
  }

  // ----- The purse of an owner

  function Legendaries(items: seq<ItemId>): nat {
    if items == [] then 0
    else Legendaries(items[..|items| - 1]) + (if HasRank(items[|items| - 1], 3) then 1 else 0)
  }

  /** The part of a purse that the drops determine. */
  ghost predicate FromDrops(p: Purse, drops: seq<ItemId>) {
    p.n == |drops| && p.sr == Since(drops, 1) && p.se == Since(drops, 2) && p.lg == Legendaries(drops)
  }

  /** The part that the inventory and the crafted items determine. */
  ghost predicate FromItems(p: Purse, owned: set<ItemId>, crafted: set<ItemId>) {
    && p.c == Count(owned, 0) && p.r == Count(owned, 1) && p.e == Count(owned, 2) && p.l == Count(owned, 3)
    && p.ke == Count(crafted, 2)
  }

  ghost predicate IsPurse(p: Purse, t: Tables, owner: string) {
    && FromDrops(p, Drops(t.crates, owner))
    && FromItems(p, Owned(t, owner), RewardTables.Crafted(t.crafts, owner))
    && p.shards == Balance(t, owner)
  }

  lemma DropsOneMore(p: Purse, drops: seq<ItemId>, item: ItemId)
    requires FromDrops(p, drops) && Known(item)
    ensures FromDrops(Counted(p, RankOf(item)), drops + [item])
    ensures FromDrops(Dropped(p, RankOf(item)), drops + [item])
  {
    assert (drops + [item])[..|drops|] == drops;
  }

  lemma ItemsOneMore(p: Purse, owned: set<ItemId>, crafted: set<ItemId>, item: ItemId)
    requires FromItems(p, owned, crafted) && Known(item) && item !in owned
    ensures FromItems(OneMore(p, RankOf(item)), owned + {item}, crafted)
  {
    CountOneMore(owned, item, 0);
    CountOneMore(owned, item, 1);
    CountOneMore(owned, item, 2);
    CountOneMore(owned, item, 3);
  }

  lemma CountIsOwn(p: Purse, owned: set<ItemId>, crafted: set<ItemId>, item: ItemId)
    requires FromItems(p, owned, crafted) && Known(item)
    ensures Own(p, RankOf(item)) == Count(owned, RankOf(item)) <= Size(RankOf(item))
    ensures Own(p, RankOf(item)) == Size(RankOf(item)) <==>
            forall other :: RarityOf(other) == RarityOf(item) ==> other in owned
  {
    CountAtMost(owned, RankOf(item));
    CompleteExactly(owned, item);
  }

  lemma ItemsAfterDrop(p: Purse, owned: set<ItemId>, crafted: set<ItemId>, item: ItemId)
    requires FromItems(p, owned, crafted) && Known(item)
    requires item in owned <==> forall other :: RarityOf(other) == RarityOf(item) ==> other in owned
    ensures FromItems(Dropped(p, RankOf(item)), owned + {item}, crafted)
    ensures Dropped(p, RankOf(item)).shards == p.shards + (if item in owned then WorthOf(RankOf(item)) else 0)
  {
    CountIsOwn(p, owned, crafted, item);
    if item in owned {
      assert owned + {item} == owned;
    } else {
      ItemsOneMore(Counted(p, RankOf(item)), owned, crafted, item);
    }
  }

  /** An open drops an item into the purse of its owner. */
  lemma PurseAfterOpen(t: Tables, p: Purse, k: nat, owner: string, item: ItemId, dupe: bool)
    requires RowsOk(t) && NextToOpen(t, k, owner) && Rollable(t, owner, item, dupe) && IsPurse(p, t, owner)
    requires dupe <==> forall other :: RarityOf(other) == RarityOf(item) ==> other in Owned(t, owner)
    ensures IsPurse(Dropped(p, RankOf(item)), OpenAt(t, k, item, dupe), owner)
  {
    OpenMovesDrops(t, k, owner, item, dupe, owner);
    DropsOneMore(p, Drops(t.crates, owner), item);
    OpenMovesOwned(t, k, owner, item, dupe, owner);
    ItemsAfterDrop(p, Owned(t, owner), RewardTables.Crafted(t.crafts, owner), item);
    OpenMovesBalance(t, k, owner, item, dupe, owner);
  }

  lemma CraftedOneMore(t: Tables, owner: string, item: ItemId)
    requires RowsOk(t) && CraftOutcome(t, owner, item) == CraftResult.Crafted
    ensures var crafted := RewardTables.Crafted(t.crafts, owner);
            && item !in crafted
            && RewardTables.Crafted(AfterCraft(t, owner, item).crafts, owner) == crafted + {item}
  {
    OwnedMembers(t, owner);
    SumsAfterCraft(t.crafts, Craft(owner, item, CraftCost(RarityOf(item).value)), owner);
  }

  lemma PurseAfterCraft(t: Tables, p: Purse, owner: string, item: ItemId)
    requires RowsOk(t) && CraftOutcome(t, owner, item) == CraftResult.Crafted && IsPurse(p, t, owner)
    ensures Own(p, RankOf(item)) < Size(RankOf(item)) && p.shards >= CostOf(RankOf(item))
    ensures IsPurse(Bought(p, RankOf(item)), AfterCraft(t, owner, item), owner)
  {
    var owned, crafted := Owned(t, owner), RewardTables.Crafted(t.crafts, owner);
    CraftEffect(t, owner, item, owner);
    CraftedOneMore(t, owner, item);
    CountIsOwn(p, owned, crafted, item);
    ItemsOneMore(p, owned, crafted, item);
    CountOneMore(crafted, item, 2);
    CraftMovesBalance(t, owner, item, owner);
  }

  /** An operation that leaves an owner's drops, items and balance alone leaves the purse alone. */
  lemma SamePurse(p: Purse, t: Tables, u: Tables, owner: string)
    requires IsPurse(p, t, owner) && Drops(u.crates, owner) == Drops(t.crates, owner)
    requires Owned(u, owner) == Owned(t, owner) && Balance(u, owner) == Balance(t, owner)
    requires RewardTables.Crafted(u.crafts, owner) == RewardTables.Crafted(t.crafts, owner)
    ensures IsPurse(p, u, owner)
  {
  }

  lemma OpenOfOther(p: Purse, t: Tables, k: nat, o: string, item: ItemId, dupe: bool, owner: string)
    requires RowsOk(t) && NextToOpen(t, k, o) && Known(item) && o != owner && IsPurse(p, t, owner)
    ensures IsPurse(p, OpenAt(t, k, item, dupe), owner)
  {
    OpenMovesDrops(t, k, o, item, dupe, owner);
    OpenMovesOwned(t, k, o, item, dupe, owner);
    OpenMovesBalance(t, k, o, item, dupe, owner);
    assert Owned(t, owner) + {} == Owned(t, owner);
    SamePurse(p, t, OpenAt(t, k, item, dupe), owner);
  }

  lemma CraftOfOther(p: Purse, t: Tables, o: string, item: ItemId, owner: string)
    requires RowsOk(t) && CraftOutcome(t, o, item) == CraftResult.Crafted && o != owner && IsPurse(p, t, owner)
    ensures IsPurse(p, AfterCraft(t, o, item), owner)
  {
    CraftEffect(t, o, item, owner);
    CraftMovesBalance(t, o, item, owner);
    SumsAfterCraft(t.crafts, Craft(o, item, CraftCost(RarityOf(item).value)), owner);
    assert Owned(t, owner) + {} == Owned(t, owner);
    SamePurse(p, t, AfterCraft(t, o, item), owner);
  }

  lemma OpenKeepsSound(t: Tables, p: Purse, o: string, item: ItemId, dupe: bool, owner: string) returns (q: Purse)
    requires Inv(t) && Possible(t, OpenCrate(o, item, dupe)) && IsPurse(p, t, owner) && Sound(p)
    ensures IsPurse(q, AfterOpen(t, o, item, dupe), owner) && Sound(q)
  {
    PossibleIsRollable(t, o, item, dupe);
    RollIsFairAndFresh(Owned(t, o), RolledItems(t.crates, o), item, dupe);
    FirstUnopenedIsNext(t, o);
    var k := FirstUnopened(t.crates, o).value;
    if o == owner {
      PurseAfterOpen(t, p, k, o, item, dupe);
      q := Dropped(p, RankOf(item));
      DropKeepsSound(p, RankOf(item));
    } else {
      OpenOfOther(p, t, k, o, item, dupe, owner);
      q := p;
    }
  }

  lemma CraftKeepsSound(t: Tables, p: Purse, o: string, item: ItemId, owner: string) returns (q: Purse)
    requires Inv(t) && IsPurse(p, t, owner) && Sound(p)
    ensures IsPurse(q, AfterCraft(t, o, item), owner) && Sound(q)
  {
    q := p;
    if CraftOutcome(t, o, item) == CraftResult.Crafted {
      if o == owner {
        PurseAfterCraft(t, p, o, item);
        q := Bought(p, RankOf(item));
        BuyKeepsSound(p, RankOf(item));
      } else {
        CraftOfOther(p, t, o, item, owner);
      }
    }
  }

  lemma {:induction false} StepKeepsSound(t: Tables, p: Purse, a: Action, owner: string) returns (q: Purse)
    requires Inv(t) && Possible(t, a) && IsPurse(p, t, owner) && Sound(p)
    ensures IsPurse(q, Step(t, a), owner) && Sound(q)
  {
    q := p;
    match a
    case Tick(_) => SamePurse(p, t, Step(t, a), owner);
    case Grant(o, source) =>
      if !HasSource(t.crates, source) {
        GrantEffect(t, NewRow(t.crates, o, source, t.now), owner);
        SamePurse(p, t, Step(t, a), owner);
      }
    case OpenCrate(o, item, dupe) => q := OpenKeepsSound(t, p, o, item, dupe, owner);
    case CraftReward(o, item) => q := CraftKeepsSound(t, p, o, item, owner);
  }

  ghost predicate Empty(s: set<ItemId>) {
    forall id :: id !in s
  }

  lemma {:induction false} CountOfNone(n: nat, s: set<ItemId>, rank: nat)
    requires n <= |CATALOG| && Empty(s)
    ensures CountTo(n, s, rank) == 0
  {
    if n > 0 {
      CountOfNone(n - 1, s, rank);
    }
  }

  lemma NothingOwned(p: Purse, owned: set<ItemId>, crafted: set<ItemId>)
    requires Empty(owned) && Empty(crafted) && p.c == p.r == p.e == p.l == p.ke == 0
    ensures FromItems(p, owned, crafted)
  {
    var all := |CATALOG|;
    CountOfNone(all, owned, 0);
    CountOfNone(all, owned, 1);
    CountOfNone(all, owned, 2);
    CountOfNone(all, owned, 3);
    CountOfNone(all, crafted, 2);
  }

  const NEW_PURSE := Purse(0, 0, 0, 0, 0, 0, 0, 0, 0, 0)

  lemma NothingInTables(t: Tables, owner: string)
    requires t.crates == [] && t.crafts == []
    ensures Empty(Owned(t, owner)) && Empty(RewardTables.Crafted(t.crafts, owner))
    ensures Drops(t.crates, owner) == [] && Balance(t, owner) == 0
  {
  }

  lemma StartsInTime(p: Purse)
    requires p.n == 0 && p.lg == 0 && p.ke <= p.e
    ensures InTime(p)
  {
  }

  lemma WithoutDebt(p: Purse)
    requires Bounded(p) && InTime(p) && p.lg == 0 && p.shards >= 0 && Floor21(p.n, p.sr, p.se) <= 0
    ensures Sound(p)
  {
  }

  lemma NewIsSound(p: Purse)
    requires p == NEW_PURSE
    ensures Sound(p)
  {
    StartsInTime(p);
    WithoutDebt(p);
  }

  lemma NothingDropped(p: Purse, drops: seq<ItemId>)
    requires p.n == p.sr == p.se == p.lg == 0 && drops == []
    ensures FromDrops(p, drops)
  {
  }

  lemma EmptyPurse(t: Tables, p: Purse, owner: string)
    requires t.crates == [] && t.crafts == [] && p == NEW_PURSE
    ensures IsPurse(p, t, owner)
  {
    NothingInTables(t, owner);
    NothingDropped(p, Drops(t.crates, owner));
    NothingOwned(p, Owned(t, owner), RewardTables.Crafted(t.crafts, owner));
  }

  /** Over every serial run every owner's purse is sound. */
  lemma {:induction false} PurseIsSound(log: seq<Entry>, t: Tables, owner: string) returns (p: Purse)
    requires Reaches(log, t)
    ensures IsPurse(p, t, owner) && Sound(p)
    decreases |log|
  {
    if log == [] {
      p := NEW_PURSE;
      EmptyPurse(t, p, owner);
      NewIsSound(p);
    } else {
      var last := log[|log| - 1];
      p := PurseIsSound(log[..|log| - 1], last.before, owner);
      RunKeepsInv(log[..|log| - 1], last.before);
      p := StepKeepsSound(last.before, p, last.action, owner);
    }
  }

  /**
   Bad luck is never a dead end: however the drops and crafts of a serial run fell, an owner who has
   opened 122 crates can afford any item still missing, so crafting it succeeds.
   */
  lemma {:induction false} EveryItemIsAffordable(log: seq<Entry>, t: Tables, owner: string, item: ItemId)
    requires Reaches(log, t)
    requires |Drops(t.crates, owner)| >= ENOUGH_CRATES
    requires Known(item) && item !in Owned(t, owner)
    ensures Balance(t, owner) >= CraftCost(RarityOf(item).value)
    ensures CraftOutcome(t, owner, item) == CraftResult.Crafted
    ensures item in Owned(AfterCraft(t, owner, item), owner)
  {
    RunKeepsInv(log, t);
    CanAfford(log, t, owner, item);
    CraftEffect(t, owner, item, owner);
  }

  lemma CanAfford(log: seq<Entry>, t: Tables, owner: string, item: ItemId)
    requires Reaches(log, t) && |Drops(t.crates, owner)| >= ENOUGH_CRATES
    requires Known(item) && item !in Owned(t, owner)
    ensures Balance(t, owner) >= CraftCost(RarityOf(item).value)
  {
    var p := PurseIsSound(log, t, owner);
    CountIsOwn(p, Owned(t, owner), RewardTables.Crafted(t.crafts, owner), item);
    EnoughForAnything(p, RankOf(item));
  }
}
