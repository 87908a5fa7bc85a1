/** A run in which 104 opened crates do not suffice for the last item. */
module RewardWorst {
  import opened Common
  import opened RewardRolls
  import opened RewardTables
  import opened RewardLedger
  import opened RewardBound

  // ----- Every drop that pity allows can happen

  /** Whatever rarity is at or above the floor can be drawn, and then any item the rules let drop. */
  lemma AnyRankCanRoll(owned: set<ItemId>, drops: seq<ItemId>, item: ItemId)
    requires Known(item) && PityFloor(drops) <= RankOf(item)
    requires item in owned ==> forall other :: RarityOf(other) == RarityOf(item) ==> other in owned
    ensures CanRoll(owned, drops, item, item in owned)
  {
    var floor, rank := PityFloor(drops), RankOf(item);
    var n := WeightSum(WEIGHTS, floor, rank);
    assert Lands(WEIGHTS, floor, n, rank) && RARITY_ORDER[rank] == RarityOf(item).value;
    ItemIsChoice(owned, item);
    assert RollsTo(owned, floor, n, rank, item, item in owned);
  }

  lemma ItemIsChoice(owned: set<ItemId>, item: ItemId)
    requires Known(item)
    requires item in owned ==> forall other :: RarityOf(other) == RarityOf(item) ==> other in owned
    ensures item in Choices(owned, RarityOf(item).value)
    ensures item in owned <==> Missing(owned, RarityOf(item).value, |CATALOG|) == []
  {
    var rarity := RarityOf(item).value;
    var missing := Missing(owned, rarity, |CATALOG|);
    assert CATALOG[..|CATALOG|] == CATALOG;
    InCatalog(item);
    MissingMembers(owned, rarity, |CATALOG|, item);
    OfRarityMembers(rarity, |CATALOG|, item);
    if item in owned && missing != [] {
      MissingMembers(owned, rarity, |CATALOG|, missing[0]);
    }
  }

  // ----- Playing a list of drops

  /** Nothing of the owner's is unopened. */
  ghost predicate AllOpened(crates: seq<Crate>, owner: string) {
    forall i :: 0 <= i < |crates| && crates[i].owner == owner ==> crates[i].item.Some?
  }

  function LongestSource(crates: seq<Crate>): nat {
    if crates == [] then 0
    else
      var rest, n := LongestSource(crates[1..]), |crates[0].source|;
      if n > rest then n else rest
  }

  lemma {:induction false} SourcesAreShorter(crates: seq<Crate>)
    ensures forall i :: 0 <= i < |crates| ==> |crates[i].source| <= LongestSource(crates)
  {
    if crates != [] {
      SourcesAreShorter(crates[1..]);
      assert forall i :: 1 <= i < |crates| ==> crates[i] == crates[1..][i - 1];
    }
  }

  lemma NewSource(crates: seq<Crate>) returns (source: string)
    ensures !HasSource(crates, source)
  {
    source := seq(LongestSource(crates) + 1, _ => 'x');
    SourcesAreShorter(crates);
  }

  /** The tables of a run, with the purse of an owner who has opened everything. */
  ghost predicate Playing(log: seq<Entry>, t: Tables, p: Purse, owner: string) {
    Reaches(log, t) && IsPurse(p, t, owner) && AllOpened(t.crates, owner)
  }

  lemma Extend(log: seq<Entry>, t: Tables, a: Action) returns (longer: seq<Entry>)
    requires Reaches(log, t) && Possible(t, a)
    ensures Reaches(longer, Step(t, a))
  {
    longer := log + [Entry(t, a)];
    assert longer[..|longer| - 1] == log;
  }

  /** A new crate is the next to open. */
  lemma GrantOne(log: seq<Entry>, t: Tables, p: Purse, owner: string) returns (longer: seq<Entry>, u: Tables)
    requires Playing(log, t, p, owner)
    ensures Reaches(longer, u) && IsPurse(p, u, owner) && |u.crates| == |t.crates| + 1
    ensures FirstUnopened(u.crates, owner) == Some(|t.crates|)
    ensures forall i :: 0 <= i < |t.crates| ==> u.crates[i] == t.crates[i]
  {
    var source := NewSource(t.crates);
    longer := Extend(log, t, Grant(owner, source));
    u := Step(t, Grant(owner, source));
    var row := NewRow(t.crates, owner, source, t.now);
    GrantEffect(t, row, owner);
    SamePurse(p, t, u, owner);
    FirstUnopenedIsFirst(t.crates, owner);
    assert u.crates[..|t.crates|] == t.crates;
  }

  /** An item of the rank that the rules let drop. */
  lemma ItemToDrop(owned: set<ItemId>, rank: nat) returns (item: ItemId)
    requires rank <= 3
    ensures HasRank(item, rank) && MayDrop(owned, item)
  {
    item := if rank == 0 then Squad else if rank == 1 then Comet else if rank == 2 then Crown else Legend;
    if other :| RarityOf(other) == RarityOf(item) && other !in owned {
      item := other;
    }
  }

  lemma PlayDrop(log: seq<Entry>, t: Tables, p: Purse, owner: string, rank: nat)
    returns (longer: seq<Entry>, u: Tables)
    requires Playing(log, t, p, owner) && Floor(p.sr, p.se) <= rank <= 3
    ensures Playing(longer, u, Dropped(p, rank), owner)
  {
    var granted, g := GrantOne(log, t, p, owner);
    var item := ItemToDrop(Owned(g, owner), rank);
    RunKeepsInv(granted, g);
    longer, u := OpenIt(granted, g, p, |t.crates|, owner, item);
    AllOpenedAgain(t.crates, g.crates, u.crates, owner);
  }

  lemma AllOpenedAgain(before: seq<Crate>, granted: seq<Crate>, after: seq<Crate>, owner: string)
    requires AllOpened(before, owner) && |granted| == |before| + 1 && OnlyOpened(granted, after, |before|)
    requires forall i :: 0 <= i < |before| ==> granted[i] == before[i]
    ensures AllOpened(after, owner)
  {
    forall i | 0 <= i < |after| && after[i].owner == owner ensures after[i].item.Some? {
      assert i < |before| ==> after[i] == before[i];
    }
  }

  /** The item does not break the rule that a drop is new while its rarity is incomplete. */
  ghost predicate MayDrop(owned: set<ItemId>, item: ItemId) {
    Known(item) && (item in owned ==> forall other :: RarityOf(other) == RarityOf(item) ==> other in owned)
  }

  lemma OpenIsPossible(t: Tables, p: Purse, owner: string, item: ItemId)
    requires RowsOk(t) && IsPurse(p, t, owner) && FirstUnopened(t.crates, owner).Some?
    requires MayDrop(Owned(t, owner), item) && Floor(p.sr, p.se) <= RankOf(item)
    ensures Possible(t, OpenCrate(owner, item, item in Owned(t, owner)))
  {
    CrateRace.RolledInIdOrder(t.crates, t.now, owner);
    AnyRankCanRoll(Owned(t, owner), RolledItems(t.crates, owner), item);
  }

  lemma OpenFillsPurse(t: Tables, p: Purse, k: nat, owner: string, item: ItemId, dupe: bool)
    requires RowsOk(t) && IsPurse(p, t, owner) && Possible(t, OpenCrate(owner, item, dupe))
    requires FirstUnopened(t.crates, owner) == Some(k)
    requires MayDrop(Owned(t, owner), item) && dupe == (item in Owned(t, owner))
    ensures IsPurse(Dropped(p, RankOf(item)), OpenAt(t, k, item, dupe), owner)
  {
    FirstUnopenedIsNext(t, owner);
    PossibleIsRollable(t, owner, item, dupe);
    PurseAfterOpen(t, p, k, owner, item, dupe);
  }

  /** Row k was opened and nothing else changed. */
  ghost predicate OnlyOpened(before: seq<Crate>, after: seq<Crate>, k: nat) {
    && |after| == |before| && k < |after| && after[k].item.Some?
    && forall i :: 0 <= i < |before| && i != k ==> after[i] == before[i]
  }

  lemma OpenedOne(log: seq<Entry>, t: Tables, k: nat, owner: string, item: ItemId, dupe: bool)
    returns (longer: seq<Entry>, u: Tables)
    requires Reaches(log, t) && Possible(t, OpenCrate(owner, item, dupe)) && FirstUnopened(t.crates, owner) == Some(k)
    ensures Reaches(longer, u) && u == OpenAt(t, k, item, dupe) && OnlyOpened(t.crates, u.crates, k)
  {
    longer := Extend(log, t, OpenCrate(owner, item, dupe));
    u := OpenAt(t, k, item, dupe);
  }

  lemma OpenIt(log: seq<Entry>, t: Tables, p: Purse, k: nat, owner: string, item: ItemId)
    returns (longer: seq<Entry>, u: Tables)
    requires Reaches(log, t) && RowsOk(t) && IsPurse(p, t, owner) && FirstUnopened(t.crates, owner) == Some(k)
    requires MayDrop(Owned(t, owner), item) && Floor(p.sr, p.se) <= RankOf(item)
    ensures Reaches(longer, u) && IsPurse(Dropped(p, RankOf(item)), u, owner) && OnlyOpened(t.crates, u.crates, k)
  {
    var dupe := item in Owned(t, owner);
    OpenIsPossible(t, p, owner, item);
    OpenFillsPurse(t, p, k, owner, item, dupe);
    longer, u := OpenedOne(log, t, k, owner, item, dupe);
  }

  lemma PlayCraft(log: seq<Entry>, t: Tables, p: Purse, owner: string, rank: nat)
    returns (longer: seq<Entry>, u: Tables)
    requires Playing(log, t, p, owner) && rank <= 3 && Own(p, rank) < Size(rank) && p.shards >= CostOf(rank)
    ensures Playing(longer, u, Bought(p, rank), owner)
  {
    var item := ItemToDrop(Owned(t, owner), rank);
    CountIsOwn(p, Owned(t, owner), RewardTables.Crafted(t.crafts, owner), item);
    RunKeepsInv(log, t);
    longer := Extend(log, t, CraftReward(owner, item));
    u := AfterCraft(t, owner, item);
    PurseAfterCraft(t, p, owner, item);
  }

  // ----- Lists of drops and crafts

  datatype Move = Drop(rank: nat) | Buy(rank: nat)

  predicate May(p: Purse, m: Move) {
    match m
    case Drop(rank) => Floor(p.sr, p.se) <= rank <= 3
    case Buy(rank) => rank <= 3 && Own(p, rank) < Size(rank) && p.shards >= CostOf(rank)
  }

  function After(p: Purse, m: Move): Purse {
    match m
    case Drop(rank) => Dropped(p, rank)
    case Buy(rank) => Bought(p, rank)
  }

  /** The moves, each allowed when it is made, lead from p to q. */
  ghost predicate Leads(p: Purse, moves: seq<Move>, q: Purse)
    decreases |moves|
  {
    if moves == [] then p == q else May(p, moves[0]) && Leads(After(p, moves[0]), moves[1..], q)
  }

  /** Every such list can be played. */
  lemma {:induction false} PlayAll(log: seq<Entry>, t: Tables, p: Purse, moves: seq<Move>, q: Purse, owner: string)
    returns (longer: seq<Entry>, u: Tables)
    requires Playing(log, t, p, owner) && Leads(p, moves, q)
    ensures Playing(longer, u, q, owner)
    decreases |moves|
  {
    longer, u := log, t;
    if moves != [] {
      match moves[0] {
        case Drop(rank) => longer, u := PlayDrop(log, t, p, owner, rank);
        case Buy(rank) => longer, u := PlayCraft(log, t, p, owner, rank);
      }
      longer, u := PlayAll(longer, u, After(p, moves[0]), moves[1..], q, owner);
    }
  }

  lemma {:induction false} Joined(p: Purse, a: seq<Move>, b: seq<Move>, q: Purse, x: Purse)
    requires Leads(p, a, q) && Leads(q, b, x)
    ensures Leads(p, a + b, x)
    decreases |a|
  {
    if a == [] {
      assert a + b == b;
    } else {
      Joined(After(p, a[0]), a[1..], b, q, x);
      assert (a + b)[1..] == a[1..] + b;
    }
  }

  lemma One(p: Purse, m: Move, q: Purse)
    requires May(p, m) && q == After(p, m)
    ensures Leads(p, [m], q)
  {
    assert [m][1..] == [];
  }

  /** One more move. */
  lemma More(p: Purse, moves: seq<Move>, q: Purse, m: Move, x: Purse)
    requires Leads(p, moves, q) && May(q, m) && x == After(q, m)
    ensures Leads(p, moves + [m], x)
  {
    One(q, m, x);
    Joined(p, moves, [m], q, x);
  }

  // ----- The run

  /** Three commons. */
  lemma Commons(p: Purse, moves: seq<Move>, q: Purse, x: Purse) returns (longer: seq<Move>)
    requires Leads(p, moves, q) && q.sr == 0 && q.se <= 6 && q.c == 5
    requires x == q.(n := q.n + 3, sr := 3, se := q.se + 3, shards := q.shards + 30)
    ensures Leads(p, longer, x)
  {
    var q1 := q.(n := q.n + 1, sr := 1, se := q.se + 1, shards := q.shards + 10);
    var q2 := q.(n := q.n + 2, sr := 2, se := q.se + 2, shards := q.shards + 20);
    More(p, moves, q, Drop(0), q1);
    More(p, moves + [Drop(0)], q1, Drop(0), q2);
    More(p, moves + [Drop(0)] + [Drop(0)], q2, Drop(0), x);
    longer := moves + [Drop(0)] + [Drop(0)] + [Drop(0)];
  }

  /** Three commons and a rare, which is new while one is missing. */
  lemma Four(p: Purse, moves: seq<Move>, q: Purse, x: Purse) returns (longer: seq<Move>)
    requires Leads(p, moves, q) && q.sr == 0 && q.se <= 5 && q.c == 5 && q.r <= 5
    requires x == if q.r < 5 then q.(n := q.n + 4, se := q.se + 4, r := q.r + 1, shards := q.shards + 30)
                  else q.(n := q.n + 4, se := q.se + 4, shards := q.shards + 60)
    ensures Leads(p, longer, x)
  {
    var q3 := q.(n := q.n + 3, sr := 3, se := q.se + 3, shards := q.shards + 30);
    longer := Commons(p, moves, q, q3);
    More(p, longer, q3, Drop(1), x);
    longer := longer + [Drop(1)];
  }

  /** A common and an epic, which is new while one is missing. */
  lemma End(p: Purse, moves: seq<Move>, q: Purse, x: Purse) returns (longer: seq<Move>)
    requires Leads(p, moves, q) && q.sr == 0 && q.se == 8 && q.c == 5 && q.e <= 4
    requires x == if q.e < 4 then q.(n := q.n + 2, se := 0, e := q.e + 1, shards := q.shards + 10)
                  else q.(n := q.n + 2, se := 0, shards := q.shards + 90)
    ensures Leads(p, longer, x)
  {
    var q1 := q.(n := q.n + 1, sr := 1, se := 9, shards := q.shards + 10);
    More(p, moves, q, Drop(0), q1);
    More(p, moves + [Drop(0)], q1, Drop(2), x);
    longer := moves + [Drop(0)] + [Drop(2)];
  }

  /** Ten duplicates: seven commons, two rares, an epic. */
  lemma Ten(p: Purse, moves: seq<Move>, q: Purse, x: Purse) returns (longer: seq<Move>)
    requires Leads(p, moves, q) && q.sr == 0 && q.se == 0 && q.c == 5 && q.r == 5 && q.e == 4
    requires x == q.(n := q.n + 10, shards := q.shards + 210)
    ensures Leads(p, longer, x)
  {
    var q4 := q.(n := q.n + 4, se := 4, shards := q.shards + 60);
    var q8 := q.(n := q.n + 8, se := 8, shards := q.shards + 120);
    longer := Four(p, moves, q, q4);
    longer := Four(p, longer, q4, q8);
    longer := End(p, longer, q8, x);
  }

  lemma FirstTen() returns (moves: seq<Move>)
    ensures Leads(NEW_PURSE, moves, Purse(10, 0, 0, 0, 5, 2, 1, 0, 0, 20))
  {
    var p := NEW_PURSE;
    One(p, Drop(0), Purse(1, 1, 1, 0, 1, 0, 0, 0, 0, 0));
    moves := [Drop(0)];
    More(p, moves, Purse(1, 1, 1, 0, 1, 0, 0, 0, 0, 0), Drop(0), Purse(2, 2, 2, 0, 2, 0, 0, 0, 0, 0));
    moves := moves + [Drop(0)];
    More(p, moves, Purse(2, 2, 2, 0, 2, 0, 0, 0, 0, 0), Drop(0), Purse(3, 3, 3, 0, 3, 0, 0, 0, 0, 0));
    moves := moves + [Drop(0)];
    More(p, moves, Purse(3, 3, 3, 0, 3, 0, 0, 0, 0, 0), Drop(1), Purse(4, 0, 4, 0, 3, 1, 0, 0, 0, 0));
    moves := moves + [Drop(1)];
    More(p, moves, Purse(4, 0, 4, 0, 3, 1, 0, 0, 0, 0), Drop(0), Purse(5, 1, 5, 0, 4, 1, 0, 0, 0, 0));
    moves := moves + [Drop(0)];
    More(p, moves, Purse(5, 1, 5, 0, 4, 1, 0, 0, 0, 0), Drop(0), Purse(6, 2, 6, 0, 5, 1, 0, 0, 0, 0));
    moves := moves + [Drop(0)];
    More(p, moves, Purse(6, 2, 6, 0, 5, 1, 0, 0, 0, 0), Drop(0), Purse(7, 3, 7, 0, 5, 1, 0, 0, 0, 10));
    moves := moves + [Drop(0)];
    More(p, moves, Purse(7, 3, 7, 0, 5, 1, 0, 0, 0, 10), Drop(1), Purse(8, 0, 8, 0, 5, 2, 0, 0, 0, 10));
    moves := moves + [Drop(1)];
    moves := End(p, moves, Purse(8, 0, 8, 0, 5, 2, 0, 0, 0, 10), Purse(10, 0, 0, 0, 5, 2, 1, 0, 0, 20));
  }

  /** The fifth rare is crafted before it drops. */
  lemma SecondTen() returns (moves: seq<Move>)
    ensures Leads(NEW_PURSE, moves, Purse(20, 0, 0, 0, 5, 5, 2, 0, 0, 0))
  {
    moves := FirstTen();
    var p := NEW_PURSE;
    moves := Four(p, moves, Purse(10, 0, 0, 0, 5, 2, 1, 0, 0, 20), Purse(14, 0, 4, 0, 5, 3, 1, 0, 0, 50));
    moves := Four(p, moves, Purse(14, 0, 4, 0, 5, 3, 1, 0, 0, 50), Purse(18, 0, 8, 0, 5, 4, 1, 0, 0, 80));
    More(p, moves, Purse(18, 0, 8, 0, 5, 4, 1, 0, 0, 80), Drop(0), Purse(19, 1, 9, 0, 5, 4, 1, 0, 0, 90));
    moves := moves + [Drop(0)];
    More(p, moves, Purse(19, 1, 9, 0, 5, 4, 1, 0, 0, 90), Buy(1), Purse(19, 1, 9, 0, 5, 5, 1, 0, 0, 0));
    moves := moves + [Buy(1)];
    More(p, moves, Purse(19, 1, 9, 0, 5, 5, 1, 0, 0, 0), Drop(2), Purse(20, 0, 0, 0, 5, 5, 2, 0, 0, 0));
    moves := moves + [Drop(2)];
  }

  /** The fourth epic is crafted before it drops. */
  lemma FirstForty() returns (moves: seq<Move>)
    ensures Leads(NEW_PURSE, moves, Purse(40, 0, 0, 0, 5, 5, 4, 0, 1, 90))
  {
    moves := SecondTen();
    var p := NEW_PURSE;
    moves := Four(p, moves, Purse(20, 0, 0, 0, 5, 5, 2, 0, 0, 0), Purse(24, 0, 4, 0, 5, 5, 2, 0, 0, 60));
    moves := Four(p, moves, Purse(24, 0, 4, 0, 5, 5, 2, 0, 0, 60), Purse(28, 0, 8, 0, 5, 5, 2, 0, 0, 120));
    moves := End(p, moves, Purse(28, 0, 8, 0, 5, 5, 2, 0, 0, 120), Purse(30, 0, 0, 0, 5, 5, 3, 0, 0, 130));
    moves := Four(p, moves, Purse(30, 0, 0, 0, 5, 5, 3, 0, 0, 130), Purse(34, 0, 4, 0, 5, 5, 3, 0, 0, 190));
    moves := Four(p, moves, Purse(34, 0, 4, 0, 5, 5, 3, 0, 0, 190), Purse(38, 0, 8, 0, 5, 5, 3, 0, 0, 250));
    More(p, moves, Purse(38, 0, 8, 0, 5, 5, 3, 0, 0, 250), Buy(2), Purse(38, 0, 8, 0, 5, 5, 4, 0, 1, 0));
    moves := moves + [Buy(2)];
    moves := End(p, moves, Purse(38, 0, 8, 0, 5, 5, 4, 0, 1, 0), Purse(40, 0, 0, 0, 5, 5, 4, 0, 1, 90));
  }

  /** Eight drops, two tens and two commons later one legendary can be crafted. */
  lemma FirstSeventy() returns (moves: seq<Move>)
    ensures Leads(NEW_PURSE, moves, Purse(70, 2, 2, 0, 5, 5, 4, 1, 1, 0))
  {
    moves := FirstForty();
    var p := NEW_PURSE;
    moves := Four(p, moves, Purse(40, 0, 0, 0, 5, 5, 4, 0, 1, 90), Purse(44, 0, 4, 0, 5, 5, 4, 0, 1, 150));
    moves := Commons(p, moves, Purse(44, 0, 4, 0, 5, 5, 4, 0, 1, 150), Purse(47, 3, 7, 0, 5, 5, 4, 0, 1, 180));
    More(p, moves, Purse(47, 3, 7, 0, 5, 5, 4, 0, 1, 180), Drop(2), Purse(48, 0, 0, 0, 5, 5, 4, 0, 1, 260));
    moves := moves + [Drop(2)];
    moves := Ten(p, moves, Purse(48, 0, 0, 0, 5, 5, 4, 0, 1, 260), Purse(58, 0, 0, 0, 5, 5, 4, 0, 1, 470));
    moves := Ten(p, moves, Purse(58, 0, 0, 0, 5, 5, 4, 0, 1, 470), Purse(68, 0, 0, 0, 5, 5, 4, 0, 1, 680));
    More(p, moves, Purse(68, 0, 0, 0, 5, 5, 4, 0, 1, 680), Drop(0), Purse(69, 1, 1, 0, 5, 5, 4, 0, 1, 690));
    moves := moves + [Drop(0)];
    More(p, moves, Purse(69, 1, 1, 0, 5, 5, 4, 0, 1, 690), Drop(0), Purse(70, 2, 2, 0, 5, 5, 4, 0, 1, 700));
    moves := moves + [Drop(0)];
    More(p, moves, Purse(70, 2, 2, 0, 5, 5, 4, 0, 1, 700), Buy(3), Purse(70, 2, 2, 0, 5, 5, 4, 1, 1, 0));
    moves := moves + [Buy(3)];
  }

  lemma AllMoves() returns (moves: seq<Move>)
    ensures Leads(NEW_PURSE, moves, Purse(104, 2, 6, 0, 5, 5, 4, 1, 1, 690))
  {
    moves := FirstSeventy();
    var p := NEW_PURSE;
    More(p, moves, Purse(70, 2, 2, 0, 5, 5, 4, 1, 1, 0), Drop(0), Purse(71, 3, 3, 0, 5, 5, 4, 1, 1, 10));
    moves := moves + [Drop(0)];
    More(p, moves, Purse(71, 3, 3, 0, 5, 5, 4, 1, 1, 10), Drop(1), Purse(72, 0, 4, 0, 5, 5, 4, 1, 1, 40));
    moves := moves + [Drop(1)];
    moves := Four(p, moves, Purse(72, 0, 4, 0, 5, 5, 4, 1, 1, 40), Purse(76, 0, 8, 0, 5, 5, 4, 1, 1, 100));
    moves := End(p, moves, Purse(76, 0, 8, 0, 5, 5, 4, 1, 1, 100), Purse(78, 0, 0, 0, 5, 5, 4, 1, 1, 190));
    moves := Ten(p, moves, Purse(78, 0, 0, 0, 5, 5, 4, 1, 1, 190), Purse(88, 0, 0, 0, 5, 5, 4, 1, 1, 400));
    moves := Ten(p, moves, Purse(88, 0, 0, 0, 5, 5, 4, 1, 1, 400), Purse(98, 0, 0, 0, 5, 5, 4, 1, 1, 610));
    moves := Four(p, moves, Purse(98, 0, 0, 0, 5, 5, 4, 1, 1, 610), Purse(102, 0, 4, 0, 5, 5, 4, 1, 1, 670));
    More(p, moves, Purse(102, 0, 4, 0, 5, 5, 4, 1, 1, 670), Drop(0), Purse(103, 1, 5, 0, 5, 5, 4, 1, 1, 680));
    moves := moves + [Drop(0)];
    More(p, moves, Purse(103, 1, 5, 0, 5, 5, 4, 1, 1, 680), Drop(0), Purse(104, 2, 6, 0, 5, 5, 4, 1, 1, 690));
    moves := moves + [Drop(0)];
  }

  // ----- The tables

  lemma Beginning(log: seq<Entry>, t: Tables, p: Purse, owner: string)
    requires log == [] && t == NO_ROWS && p == NEW_PURSE
    ensures Playing(log, t, p, owner)
  {
    EmptyPurse(t, p, owner);
  }

  lemma PlayedOut(p: Purse, moves: seq<Move>, q: Purse, owner: string) returns (log: seq<Entry>, t: Tables)
    requires p == NEW_PURSE && Leads(p, moves, q)
    ensures Playing(log, t, q, owner)
  {
    log, t := [], NO_ROWS;
    Beginning(log, t, p, owner);
    log, t := PlayAll(log, t, p, moves, q, owner);
  }

  lemma MissingLegendary(t: Tables, p: Purse, owner: string) returns (item: ItemId)
    requires IsPurse(p, t, owner) && p.l < 2 && p.shards < 700
    ensures Known(item) && item !in Owned(t, owner) && CraftOutcome(t, owner, item) == NotEnough
  {
    item := ItemToDrop(Owned(t, owner), 3);
    CountIsOwn(p, Owned(t, owner), RewardTables.Crafted(t.crafts, owner), item);
  }

  /** After 104 opened crates an item can still be missing and out of reach. */
  lemma HundredFourAreNotEnough(owner: string) returns (log: seq<Entry>, t: Tables, item: ItemId)
    ensures Reaches(log, t) && |Drops(t.crates, owner)| == 104
    ensures Known(item) && item !in Owned(t, owner) && CraftOutcome(t, owner, item) == NotEnough
  {
    var moves := AllMoves();
    var q := Purse(104, 2, 6, 0, 5, 5, 4, 1, 1, 690);
    log, t := PlayedOut(NEW_PURSE, moves, q, owner);
    item := MissingLegendary(t, q, owner);
  }
}
