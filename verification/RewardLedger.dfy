/**
 Shards: duplicates earn them, crafting spends them.  craftReward reads the balance and inserts
 without a transaction, so the ledger is stated for serial runs, in which one operation ends before
 the next begins.
 */
module RewardLedger {
  import opened Common
  import opened RewardRolls
  import opened RewardTables
  import opened CrateRace

  /** The two tables and the database clock. */
  datatype Tables = Tables(crates: seq<Crate>, crafts: seq<Craft>, now: nat)

  function Gained(crates: seq<Crate>, owner: string): nat {
    if crates == [] then 0
    else
      var last := crates[|crates| - 1];
      Gained(crates[..|crates| - 1], owner) + (if last.owner == owner then last.shards else 0)
  }

  function Spent(crafts: seq<Craft>, owner: string): nat {
    if crafts == [] then 0
    else
      var last := crafts[|crafts| - 1];
      Spent(crafts[..|crafts| - 1], owner) + (if last.owner == owner then last.cost else 0)
  }

  function Balance(t: Tables, owner: string): int {
    Gained(t.crates, owner) - Spent(t.crafts, owner)
  }

  function Owned(t: Tables, owner: string): set<ItemId> {
    Inventory(t.crates, t.crafts, owner)
  }

  // ----- The operations

  datatype Action =
    | Tick(to: nat)
    | Grant(owner: string, source: string)
    | OpenCrate(owner: string, item: ItemId, dupe: bool)
    | CraftReward(owner: string, item: ItemId)

  /** The item an open reports is one that can be rolled from the tables as they are. */
  ghost predicate Possible(t: Tables, a: Action) {
    match a
    case Tick(to) => to >= t.now
    case Grant(_, _) => true
    case OpenCrate(owner, item, dupe) =>
      && FirstUnopened(t.crates, owner).Some?
      && CanRoll(Owned(t, owner), RolledItems(t.crates, owner), item, dupe)
    case CraftReward(_, _) => true
  }

  function AfterGrantIn(t: Tables, owner: string, source: string): Tables {
    t.(crates := InsertOrIgnore(t.crates, owner, source, t.now))
  }

  function AfterOpen(t: Tables, owner: string, item: ItemId, dupe: bool): Tables
    requires FirstUnopened(t.crates, owner).Some?
  {
    OpenAt(t, FirstUnopened(t.crates, owner).value, item, dupe)
  }

  function OpenAt(t: Tables, k: nat, item: ItemId, dupe: bool): Tables
    requires k < |t.crates|
  {
    t.(crates := t.crates[k := Open(t.crates[k], item, Shards(item, dupe), t.now)])
  }

  datatype CraftResult = Crafted | Unknown | AlreadyOwned | NotEnough

  function CraftOutcome(t: Tables, owner: string, item: ItemId): CraftResult {
    if !Known(item) then Unknown
    else if item in Owned(t, owner) then AlreadyOwned
    else if Balance(t, owner) < CraftCost(RarityOf(item).value) then NotEnough
    else CraftResult.Crafted
  }

  function AfterCraft(t: Tables, owner: string, item: ItemId): Tables {
    if CraftOutcome(t, owner, item) != CraftResult.Crafted then t
    else t.(crafts := t.crafts + [Craft(owner, item, CraftCost(RarityOf(item).value))])
  }

  ghost function Step(t: Tables, a: Action): Tables
    requires Possible(t, a)
  {
    match a
    case Tick(to) => t.(now := to)
    case Grant(owner, source) => AfterGrantIn(t, owner, source)
    case OpenCrate(owner, item, dupe) => AfterOpen(t, owner, item, dupe)
    case CraftReward(owner, item) => AfterCraft(t, owner, item)
  }

  // ----- How the sums react to the statements

  lemma {:induction false} SumsAfterOpen(crates: seq<Crate>, k: nat, row: Crate, owner: string)
    requires k < |crates| && crates[k].shards == 0 && row.owner == crates[k].owner
    ensures Gained(crates[k := row], owner) == Gained(crates, owner) + (if owner == row.owner then row.shards else 0)
  {
    var n := |crates| - 1;
    if k == n {
      assert crates[k := row][..n] == crates[..n];
    } else {
      assert crates[k := row][..n] == crates[..n][k := row];
      SumsAfterOpen(crates[..n], k, row, owner);
    }
  }

  lemma SumsAfterGrant(crates: seq<Crate>, row: Crate, owner: string)
    requires row.shards == 0
    ensures Gained(crates + [row], owner) == Gained(crates, owner)
  {
    assert (crates + [row])[..|crates|] == crates;
  }

  lemma SumsAfterCraft(crafts: seq<Craft>, c: Craft, owner: string)
    ensures Spent(crafts + [c], owner) == Spent(crafts, owner) + (if c.owner == owner then c.cost else 0)
    ensures RewardTables.Crafted(crafts + [c], owner) ==
            RewardTables.Crafted(crafts, owner) + (if c.owner == owner then {c.item} else {})
  {
    assert (crafts + [c])[..|crafts|] == crafts;
  }

  // ----- The invariant of serial runs

  ghost predicate RowsOk(t: Tables) {
    && TableOk(t.crates, t.now)
    && (forall i :: 0 <= i < |t.crates| && t.crates[i].item.None? ==> t.crates[i].shards == 0)
    && (forall i :: 0 <= i < |t.crates| && t.crates[i].item.Some? ==> Known(t.crates[i].item.value))
    && (forall i :: 0 <= i < |t.crafts| ==> Known(t.crafts[i].item))
  }

  /** One owner's books: nothing was spent that had not been gained, and every drop respected its pity floor. */
  ghost predicate BooksOk(t: Tables, owner: string) {
    Balance(t, owner) >= 0 && Fair(Drops(t.crates, owner))
  }

  ghost predicate Inv(t: Tables) {
    RowsOk(t) && forall owner :: BooksOk(t, owner)
  }

  const NO_ROWS := Tables([], [], 0)

  lemma DropsAreKnown(t: Tables, owner: string)
    requires RowsOk(t)
    ensures forall id :: id in Drops(t.crates, owner) ==> Known(id)
  {
    OpenedRowsAreRows(t.crates, owner);
    var rows := OpenedRows(t.crates, owner);
    forall i | 0 <= i < |rows| ensures Known(ItemOf(rows[i])) {
      assert rows[i] in t.crates;
    }
  }

  /** Inventory in terms of the drops in id order. */
  lemma {:induction false} OwnedMembers(t: Tables, owner: string)
    requires RowsOk(t)
    ensures Owned(t, owner) == (set id | id in Drops(t.crates, owner)) + RewardTables.Crafted(t.crafts, owner)
  {
    RolledInIdOrder(t.crates, t.now, owner);
    DropsAreKnown(t, owner);
  }

  /** Crate k is the next one its owner opens. */
  ghost predicate NextToOpen(t: Tables, k: nat, owner: string) {
    WorkerOk(t.crates, Opening(owner, k, Selected)) && t.crates[k].item.None?
  }

  lemma FirstUnopenedIsNext(t: Tables, owner: string)
    requires FirstUnopened(t.crates, owner).Some?
    ensures NextToOpen(t, FirstUnopened(t.crates, owner).value, owner)
  {
    FirstUnopenedIsFirst(t.crates, owner);
  }

  lemma OpenKeepsRows(t: Tables, k: nat, owner: string, item: ItemId, dupe: bool)
    requires RowsOk(t) && NextToOpen(t, k, owner) && Known(item)
    ensures RowsOk(OpenAt(t, k, item, dupe))
  {
    OpenKeepsTable(t.crates, t.now, Opening(owner, k, Selected), item, Shards(item, dupe));
  }

  lemma OpenMovesSums(t: Tables, k: nat, owner: string, item: ItemId, dupe: bool, who: string)
    requires k < |t.crates| && t.crates[k].shards == 0 && t.crates[k].owner == owner && Known(item)
    ensures Gained(OpenAt(t, k, item, dupe).crates, who) ==
            Gained(t.crates, who) + (if who == owner then Shards(item, dupe) else 0)
  {
    SumsAfterOpen(t.crates, k, Open(t.crates[k], item, Shards(item, dupe), t.now), who);
  }

  lemma OpenMovesDrops(t: Tables, k: nat, owner: string, item: ItemId, dupe: bool, who: string)
    requires RowsOk(t) && NextToOpen(t, k, owner)
    ensures Drops(OpenAt(t, k, item, dupe).crates, who) == Drops(t.crates, who) + (if who == owner then [item] else [])
  {
    NothingOpenedAfter(t.crates, Opening(owner, k, Selected), t.now);
    DropsAfterOpen(t.crates, k, Open(t.crates[k], item, Shards(item, dupe), t.now), who);
  }

  lemma {:induction false} OpenMovesOwned(t: Tables, k: nat, owner: string, item: ItemId, dupe: bool, who: string)
    requires RowsOk(t) && NextToOpen(t, k, owner) && Known(item)
    ensures Owned(OpenAt(t, k, item, dupe), who) == Owned(t, who) + (if who == owner then {item} else {})
  {
    OpenMovesDrops(t, k, owner, item, dupe, who);
    OpenKeepsRows(t, k, owner, item, dupe);
    OwnedMembers(t, who);
    OwnedMembers(OpenAt(t, k, item, dupe), who);
  }

  /** The item is one that may be rolled next: above the pity floor, and a duplicate exactly if owned. */
  ghost predicate Rollable(t: Tables, owner: string, item: ItemId, dupe: bool) {
    Known(item) && RankOf(item) >= PityFloor(Drops(t.crates, owner)) && (dupe <==> item in Owned(t, owner))
  }

  lemma PossibleIsRollable(t: Tables, owner: string, item: ItemId, dupe: bool)
    requires RowsOk(t) && CanRoll(Owned(t, owner), RolledItems(t.crates, owner), item, dupe)
    ensures Rollable(t, owner, item, dupe)
  {
    RollIsFairAndFresh(Owned(t, owner), RolledItems(t.crates, owner), item, dupe);
    RolledInIdOrder(t.crates, t.now, owner);
  }

  lemma {:induction false} OpenKeepsBooks(t: Tables, k: nat, owner: string, item: ItemId, dupe: bool, who: string)
    requires RowsOk(t) && BooksOk(t, who) && NextToOpen(t, k, owner) && Rollable(t, owner, item, dupe)
    ensures BooksOk(OpenAt(t, k, item, dupe), who)
  {
    OpenMovesSums(t, k, owner, item, dupe, who);
    OpenMovesDrops(t, k, owner, item, dupe, who);
    if who == owner {
      FairAppend(Drops(t.crates, who), item);
    } else {
      assert Drops(t.crates, who) + [] == Drops(t.crates, who);
    }
  }

  lemma OpenKeepsInv(t: Tables, k: nat, owner: string, item: ItemId, dupe: bool)
    requires Inv(t) && NextToOpen(t, k, owner) && Rollable(t, owner, item, dupe)
    ensures Inv(OpenAt(t, k, item, dupe))
  {
    OpenKeepsRows(t, k, owner, item, dupe);
    forall who ensures BooksOk(OpenAt(t, k, item, dupe), who) {
      OpenKeepsBooks(t, k, owner, item, dupe, who);
    }
  }

  lemma CraftKeepsRows(t: Tables, owner: string, item: ItemId)
    requires RowsOk(t) && CraftOutcome(t, owner, item) == CraftResult.Crafted
    ensures RowsOk(AfterCraft(t, owner, item))
  {
  }

  lemma {:induction false} CraftEffect(t: Tables, owner: string, item: ItemId, who: string)
    requires RowsOk(t) && CraftOutcome(t, owner, item) == CraftResult.Crafted
    ensures RowsOk(AfterCraft(t, owner, item))
    ensures Owned(AfterCraft(t, owner, item), who) == Owned(t, who) + (if who == owner then {item} else {})
  {
    CraftKeepsRows(t, owner, item);
    SumsAfterCraft(t.crafts, Craft(owner, item, CraftCost(RarityOf(item).value)), who);
    OwnedMembers(t, who);
    OwnedMembers(AfterCraft(t, owner, item), who);
  }

  lemma {:induction false} CraftKeepsBooks(t: Tables, owner: string, item: ItemId, who: string)
    requires BooksOk(t, who) && CraftOutcome(t, owner, item) == CraftResult.Crafted
    ensures BooksOk(AfterCraft(t, owner, item), who)
  {
    SumsAfterCraft(t.crafts, Craft(owner, item, CraftCost(RarityOf(item).value)), who);
  }

  lemma GrantKeepsRows(t: Tables, row: Crate)
    requires RowsOk(t) && row.item.None? && row.shards == 0 && row.id == |t.crates| + 1
    ensures RowsOk(t.(crates := t.crates + [row]))
  {
  }

  lemma {:induction false} GrantEffect(t: Tables, row: Crate, who: string)
    requires row.item.None? && row.shards == 0
    ensures Drops(t.crates + [row], who) == Drops(t.crates, who)
    ensures Owned(t.(crates := t.crates + [row]), who) == Owned(t, who)
    ensures Balance(t.(crates := t.crates + [row]), who) == Balance(t, who)
  {
    OpenedRowsAppendUnopened(t.crates, row, who);
    SumsAfterGrant(t.crates, row, who);
  }

  lemma {:induction false} GrantKeepsBooks(t: Tables, row: Crate, who: string)
    requires BooksOk(t, who) && row.item.None? && row.shards == 0
    ensures BooksOk(t.(crates := t.crates + [row]), who)
  {
    GrantEffect(t, row, who);
  }

  lemma {:induction false} StepKeepsInv(t: Tables, a: Action)
    requires Inv(t) && Possible(t, a)
    ensures Inv(Step(t, a))
  {
    var u := Step(t, a);
    match a
    case Tick(_) =>
      forall who ensures BooksOk(u, who) {
        assert BooksOk(t, who);
      }
    case Grant(owner, source) =>
      if !HasSource(t.crates, source) {
        var row := NewRow(t.crates, owner, source, t.now);
        GrantKeepsRows(t, row);
        forall who ensures BooksOk(u, who) {
          GrantKeepsBooks(t, row, who);
        }
      }
    case OpenCrate(owner, item, dupe) =>
      PossibleIsRollable(t, owner, item, dupe);
      FirstUnopenedIsNext(t, owner);
      OpenKeepsInv(t, FirstUnopened(t.crates, owner).value, owner, item, dupe);
    case CraftReward(owner, item) =>
      if u != t {
        CraftEffect(t, owner, item, owner);
        forall who ensures BooksOk(u, who) {
          CraftKeepsBooks(t, owner, item, who);
        }
      }
  }

  // ----- Whole serial runs

  /** A run: each operation with the tables it found. */
  datatype Entry = Entry(before: Tables, action: Action)

  ghost predicate Reaches(log: seq<Entry>, t: Tables)
    decreases |log|
  {
    if log == [] then t == NO_ROWS
    else
      var last := log[|log| - 1];
      && Reaches(log[..|log| - 1], last.before)
      && Possible(last.before, last.action) && Step(last.before, last.action) == t
  }

  lemma {:induction false} RunKeepsInv(log: seq<Entry>, t: Tables)
    requires Reaches(log, t)
    ensures Inv(t)
    decreases |log|
  {
    if log == [] {
      forall owner ensures BooksOk(t, owner) {
        assert Drops(t.crates, owner) == [];
      }
    } else {
      var last := log[|log| - 1];
      RunKeepsInv(log[..|log| - 1], last.before);
      StepKeepsInv(last.before, last.action);
    }
  }

  /** Nobody spends shards that were not gained. */
  lemma {:induction false} BalanceIsNeverNegative(log: seq<Entry>, t: Tables, owner: string)
    requires Reaches(log, t)
    ensures Balance(t, owner) >= 0
  {
    RunKeepsInv(log, t);
    assert BooksOk(t, owner);
  }

  /** What an action adds to an owner's balance: the price of a duplicate, or minus a craft cost. */
  ghost function Movement(t: Tables, a: Action, owner: string): int
    requires Possible(t, a)
  {
    match a
    case OpenCrate(o, item, dupe) => if o == owner && item in Owned(t, o) then Shards(item, true) else 0
    case CraftReward(o, item) =>
      if o == owner && CraftOutcome(t, o, item) == CraftResult.Crafted
      then -(CraftCost(RarityOf(item).value) as int) else 0
    case _ => 0
  }

  lemma OpenMovesBalance(t: Tables, k: nat, o: string, item: ItemId, dupe: bool, owner: string)
    requires RowsOk(t) && NextToOpen(t, k, o) && Known(item)
    ensures Balance(OpenAt(t, k, item, dupe), owner) ==
            Balance(t, owner) + (if o == owner then Shards(item, dupe) else 0)
    ensures Owned(t, owner) <= Owned(OpenAt(t, k, item, dupe), owner)
  {
    OpenMovesSums(t, k, o, item, dupe, owner);
    OpenMovesOwned(t, k, o, item, dupe, owner);
  }

  lemma CraftMovesBalance(t: Tables, o: string, item: ItemId, owner: string)
    requires RowsOk(t) && CraftOutcome(t, o, item) == CraftResult.Crafted
    ensures Balance(AfterCraft(t, o, item), owner) ==
            Balance(t, owner) - (if o == owner then CraftCost(RarityOf(item).value) else 0)
    ensures Owned(t, owner) <= Owned(AfterCraft(t, o, item), owner)
  {
    CraftEffect(t, o, item, owner);
    SumsAfterCraft(t.crafts, Craft(o, item, CraftCost(RarityOf(item).value)), owner);
  }

  /**
   Conservation: a balance moves only by the shards of a duplicate dropped or the cost of an item
   crafted, inventories only grow, and a duplicate is dropped only to an owner of the whole rarity.
   */
  lemma {:induction false} LedgerStep(t: Tables, a: Action, owner: string)
    requires Inv(t) && Possible(t, a)
    ensures Balance(Step(t, a), owner) == Balance(t, owner) + Movement(t, a, owner)
    ensures Owned(t, owner) <= Owned(Step(t, a), owner)
    ensures a.OpenCrate? && a.dupe ==>
              forall other :: RarityOf(other) == RarityOf(a.item) ==> other in Owned(t, a.owner)
    ensures a.OpenCrate? && !a.dupe ==> a.item !in Owned(t, a.owner)
  {
    match a
    case Tick(_) =>
    case Grant(o, source) =>
      if !HasSource(t.crates, source) {
        GrantEffect(t, NewRow(t.crates, o, source, t.now), owner);
      }
    case OpenCrate(o, item, dupe) =>
      RollIsFairAndFresh(Owned(t, o), RolledItems(t.crates, o), item, dupe);
      FirstUnopenedIsNext(t, o);
      OpenMovesBalance(t, FirstUnopened(t.crates, o).value, o, item, dupe, owner);
    case CraftReward(o, item) =>
      if CraftOutcome(t, o, item) == CraftResult.Crafted {
        CraftMovesBalance(t, o, item, owner);
      }
  }

  /** What the operations of a run, taken one by one, add to an owner's balance. */
  ghost function Movements(log: seq<Entry>, owner: string): int {
    if log == [] then 0
    else
      var last := log[|log| - 1];
      Movements(log[..|log| - 1], owner) +
      (if Possible(last.before, last.action) then Movement(last.before, last.action, owner) else 0)
  }

  /** Over a whole run the balance is the sum of the movements. */
  lemma {:induction false} BalanceIsSumOfMovements(log: seq<Entry>, t: Tables, owner: string)
    requires Reaches(log, t)
    ensures Balance(t, owner) == Movements(log, owner)
    decreases |log|
  {
    if log != [] {
      var front, last := log[..|log| - 1], log[|log| - 1];
      BalanceIsSumOfMovements(front, last.before, owner);
      RunKeepsInv(front, last.before);
      LedgerStep(last.before, last.action, owner);
    }
  }

  /** What the owner had in t is still there in u. */
  ghost predicate Keeps(t: Tables, u: Tables, owner: string) {
    Owned(t, owner) <= Owned(u, owner)
  }

  lemma KeepsOnward(t: Tables, u: Tables, v: Tables, owner: string)
    requires Keeps(t, u, owner) && Keeps(u, v, owner)
    ensures Keeps(t, v, owner)
  {
    var a, b, c := Owned(t, owner), Owned(u, owner), Owned(v, owner);
    assert a <= b <= c;
  }

  lemma LastKeeps(log: seq<Entry>, t: Tables, owner: string)
    requires Reaches(log, t) && log != []
    ensures Reaches(log[..|log| - 1], log[|log| - 1].before) && Keeps(log[|log| - 1].before, t, owner)
  {
    var last := log[|log| - 1];
    RunKeepsInv(log[..|log| - 1], last.before);
    LedgerStep(last.before, last.action, owner);
  }

  /** No operation of a run takes an item away: what was there before the i-th operation stays. */
  lemma {:induction false} InventoryOnlyGrows(log: seq<Entry>, t: Tables, i: nat, was: Tables, owner: string)
    requires Reaches(log, t) && i < |log| && was == log[i].before
    ensures Keeps(was, t, owner)
    decreases |log|
  {
    LastKeeps(log, t, owner);
    if i < |log| - 1 {
      var before := log[|log| - 1].before;
      InventoryOnlyGrows(log[..|log| - 1], before, i, was, owner);
      KeepsOnward(was, before, t, owner);
    }
  }
}
