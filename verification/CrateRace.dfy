/**
 Opening crates under concurrency.  Each SQL statement of openCrate is one atomic step, so any
 number of opens, crafts and grants may interleave; only the last statement, the conditional
 UPDATE, changes a crate.
 */
module CrateRace {
  import opened Common
  import opened RewardRolls
  import opened RewardTables
  import opened Sql

  type Worker = nat

  /** How far a running openCrate has come, with what its queries returned. */
  datatype Phase =
    | Selected
    | ReadDrops(have: set<ItemId>)
    | ReadCrafts(owned: set<ItemId>)
    | Ready(owned: set<ItemId>, drops: seq<ItemId>)

  datatype Opening = Opening(owner: string, crate: nat, phase: Phase)

  datatype State = State(crates: seq<Crate>, crafts: seq<Craft>, workers: map<Worker, Opening>, now: nat)

  const EMPTY := State([], [], map[], 0)

  datatype Event =
    | Tick(to: nat)
    | Grant(owner: string, source: string)
    | InsertCraft(owner: string, item: ItemId, cost: nat)
    | SelectCrate(worker: Worker, owner: string)
    | QueryDrops(worker: Worker)
    | QueryCrafts(worker: Worker)
    | QueryDropsAgain(worker: Worker)
    | UpdateCrate(worker: Worker, item: ItemId, dupe: bool)

  ghost predicate Enabled(s: State, e: Event) {
    match e
    case Tick(to) => to >= s.now
    case Grant(_, _) => true
    case InsertCraft(_, _, _) => true
    case SelectCrate(w, owner) => w !in s.workers
    case QueryDrops(w) => w in s.workers && s.workers[w].phase.Selected?
    case QueryCrafts(w) => w in s.workers && s.workers[w].phase.ReadDrops?
    case QueryDropsAgain(w) => w in s.workers && s.workers[w].phase.ReadCrafts?
    case UpdateCrate(w, item, dupe) =>
      && w in s.workers && s.workers[w].phase.Ready?
      && CanRoll(s.workers[w].phase.owned, s.workers[w].phase.drops, item, dupe)
  }

  function AfterGrant(s: State, owner: string, source: string): State {
    s.(crates := InsertOrIgnore(s.crates, owner, source, s.now))
  }

  function Shards(item: ItemId, dupe: bool): nat {
    if dupe && Known(item) then ShardsForDuplicate(RarityOf(item).value) else 0
  }

  function Advance(s: State, w: Worker, phase: Phase): State
    requires w in s.workers
  {
    s.(workers := s.workers[w := s.workers[w].(phase := phase)])
  }

  /** UPDATE … WHERE id = ? AND item IS NULL: the loser of a race changes nothing. */
  function AfterUpdate(s: State, w: Worker, item: ItemId, dupe: bool): State
    requires w in s.workers && s.workers[w].crate < |s.crates|
  {
    var k := s.workers[w].crate;
    var done := s.(workers := s.workers - {w});
    if s.crates[k].item.Some? then done
    else done.(crates := s.crates[k := Open(s.crates[k], item, Shards(item, dupe), s.now)])
  }

  function Open(row: Crate, item: ItemId, shards: nat, now: nat): Crate {
    row.(item := Some(item), shards := shards, openedAt := now)
  }

  ghost function Step(s: State, e: Event): State
    requires Enabled(s, e) && WorkersPointAtRows(s)
  {
    match e
    case Tick(to) => s.(now := to)
    case Grant(owner, source) => AfterGrant(s, owner, source)
    case InsertCraft(owner, item, cost) => s.(crafts := s.crafts + [Craft(owner, item, cost)])
    case SelectCrate(w, owner) =>
      (match FirstUnopened(s.crates, owner)
       case None => s
       case Some(k) => s.(workers := s.workers[w := Opening(owner, k, Selected)]))
    case QueryDrops(w) =>
      var drops := RolledItems(s.crates, s.workers[w].owner);
      Advance(s, w, ReadDrops(set id | id in drops && Known(id)))
    case QueryCrafts(w) =>
      var crafted := Crafted(s.crafts, s.workers[w].owner);
      Advance(s, w, ReadCrafts(s.workers[w].phase.have + (set id | id in crafted && Known(id))))
    case QueryDropsAgain(w) =>
      Advance(s, w, Ready(s.workers[w].phase.owned, RolledItems(s.crates, s.workers[w].owner)))
    case UpdateCrate(w, item, dupe) => AfterUpdate(s, w, item, dupe)
  }

  ghost predicate WorkersPointAtRows(s: State) {
    forall w :: w in s.workers ==> s.workers[w].crate < |s.crates|
  }

  // ----- The invariant

  /** Per owner, opened crates form a prefix in id order, opened at non-decreasing times. */
  ghost predicate PrefixOpened(crates: seq<Crate>) {
    forall i, j :: 0 <= i < j < |crates| && crates[i].owner == crates[j].owner && crates[j].item.Some? ==>
      crates[i].item.Some? && crates[i].openedAt <= crates[j].openedAt
  }

  ghost predicate TableOk(crates: seq<Crate>, now: nat) {
    && (forall i :: 0 <= i < |crates| ==> crates[i].id == i + 1)
    && (forall i :: 0 <= i < |crates| && crates[i].item.Some? ==> crates[i].openedAt <= now)
    && PrefixOpened(crates)
  }

  /** A worker chose a crate whose predecessors are all opened; if it has read the drops and its
      crate is still closed, then it has read exactly what the crates before it dropped. */
  ghost predicate WorkerOk(crates: seq<Crate>, o: Opening) {
    && o.crate < |crates|
    && crates[o.crate].owner == o.owner
    && (forall i :: 0 <= i < o.crate && crates[i].owner == o.owner ==> crates[i].item.Some?)
    && (o.phase.Ready? && crates[o.crate].item.None? ==> o.phase.drops == Drops(crates, o.owner))
  }

  ghost predicate Inv(s: State) {
    && TableOk(s.crates, s.now)
    && (forall w :: w in s.workers ==> WorkerOk(s.crates, s.workers[w]))
    && (forall owner :: Fair(Drops(s.crates, owner)))
  }

  /** The ORDER BY opened_at, id of the query is the id order. */
  lemma RolledInIdOrder(crates: seq<Crate>, now: nat, owner: string)
    requires TableOk(crates, now)
    ensures RolledItems(crates, owner) == Drops(crates, owner)
  {
    OpenedRowsOrdered(crates, now, owner);
    OrderedStays(OpenedRows(crates, owner), ByOpenedAtThenId);
  }

  lemma {:induction false} OpenedRowsOrdered(crates: seq<Crate>, now: nat, owner: string)
    requires TableOk(crates, now)
    ensures Ordered(OpenedRows(crates, owner), ByOpenedAtThenId)
  {
    if crates != [] {
      var n := |crates| - 1;
      var front := crates[..n];
      assert forall i :: 0 <= i < n ==> front[i] == crates[i];
      OpenedRowsOrdered(front, now, owner);
      OpenedRowsAreRows(front, owner);
      var rows := OpenedRows(front, owner);
      forall i | 0 <= i < |rows| && crates[n].owner == owner && crates[n].item.Some?
        ensures ByOpenedAtThenId(rows[i], crates[n])
      {
        assert rows[i] in front;
        var j :| 0 <= j < n && crates[j] == rows[i];
      }
    }
  }

  /** The crate a worker may still open is the first closed one of its owner. */
  lemma NothingOpenedAfter(crates: seq<Crate>, o: Opening, now: nat)
    requires TableOk(crates, now) && WorkerOk(crates, o) && crates[o.crate].item.None?
    ensures forall j :: o.crate < j < |crates| && crates[j].owner == o.owner ==> crates[j].item.None?
  {
  }

  lemma DropsAfterOpen(crates: seq<Crate>, k: nat, row: Crate, owner: string)
    requires k < |crates| && crates[k].item.None? && row.item.Some? && row.owner == crates[k].owner
    requires forall j :: k < j < |crates| && crates[j].owner == row.owner ==> crates[j].item.None?
    ensures Drops(crates[k := row], owner) ==
            Drops(crates, owner) + (if owner == row.owner then [row.item.value] else [])
  {
    OpenedRowsUpdate(crates, k, row, owner);
    ItemsOfAppend(OpenedRows(crates, owner), row);
    assert OpenedRows(crates, owner) + [] == OpenedRows(crates, owner);
  }

  // ----- Every step keeps it

  lemma GrantKeepsWorker(crates: seq<Crate>, row: Crate, o: Opening)
    requires row.item.None? && WorkerOk(crates, o)
    ensures WorkerOk(crates + [row], o)
  {
    OpenedRowsAppendUnopened(crates, row, o.owner);
  }

  lemma GrantKeepsInv(s: State, owner: string, source: string)
    requires Inv(s)
    ensures Inv(AfterGrant(s, owner, source))
  {
    var t := AfterGrant(s, owner, source);
    if !HasSource(s.crates, source) {
      var row := NewRow(s.crates, owner, source, s.now);
      assert TableOk(t.crates, t.now);
      forall w | w in t.workers ensures WorkerOk(t.crates, t.workers[w]) {
        GrantKeepsWorker(s.crates, row, s.workers[w]);
      }
      forall o ensures Fair(Drops(t.crates, o)) {
        OpenedRowsAppendUnopened(s.crates, row, o);
        assert Drops(t.crates, o) == Drops(s.crates, o);
      }
    }
  }

  lemma SelectKeepsInv(s: State, w: Worker, owner: string)
    requires Inv(s) && w !in s.workers
    ensures Inv(Step(s, SelectCrate(w, owner)))
  {
    FirstUnopenedIsFirst(s.crates, owner);
  }

  lemma QueryKeepsInv(s: State, e: Event)
    requires Inv(s) && Enabled(s, e)
    requires e.QueryDrops? || e.QueryCrafts? || e.QueryDropsAgain?
    ensures Inv(Step(s, e))
  {
    if e.QueryDropsAgain? {
      RolledInIdOrder(s.crates, s.now, s.workers[e.worker].owner);
    }
  }

  lemma OpenKeepsTable(crates: seq<Crate>, now: nat, o: Opening, item: ItemId, shards: nat)
    requires TableOk(crates, now) && WorkerOk(crates, o) && crates[o.crate].item.None?
    ensures TableOk(crates[o.crate := Open(crates[o.crate], item, shards, now)], now)
  {
    NothingOpenedAfter(crates, o, now);
  }

  /** Another worker of the same owner that is still waiting has lost its crate. */
  lemma OpenKeepsWorkers(crates: seq<Crate>, now: nat, o: Opening, item: ItemId, shards: nat, p: Opening)
    requires TableOk(crates, now) && WorkerOk(crates, o) && crates[o.crate].item.None? && WorkerOk(crates, p)
    ensures WorkerOk(crates[o.crate := Open(crates[o.crate], item, shards, now)], p)
  {
    var row := Open(crates[o.crate], item, shards, now);
    NothingOpenedAfter(crates, o, now);
    DropsAfterOpen(crates, o.crate, row, p.owner);
    if p.owner == o.owner && crates[p.crate].item.None? {
      assert p.crate == o.crate;
    }
  }

  lemma {:induction false} UpdateKeepsInv(s: State, w: Worker, item: ItemId, dupe: bool)
    requires Inv(s) && Enabled(s, UpdateCrate(w, item, dupe))
    ensures Inv(AfterUpdate(s, w, item, dupe))
  {
    var o := s.workers[w];
    var t := AfterUpdate(s, w, item, dupe);
    if s.crates[o.crate].item.None? {
      var row := Open(s.crates[o.crate], item, Shards(item, dupe), s.now);
      NothingOpenedAfter(s.crates, o, s.now);
      OpenKeepsTable(s.crates, s.now, o, item, Shards(item, dupe));
      forall v | v in t.workers ensures WorkerOk(t.crates, t.workers[v]) {
        OpenKeepsWorkers(s.crates, s.now, o, item, Shards(item, dupe), s.workers[v]);
      }
      RollIsFairAndFresh(o.phase.owned, o.phase.drops, item, dupe);
      forall owner ensures Fair(Drops(t.crates, owner)) {
        DropsAfterOpen(s.crates, o.crate, row, owner);
        if owner == row.owner {
          FairAppend(Drops(s.crates, owner), item);
        } else {
          assert Drops(s.crates, owner) + [] == Drops(s.crates, owner);
        }
      }
    }
  }

  lemma StepKeepsInv(s: State, e: Event)
    requires Inv(s) && Enabled(s, e)
    ensures Inv(Step(s, e))
  {
    match e
    case Tick(_) =>
    case Grant(owner, source) => GrantKeepsInv(s, owner, source);
    case InsertCraft(_, _, _) =>
    case SelectCrate(w, owner) => SelectKeepsInv(s, w, owner);
    case QueryDrops(_) => QueryKeepsInv(s, e);
    case QueryCrafts(_) => QueryKeepsInv(s, e);
    case QueryDropsAgain(_) => QueryKeepsInv(s, e);
    case UpdateCrate(w, item, dupe) => UpdateKeepsInv(s, w, item, dupe);
  }

  // ----- Whole runs

  /** s is reached from empty tables by the given steps, in any interleaving. */
  ghost predicate Reaches(events: seq<Event>, s: State)
    decreases |events|
  {
    if events == [] then s == EMPTY
    else
      var e := events[|events| - 1];
      exists p :: Reaches(events[..|events| - 1], p) && WorkersPointAtRows(p) && Enabled(p, e) && Step(p, e) == s
  }

  lemma {:induction false} RunKeepsInv(events: seq<Event>, s: State)
    requires Reaches(events, s)
    ensures Inv(s)
    decreases |events|
  {
    if events != [] {
      var e := events[|events| - 1];
      var p :| Reaches(events[..|events| - 1], p) && WorkersPointAtRows(p) && Enabled(p, e) && Step(p, e) == s;
      RunKeepsInv(events[..|events| - 1], p);
      StepKeepsInv(p, e);
    } else {
      forall owner ensures Fair(Drops(s.crates, owner)) {
      }
    }
  }

  /**
   In every interleaving: opened crates are a prefix of the owner's crates; what the queries call
   "oldest first" is the id order; and bad luck has its ceiling, 4 crates for a rare and 10 for an
   epic.
   */
  lemma {:induction false} PityHoldsInEveryInterleaving(events: seq<Event>, s: State, owner: string, i: nat)
    requires Reaches(events, s)
    ensures PrefixOpened(s.crates)
    ensures RolledItems(s.crates, owner) == Drops(s.crates, owner)
    ensures var items := Drops(s.crates, owner);
            && (i + PITY_RARE_AFTER < |items| ==>
                  exists k :: i <= k <= i + PITY_RARE_AFTER && Known(items[k]) && RankOf(items[k]) >= 1)
            && (i + PITY_EPIC_AFTER < |items| ==>
                  exists k :: i <= k <= i + PITY_EPIC_AFTER && Known(items[k]) && RankOf(items[k]) >= 2)
  {
    RunKeepsInv(events, s);
    RolledInIdOrder(s.crates, s.now, owner);
    PityWindows(Drops(s.crates, owner), i);
  }

  /** A winning open was rolled from exactly the crates before it, and adds its drop after theirs. */
  lemma {:induction false} WinnerRolledFromItsPredecessors(
    events: seq<Event>, s: State, w: Worker, item: ItemId, dupe: bool)
    requires Reaches(events, s) && Enabled(s, UpdateCrate(w, item, dupe)) && WorkersPointAtRows(s)
    requires s.crates[s.workers[w].crate].item.None?
    ensures var o := s.workers[w];
            var before := Drops(s.crates[..o.crate], o.owner);
            && o.phase.drops == before
            && Drops(Step(s, UpdateCrate(w, item, dupe)).crates, o.owner) == before + [item]
  {
    RunKeepsInv(events, s);
    WinnerAppends(s.crates, s.now, s.workers[w], item, Shards(item, dupe));
  }

  lemma WinnerAppends(crates: seq<Crate>, now: nat, o: Opening, item: ItemId, shards: nat)
    requires TableOk(crates, now) && WorkerOk(crates, o) && crates[o.crate].item.None?
    ensures Drops(crates, o.owner) == Drops(crates[..o.crate], o.owner)
    ensures Drops(crates[o.crate := Open(crates[o.crate], item, shards, now)], o.owner) ==
            Drops(crates[..o.crate], o.owner) + [item]
  {
    NothingOpenedAfter(crates, o, now);
    ClosedTailDropsNothing(crates, o.owner, o.crate);
    DropsAfterOpen(crates, o.crate, Open(crates[o.crate], item, shards, now), o.owner);
  }

  lemma {:induction false} ClosedTailDropsNothing(crates: seq<Crate>, owner: string, k: nat)
    requires k <= |crates|
    requires forall j :: k <= j < |crates| && crates[j].owner == owner ==> crates[j].item.None?
    ensures Drops(crates, owner) == Drops(crates[..k], owner)
    decreases |crates|
  {
    if k < |crates| {
      var n := |crates| - 1;
      ClosedTailDropsNothing(crates[..n], owner, k);
      assert crates[..n][..k] == crates[..k];
    } else {
      assert crates[..k] == crates;
    }
  }
}
