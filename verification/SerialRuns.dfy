/** Serial runs of the reward operations are runs of the interleaved model in which nobody is disturbed. */
module SerialRuns {
  import opened Common
  import opened RewardRolls
  import opened RewardTables
  import Race = CrateRace
  import Ledger = RewardLedger

  /** s with a worker that has come to the given phase on crate k. */
  ghost function With(s: Race.State, w: Race.Worker, owner: string, k: nat, phase: Race.Phase): Race.State {
    s.(workers := s.workers[w := Race.Opening(owner, k, phase)])
  }

  ghost predicate Follows(s: Race.State, e: Race.Event, t: Race.State) {
    Race.Enabled(s, e) && Race.WorkersPointAtRows(s) && Race.Step(s, e) == t
  }

  lemma UndisturbedQueries(s: Race.State, w: Race.Worker, owner: string, k: nat)
    requires Race.WorkersPointAtRows(s) && k < |s.crates|
    ensures var drops, owned := RolledItems(s.crates, owner), Inventory(s.crates, s.crafts, owner);
            var have := set id | id in drops && Known(id);
            && Follows(With(s, w, owner, k, Race.Selected), Race.QueryDrops(w),
                       With(s, w, owner, k, Race.ReadDrops(have)))
            && Follows(With(s, w, owner, k, Race.ReadDrops(have)), Race.QueryCrafts(w),
                       With(s, w, owner, k, Race.ReadCrafts(owned)))
            && Follows(With(s, w, owner, k, Race.ReadCrafts(owned)), Race.QueryDropsAgain(w),
                       With(s, w, owner, k, Race.Ready(owned, drops)))
  {
  }

  lemma UndisturbedUpdate(
    s: Race.State, w: Race.Worker, owner: string, k: nat, owned: set<ItemId>, drops: seq<ItemId>,
    item: ItemId, dupe: bool)
    requires Race.WorkersPointAtRows(s) && w !in s.workers && k < |s.crates| && s.crates[k].item.None?
    requires CanRoll(owned, drops, item, dupe)
    ensures Follows(With(s, w, owner, k, Race.Ready(owned, drops)), Race.UpdateCrate(w, item, dupe),
                    s.(crates := s.crates[k := Race.Open(s.crates[k], item, Race.Shards(item, dupe), s.now)]))
  {
    assert With(s, w, owner, k, Race.Ready(owned, drops)).workers - {w} == s.workers;
  }

  /**
   An open that nobody disturbs runs the five statements of the interleaved model in a row and ends
   as the serial operation does.
   */
  lemma {:induction false} UndisturbedOpen(
    s: Race.State, w: Race.Worker, owner: string, k: nat, item: ItemId, dupe: bool)
    returns (s1: Race.State, s2: Race.State, s3: Race.State, s4: Race.State, s5: Race.State)
    requires Race.WorkersPointAtRows(s) && w !in s.workers && FirstUnopened(s.crates, owner) == Some(k)
    requires CanRoll(Inventory(s.crates, s.crafts, owner), RolledItems(s.crates, owner), item, dupe)
    ensures Follows(s, Race.SelectCrate(w, owner), s1) && Follows(s1, Race.QueryDrops(w), s2)
    ensures Follows(s2, Race.QueryCrafts(w), s3) && Follows(s3, Race.QueryDropsAgain(w), s4)
    ensures Follows(s4, Race.UpdateCrate(w, item, dupe), s5)
    ensures var serial := Ledger.AfterOpen(Ledger.Tables(s.crates, s.crafts, s.now), owner, item, dupe);
            s5 == s.(crates := serial.crates)
  {
    FirstUnopenedIsFirst(s.crates, owner);
    var drops, owned := RolledItems(s.crates, owner), Inventory(s.crates, s.crafts, owner);
    s1 := With(s, w, owner, k, Race.Selected);
    s2 := With(s, w, owner, k, Race.ReadDrops(set id | id in drops && Known(id)));
    s3, s4 := With(s, w, owner, k, Race.ReadCrafts(owned)), With(s, w, owner, k, Race.Ready(owned, drops));
    s5 := s.(crates := s.crates[k := Race.Open(s.crates[k], item, Race.Shards(item, dupe), s.now)]);
    UndisturbedQueries(s, w, owner, k);
    UndisturbedUpdate(s, w, owner, k, owned, drops, item, dupe);
  }

  // ----- Whole runs

  lemma Extend(events: seq<Race.Event>, s: Race.State, e: Race.Event, t: Race.State)
    requires Race.Reaches(events, s) && Follows(s, e, t)
    ensures Race.Reaches(events + [e], t)
  {
    var longer := events + [e];
    assert longer[..|longer| - 1] == events && longer[|longer| - 1] == e;
    assert Race.Reaches(longer[..|longer| - 1], s);
  }

  /** The tables with nobody at work on them. */
  ghost function Idle(t: Ledger.Tables): Race.State {
    Race.State(t.crates, t.crafts, map[], t.now)
  }

  lemma ExtendByFive(
    events: seq<Race.Event>,
    s0: Race.State, s1: Race.State, s2: Race.State, s3: Race.State, s4: Race.State, s5: Race.State,
    e0: Race.Event, e1: Race.Event, e2: Race.Event, e3: Race.Event, e4: Race.Event)
    returns (longer: seq<Race.Event>)
    requires Race.Reaches(events, s0)
    requires Follows(s0, e0, s1) && Follows(s1, e1, s2) && Follows(s2, e2, s3)
    requires Follows(s3, e3, s4) && Follows(s4, e4, s5)
    ensures Race.Reaches(longer, s5)
  {
    Extend(events, s0, e0, s1);
    var events1 := events + [e0];
    Extend(events1, s1, e1, s2);
    var events2 := events1 + [e1];
    Extend(events2, s2, e2, s3);
    var events3 := events2 + [e2];
    Extend(events3, s3, e3, s4);
    var events4 := events3 + [e3];
    Extend(events4, s4, e4, s5);
    longer := events4 + [e4];
  }

  lemma OpenIsInterleaved(
    events: seq<Race.Event>, t: Ledger.Tables, owner: string, item: ItemId, dupe: bool)
    returns (longer: seq<Race.Event>)
    requires Race.Reaches(events, Idle(t)) && Ledger.Possible(t, Ledger.OpenCrate(owner, item, dupe))
    ensures Race.Reaches(longer, Idle(Ledger.AfterOpen(t, owner, item, dupe)))
  {
    var s0, k := Idle(t), FirstUnopened(t.crates, owner).value;
    var s1, s2, s3, s4, s5 := UndisturbedOpen(s0, 0, owner, k, item, dupe);
    longer := ExtendByFive(
      events, s0, s1, s2, s3, s4, s5,
      Race.SelectCrate(0, owner), Race.QueryDrops(0), Race.QueryCrafts(0), Race.QueryDropsAgain(0),
      Race.UpdateCrate(0, item, dupe));
  }

  lemma CraftIsInterleaved(
    events: seq<Race.Event>, t: Ledger.Tables, owner: string, item: ItemId) returns (longer: seq<Race.Event>)
    requires Race.Reaches(events, Idle(t))
    ensures Race.Reaches(longer, Idle(Ledger.AfterCraft(t, owner, item)))
  {
    longer := events;
    if Ledger.CraftOutcome(t, owner, item) == Ledger.CraftResult.Crafted {
      var e := Race.InsertCraft(owner, item, CraftCost(RarityOf(item).value));
      Extend(events, Idle(t), e, Idle(Ledger.AfterCraft(t, owner, item)));
      longer := events + [e];
    }
  }

  /** Every serial run is one of the interleaved runs. */
  lemma {:induction false} SerialIsInterleaved(log: seq<Ledger.Entry>, t: Ledger.Tables)
    returns (events: seq<Race.Event>)
    requires Ledger.Reaches(log, t)
    ensures Race.Reaches(events, Idle(t))
    decreases |log|
  {
    if log == [] {
      events := [];
    } else {
      var last := log[|log| - 1];
      var b := last.before;
      events := SerialIsInterleaved(log[..|log| - 1], b);
      match last.action
      case Tick(to) =>
        Extend(events, Idle(b), Race.Tick(to), Idle(t));
        events := events + [Race.Tick(to)];
      case Grant(owner, source) =>
        Extend(events, Idle(b), Race.Grant(owner, source), Idle(t));
        events := events + [Race.Grant(owner, source)];
      case OpenCrate(owner, item, dupe) => events := OpenIsInterleaved(events, b, owner, item, dupe);
      case CraftReward(owner, item) => events := CraftIsInterleaved(events, b, owner, item);
    }
  }
}
