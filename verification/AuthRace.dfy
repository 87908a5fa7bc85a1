/**
 The tracker of failed sign-ins when handlers run side by side.  A handler asks whether its address is
 throttled, checks the password without holding the tracker's lock, and then records the outcome.
 */
module AuthRace {
  import opened Common
  import opened NatSets
  import opened AuthTracker

  /** passing: the handlers that were let through and have not recorded their outcome, with their addresses. */
  datatype Desk = Desk(tracker: Tracker, passing: map<nat, string>, now: nat)

  const IDLE := Desk(EMPTY, map[], 0)

  datatype Act =
    | Clock(to: nat)
    | Check(w: nat, ip: string)
    | Reject(w: nat, user: string)
    | Accept(w: nat, user: string)
    | Leave(w: nat)
    | Other(event: Event)

  predicate Throttled(s: Desk, ip: string) {
    Reached(s.tracker.ips, ip, s.now, IP_WINDOW, IP_FAIL_THRESHOLD)
  }

  ghost predicate CanAct(s: Desk, a: Act) {
    match a
    case Clock(to) => to >= s.now
    case Check(w, _) => w !in s.passing
    case Reject(w, _) => w in s.passing
    case Accept(w, _) => w in s.passing
    case Leave(w) => w in s.passing
    case Other(event) => !event.RecordFail?
  }

  /** The operation on the tracker that an action makes. */
  function Operation(s: Desk, a: Act): Option<Event> {
    match a
    case Clock(_) => None
    case Check(_, ip) => Some(IsIpThrottled(ip))
    case Reject(w, user) => if w in s.passing then Some(RecordFail(s.passing[w], user)) else None
    case Accept(w, user) => if w in s.passing then Some(RecordSuccess(s.passing[w], user)) else None
    case Leave(_) => None
    case Other(event) => Some(event)
  }

  function NextPassing(s: Desk, a: Act): map<nat, string> {
    match a
    case Check(w, ip) => if Throttled(s, ip) then s.passing else s.passing[w := ip]
    case Reject(w, _) => s.passing - {w}
    case Accept(w, _) => s.passing - {w}
    case Leave(w) => s.passing - {w}
    case _ => s.passing
  }

  ghost function Next(s: Desk, a: Act): Desk
    requires CanAct(s, a)
  {
    var operation := Operation(s, a);
    Desk(if operation.Some? then After(s.tracker, operation.value, s.now) else s.tracker, NextPassing(s, a),
         if a.Clock? then a.to else s.now)
  }

  datatype Step = Step(before: Desk, act: Act)

  ghost predicate Leads(log: seq<Step>, s: Desk)
    decreases |log|
  {
    if log == [] then s == IDLE
    else
      var last := log[|log| - 1];
      Leads(log[..|log| - 1], last.before) && CanAct(last.before, last.act) && Next(last.before, last.act) == s
  }

  /** The handlers of an address that were let through and are still at work. */
  function Flight(s: Desk, ip: string): set<nat> {
    set w | w in s.passing && s.passing[w] == ip
  }

  /** Whenever something happened, and now, at most n handlers of the address were at work. */
  ghost predicate AtMostAtOnce(log: seq<Step>, s: Desk, ip: string, n: nat) {
    |Flight(s, ip)| <= n && forall i :: 0 <= i < |log| ==> |Flight(log[i].before, ip)| <= n
  }

  // ----- Counters

  /** No counter passes 4 + n, and one that still counts leaves room for the handlers at work. */
  ghost predicate CounterOk(s: Desk, ip: string, n: nat) {
    ip in s.tracker.ips ==>
      && s.tracker.ips[ip].count <= IP_FAIL_THRESHOLD - 1 + n
      && (!Stale(s.tracker.ips[ip], s.now, IP_WINDOW) ==>
            s.tracker.ips[ip].count + |Flight(s, ip)| <= IP_FAIL_THRESHOLD - 1 + n)
  }

  lemma FlightStep(s: Desk, a: Act, ip: string)
    requires CanAct(s, a)
    ensures var f, g := Flight(s, ip), Flight(Next(s, a), ip);
            if a.Check? && a.ip == ip && !Throttled(s, ip) then true
            else if a.Reject? && s.passing[a.w] == ip then a.w in f && g == f - {a.w}
            else g <= f
  {
  }

  /** Outside a failure of the address its counter stays as it is, or goes. */
  lemma CounterUntouched(s: Desk, a: Act, ip: string)
    requires CanAct(s, a) && !(a.Reject? && s.passing[a.w] == ip) && ip in Next(s, a).tracker.ips
    ensures ip in s.tracker.ips && Next(s, a).tracker.ips[ip] == s.tracker.ips[ip]
  {
    var operation := Operation(s, a);
    if operation.Some? {
      EntryAfter(s.tracker, operation.value, s.now, Address, ip);
    }
  }

  lemma FailKeepsCounter(s: Desk, a: Act, ip: string, n: nat)
    requires CanAct(s, a) && a.Reject? && s.passing[a.w] == ip
    requires CounterOk(s, ip, n) && |Flight(s, ip)| <= n
    ensures CounterOk(Next(s, a), ip, n)
  {
    FlightStep(s, a, ip);
    assert |Flight(Next(s, a), ip)| == |Flight(s, ip)| - 1;
  }

  lemma ActKeepsCounter(s: Desk, a: Act, ip: string, n: nat)
    requires CanAct(s, a) && CounterOk(s, ip, n) && |Flight(s, ip)| <= n && |Flight(Next(s, a), ip)| <= n
    ensures CounterOk(Next(s, a), ip, n)
  {
    if a.Reject? && s.passing[a.w] == ip {
      FailKeepsCounter(s, a, ip, n);
    } else if ip in Next(s, a).tracker.ips {
      CounterUntouched(s, a, ip);
      FlightStep(s, a, ip);
      if !(a.Check? && a.ip == ip && !Throttled(s, ip)) {
        SubsetIsSmaller(Flight(Next(s, a), ip), Flight(s, ip));
      }
    }
  }

  lemma {:induction false} CountersHold(log: seq<Step>, s: Desk, ip: string, n: nat)
    requires Leads(log, s) && AtMostAtOnce(log, s, ip, n)
    ensures CounterOk(s, ip, n)
    decreases |log|
  {
    if log != [] {
      var front, last := log[..|log| - 1], log[|log| - 1];
      assert forall i :: 0 <= i < |front| ==> front[i] == log[i];
      assert |Flight(log[|log| - 1].before, ip)| <= n;
      CountersHold(front, last.before, ip, n);
      ActKeepsCounter(last.before, last.act, ip, n);
    }
  }

  /** If at most n handlers of an address are ever at work at once, its counter never passes 4 + n. */
  lemma CounterBound(log: seq<Step>, s: Desk, ip: string, n: nat)
    requires Leads(log, s) && AtMostAtOnce(log, s, ip, n) && ip in s.tracker.ips
    ensures s.tracker.ips[ip].count <= IP_FAIL_THRESHOLD - 1 + n
  {
    CountersHold(log, s, ip, n);
  }

  /** Below 46 handlers at once the automatic block is out of reach. */
  lemma BlockNeedsFortySix(log: seq<Step>, s: Desk, ip: string)
    requires Leads(log, s) && Answer(s.tracker, ShouldAutoBlock(ip), s.now) == Some(true)
    ensures !AtMostAtOnce(log, s, ip, IP_BLOCK_THRESHOLD - IP_FAIL_THRESHOLD)
  {
    if AtMostAtOnce(log, s, ip, IP_BLOCK_THRESHOLD - IP_FAIL_THRESHOLD) {
      CounterBound(log, s, ip, IP_BLOCK_THRESHOLD - IP_FAIL_THRESHOLD);
    }
  }

  // ----- Failures in a span

  predicate FailsAt(x: Step, ip: string) {
    x.act.Reject? && x.act.w in x.before.passing && x.before.passing[x.act.w] == ip
  }

  /** A recorded success of the address, by a handler or otherwise. */
  predicate SucceedsAt(x: Step, ip: string) {
    var operation := Operation(x.before, x.act);
    operation.Some? && operation.value.RecordSuccess? && operation.value.ip == ip
  }

  ghost function Failures(log: seq<Step>, ip: string, i: nat): nat
    requires i <= |log|
    decreases |log|
  {
    if i == |log| then 0
    else Failures(log[..|log| - 1], ip, i) + (if FailsAt(log[|log| - 1], ip) then 1 else 0)
  }

  lemma {:induction false} DeskIsTimed(log: seq<Step>, s: Desk)
    requires Leads(log, s)
    ensures TrackerOk(s.tracker, s.now)
    decreases |log|
  {
    if log != [] {
      var last := log[|log| - 1];
      DeskIsTimed(log[..|log| - 1], last.before);
      var operation := Operation(last.before, last.act);
      if operation.Some? {
        StaysOk(last.before.tracker, operation.value, last.before.now);
      } else {
        OkLater(last.before.tracker, last.before.now, s.now);
      }
    }
  }

  lemma ActKeepsBudget(s: Desk, a: Act, ip: string, w: nat, n: nat, cap: nat)
    requires CanAct(s, a) && TrackerOk(s.tracker, s.now) && w <= s.now <= w + IP_WINDOW
    requires Budget(s.tracker.ips, ip, w, n, cap) && (ip in s.tracker.ips ==> s.tracker.ips[ip].count <= cap)
    requires !SucceedsAt(Step(s, a), ip)
    ensures Budget(Next(s, a).tracker.ips, ip, w, n + (if FailsAt(Step(s, a), ip) then 1 else 0), cap)
  {
    var operation := Operation(s, a);
    if FailsAt(Step(s, a), ip) {
      AddKeepsBudget(s.tracker.ips, ip, w, n, s.now, IP_WINDOW, cap);
    } else if operation.Some? {
      OtherKeepsBudget(s.tracker, operation.value, Address, ip, w, n, s.now, cap);
    }
  }

  lemma {:induction false} SpanBudget(log: seq<Step>, s: Desk, ip: string, i: nat, w: nat, n: nat)
    requires Leads(log, s) && AtMostAtOnce(log, s, ip, n) && i <= |log|
    requires forall k :: i <= k < |log| ==> w <= log[k].before.now <= w + IP_WINDOW && !SucceedsAt(log[k], ip)
    ensures Budget(s.tracker.ips, ip, w, Failures(log, ip, i), IP_FAIL_THRESHOLD - 1 + n)
    decreases |log|
  {
    CountersHold(log, s, ip, n);
    DeskIsTimed(log, s);
    if i < |log| {
      var front, last := log[..|log| - 1], log[|log| - 1];
      assert forall k :: 0 <= k < |front| ==> front[k] == log[k];
      SpanBudget(front, last.before, ip, i, w, n);
      CountersHold(front, last.before, ip, n);
      DeskIsTimed(front, last.before);
      ActKeepsBudget(last.before, last.act, ip, w, Failures(front, ip, i), IP_FAIL_THRESHOLD - 1 + n);
    }
  }

  /** A 15-minute span without a success holds at most 7 + 2n failures from one address; with n = 1, nine. */
  lemma FailuresInASpan(log: seq<Step>, s: Desk, ip: string, i: nat, w: nat, n: nat)
    requires Leads(log, s) && AtMostAtOnce(log, s, ip, n) && i <= |log|
    requires forall k :: i <= k < |log| ==> w <= log[k].before.now <= w + IP_WINDOW && !SucceedsAt(log[k], ip)
    ensures Failures(log, ip, i) <= 2 * (IP_FAIL_THRESHOLD - 1 + n) - 1
  {
    SpanBudget(log, s, ip, i, w, n);
    CountersHold(log, s, ip, n);
  }

  // ----- The bound is attained

  /** The tracker after c failures of the address at time 0. */
  ghost function Failed(ip: string, c: nat): Tracker {
    if c == 0 then EMPTY else Just(ip, Fail(c, 0, 0))
  }

  /** The handlers from c up to i, all of one address. */
  ghost predicate AtWork(passing: map<nat, string>, ip: string, i: nat, c: nat) {
    c <= i && passing.Keys == Range(c, i) && forall w :: w in passing ==> passing[w] == ip
  }

  /** The address has failed c times, all at time 0, and the handlers from c on, up to i, are at work. */
  ghost predicate Stage(s: Desk, ip: string, i: nat, c: nat) {
    s.now == 0 && s.tracker == Failed(ip, c) && AtWork(s.passing, ip, i, c)
  }

  lemma FlightAtStage(s: Desk, ip: string, i: nat, c: nat)
    requires Stage(s, ip, i, c)
    ensures |Flight(s, ip)| == i - c
  {
    assert Flight(s, ip) == Range(c, i);
  }

  lemma Extend(log: seq<Step>, s: Desk, a: Act, ip: string, n: nat) returns (longer: seq<Step>, t: Desk)
    requires Leads(log, s) && AtMostAtOnce(log, s, ip, n) && CanAct(s, a) && |Flight(Next(s, a), ip)| <= n
    ensures Leads(longer, t) && t == Next(s, a) && AtMostAtOnce(longer, t, ip, n)
  {
    longer, t := log + [Step(s, a)], Next(s, a);
    assert longer[..|longer| - 1] == log;
    forall i | 0 <= i < |longer| ensures |Flight(longer[i].before, ip)| <= n {
      assert i < |log| ==> longer[i] == log[i];
    }
  }

  lemma OneMoreAtWork(passing: map<nat, string>, ip: string, i: nat, c: nat)
    requires AtWork(passing, ip, i, c)
    ensures i !in passing && AtWork(passing[i := ip], ip, i + 1, c)
  {
  }

  lemma OneLessAtWork(passing: map<nat, string>, ip: string, i: nat, c: nat)
    requires AtWork(passing, ip, i, c) && c < i
    ensures c in passing && passing[c] == ip && AtWork(passing - {c}, ip, i, c + 1)
  {
    assert c in Range(c, i);
  }

  lemma CheckPasses(ip: string, c: nat)
    requires c < IP_FAIL_THRESHOLD
    ensures !Reached(Failed(ip, c).ips, ip, 0, IP_WINDOW, IP_FAIL_THRESHOLD)
    ensures After(Failed(ip, c), IsIpThrottled(ip), 0) == Failed(ip, c)
  {
  }

  lemma OneMoreFailed(ip: string, c: nat)
    ensures After(Failed(ip, c), RecordFail(ip, ""), 0) == Failed(ip, c + 1)
  {
  }

  lemma IsLetThrough(s: Desk, ip: string, i: nat, c: nat)
    requires Stage(s, ip, i, c) && c < IP_FAIL_THRESHOLD
    ensures CanAct(s, Check(i, ip)) && Stage(Next(s, Check(i, ip)), ip, i + 1, c)
  {
    CheckPasses(ip, c);
    OneMoreAtWork(s.passing, ip, i, c);
  }

  lemma Recorded(s: Desk, ip: string, i: nat, c: nat)
    requires Stage(s, ip, i, c) && c < i
    ensures CanAct(s, Reject(c, "")) && Stage(Next(s, Reject(c, "")), ip, i, c + 1)
  {
    OneMoreFailed(ip, c);
    OneLessAtWork(s.passing, ip, i, c);
  }

  lemma {:induction false} Admit(log: seq<Step>, s: Desk, ip: string, i: nat, c: nat, m: nat, n: nat)
    returns (longer: seq<Step>, t: Desk)
    requires Stage(s, ip, i, c) && c < IP_FAIL_THRESHOLD && i <= m && m - c <= n
    requires Leads(log, s) && AtMostAtOnce(log, s, ip, n)
    ensures Leads(longer, t) && AtMostAtOnce(longer, t, ip, n) && Stage(t, ip, m, c)
    decreases m - i
  {
    longer, t := log, s;
    if i < m {
      IsLetThrough(s, ip, i, c);
      FlightAtStage(Next(s, Check(i, ip)), ip, i + 1, c);
      longer, t := Extend(log, s, Check(i, ip), ip, n);
      longer, t := Admit(longer, t, ip, i + 1, c, m, n);
    }
  }

  lemma {:induction false} FailAll(log: seq<Step>, s: Desk, ip: string, i: nat, c: nat, n: nat)
    returns (longer: seq<Step>, t: Desk)
    requires Stage(s, ip, i, c) && i - c <= n && Leads(log, s) && AtMostAtOnce(log, s, ip, n)
    ensures Leads(longer, t) && AtMostAtOnce(longer, t, ip, n) && Stage(t, ip, i, i)
    decreases i - c
  {
    longer, t := log, s;
    if c < i {
      Recorded(s, ip, i, c);
      FlightAtStage(Next(s, Reject(c, "")), ip, i, c + 1);
      longer, t := Extend(log, s, Reject(c, ""), ip, n);
      longer, t := FailAll(longer, t, ip, i, c + 1, n);
    }
  }

  lemma NobodyYet(ip: string, n: nat)
    ensures Leads([], IDLE) && AtMostAtOnce([], IDLE, ip, n) && Stage(IDLE, ip, 0, 0)
  {
    assert Flight(IDLE, ip) == {};
  }

  lemma OneSerially(log: seq<Step>, s: Desk, ip: string, c: nat, n: nat) returns (longer: seq<Step>, t: Desk)
    requires c < IP_FAIL_THRESHOLD && n >= 1 && Stage(s, ip, c, c) && Leads(log, s) && AtMostAtOnce(log, s, ip, n)
    ensures Leads(longer, t) && AtMostAtOnce(longer, t, ip, n) && Stage(t, ip, c + 1, c + 1)
  {
    longer, t := Admit(log, s, ip, c, c, c + 1, n);
    longer, t := FailAll(longer, t, ip, c + 1, c, n);
  }

  lemma {:induction false} FailedSerially(ip: string, c: nat, n: nat) returns (log: seq<Step>, s: Desk)
    requires c < IP_FAIL_THRESHOLD && n >= 1
    ensures Leads(log, s) && AtMostAtOnce(log, s, ip, n) && Stage(s, ip, c, c)
  {
    if c == 0 {
      log, s := [], IDLE;
      NobodyYet(ip, n);
    } else {
      log, s := FailedSerially(ip, c - 1, n);
      log, s := OneSerially(log, s, ip, c - 1, n);
    }
  }

  /** With n handlers at work at once the counter can reach 4 + n; with 46 the address gets blocked. */
  lemma CounterBoundIsAttained(ip: string, n: nat) returns (log: seq<Step>, s: Desk)
    requires n >= 1
    ensures Leads(log, s) && AtMostAtOnce(log, s, ip, n)
    ensures ip in s.tracker.ips && s.tracker.ips[ip].count == IP_FAIL_THRESHOLD - 1 + n
    ensures n >= 46 ==> Answer(s.tracker, ShouldAutoBlock(ip), s.now) == Some(true)
  {
    var m := IP_FAIL_THRESHOLD - 1 + n;
    log, s := FailedSerially(ip, IP_FAIL_THRESHOLD - 1, n);
    log, s := Admit(log, s, ip, IP_FAIL_THRESHOLD - 1, IP_FAIL_THRESHOLD - 1, m, n);
    log, s := FailAll(log, s, ip, m, IP_FAIL_THRESHOLD - 1, n);
  }
}
