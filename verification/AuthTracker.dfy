/**
 The tracker of failed sign-ins: four maps of counters, each with a window after which a counter
 no longer counts.  Stale counters are deleted by queries and by a periodic sweep.
 */
module AuthTracker {
  import opened Common

  datatype Fail = Fail(count: nat, firstAt: nat, lastAt: nat)

  type Fails = map<string, Fail>

  const IP_FAIL_THRESHOLD := 5
  const IP_BLOCK_THRESHOLD := 50
  const IP_WINDOW := 900
  const USER_LOCK_THRESHOLD := 10
  const USER_WINDOW := 1800
  const TOTP_MAX_ATTEMPTS := 5
  const TOTP_WINDOW := 600
  const SIGNUP_IP_MAX := 3
  const SIGNUP_IP_WINDOW := 86400

  // ----- One map

  predicate Stale(f: Fail, now: nat, window: nat) {
    now - f.firstAt > window
  }

  function Record(m: Fails, k: string, now: nat, window: nat): Fails {
    if k in m && !Stale(m[k], now, window) then m[k := Fail(m[k].count + 1, m[k].firstAt, now)]
    else m[k := Fail(1, now, now)]
  }

  function DropIfStale(m: Fails, k: string, now: nat, window: nat): Fails {
    if k in m && Stale(m[k], now, window) then m - {k} else m
  }

  predicate Reached(m: Fails, k: string, now: nat, window: nat, threshold: nat) {
    k in m && !Stale(m[k], now, window) && m[k].count >= threshold
  }

  /** The sweep goes by the last failure, not by the first. */
  function Swept(m: Fails, now: nat, window: nat): Fails {
    map k | k in m && now - m[k].lastAt <= window :: m[k]
  }

  // ----- The tracker

  datatype Tracker = Tracker(ips: Fails, users: Fails, totps: Fails, signups: Fails)

  const EMPTY := Tracker(map[], map[], map[], map[])

  datatype Event =
    | RecordFail(ip: string, user: string)
    | RecordSuccess(ip: string, user: string)
    | IsIpThrottled(ip: string)
    | ShouldAutoBlock(ip: string)
    | IsUserLocked(user: string)
    | RecordTotpFail(user: string)
    | RecordTotpSuccess(user: string)
    | IsTotpThrottled(user: string)
    | RecordSignup(ip: string)
    | IsSignupThrottled(ip: string)
    | Sweep

  /** The tracker after an operation, as the code has it. */
  function After(t: Tracker, e: Event, now: nat): Tracker {
    match e
    case RecordFail(ip, user) =>
      t.(ips := Record(t.ips, ip, now, IP_WINDOW),
         users := if user == "" then t.users else Record(t.users, user, now, USER_WINDOW))
    case RecordSuccess(ip, user) => t.(ips := t.ips - {ip}, users := if user == "" then t.users else t.users - {user})
    case IsIpThrottled(ip) => t.(ips := DropIfStale(t.ips, ip, now, IP_WINDOW))
    case ShouldAutoBlock(_) => t
    case IsUserLocked(user) => t.(users := DropIfStale(t.users, user, now, USER_WINDOW))
    case RecordTotpFail(user) => if user == "" then t else t.(totps := Record(t.totps, user, now, TOTP_WINDOW))
    case RecordTotpSuccess(user) => t.(totps := t.totps - {user})
    case IsTotpThrottled(user) => t.(totps := DropIfStale(t.totps, user, now, TOTP_WINDOW))
    case RecordSignup(ip) => t.(signups := Record(t.signups, ip, now, SIGNUP_IP_WINDOW))
    case IsSignupThrottled(ip) => t.(signups := DropIfStale(t.signups, ip, now, SIGNUP_IP_WINDOW))
    case Sweep => Tracker(Swept(t.ips, now, IP_WINDOW), Swept(t.users, now, USER_WINDOW),
                          Swept(t.totps, now, TOTP_WINDOW), Swept(t.signups, now, SIGNUP_IP_WINDOW))
  }

  /** The same with every deletion of a stale counter left out. */
  function AfterKeeping(t: Tracker, e: Event, now: nat): Tracker {
    match e
    case RecordFail(_, _) | RecordSuccess(_, _) | RecordTotpFail(_) | RecordTotpSuccess(_) | RecordSignup(_) =>
      After(t, e, now)
    case _ => t
  }

  /** What a query answers; the other operations answer nothing. */
  function Answer(t: Tracker, e: Event, now: nat): Option<bool> {
    match e
    case IsIpThrottled(ip) => Some(Reached(t.ips, ip, now, IP_WINDOW, IP_FAIL_THRESHOLD))
    case ShouldAutoBlock(ip) => Some(Reached(t.ips, ip, now, IP_WINDOW, IP_BLOCK_THRESHOLD))
    case IsUserLocked(user) => Some(Reached(t.users, user, now, USER_WINDOW, USER_LOCK_THRESHOLD))
    case IsTotpThrottled(user) => Some(Reached(t.totps, user, now, TOTP_WINDOW, TOTP_MAX_ATTEMPTS))
    case IsSignupThrottled(ip) => Some(Reached(t.signups, ip, now, SIGNUP_IP_WINDOW, SIGNUP_IP_MAX))
    case _ => None
  }

  // ----- Deleting stale counters is unobservable

  /** The counter that still counts, if any: all that answers and updates depend on. */
  function Live(m: Fails, k: string, now: nat, window: nat): Option<Fail> {
    if k in m && !Stale(m[k], now, window) then Some(m[k]) else None
  }

  ghost predicate SameLive(m: Fails, n: Fails, now: nat, window: nat) {
    forall k :: Live(m, k, now, window) == Live(n, k, now, window)
  }

  ghost predicate Timed(m: Fails, now: nat) {
    forall k :: k in m ==> m[k].count >= 1 && m[k].firstAt <= m[k].lastAt <= now
  }

  lemma SameLiveLater(m: Fails, n: Fails, now: nat, later: nat, window: nat)
    requires SameLive(m, n, now, window) && Timed(m, now) && Timed(n, now) && now <= later
    ensures SameLive(m, n, later, window)
  {
    forall k ensures Live(m, k, later, window) == Live(n, k, later, window) {
      assert Live(m, k, now, window) == Live(n, k, now, window);
    }
  }

  lemma RecordSame(m: Fails, n: Fails, k: string, now: nat, window: nat)
    requires SameLive(m, n, now, window)
    ensures SameLive(Record(m, k, now, window), Record(n, k, now, window), now, window)
  {
    assert Live(m, k, now, window) == Live(n, k, now, window);
    forall j
      ensures Live(Record(m, k, now, window), j, now, window) == Live(Record(n, k, now, window), j, now, window)
    {
      assert Live(m, j, now, window) == Live(n, j, now, window);
    }
  }

  lemma DeleteSame(m: Fails, n: Fails, k: string, now: nat, window: nat)
    requires SameLive(m, n, now, window)
    ensures SameLive(m - {k}, n - {k}, now, window)
  {
    forall j ensures Live(m - {k}, j, now, window) == Live(n - {k}, j, now, window) {
      assert Live(m, j, now, window) == Live(n, j, now, window);
    }
  }

  lemma DropSame(m: Fails, n: Fails, k: string, now: nat, window: nat)
    requires SameLive(m, n, now, window)
    ensures SameLive(DropIfStale(m, k, now, window), n, now, window)
  {
    forall j ensures Live(DropIfStale(m, k, now, window), j, now, window) == Live(n, j, now, window) {
      assert Live(m, j, now, window) == Live(n, j, now, window);
    }
  }

  /** A counter whose last failure is out of the window is stale, its first being older still. */
  lemma SweepSame(m: Fails, n: Fails, now: nat, window: nat)
    requires SameLive(m, n, now, window) && Timed(m, now)
    ensures SameLive(Swept(m, now, window), n, now, window)
  {
    forall j ensures Live(Swept(m, now, window), j, now, window) == Live(n, j, now, window) {
      assert Live(m, j, now, window) == Live(n, j, now, window);
    }
  }

  lemma ReachedSame(m: Fails, n: Fails, k: string, now: nat, window: nat, threshold: nat)
    requires SameLive(m, n, now, window)
    ensures Reached(m, k, now, window, threshold) == Reached(n, k, now, window, threshold)
  {
    assert Live(m, k, now, window) == Live(n, k, now, window);
  }

  ghost predicate SameTracker(t: Tracker, u: Tracker, now: nat) {
    && SameLive(t.ips, u.ips, now, IP_WINDOW)
    && SameLive(t.users, u.users, now, USER_WINDOW)
    && SameLive(t.totps, u.totps, now, TOTP_WINDOW)
    && SameLive(t.signups, u.signups, now, SIGNUP_IP_WINDOW)
  }

  ghost predicate TrackerOk(t: Tracker, now: nat) {
    Timed(t.ips, now) && Timed(t.users, now) && Timed(t.totps, now) && Timed(t.signups, now)
  }

  lemma {:induction false} StaysOk(t: Tracker, e: Event, now: nat)
    requires TrackerOk(t, now)
    ensures TrackerOk(After(t, e, now), now)
  {
    match e
    case RecordFail(ip, user) =>
      RecordStaysTimed(t.ips, ip, now, IP_WINDOW);
      RecordStaysTimed(t.users, user, now, USER_WINDOW);
    case RecordTotpFail(user) => RecordStaysTimed(t.totps, user, now, TOTP_WINDOW);
    case RecordSignup(ip) => RecordStaysTimed(t.signups, ip, now, SIGNUP_IP_WINDOW);
    case _ =>
  }

  lemma RecordStaysTimed(m: Fails, k: string, now: nat, window: nat)
    requires Timed(m, now)
    ensures Timed(Record(m, k, now, window), now)
  {
  }

  lemma KeepingStaysOk(t: Tracker, e: Event, now: nat)
    requires TrackerOk(t, now)
    ensures TrackerOk(AfterKeeping(t, e, now), now)
  {
    StaysOk(t, e, now);
  }

  lemma OkLater(t: Tracker, now: nat, later: nat)
    requires TrackerOk(t, now) && now <= later
    ensures TrackerOk(t, later)
  {
  }

  lemma SameLaterTracker(t: Tracker, u: Tracker, now: nat, later: nat)
    requires SameTracker(t, u, now) && TrackerOk(t, now) && TrackerOk(u, now) && now <= later
    ensures SameTracker(t, u, later)
  {
    SameLiveLater(t.ips, u.ips, now, later, IP_WINDOW);
    SameLiveLater(t.users, u.users, now, later, USER_WINDOW);
    SameLiveLater(t.totps, u.totps, now, later, TOTP_WINDOW);
    SameLiveLater(t.signups, u.signups, now, later, SIGNUP_IP_WINDOW);
  }

  lemma AnswersSame(t: Tracker, u: Tracker, e: Event, now: nat)
    requires SameTracker(t, u, now)
    ensures Answer(t, e, now) == Answer(u, e, now)
  {
    match e
    case IsIpThrottled(ip) => ReachedSame(t.ips, u.ips, ip, now, IP_WINDOW, IP_FAIL_THRESHOLD);
    case ShouldAutoBlock(ip) => ReachedSame(t.ips, u.ips, ip, now, IP_WINDOW, IP_BLOCK_THRESHOLD);
    case IsUserLocked(user) => ReachedSame(t.users, u.users, user, now, USER_WINDOW, USER_LOCK_THRESHOLD);
    case IsTotpThrottled(user) => ReachedSame(t.totps, u.totps, user, now, TOTP_WINDOW, TOTP_MAX_ATTEMPTS);
    case IsSignupThrottled(ip) => ReachedSame(t.signups, u.signups, ip, now, SIGNUP_IP_WINDOW, SIGNUP_IP_MAX);
    case _ =>
  }

  lemma UpdatesSame(t: Tracker, u: Tracker, e: Event, now: nat)
    requires SameTracker(t, u, now) && TrackerOk(t, now)
    ensures SameTracker(After(t, e, now), AfterKeeping(u, e, now), now)
  {
    match e
    case RecordFail(ip, user) =>
      RecordSame(t.ips, u.ips, ip, now, IP_WINDOW);
      RecordSame(t.users, u.users, user, now, USER_WINDOW);
    case RecordSuccess(ip, user) =>
      DeleteSame(t.ips, u.ips, ip, now, IP_WINDOW);
      DeleteSame(t.users, u.users, user, now, USER_WINDOW);
    case IsIpThrottled(ip) => DropSame(t.ips, u.ips, ip, now, IP_WINDOW);
    case ShouldAutoBlock(_) =>
    case IsUserLocked(user) => DropSame(t.users, u.users, user, now, USER_WINDOW);
    case RecordTotpFail(user) => RecordSame(t.totps, u.totps, user, now, TOTP_WINDOW);
    case RecordTotpSuccess(user) => DeleteSame(t.totps, u.totps, user, now, TOTP_WINDOW);
    case IsTotpThrottled(user) => DropSame(t.totps, u.totps, user, now, TOTP_WINDOW);
    case RecordSignup(ip) => RecordSame(t.signups, u.signups, ip, now, SIGNUP_IP_WINDOW);
    case IsSignupThrottled(ip) => DropSame(t.signups, u.signups, ip, now, SIGNUP_IP_WINDOW);
    case Sweep =>
      SweepSame(t.ips, u.ips, now, IP_WINDOW);
      SweepSame(t.users, u.users, now, USER_WINDOW);
      SweepSame(t.totps, u.totps, now, TOTP_WINDOW);
      SweepSame(t.signups, u.signups, now, SIGNUP_IP_WINDOW);
  }

  /** An operation and its time. */
  datatype Timestamped = At(event: Event, time: nat)

  ghost predicate InOrder(run: seq<Timestamped>, from: nat) {
    (forall i :: 0 <= i < |run| ==> from <= run[i].time) &&
    (forall i, j :: 0 <= i < j < |run| ==> run[i].time <= run[j].time)
  }

  /** The answers of a run, deletions included. */
  ghost function Answers(t: Tracker, run: seq<Timestamped>): seq<bool>
    decreases run
  {
    if run == [] then []
    else
      var answer := Answer(t, run[0].event, run[0].time);
      (if answer.Some? then [answer.value] else []) + Answers(After(t, run[0].event, run[0].time), run[1..])
  }

  /** The answers of the same run if nothing stale were ever deleted. */
  ghost function AnswersKeeping(t: Tracker, run: seq<Timestamped>): seq<bool>
    decreases run
  {
    if run == [] then []
    else
      var answer := Answer(t, run[0].event, run[0].time);
      (if answer.Some? then [answer.value] else []) +
      AnswersKeeping(AfterKeeping(t, run[0].event, run[0].time), run[1..])
  }

  lemma {:induction false} DeletionsDoNotMatter(t: Tracker, u: Tracker, run: seq<Timestamped>, now: nat)
    requires InOrder(run, now) && TrackerOk(t, now) && TrackerOk(u, now) && SameTracker(t, u, now)
    ensures Answers(t, run) == AnswersKeeping(u, run)
    decreases run
  {
    if run != [] {
      var e, time := run[0].event, run[0].time;
      SameLaterTracker(t, u, now, time);
      OkLater(t, now, time);
      OkLater(u, now, time);
      AnswersSame(t, u, e, time);
      UpdatesSame(t, u, e, time);
      StaysOk(t, e, time);
      KeepingStaysOk(u, e, time);
      DeletionsDoNotMatter(After(t, e, time), AfterKeeping(u, e, time), run[1..], time);
    }
  }

  ghost function WithoutSweeps(run: seq<Timestamped>): seq<Timestamped> {
    if run == [] then []
    else (if run[0].event.Sweep? then [] else [run[0]]) + WithoutSweeps(run[1..])
  }

  lemma {:induction false} SweepsAreNothing(t: Tracker, run: seq<Timestamped>)
    ensures AnswersKeeping(t, run) == AnswersKeeping(t, WithoutSweeps(run))
    decreases run
  {
    if run != [] {
      SweepsAreNothing(AfterKeeping(t, run[0].event, run[0].time), run[1..]);
      if !run[0].event.Sweep? {
        assert WithoutSweeps(run)[0] == run[0] && WithoutSweeps(run)[1..] == WithoutSweeps(run[1..]);
      } else {
        assert WithoutSweeps(run) == WithoutSweeps(run[1..]);
      }
    }
  }

  /** Two runs that differ only in where sweeps happen give the same answers, and those are the
      answers of a tracker that deletes nothing. */
  lemma SweepingIsUnobservable(run: seq<Timestamped>, other: seq<Timestamped>)
    requires InOrder(run, 0) && InOrder(other, 0)
    requires WithoutSweeps(run) == WithoutSweeps(other)
    ensures Answers(EMPTY, run) == Answers(EMPTY, other)
    ensures Answers(EMPTY, run) == AnswersKeeping(EMPTY, WithoutSweeps(run))
  {
    DeletionsDoNotMatter(EMPTY, EMPTY, run, 0);
    DeletionsDoNotMatter(EMPTY, EMPTY, other, 0);
    SweepsAreNothing(EMPTY, run);
    SweepsAreNothing(EMPTY, other);
  }

  // ----- What a throttled answer proves about the past

  /** A run: each operation with its time and the tracker it found; for a recorded failure, also the
      time of the throttle check its handler made first. */
  datatype Entry = Entry(before: Tracker, event: Event, time: nat, checkedAt: nat)

  ghost predicate Reaches(log: seq<Entry>, t: Tracker, now: nat)
    decreases |log|
  {
    if log == [] then t == EMPTY
    else
      var last := log[|log| - 1];
      && last.time <= now
      && Reaches(log[..|log| - 1], last.before, last.time)
      && t == After(last.before, last.event, last.time)
  }

  /** The four counters, each with a name of its own: an address, an account, an account, an address. */
  datatype Kind = Address | Account | Passcode | Signup

  function Counters(t: Tracker, kind: Kind): Fails {
    match kind
    case Address => t.ips
    case Account => t.users
    case Passcode => t.totps
    case Signup => t.signups
  }

  function Query(kind: Kind, k: string): Event {
    match kind
    case Address => IsIpThrottled(k)
    case Account => IsUserLocked(k)
    case Passcode => IsTotpThrottled(k)
    case Signup => IsSignupThrottled(k)
  }

  /** Seconds after which a counter starts afresh: 15, 30 and 10 minutes, and a day. */
  function Span(kind: Kind): nat {
    match kind
    case Address => 15 * 60
    case Account => 30 * 60
    case Passcode => 10 * 60
    case Signup => 24 * 60 * 60
  }

  /** The count that closes the door. */
  function Limit(kind: Kind): nat {
    match kind
    case Address => 5
    case Account => 10
    case Passcode => 5
    case Signup => 3
  }

  /** The operation is counted; a failure without an account name counts for no account. */
  predicate Adds(e: Event, kind: Kind, k: string) {
    match kind
    case Address => e.RecordFail? && e.ip == k
    case Account => e.RecordFail? && e.user == k && k != ""
    case Passcode => e.RecordTotpFail? && e.user == k && k != ""
    case Signup => e.RecordSignup? && e.ip == k
  }

  predicate Clears(e: Event, kind: Kind, k: string) {
    match kind
    case Address => e.RecordSuccess? && e.ip == k
    case Account => e.RecordSuccess? && e.user == k && k != ""
    case Passcode => e.RecordTotpSuccess? && e.user == k
    case Signup => false
  }

  /** How often the log counts for k from entry i on. */
  ghost function CountAdds(log: seq<Entry>, kind: Kind, k: string, i: nat): nat
    requires i <= |log|
    decreases |log|
  {
    if i == |log| then 0
    else CountAdds(log[..|log| - 1], kind, k, i) + (if Adds(log[|log| - 1].event, kind, k) then 1 else 0)
  }

  ghost predicate NeverCleared(log: seq<Entry>, kind: Kind, k: string, i: nat) {
    forall j :: i <= j < |log| ==> !Clears(log[j].event, kind, k)
  }

  /** The counter of k started at entry i and has counted everything since. */
  ghost predicate CountsFrom(log: seq<Entry>, f: Fail, kind: Kind, k: string, i: nat) {
    && i < |log| && Adds(log[i].event, kind, k) && log[i].time == f.firstAt
    && NeverCleared(log, kind, k, i)
    && CountAdds(log, kind, k, i) == f.count
  }

  lemma {:induction false} RunIsTimed(log: seq<Entry>, t: Tracker, now: nat)
    requires Reaches(log, t, now)
    ensures TrackerOk(t, now)
    decreases |log|
  {
    if log != [] {
      var last := log[|log| - 1];
      RunIsTimed(log[..|log| - 1], last.before, last.time);
      StaysOk(last.before, last.event, last.time);
      OkLater(t, last.time, now);
    }
  }

  /** What an operation does to one counter: it adds to it, deletes it, or leaves it as it is. */
  lemma EntryAfter(t: Tracker, e: Event, time: nat, kind: Kind, k: string)
    requires k in Counters(After(t, e, time), kind)
    ensures !Clears(e, kind, k)
    ensures !Adds(e, kind, k) ==>
              k in Counters(t, kind) && Counters(After(t, e, time), kind)[k] == Counters(t, kind)[k]
    ensures Adds(e, kind, k) ==> Counters(After(t, e, time), kind) == Record(Counters(t, kind), k, time, Span(kind))
  {
  }

  lemma {:induction false} CounterHasStart(log: seq<Entry>, t: Tracker, now: nat, kind: Kind, k: string)
    returns (i: nat)
    requires Reaches(log, t, now) && k in Counters(t, kind)
    ensures CountsFrom(log, Counters(t, kind)[k], kind, k, i)
    decreases |log|
  {
    var front, last := log[..|log| - 1], log[|log| - 1];
    EntryAfter(last.before, last.event, last.time, kind, k);
    var was := Counters(last.before, kind);
    if Adds(last.event, kind, k) && (k !in was || Stale(was[k], last.time, Span(kind))) {
      i := |log| - 1;
      assert CountAdds(front, kind, k, i) == 0;
    } else {
      i := CounterHasStart(front, last.before, last.time, kind, k);
      assert log[i] == front[i];
      forall j | i <= j < |log| ensures !Clears(log[j].event, kind, k) {
        if j < |front| {
          assert log[j] == front[j];
        }
      }
    }
  }

  lemma QueryAnswers(t: Tracker, kind: Kind, k: string, now: nat)
    ensures Answer(t, Query(kind, k), now) == Some(Reached(Counters(t, kind), k, now, Span(kind), Limit(kind)))
  {
  }

  /** A door is closed only after the full count within the span, with nothing cleared since the first of it. */
  lemma ThrottledHasCause(log: seq<Entry>, t: Tracker, now: nat, kind: Kind, k: string) returns (i: nat)
    requires Reaches(log, t, now) && Answer(t, Query(kind, k), now) == Some(true)
    ensures i < |log| && Adds(log[i].event, kind, k) && now - log[i].time <= Span(kind)
    ensures CountAdds(log, kind, k, i) >= Limit(kind) && NeverCleared(log, kind, k, i)
  {
    QueryAnswers(t, kind, k, now);
    i := CounterHasStart(log, t, now, kind, k);
  }

  /** Entry i was counted when nothing had been counted for k during the span before it. */
  ghost predicate StartsQuietly(log: seq<Entry>, kind: Kind, k: string, i: nat) {
    && i < |log| && Adds(log[i].event, kind, k)
    && forall j :: 0 <= j < i && Adds(log[j].event, kind, k) ==> log[i].time - log[j].time > Span(kind)
  }

  /** Such an entry starts the counter, which then stays and counts until it is cleared or the span is over. */
  lemma {:induction false} QuietCounter(log: seq<Entry>, t: Tracker, now: nat, kind: Kind, k: string, i: nat)
    requires Reaches(log, t, now) && StartsQuietly(log, kind, k, i) && NeverCleared(log, kind, k, i)
    requires now - log[i].time <= Span(kind)
    ensures k in Counters(t, kind) && Counters(t, kind)[k].firstAt == log[i].time
    ensures Counters(t, kind)[k].count == CountAdds(log, kind, k, i)
    decreases |log|
  {
    var front, last := log[..|log| - 1], log[|log| - 1];
    assert forall j :: 0 <= j < |front| ==> front[j] == log[j];
    RunIsTimed(front, last.before, last.time);
    if i == |front| {
      assert CountAdds(front, kind, k, i) == 0;
      if k in Counters(last.before, kind) {
        var j := CounterHasStart(front, last.before, last.time, kind, k);
        assert Adds(log[j].event, kind, k);
      }
      AddsToCounter(last.before, last.event, last.time, kind, k);
    } else {
      QuietCounter(front, last.before, last.time, kind, k, i);
      LiveCounterStays(last.before, last.event, last.time, kind, k);
    }
  }

  lemma AddsToCounter(t: Tracker, e: Event, time: nat, kind: Kind, k: string)
    requires Adds(e, kind, k)
    ensures Counters(After(t, e, time), kind) == Record(Counters(t, kind), k, time, Span(kind))
  {
  }

  lemma LiveCounterStays(t: Tracker, e: Event, time: nat, kind: Kind, k: string)
    requires TrackerOk(t, time) && k in Counters(t, kind) && !Stale(Counters(t, kind)[k], time, Span(kind))
    requires !Clears(e, kind, k)
    ensures var m, n := Counters(t, kind), Counters(After(t, e, time), kind);
            k in n && n[k].firstAt == m[k].firstAt && n[k].count == m[k].count + (if Adds(e, kind, k) then 1 else 0)
  {
    var f := Counters(t, kind)[k];
    assert f.firstAt <= f.lastAt;
  }

  /** And it is closed then: as many as the limit within a span that began after a quiet one. */
  lemma QuietThenThrottled(log: seq<Entry>, t: Tracker, now: nat, kind: Kind, k: string, i: nat)
    requires Reaches(log, t, now) && StartsQuietly(log, kind, k, i) && NeverCleared(log, kind, k, i)
    requires now - log[i].time <= Span(kind)
    ensures Answer(t, Query(kind, k), now) == Some(CountAdds(log, kind, k, i) >= Limit(kind))
  {
    QuietCounter(log, t, now, kind, k, i);
    QueryAnswers(t, kind, k, now);
  }

  // ----- Bounds when everything counted follows a check that let it through

  /** What counts was let through by a check of the tracker it then found. */
  ghost predicate LetThrough(x: Entry, kind: Kind) {
    forall k :: Adds(x.event, kind, k) ==>
      x.checkedAt <= x.time && Answer(x.before, Query(kind, k), x.checkedAt) == Some(false)
  }

  ghost predicate Guarded(log: seq<Entry>, kind: Kind) {
    forall j :: 0 <= j < |log| ==> LetThrough(log[j], kind)
  }

  ghost predicate AtMost(m: Fails, cap: nat) {
    forall k :: k in m ==> m[k].count <= cap
  }

  lemma GuardKeepsLimit(m: Fails, k: string, checkedAt: nat, time: nat, window: nat, cap: nat)
    requires AtMost(m, cap) && checkedAt <= time && cap >= 1
    requires !Reached(m, k, checkedAt, window, cap)
    ensures AtMost(Record(m, k, time, window), cap)
  {
  }

  lemma {:induction false} NeverMoreThanLimit(log: seq<Entry>, t: Tracker, now: nat, kind: Kind)
    requires Reaches(log, t, now) && Guarded(log, kind)
    ensures AtMost(Counters(t, kind), Limit(kind))
    decreases |log|
  {
    if log != [] {
      var front, last := log[..|log| - 1], log[|log| - 1];
      assert Guarded(front, kind) && LetThrough(log[|front|], kind);
      NeverMoreThanLimit(front, last.before, last.time, kind);
      forall k | k in Counters(t, kind) ensures Counters(t, kind)[k].count <= Limit(kind) {
        EntryAfter(last.before, last.event, last.time, kind, k);
        if Adds(last.event, kind, k) {
          QueryAnswers(last.before, kind, k, last.checkedAt);
          GuardKeepsLimit(Counters(last.before, kind), k, last.checkedAt, last.time, Span(kind), Limit(kind));
        }
      }
    }
  }

  /** The automatic block is out of reach. */
  lemma {:induction false} NeverAutoBlocked(log: seq<Entry>, t: Tracker, now: nat, ip: string)
    requires Reaches(log, t, now) && Guarded(log, Address)
    ensures Answer(t, ShouldAutoBlock(ip), now) == Some(false)
  {
    NeverMoreThanLimit(log, t, now, Address);
  }

  /** n counted since the span began at w, when no counter passes cap: at most cap - 1 under a counter that
      started before it, and then at most cap more under one that started in it. */
  ghost predicate Budget(m: Fails, k: string, w: nat, n: nat, cap: nat) {
    if k !in m then n <= cap - 1
    else if m[k].firstAt < w then n <= m[k].count - 1
    else n <= cap - 1 + m[k].count
  }

  lemma AddKeepsBudget(m: Fails, k: string, w: nat, n: nat, time: nat, window: nat, cap: nat)
    requires Budget(m, k, w, n, cap) && (k in m ==> m[k].count <= cap)
    requires w <= time <= w + window
    ensures Budget(Record(m, k, time, window), k, w, n + 1, cap)
  {
  }

  lemma OtherKeepsBudget(t: Tracker, e: Event, kind: Kind, k: string, w: nat, n: nat, time: nat, cap: nat)
    requires Budget(Counters(t, kind), k, w, n, cap)
    requires k in Counters(t, kind) ==> Counters(t, kind)[k].count <= cap
    requires TrackerOk(t, time) && w <= time <= w + Span(kind)
    requires !Adds(e, kind, k) && !Clears(e, kind, k)
    ensures Budget(Counters(After(t, e, time), kind), k, w, n, cap)
  {
    if k in Counters(After(t, e, time), kind) {
      EntryAfter(t, e, time, kind, k);
    } else if k in Counters(t, kind) && !Stale(Counters(t, kind)[k], time, Span(kind)) {
      LiveCounterStays(t, e, time, kind, k);
    }
  }

  /** The entries from i on lie in the span from w, and nothing of k is cleared in them. */
  ghost predicate InSpan(log: seq<Entry>, kind: Kind, k: string, i: nat, w: nat) {
    i <= |log| && NeverCleared(log, kind, k, i) && forall j :: i <= j < |log| ==> w <= log[j].time <= w + Span(kind)
  }

  lemma {:induction false} SpanKeepsBudget(
    log: seq<Entry>, t: Tracker, now: nat, kind: Kind, k: string, i: nat, w: nat)
    requires Reaches(log, t, now) && Guarded(log, kind) && InSpan(log, kind, k, i, w)
    ensures Budget(Counters(t, kind), k, w, CountAdds(log, kind, k, i), Limit(kind))
    decreases |log|
  {
    RunIsTimed(log, t, now);
    if i < |log| {
      var front, last := log[..|log| - 1], log[|log| - 1];
      assert forall j :: 0 <= j < |front| ==> front[j] == log[j];
      assert Guarded(front, kind);
      SpanKeepsBudget(front, last.before, last.time, kind, k, i, w);
      NeverMoreThanLimit(front, last.before, last.time, kind);
      RunIsTimed(front, last.before, last.time);
      var n := CountAdds(front, kind, k, i);
      if Adds(last.event, kind, k) {
        AddsToCounter(last.before, last.event, last.time, kind, k);
        AddKeepsBudget(Counters(last.before, kind), k, w, n, last.time, Span(kind), Limit(kind));
      } else {
        OtherKeepsBudget(last.before, last.event, kind, k, w, n, last.time, Limit(kind));
      }
    }
  }

  /** A span in which nothing is cleared holds at most twice the limit less one: nine failures of an address in
      15 minutes, nine wrong passcodes in ten, five new accounts in a day. */
  lemma {:induction false} AtMostTwiceLessOne(
    log: seq<Entry>, t: Tracker, now: nat, kind: Kind, k: string, i: nat, w: nat)
    requires Reaches(log, t, now) && Guarded(log, kind) && InSpan(log, kind, k, i, w)
    ensures CountAdds(log, kind, k, i) <= 2 * Limit(kind) - 1
  {
    SpanKeepsBudget(log, t, now, kind, k, i, w);
    NeverMoreThanLimit(log, t, now, kind);
  }

  /** Only this address has failed, with the given counter. */
  ghost function Just(ip: string, f: Fail): Tracker {
    Tracker(map[ip := f], map[], map[], map[])
  }

  /** A guarded run whose entries after the first lie in the span from w, without a success in it. */
  ghost predicate SpanRun(log: seq<Entry>, t: Tracker, now: nat, ip: string, w: nat, n: nat) {
    && Reaches(log, t, now) && Guarded(log, Address) && |log| >= 1 && InSpan(log, Address, ip, 1, w)
    && CountAdds(log, Address, ip, 1) == n
  }

  lemma OneMoreFailure(
    log: seq<Entry>, ip: string, f: Fail, g: Fail, now: nat, time: nat, w: nat, n: nat) returns (longer: seq<Entry>)
    requires SpanRun(log, Just(ip, f), now, ip, w, n) && now <= time && w <= time <= w + IP_WINDOW
    requires f.count < IP_FAIL_THRESHOLD || Stale(f, time, IP_WINDOW)
    requires g == if Stale(f, time, IP_WINDOW) then Fail(1, time, time) else Fail(f.count + 1, f.firstAt, time)
    ensures SpanRun(longer, Just(ip, g), time, ip, w, n + 1)
  {
    var x := Entry(Just(ip, f), RecordFail(ip, ""), time, time);
    longer := log + [x];
    assert longer[..|log|] == log;
    assert forall j :: 0 <= j < |log| ==> longer[j] == log[j];
    ReachesLater(log, Just(ip, f), now, time);
    CheckedFailure(x, ip, f, time);
    assert After(Just(ip, f), RecordFail(ip, ""), time) == Just(ip, g);
    assert Reaches(longer, Just(ip, g), time);
    assert CountAdds(longer, Address, ip, 1) == n + 1;
  }

  lemma CheckedFailure(x: Entry, ip: string, f: Fail, time: nat)
    requires x == Entry(Just(ip, f), RecordFail(ip, ""), time, time)
    requires f.count < IP_FAIL_THRESHOLD || Stale(f, time, IP_WINDOW)
    ensures LetThrough(x, Address)
  {
  }

  lemma ReachesLater(log: seq<Entry>, t: Tracker, now: nat, later: nat)
    requires Reaches(log, t, now) && now <= later
    ensures Reaches(log, t, later)
  {
  }

  lemma FirstFailure(ip: string) returns (log: seq<Entry>)
    ensures SpanRun(log, Just(ip, Fail(1, 0, 0)), 0, ip, 1, 0)
  {
    log := [Entry(EMPTY, RecordFail(ip, ""), 0, 0)];
    assert log[..0] == [];
    assert Reaches([], EMPTY, 0);
    assert After(EMPTY, RecordFail(ip, ""), 0) == Just(ip, Fail(1, 0, 0));
  }

  /** The bound is exact: one failure, four more 15 minutes later, five more a second after that. */
  lemma NineIsReached(ip: string) returns (log: seq<Entry>, t: Tracker)
    ensures SpanRun(log, t, 901, ip, 1, 9)
  {
    log := FirstFailure(ip);
    log := OneMoreFailure(log, ip, Fail(1, 0, 0), Fail(2, 0, 900), 0, 900, 1, 0);
    log := OneMoreFailure(log, ip, Fail(2, 0, 900), Fail(3, 0, 900), 900, 900, 1, 1);
    log := OneMoreFailure(log, ip, Fail(3, 0, 900), Fail(4, 0, 900), 900, 900, 1, 2);
    log := OneMoreFailure(log, ip, Fail(4, 0, 900), Fail(5, 0, 900), 900, 900, 1, 3);
    log := OneMoreFailure(log, ip, Fail(5, 0, 900), Fail(1, 901, 901), 900, 901, 1, 4);
    log := OneMoreFailure(log, ip, Fail(1, 901, 901), Fail(2, 901, 901), 901, 901, 1, 5);
    log := OneMoreFailure(log, ip, Fail(2, 901, 901), Fail(3, 901, 901), 901, 901, 1, 6);
    log := OneMoreFailure(log, ip, Fail(3, 901, 901), Fail(4, 901, 901), 901, 901, 1, 7);
    log := OneMoreFailure(log, ip, Fail(4, 901, 901), Fail(5, 901, 901), 901, 901, 1, 8);
    t := Just(ip, Fail(5, 901, 901));
  }

  // ----- The tracker as an object

  /** The loop of the sweep over one map. */
  method SweepMap(m: Fails, now: nat, window: nat) returns (r: Fails)
    ensures r == Swept(m, now, window)
  {
    r := m;
    var todo := m.Keys;
    while todo != {}
      invariant todo <= m.Keys
      invariant r.Keys <= m.Keys && forall k :: k in r ==> r[k] == m[k]
      invariant forall k :: k in m ==> (k in r <==> k in todo || now - m[k].lastAt <= window)
      decreases todo
    {
      var k :| k in todo;
      todo := todo - {k};
      if now - m[k].lastAt > window {
        r := r - {k};
      }
    }
  }

  class AuthFailTracker {
    var ipFails: Fails
    var userFails: Fails
    var totpFails: Fails
    var signupCounts: Fails

    ghost function View(): Tracker
      reads this
    {
      Tracker(ipFails, userFails, totpFails, signupCounts)
    }

    constructor ()
      ensures View() == EMPTY
    {
      ipFails, userFails, totpFails, signupCounts := map[], map[], map[], map[];
    }

    method RecordFail(ip: string, username: string, now: nat)
      modifies this
      ensures View() == After(old(View()), Event.RecordFail(ip, username), now)
    {
      if ip in ipFails {
        var f := ipFails[ip];
        if now - f.firstAt > IP_WINDOW {
          ipFails := ipFails[ip := Fail(1, now, now)];
        } else {
          ipFails := ipFails[ip := Fail(f.count + 1, f.firstAt, now)];
        }
      } else {
        ipFails := ipFails[ip := Fail(1, now, now)];
      }
      if username != "" {
        if username in userFails {
          var f := userFails[username];
          if now - f.firstAt > USER_WINDOW {
            userFails := userFails[username := Fail(1, now, now)];
          } else {
            userFails := userFails[username := Fail(f.count + 1, f.firstAt, now)];
          }
        } else {
          userFails := userFails[username := Fail(1, now, now)];
        }
      }
    }

    method RecordSuccess(ip: string, username: string, now: nat)
      modifies this
      ensures View() == After(old(View()), Event.RecordSuccess(ip, username), now)
      ensures ip !in ipFails && (username != "" ==> username !in userFails)
      ensures forall k :: k in old(ipFails) && k != ip ==> k in ipFails && ipFails[k] == old(ipFails)[k]
      ensures forall k :: k in old(userFails) && k != username ==> k in userFails && userFails[k] == old(userFails)[k]
      ensures totpFails == old(totpFails) && signupCounts == old(signupCounts)
    {
      ipFails := ipFails - {ip};
      if username != "" {
        userFails := userFails - {username};
      }
    }

    method IsIpThrottled(ip: string, now: nat) returns (r: bool)
      modifies this
      ensures Some(r) == Answer(old(View()), Event.IsIpThrottled(ip), now)
      ensures View() == After(old(View()), Event.IsIpThrottled(ip), now)
    {
      if ip !in ipFails {
        return false;
      }
      var f := ipFails[ip];
      if now - f.firstAt > IP_WINDOW {
        ipFails := ipFails - {ip};
        return false;
      }
      return f.count >= IP_FAIL_THRESHOLD;
    }

    method ShouldAutoBlock(ip: string, now: nat) returns (r: bool)
      ensures Some(r) == Answer(View(), Event.ShouldAutoBlock(ip), now)
    {
      if ip !in ipFails {
        return false;
      }
      return ipFails[ip].count >= IP_BLOCK_THRESHOLD && now - ipFails[ip].firstAt <= IP_WINDOW;
    }

    method IsUserLocked(username: string, now: nat) returns (r: bool)
      modifies this
      ensures Some(r) == Answer(old(View()), Event.IsUserLocked(username), now)
      ensures View() == After(old(View()), Event.IsUserLocked(username), now)
    {
      if username !in userFails {
        return false;
      }
      var f := userFails[username];
      if now - f.firstAt > USER_WINDOW {
        userFails := userFails - {username};
        return false;
      }
      return f.count >= USER_LOCK_THRESHOLD;
    }

    method RecordTotpFail(username: string, now: nat)
      modifies this
      ensures View() == After(old(View()), Event.RecordTotpFail(username), now)
    {
      if username == "" {
        return;
      }
      if username in totpFails && now - totpFails[username].firstAt <= TOTP_WINDOW {
        var f := totpFails[username];
        totpFails := totpFails[username := Fail(f.count + 1, f.firstAt, now)];
      } else {
        totpFails := totpFails[username := Fail(1, now, now)];
      }
    }

    method RecordTotpSuccess(username: string, now: nat)
      modifies this
      ensures View() == After(old(View()), Event.RecordTotpSuccess(username), now)
    {
      totpFails := totpFails - {username};
    }

    method IsTotpThrottled(username: string, now: nat) returns (r: bool)
      modifies this
      ensures Some(r) == Answer(old(View()), Event.IsTotpThrottled(username), now)
      ensures View() == After(old(View()), Event.IsTotpThrottled(username), now)
    {
      if username !in totpFails {
        return false;
      }
      var f := totpFails[username];
      if now - f.firstAt > TOTP_WINDOW {
        totpFails := totpFails - {username};
        return false;
      }
      return f.count >= TOTP_MAX_ATTEMPTS;
    }

    method RecordSignup(ip: string, now: nat)
      modifies this
      ensures View() == After(old(View()), Event.RecordSignup(ip), now)
    {
      if ip in signupCounts {
        var f := signupCounts[ip];
        if now - f.firstAt > SIGNUP_IP_WINDOW {
          signupCounts := signupCounts[ip := Fail(1, now, now)];
        } else {
          signupCounts := signupCounts[ip := Fail(f.count + 1, f.firstAt, now)];
        }
      } else {
        signupCounts := signupCounts[ip := Fail(1, now, now)];
      }
    }

    method IsSignupThrottled(ip: string, now: nat) returns (r: bool)
      modifies this
      ensures Some(r) == Answer(old(View()), Event.IsSignupThrottled(ip), now)
      ensures View() == After(old(View()), Event.IsSignupThrottled(ip), now)
    {
      if ip !in signupCounts {
        return false;
      }
      var f := signupCounts[ip];
      if now - f.firstAt > SIGNUP_IP_WINDOW {
        signupCounts := signupCounts - {ip};
        return false;
      }
      return f.count >= SIGNUP_IP_MAX;
    }

    method Sweep(now: nat)
      modifies this
      ensures View() == After(old(View()), Event.Sweep, now)
    {
      ipFails := SweepMap(ipFails, now, IP_WINDOW);
      userFails := SweepMap(userFails, now, USER_WINDOW);
      totpFails := SweepMap(totpFails, now, TOTP_WINDOW);
      signupCounts := SweepMap(signupCounts, now, SIGNUP_IP_WINDOW);
    }
  }
}
