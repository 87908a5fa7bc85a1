/**
 The per-address rate limiter: a map of token buckets from which idle buckets are evicted.  Tokens
 and times are real numbers; one call reads the clock once.
 */
module RateLimiter {

  datatype Config = Config(rate: real, burst: nat, idleTtl: real, maxSize: nat, gcEvery: real)

  /** What newIPLimiter fixes. */
  function NewLimiter(rate: real, burst: nat): Config {
    Config(rate, burst, 600.0, 50000, 60.0)
  }

  ghost predicate ValidConfig(c: Config) {
    c.rate >= 0.0 && c.maxSize >= 1 && 0.0 <= c.gcEvery <= c.idleTtl
  }

  // ----- One token bucket

  datatype Bucket = Bucket(tokens: real, last: real)

  function Min(x: real, y: real): real { if x <= y then x else y }

  function Full(c: Config): real { c.burst as real }

  function Level(c: Config, b: Bucket, now: real): real {
    Min(Full(c), b.tokens + (now - b.last) * c.rate)
  }

  /** Allow of a bucket that holds the given level: one token is taken if there is one. */
  function Take(c: Config, b: Bucket, now: real): Bucket {
    if Level(c, b, now) >= 1.0 then Bucket(Level(c, b, now) - 1.0, now) else b
  }

  // ----- The evicting map

  datatype Entry = Entry(bucket: Bucket, last: real)

  type Entries = map<string, Entry>

  datatype State = State(entries: Entries, lastGc: real)

  /** The zero time that lastGC starts from is long past, so the first call collects. */
  function Initial(c: Config): State { State(map[], -c.gcEvery) }

  predicate GcRuns(c: Config, s: State, now: real) {
    now - s.lastGc >= c.gcEvery || |s.entries| >= c.maxSize
  }

  function Evicted(c: Config, entries: Entries, now: real): Entries {
    map ip | ip in entries && entries[ip].last >= now - c.idleTtl :: entries[ip]
  }

  /** The branch that drops arbitrary entries fires. */
  predicate Overflows(c: Config, s: State, now: real) {
    GcRuns(c, s, now) && |Evicted(c, s.entries, now)| > c.maxSize
  }

  function AfterGc(c: Config, s: State, now: real): State {
    if GcRuns(c, s, now) then State(Evicted(c, s.entries, now), now) else s
  }

  function BucketOf(c: Config, entries: Entries, ip: string, now: real): Bucket {
    if ip in entries then entries[ip].bucket else Bucket(Full(c), now)
  }

  /** allow, when the overflow branch does not fire. */
  function AfterAllow(c: Config, s: State, ip: string, now: real): State {
    var g := AfterGc(c, s, now);
    g.(entries := g.entries[ip := Entry(Take(c, BucketOf(c, g.entries, ip, now), now), now)])
  }

  predicate Allows(c: Config, s: State, ip: string, now: real) {
    Level(c, BucketOf(c, AfterGc(c, s, now).entries, ip, now), now) >= 1.0
  }

  // ----- The reference: nothing is ever evicted

  type Buckets = map<string, Bucket>

  function RefBucket(c: Config, m: Buckets, ip: string, now: real): Bucket {
    if ip in m then m[ip] else Bucket(Full(c), now)
  }

  function RefAfter(c: Config, m: Buckets, ip: string, now: real): Buckets {
    m[ip := Take(c, RefBucket(c, m, ip, now), now)]
  }

  predicate RefAllows(c: Config, m: Buckets, ip: string, now: real) {
    Level(c, RefBucket(c, m, ip, now), now) >= 1.0
  }

  // ----- Runs

  datatype Call = Call(ip: string, time: real)

  ghost predicate InOrder(run: seq<Call>, from: real) {
    (forall i :: 0 <= i < |run| ==> from <= run[i].time) &&
    (forall i, j :: 0 <= i < j < |run| ==> run[i].time <= run[j].time)
  }

  ghost function Answers(c: Config, s: State, run: seq<Call>): seq<bool>
    decreases run
  {
    if run == [] then []
    else [Allows(c, s, run[0].ip, run[0].time)] + Answers(c, AfterAllow(c, s, run[0].ip, run[0].time), run[1..])
  }

  ghost function RefAnswers(c: Config, m: Buckets, run: seq<Call>): seq<bool>
    decreases run
  {
    if run == [] then []
    else [RefAllows(c, m, run[0].ip, run[0].time)] + RefAnswers(c, RefAfter(c, m, run[0].ip, run[0].time), run[1..])
  }

  ghost predicate NoOverflow(c: Config, s: State, run: seq<Call>)
    decreases run
  {
    run == [] || (!Overflows(c, s, run[0].time) && NoOverflow(c, AfterAllow(c, s, run[0].ip, run[0].time), run[1..]))
  }

  /** Nobody can tell from the answers that idle buckets are evicted. */
  ghost predicate EvictionIsUnobservable(c: Config) {
    forall run :: InOrder(run, 0.0) && NoOverflow(c, Initial(c), run) ==>
      Answers(c, Initial(c), run) == RefAnswers(c, map[], run)
  }

  // ----- Levels over time

  lemma Distribute(a: real, b: real, r: real)
    ensures (a + b) * r == a * r + b * r
  {
  }

  lemma Difference(a: real, b: real, r: real)
    ensures (a - b) * r == a * r - b * r
  {
  }

  lemma Product(a: real, b: real)
    requires a >= 0.0 && b >= 0.0
    ensures a * b >= 0.0
  {
  }

  lemma ProductMonotone(a: real, b: real, r: real)
    requires a >= b && r >= 0.0
    ensures a * r >= b * r
  {
    Product(a - b, r);
    assert (a - b) * r == a * r - b * r;
  }

  lemma LargerFactor(a: real, b: real, r: real)
    requires r >= 0.0 && a * r > b * r
    ensures a > b
  {
    if b >= a {
      ProductMonotone(b, a, r);
    }
  }

  lemma LevelLater(c: Config, b: Bucket, now: real, later: real)
    requires c.rate >= 0.0 && now <= later
    ensures Level(c, b, later) == Min(Full(c), Level(c, b, now) + (later - now) * c.rate)
  {
    Distribute(now - b.last, later - now, c.rate);
    assert (now - b.last) + (later - now) == later - b.last;
    Product(later - now, c.rate);
  }

  /** A fresh bucket is full. */
  lemma FreshLevel(c: Config, now: real)
    ensures Level(c, Bucket(Full(c), now), now) == Full(c)
  {
    assert (now - now) * c.rate == 0.0;
  }

  lemma TakeLevel(c: Config, b: Bucket, now: real)
    ensures Level(c, Take(c, b, now), now) ==
            if Level(c, b, now) >= 1.0 then Level(c, b, now) - 1.0 else Level(c, b, now)
  {
    assert (now - now) * c.rate == 0.0;
  }

  // ----- Sufficiency: burst <= rate * idleTtl

  /** What the answers depend on: the level an address would find. */
  function LevelOf(c: Config, entries: Entries, ip: string, now: real): real {
    Level(c, BucketOf(c, entries, ip, now), now)
  }

  function RefLevelOf(c: Config, m: Buckets, ip: string, now: real): real {
    Level(c, RefBucket(c, m, ip, now), now)
  }

  ghost predicate SameLevels(c: Config, entries: Entries, m: Buckets, now: real) {
    forall ip :: LevelOf(c, entries, ip, now) == RefLevelOf(c, m, ip, now)
  }

  ghost predicate EntriesOk(c: Config, entries: Entries, now: real) {
    forall ip :: ip in entries ==>
      entries[ip].bucket.tokens >= 0.0 && entries[ip].bucket.last <= entries[ip].last <= now
  }

  lemma AbsentLater(c: Config, now: real, later: real)
    requires c.rate >= 0.0 && now <= later
    ensures Full(c) == Min(Full(c), Full(c) + (later - now) * c.rate)
  {
    Product(later - now, c.rate);
  }

  lemma LevelOfLater(c: Config, entries: Entries, ip: string, now: real, later: real)
    requires c.rate >= 0.0 && now <= later
    ensures LevelOf(c, entries, ip, later) == Min(Full(c), LevelOf(c, entries, ip, now) + (later - now) * c.rate)
  {
    if ip in entries {
      LevelLater(c, entries[ip].bucket, now, later);
    } else {
      FreshLevel(c, now);
      FreshLevel(c, later);
      AbsentLater(c, now, later);
    }
  }

  lemma RefLevelOfLater(c: Config, m: Buckets, ip: string, now: real, later: real)
    requires c.rate >= 0.0 && now <= later
    ensures RefLevelOf(c, m, ip, later) == Min(Full(c), RefLevelOf(c, m, ip, now) + (later - now) * c.rate)
  {
    if ip in m {
      LevelLater(c, m[ip], now, later);
    } else {
      FreshLevel(c, now);
      FreshLevel(c, later);
      AbsentLater(c, now, later);
    }
  }

  lemma SameLevelsLater(c: Config, entries: Entries, m: Buckets, now: real, later: real)
    requires c.rate >= 0.0 && now <= later && SameLevels(c, entries, m, now)
    ensures SameLevels(c, entries, m, later)
  {
    forall ip ensures LevelOf(c, entries, ip, later) == RefLevelOf(c, m, ip, later) {
      LevelOfLater(c, entries, ip, now, later);
      RefLevelOfLater(c, m, ip, now, later);
      assert LevelOf(c, entries, ip, now) == RefLevelOf(c, m, ip, now);
    }
  }

  /** A bucket idle for longer than the time to live has filled up. */
  lemma IdleIsFull(c: Config, e: Entry, now: real)
    requires c.rate >= 0.0 && Full(c) <= c.rate * c.idleTtl
    requires e.bucket.tokens >= 0.0 && e.bucket.last <= e.last && e.last < now - c.idleTtl
    ensures Level(c, e.bucket, now) == Full(c)
  {
    var gain := (now - e.bucket.last) * c.rate;
    assert c.rate * c.idleTtl == c.idleTtl * c.rate;
    assert gain >= c.idleTtl * c.rate by {
      ProductMonotone(now - e.bucket.last, c.idleTtl, c.rate);
    }
    assert Level(c, e.bucket, now) == Min(Full(c), e.bucket.tokens + gain);
  }

  lemma EvictionKeepsLevels(c: Config, s: State, now: real, ip: string)
    requires c.rate >= 0.0 && Full(c) <= c.rate * c.idleTtl && EntriesOk(c, s.entries, now)
    ensures LevelOf(c, AfterGc(c, s, now).entries, ip, now) == LevelOf(c, s.entries, ip, now)
  {
    if GcRuns(c, s, now) && ip in s.entries && s.entries[ip].last < now - c.idleTtl {
      IdleIsFull(c, s.entries[ip], now);
      FreshLevel(c, now);
    }
  }

  lemma LevelAfterTake(c: Config, g: State, m: Buckets, ip: string, now: real, x: string)
    requires LevelOf(c, g.entries, ip, now) == RefLevelOf(c, m, ip, now)
    requires LevelOf(c, g.entries, x, now) == RefLevelOf(c, m, x, now)
    ensures var entries := g.entries[ip := Entry(Take(c, BucketOf(c, g.entries, ip, now), now), now)];
            LevelOf(c, entries, x, now) == RefLevelOf(c, RefAfter(c, m, ip, now), x, now)
  {
    TakeLevel(c, BucketOf(c, g.entries, ip, now), now);
    TakeLevel(c, RefBucket(c, m, ip, now), now);
  }

  lemma CallKeepsLevels(c: Config, s: State, m: Buckets, ip: string, now: real)
    requires c.rate >= 0.0 && Full(c) <= c.rate * c.idleTtl
    requires EntriesOk(c, s.entries, now) && SameLevels(c, s.entries, m, now)
    ensures Allows(c, s, ip, now) == RefAllows(c, m, ip, now)
    ensures SameLevels(c, AfterAllow(c, s, ip, now).entries, RefAfter(c, m, ip, now), now)
  {
    var g := AfterGc(c, s, now);
    EvictionKeepsLevels(c, s, now, ip);
    assert LevelOf(c, s.entries, ip, now) == RefLevelOf(c, m, ip, now);
    var entries := AfterAllow(c, s, ip, now).entries;
    forall x ensures LevelOf(c, entries, x, now) == RefLevelOf(c, RefAfter(c, m, ip, now), x, now) {
      EvictionKeepsLevels(c, s, now, x);
      assert LevelOf(c, s.entries, x, now) == RefLevelOf(c, m, x, now);
      LevelAfterTake(c, g, m, ip, now, x);
    }
  }

  lemma TakeKeepsTokens(c: Config, b: Bucket, now: real)
    requires b.tokens >= 0.0 && b.last <= now
    ensures Take(c, b, now).tokens >= 0.0 && Take(c, b, now).last <= now
  {
  }

  lemma CallKeepsEntriesOk(c: Config, s: State, ip: string, now: real)
    requires EntriesOk(c, s.entries, now)
    ensures EntriesOk(c, AfterAllow(c, s, ip, now).entries, now)
  {
    var g := AfterGc(c, s, now);
    TakeKeepsTokens(c, BucketOf(c, g.entries, ip, now), now);
  }

  lemma {:induction false} RunsAgree(c: Config, s: State, m: Buckets, run: seq<Call>, now: real)
    requires c.rate >= 0.0 && Full(c) <= c.rate * c.idleTtl
    requires EntriesOk(c, s.entries, now) && SameLevels(c, s.entries, m, now) && InOrder(run, now)
    ensures Answers(c, s, run) == RefAnswers(c, m, run)
    decreases run
  {
    if run != [] {
      var ip, time := run[0].ip, run[0].time;
      SameLevelsLater(c, s.entries, m, now, time);
      CallKeepsLevels(c, s, m, ip, time);
      CallKeepsEntriesOk(c, s, ip, time);
      RunsAgree(c, AfterAllow(c, s, ip, time), RefAfter(c, m, ip, time), run[1..], time);
    }
  }

  // ----- What the answers are worth: the rate that is allowed

  /** How many calls of the address are let through from call i up to call n. */
  function Granted(run: seq<Call>, answers: seq<bool>, ip: string, i: nat, n: nat): nat
    requires n <= |run| == |answers|
    decreases n
  {
    if n <= i then 0
    else Granted(run, answers, ip, i, n - 1) + (if run[n - 1].ip == ip && answers[n - 1] then 1 else 0)
  }

  /** With added[i] the tokens that the rate has added by call i, call n finds at least x of them: since each
      earlier call of the address it was granted at most a burst and what was added, less x. */
  ghost predicate Leaves(
    burst: real, run: seq<Call>, added: seq<real>, answers: seq<bool>, ip: string, n: nat, sum: real, x: real)
    requires n <= |run| == |answers| == |added|
  {
    && burst >= x
    && forall i :: 0 <= i < n && run[i].ip == ip ==>
         burst + (sum - added[i]) - Granted(run, answers, ip, i, n) as real >= x
  }

  /** The token that a call takes from the bucket of an address. */
  function Taken(call: Call, answer: bool, ip: string): real {
    if call.ip == ip && answer then 1.0 else 0.0
  }

  /** One call more: the same condition a moment earlier, less the token it took. */
  lemma LeavesStep(
    burst: real, run: seq<Call>, added: seq<real>, answers: seq<bool>, ip: string, n: nat, sum: real, x: real)
    requires n < |run| == |answers| == |added| && added[n] <= sum
    ensures Leaves(burst, run, added, answers, ip, n + 1, sum, x) <==>
              && burst >= x
              && Leaves(burst, run, added, answers, ip, n, added[n],
                        x + Taken(run[n], answers[n], ip) - (sum - added[n]))
  {
    var one := if run[n].ip == ip && answers[n] then 1 else 0;
    assert Granted(run, answers, ip, n, n + 1) == one;
    assert forall i :: 0 <= i < n ==> Granted(run, answers, ip, i, n + 1) == Granted(run, answers, ip, i, n) + one;
  }

  /** The levels that the calls of a run would find in the bucket of an address. */
  ghost predicate Refills(
    burst: real, run: seq<Call>, added: seq<real>, answers: seq<bool>, ip: string, levels: seq<real>)
  {
    && |run| == |answers| == |added| == |levels|
    && forall n :: 0 < n < |run| ==>
         && added[n - 1] <= added[n]
         && levels[n] ==
            Min(burst, levels[n - 1] - Taken(run[n - 1], answers[n - 1], ip) + (added[n] - added[n - 1]))
  }

  lemma {:induction false} LevelIsWhatIsLeft(
    burst: real, run: seq<Call>, added: seq<real>, answers: seq<bool>, ip: string, levels: seq<real>, n: nat, x: real)
    requires Refills(burst, run, added, answers, ip, levels) && n < |run| && levels[0] == burst
    ensures levels[n] >= x <==> Leaves(burst, run, added, answers, ip, n, added[n], x)
    decreases n
  {
    if n > 0 {
      LeavesStep(burst, run, added, answers, ip, n - 1, added[n], x);
      LevelIsWhatIsLeft(burst, run, added, answers, ip, levels, n - 1,
                        x + Taken(run[n - 1], answers[n - 1], ip) - (added[n] - added[n - 1]));
    }
  }

  /** The level for a call of the address tells whether it is let through. */
  ghost predicate Tells(run: seq<Call>, answers: seq<bool>, ip: string, levels: seq<real>) {
    && |run| == |answers| == |levels|
    && forall n :: 0 <= n < |run| && run[n].ip == ip ==> (answers[n] <==> levels[n] >= 1.0)
  }

  /** What Refills and Tells say of the first call. */
  ghost predicate StartsRight(
    burst: real, run: seq<Call>, added: seq<real>, answers: seq<bool>, ip: string, levels: seq<real>)
    requires run != [] && |run| == |answers| == |added| == |levels|
  {
    && (run[0].ip == ip ==> (answers[0] <==> levels[0] >= 1.0))
    && (|run| > 1 ==>
          && added[0] <= added[1]
          && levels[1] == Min(burst, levels[0] - Taken(run[0], answers[0], ip) + (added[1] - added[0])))
  }

  /** A call in front of a run. */
  lemma OneInFront(
    burst: real, run: seq<Call>, added: seq<real>, answers: seq<bool>, ip: string, levels: seq<real>)
    requires run != [] && |run| == |answers| == |added| == |levels|
    requires Refills(burst, run[1..], added[1..], answers[1..], ip, levels[1..])
    requires Tells(run[1..], answers[1..], ip, levels[1..])
    requires StartsRight(burst, run, added, answers, ip, levels)
    ensures Refills(burst, run, added, answers, ip, levels) && Tells(run, answers, ip, levels)
  {
    var rest := run[1..];
    assert forall n :: 0 < n < |run| ==> run[n] == rest[n - 1];
    assert forall n :: 0 < n < |run| ==> added[n] == added[1..][n - 1];
    assert forall n :: 0 < n < |run| ==> levels[n] == levels[1..][n - 1] && answers[n] == answers[1..][n - 1];
  }

  ghost predicate AddedByTheRate(c: Config, run: seq<Call>, added: seq<real>) {
    |added| == |run| && forall i :: 0 <= i < |run| ==> added[i] == run[i].time * c.rate
  }

  /** A call, and the level that an address would find some time later. */
  lemma LevelAfterCall(c: Config, m: Buckets, call: Call, ip: string, later: real, gain: real)
    requires c.rate >= 0.0 && call.time <= later && gain == (later - call.time) * c.rate
    ensures var next := RefLevelOf(c, RefAfter(c, m, call.ip, call.time), ip, later);
            var taken := Taken(call, RefAllows(c, m, call.ip, call.time), ip);
            next == Min(Full(c), RefLevelOf(c, m, ip, call.time) - taken + gain)
  {
    LevelJustAfter(c, m, call, ip);
    RefLevelOfLater(c, RefAfter(c, m, call.ip, call.time), ip, call.time, later);
  }

  lemma LevelJustAfter(c: Config, m: Buckets, call: Call, ip: string)
    ensures RefLevelOf(c, RefAfter(c, m, call.ip, call.time), ip, call.time) ==
            RefLevelOf(c, m, ip, call.time) - Taken(call, RefAllows(c, m, call.ip, call.time), ip)
  {
    TakeLevel(c, RefBucket(c, m, ip, call.time), call.time);
  }

  lemma Gain(rate: real, now: real, later: real, added: real, more: real)
    requires rate >= 0.0 && now <= later && added == now * rate && more == later * rate
    ensures more - added == (later - now) * rate
    ensures added <= more
  {
    var gain := (later - now) * rate;
    assert gain == more - added by {
      Difference(later, now, rate);
    }
    assert gain >= 0.0 by {
      Product(later - now, rate);
    }
  }

  lemma NextLevel(c: Config, m: Buckets, run: seq<Call>, added: seq<real>, ip: string)
    requires c.rate >= 0.0 && |run| > 1 && run[0].time <= run[1].time && AddedByTheRate(c, run, added)
    ensures added[0] <= added[1]
    ensures var next := RefLevelOf(c, RefAfter(c, m, run[0].ip, run[0].time), ip, run[1].time);
            var taken := Taken(run[0], RefAllows(c, m, run[0].ip, run[0].time), ip);
            next == Min(Full(c), RefLevelOf(c, m, ip, run[0].time) - taken + (added[1] - added[0]))
  {
    Gain(c.rate, run[0].time, run[1].time, added[0], added[1]);
    LevelAfterCall(c, m, run[0], ip, run[1].time, added[1] - added[0]);
  }

  lemma LevelsStartRight(
    c: Config, m: Buckets, run: seq<Call>, added: seq<real>, ip: string, answers: seq<bool>, levels: seq<real>)
    requires c.rate >= 0.0 && run != [] && InOrder(run, 0.0) && AddedByTheRate(c, run, added)
    requires |run| == |answers| == |levels|
    requires answers[0] == RefAllows(c, m, run[0].ip, run[0].time) && levels[0] == RefLevelOf(c, m, ip, run[0].time)
    requires |run| > 1 ==> levels[1] == RefLevelOf(c, RefAfter(c, m, run[0].ip, run[0].time), ip, run[1].time)
    ensures StartsRight(Full(c), run, added, answers, ip, levels)
  {
    if |run| > 1 {
      NextLevel(c, m, run, added, ip);
    }
  }

  lemma TailIsAdded(c: Config, run: seq<Call>, added: seq<real>)
    requires run != [] && AddedByTheRate(c, run, added)
    ensures AddedByTheRate(c, run[1..], added[1..])
  {
  }

  lemma {:induction false} LevelsOf(c: Config, m: Buckets, run: seq<Call>, added: seq<real>, ip: string)
    returns (levels: seq<real>)
    requires c.rate >= 0.0 && InOrder(run, 0.0) && AddedByTheRate(c, run, added)
    ensures Refills(Full(c), run, added, RefAnswers(c, m, run), ip, levels)
    ensures Tells(run, RefAnswers(c, m, run), ip, levels)
    ensures run != [] ==> levels[0] == RefLevelOf(c, m, ip, run[0].time)
    decreases |run|
  {
    if run == [] {
      levels := [];
    } else {
      var answers := RefAnswers(c, m, run);
      TailIsAdded(c, run, added);
      var rest := LevelsOf(c, RefAfter(c, m, run[0].ip, run[0].time), run[1..], added[1..], ip);
      levels := [RefLevelOf(c, m, ip, run[0].time)] + rest;
      assert levels[1..] == rest && answers[1..] == RefAnswers(c, RefAfter(c, m, run[0].ip, run[0].time), run[1..]);
      LevelsStartRight(c, m, run, added, ip, answers, levels);
      OneInFront(Full(c), run, added, answers, ip, levels);
    }
  }

  /** The tokens that the rate has added since time 0. */
  ghost function Added(c: Config, run: seq<Call>): (added: seq<real>)
    ensures AddedByTheRate(c, run, added)
  {
    seq(|run|, i requires 0 <= i < |run| => run[i].time * c.rate)
  }

  /** Counted from each earlier call of its address and from itself, those granted and this one stay within a
      burst and what the rate has added since. */
  ghost predicate WithinTheRate(c: Config, run: seq<Call>, answers: seq<bool>, n: nat)
    requires n < |run| == |answers|
  {
    forall i :: 0 <= i <= n && run[i].ip == run[n].ip ==>
      Granted(run, answers, run[n].ip, i, n) as real + 1.0 <= c.burst as real + (run[n].time - run[i].time) * c.rate
  }

  lemma LeavesOne(c: Config, run: seq<Call>, answers: seq<bool>, n: nat)
    requires n < |run| == |answers|
    ensures Leaves(Full(c), run, Added(c, run), answers, run[n].ip, n, Added(c, run)[n], 1.0) <==>
              WithinTheRate(c, run, answers, n)
  {
    assert (run[n].time - run[n].time) * c.rate == 0.0 && Granted(run, answers, run[n].ip, n, n) == 0;
    forall i | 0 <= i < n ensures (run[n].time - run[i].time) * c.rate == Added(c, run)[n] - Added(c, run)[i] {
      Difference(run[n].time, run[i].time, c.rate);
    }
  }

  /** A call is let through exactly when it stays within the rate. */
  lemma AllowedExactly(c: Config, run: seq<Call>, n: nat)
    requires c.rate >= 0.0 && InOrder(run, 0.0) && n < |run|
    ensures |RefAnswers(c, map[], run)| == |run|
    ensures RefAnswers(c, map[], run)[n] <==> WithinTheRate(c, run, RefAnswers(c, map[], run), n)
  {
    var answers := RefAnswers(c, map[], run);
    var levels := LevelsOf(c, map[], run, Added(c, run), run[n].ip);
    FreshLevel(c, run[0].time);
    LevelIsWhatIsLeft(Full(c), run, Added(c, run), answers, run[n].ip, levels, n, 1.0);
    LeavesOne(c, run, answers, n);
  }

  /** So it is for the limiter itself, whose buckets are evicted, if they refill within the time to live. */
  lemma EvictingAllowsExactly(c: Config, run: seq<Call>, n: nat)
    requires ValidConfig(c) && Full(c) <= c.rate * c.idleTtl
    requires InOrder(run, 0.0) && NoOverflow(c, Initial(c), run) && n < |run|
    ensures |Answers(c, Initial(c), run)| == |run|
    ensures Answers(c, Initial(c), run)[n] <==> WithinTheRate(c, run, Answers(c, Initial(c), run), n)
  {
    RunsAgree(c, Initial(c), map[], run, 0.0);
    AllowedExactly(c, run, n);
  }

  // ----- Necessity: with burst > rate * idleTtl some run tells

  ghost function Calls(ip: string, time: real, k: nat): seq<Call> {
    seq(k, _ => Call(ip, time))
  }

  ghost predicate AllTrue(answers: seq<bool>) {
    forall i :: 0 <= i < |answers| ==> answers[i]
  }

  /** k tokens are enough for k calls at once, and then they are used up. */
  ghost predicate Holds(c: Config, s: State, ip: string, now: real, level: real) {
    && s.entries.Keys == {ip} && s.entries[ip].last == now
    && Level(c, s.entries[ip].bucket, now) == level
    && s.lastGc <= now
  }

  lemma OneCall(c: Config, s: State, ip: string, now: real, level: real)
    requires ValidConfig(c) && c.burst >= 1 && Holds(c, s, ip, now, level) && level >= 1.0
    ensures Allows(c, s, ip, now) && !Overflows(c, s, now)
    ensures Holds(c, AfterAllow(c, s, ip, now), ip, now, level - 1.0)
    ensures s.lastGc <= AfterAllow(c, s, ip, now).lastGc
  {
    assert Evicted(c, s.entries, now) == s.entries;
    assert AfterGc(c, s, now).entries == s.entries;
    TakeLevel(c, s.entries[ip].bucket, now);
    assert |s.entries.Keys| == 1;
  }

  lemma {:induction false} Burst(
    c: Config, s: State, ip: string, now: real, level: real, k: nat, rest: seq<Call>) returns (t: State)
    requires ValidConfig(c) && c.burst >= 1 && Holds(c, s, ip, now, level) && level >= k as real
    ensures Holds(c, t, ip, now, level - k as real) && s.lastGc <= t.lastGc
    ensures AllTrue(Answers(c, s, Calls(ip, now, k) + rest)) <==> AllTrue(Answers(c, t, rest))
    ensures NoOverflow(c, s, Calls(ip, now, k) + rest) <==> NoOverflow(c, t, rest)
    decreases k
  {
    if k == 0 {
      t := s;
      assert Calls(ip, now, 0) + rest == rest;
    } else {
      OneCall(c, s, ip, now, level);
      t := Burst(c, AfterAllow(c, s, ip, now), ip, now, level - 1.0, k - 1, rest);
      AllowedFirst(c, s, ip, now, k, rest);
    }
  }

  /** An allowed first call can be taken off the front of the run. */
  lemma AllowedFirst(c: Config, s: State, ip: string, now: real, k: nat, rest: seq<Call>)
    requires k > 0 && Allows(c, s, ip, now) && !Overflows(c, s, now)
    ensures var s' := AfterAllow(c, s, ip, now);
            && (AllTrue(Answers(c, s, Calls(ip, now, k) + rest)) <==>
                AllTrue(Answers(c, s', Calls(ip, now, k - 1) + rest)))
            && (NoOverflow(c, s, Calls(ip, now, k) + rest) <==> NoOverflow(c, s', Calls(ip, now, k - 1) + rest))
  {
    var run := Calls(ip, now, k) + rest;
    assert run[0] == Call(ip, now) && run[1..] == Calls(ip, now, k - 1) + rest;
    AllTrueCons(Answers(c, AfterAllow(c, s, ip, now), run[1..]));
  }

  lemma AllTrueCons(answers: seq<bool>)
    ensures AllTrue([true] + answers) <==> AllTrue(answers)
  {
    var longer := [true] + answers;
    if AllTrue(longer) {
      forall i | 0 <= i < |answers| ensures answers[i] {
        assert longer[i + 1] == answers[i];
      }
    }
  }

  /** The first call from an address: an empty map, or one whose only entry has been idle. */
  lemma FirstCall(c: Config, s: State, ip: string, now: real)
    requires ValidConfig(c) && c.burst >= 1 && GcRuns(c, s, now)
    requires Evicted(c, s.entries, now) == map[]
    ensures Allows(c, s, ip, now) && !Overflows(c, s, now)
    ensures Holds(c, AfterAllow(c, s, ip, now), ip, now, Full(c) - 1.0)
    ensures AfterAllow(c, s, ip, now).lastGc == now
  {
    FreshLevel(c, now);
    TakeLevel(c, Bucket(Full(c), now), now);
    assert AfterGc(c, s, now) == State(map[], now);
  }

  /** A full burst after a first call: all are let through. */
  lemma {:induction false} FullBurst(c: Config, s: State, ip: string, now: real, rest: seq<Call>) returns (t: State)
    requires ValidConfig(c) && c.burst >= 1 && GcRuns(c, s, now) && Evicted(c, s.entries, now) == map[]
    ensures Holds(c, t, ip, now, 0.0) && t.lastGc == now
    ensures AllTrue(Answers(c, s, Calls(ip, now, c.burst) + rest)) <==> AllTrue(Answers(c, t, rest))
    ensures NoOverflow(c, s, Calls(ip, now, c.burst) + rest) <==> NoOverflow(c, t, rest)
  {
    FirstCall(c, s, ip, now);
    t := Burst(c, AfterAllow(c, s, ip, now), ip, now, Full(c) - 1.0, c.burst - 1, rest);
    AllowedFirst(c, s, ip, now, c.burst, rest);
  }

  /** The reference lets k calls through at once only from a level of at least k. */
  lemma {:induction false} RefBurst(c: Config, m: Buckets, ip: string, now: real, level: real, k: nat)
    requires c.burst >= 1 && ip in m && Level(c, m[ip], now) == level
    requires AllTrue(RefAnswers(c, m, Calls(ip, now, k)))
    ensures k == 0 || level >= k as real
    decreases k
  {
    if k > 0 {
      var run := Calls(ip, now, k);
      assert run[0] == Call(ip, now) && run[1..] == Calls(ip, now, k - 1);
      var m' := RefAfter(c, m, ip, now);
      assert RefAnswers(c, m, run)[0];
      TakeLevel(c, m[ip], now);
      forall i | 0 <= i < |RefAnswers(c, m', run[1..])| ensures RefAnswers(c, m', run[1..])[i] {
        assert RefAnswers(c, m, run)[i + 1] == RefAnswers(c, m', run[1..])[i];
      }
      RefBurst(c, m', ip, now, level - 1.0, k - 1);
    }
  }

  /** After a full burst of the reference at time now its bucket is empty. */
  lemma {:induction false} RefDrains(
    c: Config, m: Buckets, ip: string, now: real, k: nat, rest: seq<Call>) returns (m': Buckets)
    requires c.burst >= 1 && k <= c.burst && RefLevelOf(c, m, ip, now) == k as real
    requires AllTrue(RefAnswers(c, m, Calls(ip, now, k) + rest))
    ensures RefLevelOf(c, m', ip, now) == 0.0 && (k > 0 || ip in m ==> ip in m')
    ensures AllTrue(RefAnswers(c, m', rest))
    decreases k
  {
    if k == 0 {
      m' := m;
      assert Calls(ip, now, 0) + rest == rest;
    } else {
      var run := Calls(ip, now, k) + rest;
      assert run[0] == Call(ip, now) && run[1..] == Calls(ip, now, k - 1) + rest;
      var n := RefAfter(c, m, ip, now);
      TakeLevel(c, RefBucket(c, m, ip, now), now);
      forall i | 0 <= i < |RefAnswers(c, n, run[1..])| ensures RefAnswers(c, n, run[1..])[i] {
        assert RefAnswers(c, m, run)[i + 1] == RefAnswers(c, n, run[1..])[i];
      }
      m' := RefDrains(c, n, ip, now, k - 1, rest);
    }
  }

  /** A moment after the time to live at which a drained bucket is not yet full again. */
  lemma TellingTime(c: Config) returns (later: real)
    requires c.rate >= 0.0 && c.idleTtl >= 0.0 && Full(c) > c.rate * c.idleTtl
    ensures later > c.idleTtl && later * c.rate < Full(c)
  {
    if c.rate == 0.0 {
      later := c.idleTtl + 1.0;
      assert later * c.rate == 0.0;
      assert c.rate * c.idleTtl == 0.0;
    } else {
      var end := Full(c) / c.rate;
      assert end * c.rate == Full(c);
      assert c.rate * c.idleTtl == c.idleTtl * c.rate;
      LargerFactor(end, c.idleTtl, c.rate);
      later := (c.idleTtl + end) / 2.0;
      Product(end - later, c.rate);
      assert (end - later) * c.rate > 0.0;
      assert (end - later) * c.rate == end * c.rate - later * c.rate;
    }
  }

  ghost function TellingRun(c: Config, ip: string, later: real): seq<Call> {
    Calls(ip, 0.0, c.burst) + Calls(ip, later, c.burst)
  }

  /** The evicting limiter lets the whole run through. */
  lemma EvictingAllowsAll(c: Config, ip: string, later: real)
    requires ValidConfig(c) && c.burst >= 1 && later > c.idleTtl
    ensures NoOverflow(c, Initial(c), TellingRun(c, ip, later))
    ensures AllTrue(Answers(c, Initial(c), TellingRun(c, ip, later)))
  {
    var second := Calls(ip, later, c.burst);
    assert Evicted(c, Initial(c).entries, 0.0) == map[];
    var s := FullBurst(c, Initial(c), ip, 0.0, second);
    assert Evicted(c, s.entries, later) == map[];
    assert second + [] == second;
    var t := FullBurst(c, s, ip, later, []);
  }

  /** The reference refuses some call of it. */
  lemma ReferenceRefusesOne(c: Config, ip: string, later: real)
    requires ValidConfig(c) && c.burst >= 1 && later > 0.0 && later * c.rate < Full(c)
    ensures !AllTrue(RefAnswers(c, map[], TellingRun(c, ip, later)))
  {
    if AllTrue(RefAnswers(c, map[], TellingRun(c, ip, later))) {
      FreshLevel(c, 0.0);
      var m := RefDrains(c, map[], ip, 0.0, c.burst, Calls(ip, later, c.burst));
      LevelLater(c, m[ip], 0.0, later);
      RefBurst(c, m, ip, later, Level(c, m[ip], later), c.burst);
      assert false;
    }
  }

  lemma TellingRunInOrder(c: Config, ip: string, later: real)
    requires later >= 0.0
    ensures InOrder(TellingRun(c, ip, later), 0.0)
  {
  }

  /**
   Evicting idle buckets is unobservable exactly when a bucket refills within the time to live.
   */
  lemma UnobservableExactlyWhenRefilled(c: Config)
    requires ValidConfig(c)
    ensures EvictionIsUnobservable(c) <==> Full(c) <= c.rate * c.idleTtl
  {
    if Full(c) <= c.rate * c.idleTtl {
      forall run | InOrder(run, 0.0) && NoOverflow(c, Initial(c), run)
        ensures Answers(c, Initial(c), run) == RefAnswers(c, map[], run)
      {
        RunsAgree(c, Initial(c), map[], run, 0.0);
      }
    } else {
      Product(c.rate, c.idleTtl);
      var later := TellingTime(c);
      var run := TellingRun(c, "ip", later);
      TellingRunInOrder(c, "ip", later);
      EvictingAllowsAll(c, "ip", later);
      ReferenceRefusesOne(c, "ip", later);
      assert Answers(c, Initial(c), run) != RefAnswers(c, map[], run);
    }
  }

  /** Of the six limiters, all but the upload limiter refill within the ten minutes. */
  lemma SixLimiters()
    ensures EvictionIsUnobservable(NewLimiter(10.0, 30))
    ensures EvictionIsUnobservable(NewLimiter(0.05, 3))
    ensures EvictionIsUnobservable(NewLimiter(1.0 / 300.0, 1))
    ensures EvictionIsUnobservable(NewLimiter(10.0 / 60.0, 10))
    ensures !EvictionIsUnobservable(NewLimiter(20.0 / 3600.0, 20))
  {
    UnobservableExactlyWhenRefilled(NewLimiter(10.0, 30));
    UnobservableExactlyWhenRefilled(NewLimiter(0.05, 3));
    UnobservableExactlyWhenRefilled(NewLimiter(1.0 / 300.0, 1));
    UnobservableExactlyWhenRefilled(NewLimiter(10.0 / 60.0, 10));
    UnobservableExactlyWhenRefilled(NewLimiter(20.0 / 3600.0, 20));
  }

  // ----- The limiter as an object

  class IpLimiter {
    const cfg: Config
    var entries: Entries
    var lastGc: real

    /** The map never holds more than one entry over its size limit. */
    ghost predicate Valid()
      reads this
    {
      |entries| <= cfg.maxSize + 1
    }

    ghost function Contents(): State
      reads this
    {
      State(entries, lastGc)
    }

    constructor (cfg: Config)
      ensures this.cfg == cfg && Valid() && Contents() == Initial(cfg)
    {
      this.cfg := cfg;
      entries := map[];
      lastGc := -cfg.gcEvery;
    }

    /** Evicts idle entries and, if the map is still over its limit, arbitrary ones. */
    method GcLocked(now: real)
      requires Valid()
      modifies this
      ensures |entries| <= cfg.maxSize
      ensures !Overflows(cfg, old(Contents()), now) ==> Contents() == AfterGc(cfg, old(Contents()), now)
      ensures entries.Keys <= old(entries).Keys && forall ip :: ip in entries ==> entries[ip] == old(entries)[ip]
    {
      if now - lastGc < cfg.gcEvery && |entries| < cfg.maxSize {
        return;
      }
      entries := EvictIdle(entries, now - cfg.idleTtl);
      assert entries == Evicted(cfg, old(entries), now);
      if |entries| > cfg.maxSize {
        entries := DropSome(entries, cfg.maxSize * 9 / 10);
      }
      lastGc := now;
    }

    method Allow(ip: string, now: real) returns (ok: bool)
      requires Valid()
      modifies this
      ensures Valid()
      ensures !Overflows(cfg, old(Contents()), now) ==>
                ok == Allows(cfg, old(Contents()), ip, now) && Contents() == AfterAllow(cfg, old(Contents()), ip, now)
      ensures ip in entries && entries[ip].last == now
    {
      GcLocked(now);
      var b := if ip in entries then entries[ip].bucket else Bucket(Full(cfg), now);
      ok := Level(cfg, b, now) >= 1.0;
      assert entries[ip := Entry(Take(cfg, b, now), now)].Keys == entries.Keys + {ip};
      entries := entries[ip := Entry(Take(cfg, b, now), now)];
    }
  }

  /** The first loop of the collector. */
  method EvictIdle(entries: Entries, cutoff: real) returns (r: Entries)
    ensures r == map ip | ip in entries && entries[ip].last >= cutoff :: entries[ip]
  {
    r := entries;
    var todo := entries.Keys;
    while todo != {}
      invariant todo <= entries.Keys
      invariant r.Keys <= entries.Keys && forall ip :: ip in r ==> r[ip] == entries[ip]
      invariant forall ip :: ip in entries ==> (ip in r <==> ip in todo || entries[ip].last >= cutoff)
      decreases todo
    {
      var ip :| ip in todo;
      todo := todo - {ip};
      if entries[ip].last < cutoff {
        r := r - {ip};
      }
    }
  }

  /** The overflow loop: entries go in whatever order the map yields them. */
  method DropSome(entries: Entries, target: nat) returns (r: Entries)
    ensures |r| <= target
    ensures r.Keys <= entries.Keys && forall ip :: ip in r ==> r[ip] == entries[ip]
  {
    r := entries;
    while |r| > target
      invariant r.Keys <= entries.Keys && forall ip :: ip in r ==> r[ip] == entries[ip]
      decreases |r|
    {
      assert r.Keys != {};
      var ip :| ip in r.Keys;
      assert (r - {ip}).Keys == r.Keys - {ip};
      r := r - {ip};
    }
  }
}
