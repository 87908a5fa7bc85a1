/**
 Granting crates for referrals: which users earn their referrer a crate, and the two limits, five
 crates in 24 hours and two crates for one signup address.
 */
module CrateGrants {
  import opened Common
  import opened RewardRolls
  import opened RewardTables
  import opened Sql

  datatype User = User(name: string, referredBy: string, verified: bool, signupIp: string, createdAt: nat)

  const MAX_CRATES_PER_IP := 2
  const MAX_CRATES_PER_DAY := 5
  const DAY := 86400

  // ----- The queries of syncCrates

  /** Code-point order of strings, the collation of the username column. */
  predicate StringLe(a: string, b: string) {
    if a == [] then true
    else if b == [] then false
    else a[0] < b[0] || (a[0] == b[0] && StringLe(a[1..], b[1..]))
  }

  predicate ByCreatedAtThenName(a: User, b: User) {
    a.createdAt < b.createdAt || (a.createdAt == b.createdAt && StringLe(a.name, b.name))
  }

  predicate Eligible(u: User, crates: seq<Crate>, owner: string) {
    u.referredBy == owner && u.verified && !HasSource(crates, u.name)
  }

  function EligibleUsers(users: seq<User>, crates: seq<Crate>, owner: string): seq<User> {
    if users == [] then []
    else (if Eligible(users[0], crates, owner) then [users[0]] else []) + EligibleUsers(users[1..], crates, owner)
  }

  function Candidates(users: seq<User>, crates: seq<Crate>, owner: string): seq<User> {
    OrderBy(EligibleUsers(users, crates, owner), ByCreatedAtThenName)
  }

  /** COUNT(*) … WHERE owner = ? AND created_at > since */
  function CountSince(crates: seq<Crate>, owner: string, since: int): nat {
    if crates == [] then 0
    else
      var last := crates[|crates| - 1];
      CountSince(crates[..|crates| - 1], owner, since) +
      (if last.owner == owner && last.createdAt > since then 1 else 0)
  }

  function Today(crates: seq<Crate>, owner: string, now: nat): nat {
    CountSince(crates, owner, now - DAY)
  }

  /** Grants to an owner in the 24 hours that end at the given time. */
  ghost function InWindow(crates: seq<Crate>, owner: string, end: int): nat {
    if crates == [] then 0
    else
      var last := crates[|crates| - 1];
      InWindow(crates[..|crates| - 1], owner, end) +
      (if last.owner == owner && end - DAY < last.createdAt <= end then 1 else 0)
  }

  /** JOIN users ON username = source: the signup address behind a crate. */
  function IpOf(users: seq<User>, name: string): Option<string> {
    if users == [] then None
    else if users[0].name == name then Some(users[0].signupIp)
    else IpOf(users[1..], name)
  }

  function SameIp(crates: seq<Crate>, users: seq<User>, owner: string, ip: string): nat {
    if crates == [] then 0
    else
      var last := crates[|crates| - 1];
      SameIp(crates[..|crates| - 1], users, owner, ip) +
      (if last.owner == owner && IpOf(users, last.source) == Some(ip) then 1 else 0)
  }

  // ----- The loop over the candidates

  datatype Verdict = Stop | Skip | Give

  function Judge(crates: seq<Crate>, users: seq<User>, owner: string, c: User, now: nat): Verdict {
    if Today(crates, owner, now) >= MAX_CRATES_PER_DAY then Stop
    else if c.signupIp != "" && SameIp(crates, users, owner, c.signupIp) >= MAX_CRATES_PER_IP then Skip
    else Give
  }

  datatype Progress = Progress(crates: seq<Crate>, stopped: bool)

  /** The table after the first k candidates; candidate i is judged at time clock(2i) and its row
      inserted at clock(2i + 1). */
  function After(
    crates: seq<Crate>, users: seq<User>, owner: string, cands: seq<User>, clock: nat -> nat, k: nat): Progress
    requires k <= |cands|
  {
    if k == 0 then Progress(crates, false)
    else
      var p := After(crates, users, owner, cands, clock, k - 1);
      if p.stopped then p
      else
        match Judge(p.crates, users, owner, cands[k - 1], clock(2 * k - 2))
        case Stop => Progress(p.crates, true)
        case Skip => p
        case Give => Progress(InsertOrIgnore(p.crates, owner, cands[k - 1].name, clock(2 * k - 1)), false)
  }

  function SyncCrates(crates: seq<Crate>, users: seq<User>, owner: string, clock: nat -> nat): seq<Crate> {
    var cands := Candidates(users, crates, owner);
    After(crates, users, owner, cands, clock, |cands|).crates
  }

  // ----- The invariant

  ghost predicate UsersOk(users: seq<User>) {
    forall i, j :: 0 <= i < j < |users| ==> users[i].name != users[j].name
  }

  ghost predicate Chronological(crates: seq<Crate>, now: nat) {
    && (forall i, j :: 0 <= i < j < |crates| ==> crates[i].createdAt <= crates[j].createdAt)
    && (forall i :: 0 <= i < |crates| ==> crates[i].createdAt <= now)
  }

  /** Each source earned at most one crate. */
  ghost predicate OneCratePerSource(crates: seq<Crate>) {
    forall i, j :: 0 <= i < j < |crates| ==> crates[i].source != crates[j].source
  }

  /** Every 24-hour window, wherever it ends, holds at most five grants to an owner. */
  ghost predicate DailyCapHolds(crates: seq<Crate>) {
    forall owner: string, end: int :: InWindow(crates, owner, end) <= MAX_CRATES_PER_DAY
  }

  /** At most two of an owner's crates come from one non-empty signup address. */
  ghost predicate IpCapHolds(crates: seq<Crate>, users: seq<User>) {
    forall owner: string, ip: string :: ip != "" ==> SameIp(crates, users, owner, ip) <= MAX_CRATES_PER_IP
  }

  /** Every crate was earned by a verified user, who is still there and was referred by the crate's owner. */
  ghost predicate SourcesAreReferrals(crates: seq<Crate>, users: seq<User>) {
    forall i :: 0 <= i < |crates| ==> Referral(users, crates[i].source, crates[i].owner)
  }

  ghost predicate Referral(users: seq<User>, name: string, owner: string) {
    exists j :: 0 <= j < |users| && users[j].name == name && users[j].verified && users[j].referredBy == owner
  }

  ghost predicate GrantsOk(crates: seq<Crate>, users: seq<User>, now: nat) {
    && UsersOk(users)
    && Chronological(crates, now)
    && OneCratePerSource(crates)
    && DailyCapHolds(crates)
    && IpCapHolds(crates, users)
    && SourcesAreReferrals(crates, users)
  }

  // ----- Facts about the counts

  lemma {:induction false} WindowIsCounted(crates: seq<Crate>, owner: string, end: int, since: int)
    requires since <= end - DAY
    ensures InWindow(crates, owner, end) <= CountSince(crates, owner, since)
  {
    if crates != [] {
      WindowIsCounted(crates[..|crates| - 1], owner, end, since);
    }
  }

  lemma {:induction false} IpOfUnique(users: seq<User>, u: User)
    requires UsersOk(users) && u in users
    ensures IpOf(users, u.name) == Some(u.signupIp)
  {
    if users[0] != u {
      assert u in users[1..];
      var j :| 0 <= j < |users| && users[j] == u;
      assert users[0].name != users[j].name;
      IpOfUnique(users[1..], u);
    }
  }

  // ----- One grant keeps the invariant

  lemma GrantKeepsDailyCap(crates: seq<Crate>, row: Crate, judgedAt: nat)
    requires DailyCapHolds(crates) && judgedAt <= row.createdAt
    requires Today(crates, row.owner, judgedAt) < MAX_CRATES_PER_DAY
    ensures DailyCapHolds(crates + [row])
  {
    var longer := crates + [row];
    assert longer[..|crates|] == crates;
    forall owner: string, end: int ensures InWindow(longer, owner, end) <= MAX_CRATES_PER_DAY {
      assert InWindow(crates, owner, end) <= MAX_CRATES_PER_DAY;
      if owner == row.owner && row.createdAt <= end {
        WindowIsCounted(crates, owner, end, judgedAt - DAY);
      }
    }
  }

  lemma GrantKeepsIpCap(crates: seq<Crate>, users: seq<User>, row: Crate, c: User)
    requires IpCapHolds(crates, users) && IpOf(users, row.source) == Some(c.signupIp)
    requires c.signupIp != "" ==> SameIp(crates, users, row.owner, c.signupIp) < MAX_CRATES_PER_IP
    ensures IpCapHolds(crates + [row], users)
  {
    var longer := crates + [row];
    assert longer[..|crates|] == crates;
    forall owner: string, ip: string | ip != "" ensures SameIp(longer, users, owner, ip) <= MAX_CRATES_PER_IP {
      assert SameIp(crates, users, owner, ip) <= MAX_CRATES_PER_IP;
    }
  }

  lemma GrantKeepsRest(crates: seq<Crate>, users: seq<User>, row: Crate)
    requires !HasSource(crates, row.source) && Referral(users, row.source, row.owner)
    requires OneCratePerSource(crates) && SourcesAreReferrals(crates, users)
    requires Chronological(crates, row.createdAt)
    ensures OneCratePerSource(crates + [row]) && SourcesAreReferrals(crates + [row], users)
    ensures Chronological(crates + [row], row.createdAt)
  {
  }

  lemma Later(crates: seq<Crate>, users: seq<User>, now: nat, now': nat)
    requires GrantsOk(crates, users, now) && now <= now'
    ensures GrantsOk(crates, users, now')
  {
  }

  lemma {:induction false} GiveKeepsOk(
    crates: seq<Crate>, users: seq<User>, owner: string, c: User, judgedAt: nat, insertedAt: nat)
    requires GrantsOk(crates, users, judgedAt) && judgedAt <= insertedAt
    requires c in users && c.verified && c.referredBy == owner
    requires Judge(crates, users, owner, c, judgedAt) == Give
    ensures GrantsOk(InsertOrIgnore(crates, owner, c.name, insertedAt), users, insertedAt)
  {
    Later(crates, users, judgedAt, insertedAt);
    if !HasSource(crates, c.name) {
      var row := NewRow(crates, owner, c.name, insertedAt);
      IpOfUnique(users, c);
      GrantKeepsDailyCap(crates, row, judgedAt);
      GrantKeepsIpCap(crates, users, row, c);
      GrantKeepsRest(crates, users, row);
    }
  }

  // ----- A whole call keeps it

  ghost predicate Monotone(clock: nat -> nat) {
    forall i: nat, j: nat :: i <= j ==> clock(i) <= clock(j)
  }

  lemma {:induction false} EligibleMembers(users: seq<User>, crates: seq<Crate>, owner: string, u: User)
    ensures u in EligibleUsers(users, crates, owner) <==> u in users && Eligible(u, crates, owner)
  {
    if users != [] {
      EligibleMembers(users[1..], crates, owner, u);
    }
  }

  lemma CandidateMembers(users: seq<User>, crates: seq<Crate>, owner: string, u: User)
    ensures u in Candidates(users, crates, owner) <==> u in users && Eligible(u, crates, owner)
  {
    EligibleMembers(users, crates, owner, u);
    SameRows(EligibleUsers(users, crates, owner), ByCreatedAtThenName);
  }

  lemma {:induction false} AfterKeepsOk(
    crates: seq<Crate>, users: seq<User>, owner: string, cands: seq<User>, clock: nat -> nat, k: nat)
    requires k <= |cands| && Monotone(clock) && GrantsOk(crates, users, clock(0))
    requires forall i :: 0 <= i < |cands| ==> cands[i] in users && cands[i].verified && cands[i].referredBy == owner
    ensures GrantsOk(After(crates, users, owner, cands, clock, k).crates, users, clock(2 * k))
  {
    if k > 0 {
      AfterKeepsOk(crates, users, owner, cands, clock, k - 1);
      var p := After(crates, users, owner, cands, clock, k - 1);
      var judged, inserted, done := clock(2 * k - 2), clock(2 * k - 1), clock(2 * k);
      assert judged <= inserted <= done;
      if !p.stopped && Judge(p.crates, users, owner, cands[k - 1], judged) == Give {
        GiveKeepsOk(p.crates, users, owner, cands[k - 1], judged, inserted);
        Later(InsertOrIgnore(p.crates, owner, cands[k - 1].name, inserted), users, inserted, done);
      } else {
        Later(p.crates, users, judged, done);
      }
    }
  }

  lemma SyncKeepsOk(crates: seq<Crate>, users: seq<User>, owner: string, clock: nat -> nat)
    requires Monotone(clock) && GrantsOk(crates, users, clock(0))
    ensures GrantsOk(SyncCrates(crates, users, owner, clock), users,
                     clock(2 * |Candidates(users, crates, owner)|))
  {
    var cands := Candidates(users, crates, owner);
    forall i | 0 <= i < |cands| ensures cands[i] in users && cands[i].verified && cands[i].referredBy == owner {
      CandidateMembers(users, crates, owner, cands[i]);
    }
    AfterKeepsOk(crates, users, owner, cands, clock, |cands|);
  }

  // ----- An immediate second call grants nothing

  lemma InsertKeepsSources(crates: seq<Crate>, owner: string, source: string, now: nat)
    ensures HasSource(InsertOrIgnore(crates, owner, source, now), source)
    ensures forall name :: HasSource(crates, name) ==> HasSource(InsertOrIgnore(crates, owner, source, now), name)
  {
    var more := InsertOrIgnore(crates, owner, source, now);
    if more != crates {
      assert more[|crates|].source == source;
      forall name | HasSource(crates, name) ensures HasSource(more, name) {
        var i :| 0 <= i < |crates| && crates[i].source == name;
        assert more[i].source == name;
      }
    }
  }

  lemma InsertRaisesCount(crates: seq<Crate>, users: seq<User>, owner: string, source: string, now: nat, ip: string)
    ensures SameIp(crates, users, owner, ip) <= SameIp(InsertOrIgnore(crates, owner, source, now), users, owner, ip)
  {
    if !HasSource(crates, source) {
      var row := NewRow(crates, owner, source, now);
      assert (crates + [row])[..|crates|] == crates;
    }
  }

  /** A candidate that is done with: it has its crate, or its address has used up its share. */
  ghost predicate Settled(crates: seq<Crate>, users: seq<User>, owner: string, c: User) {
    HasSource(crates, c.name) ||
    (c.signupIp != "" && SameIp(crates, users, owner, c.signupIp) >= MAX_CRATES_PER_IP)
  }

  lemma StaysSettled(crates: seq<Crate>, users: seq<User>, owner: string, source: string, now: nat, c: User)
    requires Settled(crates, users, owner, c)
    ensures Settled(InsertOrIgnore(crates, owner, source, now), users, owner, c)
  {
    InsertKeepsSources(crates, owner, source, now);
    InsertRaisesCount(crates, users, owner, source, now, c.signupIp);
  }

  // ----- The oldest referrals come first

  lemma {:induction false} StringLeTotal(a: string, b: string)
    ensures StringLe(a, b) || StringLe(b, a)
    ensures StringLe(a, b) && StringLe(b, a) ==> a == b
  {
    if a != [] && b != [] {
      StringLeTotal(a[1..], b[1..]);
      assert a == [a[0]] + a[1..] && b == [b[0]] + b[1..];
    }
  }

  lemma {:induction false} StringLeTransitive(a: string, b: string, c: string)
    requires StringLe(a, b) && StringLe(b, c)
    ensures StringLe(a, c)
  {
    if a != [] && a[0] == b[0] == c[0] {
      StringLeTransitive(a[1..], b[1..], c[1..]);
    }
  }

  /** The query's order is total, so its result comes out by creation time and name. */
  lemma CandidatesInOrder(users: seq<User>, crates: seq<Crate>, owner: string)
    ensures Ordered(Candidates(users, crates, owner), ByCreatedAtThenName)
  {
    forall a, b ensures ByCreatedAtThenName(a, b) || ByCreatedAtThenName(b, a) {
      StringLeTotal(a.name, b.name);
    }
    forall a, b, c | ByCreatedAtThenName(a, b) && ByCreatedAtThenName(b, c) ensures ByCreatedAtThenName(a, c) {
      if a.createdAt == b.createdAt == c.createdAt {
        StringLeTransitive(a.name, b.name, c.name);
      }
    }
    OrderBySorts(EligibleUsers(users, crates, owner), ByCreatedAtThenName);
  }

  /** Row p went to candidate i, when the candidates before i were all done with. */
  ghost predicate InTurn(rows: seq<Crate>, users: seq<User>, owner: string, cands: seq<User>, p: nat, i: nat)
    requires p < |rows| && i < |cands|
  {
    cands[i].name == rows[p].source && forall j :: 0 <= j < i ==> Settled(rows[..p], users, owner, cands[j])
  }

  /** Row p went to one of the first k candidates, in turn. */
  ghost predicate WentInTurn(rows: seq<Crate>, users: seq<User>, owner: string, cands: seq<User>, p: nat, k: nat)
    requires p < |rows| && k <= |cands|
  {
    exists i :: 0 <= i < k && InTurn(rows, users, owner, cands, p, i)
  }

  ghost predicate AllInTurn(before: nat, rows: seq<Crate>, users: seq<User>, owner: string, cands: seq<User>, k: nat)
    requires k <= |cands|
  {
    forall p :: before <= p < |rows| ==> WentInTurn(rows, users, owner, cands, p, k)
  }

  lemma RowInTurnStays(
    rows: seq<Crate>, row: Crate, users: seq<User>, owner: string, cands: seq<User>, p: nat, i: nat)
    requires p < |rows| && i < |cands| && InTurn(rows, users, owner, cands, p, i)
    ensures InTurn(rows + [row], users, owner, cands, p, i)
  {
    assert (rows + [row])[..p] == rows[..p];
  }

  lemma GiveInTurn(
    before: nat, rows: seq<Crate>, users: seq<User>, owner: string, cands: seq<User>, k: nat, now: nat)
    requires k < |cands| && before <= |rows| && AllInTurn(before, rows, users, owner, cands, k)
    requires forall j :: 0 <= j < k ==> Settled(rows, users, owner, cands[j])
    ensures AllInTurn(before, InsertOrIgnore(rows, owner, cands[k].name, now), users, owner, cands, k + 1)
  {
    var more, next := InsertOrIgnore(rows, owner, cands[k].name, now), k + 1;
    forall p | before <= p < |more| ensures WentInTurn(more, users, owner, cands, p, next) {
      if p < |rows| {
        assert WentInTurn(rows, users, owner, cands, p, k);
        var i :| 0 <= i < k && InTurn(rows, users, owner, cands, p, i);
        RowInTurnStays(rows, NewRow(rows, owner, cands[k].name, now), users, owner, cands, p, i);
        assert InTurn(more, users, owner, cands, p, i);
      } else {
        assert more[..p] == rows;
        assert InTurn(more, users, owner, cands, p, k);
      }
    }
  }

  lemma GiveSettlesAll(rows: seq<Crate>, users: seq<User>, owner: string, cands: seq<User>, k: nat, now: nat)
    requires k < |cands| && forall j :: 0 <= j < k ==> Settled(rows, users, owner, cands[j])
    ensures var more := InsertOrIgnore(rows, owner, cands[k].name, now);
            forall j :: 0 <= j < k + 1 ==> Settled(more, users, owner, cands[j])
  {
    InsertKeepsSources(rows, owner, cands[k].name, now);
    forall j | 0 <= j < k + 1 ensures Settled(InsertOrIgnore(rows, owner, cands[k].name, now), users, owner, cands[j]) {
      if j < k {
        StaysSettled(rows, users, owner, cands[k].name, now, cands[j]);
      }
    }
  }

  /** After k candidates all grants went in turn and, unless the call stopped, the k are done with. */
  ghost predicate CallInTurn(
    before: nat, users: seq<User>, owner: string, cands: seq<User>, k: nat, p: Progress)
    requires k <= |cands|
  {
    && before <= |p.crates| && AllInTurn(before, p.crates, users, owner, cands, k)
    && (!p.stopped ==> forall j :: 0 <= j < k ==> Settled(p.crates, users, owner, cands[j]))
  }

  lemma GiveKeepsTurn(
    before: nat, users: seq<User>, owner: string, cands: seq<User>, k: nat, p: Progress, now: nat)
    requires k < |cands| && !p.stopped && CallInTurn(before, users, owner, cands, k, p)
    ensures CallInTurn(before, users, owner, cands, k + 1,
                       Progress(InsertOrIgnore(p.crates, owner, cands[k].name, now), false))
  {
    GiveInTurn(before, p.crates, users, owner, cands, k, now);
    GiveSettlesAll(p.crates, users, owner, cands, k, now);
  }

  lemma PassKeepsTurn(
    before: nat, users: seq<User>, owner: string, cands: seq<User>, k: nat, p: Progress, stopped: bool)
    requires k < |cands| && CallInTurn(before, users, owner, cands, k, p) && (p.stopped ==> stopped)
    requires stopped || Settled(p.crates, users, owner, cands[k])
    ensures CallInTurn(before, users, owner, cands, k + 1, Progress(p.crates, stopped))
  {
    MoreCandidates(before, p.crates, users, owner, cands, k);
  }

  lemma {:induction false} GrantsInTurn(
    crates: seq<Crate>, users: seq<User>, owner: string, cands: seq<User>, clock: nat -> nat, k: nat)
    requires k <= |cands|
    ensures CallInTurn(|crates|, users, owner, cands, k, After(crates, users, owner, cands, clock, k))
  {
    if k > 0 {
      GrantsInTurn(crates, users, owner, cands, clock, k - 1);
      var p := After(crates, users, owner, cands, clock, k - 1);
      var verdict := Judge(p.crates, users, owner, cands[k - 1], clock(2 * k - 2));
      if !p.stopped && verdict == Give {
        GiveKeepsTurn(|crates|, users, owner, cands, k - 1, p, clock(2 * k - 1));
      } else {
        PassKeepsTurn(|crates|, users, owner, cands, k - 1, p, p.stopped || verdict == Stop);
      }
    }
  }

  lemma MoreCandidates(before: nat, rows: seq<Crate>, users: seq<User>, owner: string, cands: seq<User>, k: nat)
    requires k < |cands| && AllInTurn(before, rows, users, owner, cands, k)
    ensures AllInTurn(before, rows, users, owner, cands, k + 1)
  {
    var next := k + 1;
    forall p | before <= p < |rows| ensures WentInTurn(rows, users, owner, cands, p, next) {
      assert WentInTurn(rows, users, owner, cands, p, k);
      var i :| 0 <= i < k && InTurn(rows, users, owner, cands, p, i);
    }
  }

  /**
   Crates go to the oldest referrals first: when a call grants one to g, every eligible referral that
   comes before g by creation time and name already has its own, or its address has used up its share.
   */
  lemma OldestReferralFirst(
    crates: seq<Crate>, users: seq<User>, owner: string, clock: nat -> nat, p: nat, g: User, u: User)
    requires UsersOk(users) && |crates| <= p < |SyncCrates(crates, users, owner, clock)|
    requires g in users && g.name == SyncCrates(crates, users, owner, clock)[p].source
    requires u in users && Eligible(u, crates, owner) && u.name != g.name && ByCreatedAtThenName(u, g)
    ensures Settled(SyncCrates(crates, users, owner, clock)[..p], users, owner, u)
  {
    var cands := Candidates(users, crates, owner);
    var rows := SyncCrates(crates, users, owner, clock);
    GrantsInTurn(crates, users, owner, cands, clock, |cands|);
    assert WentInTurn(rows, users, owner, cands, p, |cands|);
    var i :| 0 <= i < |cands| && InTurn(rows, users, owner, cands, p, i);
    CandidateMembers(users, crates, owner, cands[i]);
    assert cands[i] == g;
    CandidateMembers(users, crates, owner, u);
    var j :| 0 <= j < |cands| && cands[j] == u;
    CandidatesInOrder(users, crates, owner);
    EarlierInOrder(cands, i, j);
  }

  lemma EarlierInOrder(cands: seq<User>, i: nat, j: nat)
    requires i < |cands| && j < |cands| && Ordered(cands, ByCreatedAtThenName)
    requires cands[j].name != cands[i].name && ByCreatedAtThenName(cands[j], cands[i])
    ensures j < i
  {
    StringLeTotal(cands[j].name, cands[i].name);
    assert forall b :: i < b < |cands| ==> ByCreatedAtThenName(cands[i], cands[b]);
  }

  // ----- What a call grants, and whom it passes over

  lemma {:induction false} CallKeepsRows(
    crates: seq<Crate>, users: seq<User>, owner: string, cands: seq<User>, clock: nat -> nat, k: nat)
    requires k <= |cands|
    ensures crates <= After(crates, users, owner, cands, clock, k).crates
  {
    if k > 0 {
      CallKeepsRows(crates, users, owner, cands, clock, k - 1);
    }
  }

  /** The rows from `before` on are unopened crates of the owner, for verified users that the owner referred. */
  ghost predicate NewRowsAreReferrals(before: nat, rows: seq<Crate>, users: seq<User>, owner: string) {
    forall i :: before <= i < |rows| ==>
      && rows[i].owner == owner && rows[i].item.None? && rows[i].shards == 0
      && Referral(users, rows[i].source, owner)
  }

  lemma {:induction false} CallGrantsReferrals(
    crates: seq<Crate>, users: seq<User>, owner: string, cands: seq<User>, clock: nat -> nat, k: nat)
    requires k <= |cands|
    requires forall i :: 0 <= i < |cands| ==> Referral(users, cands[i].name, owner)
    ensures NewRowsAreReferrals(|crates|, After(crates, users, owner, cands, clock, k).crates, users, owner)
  {
    if k > 0 {
      CallGrantsReferrals(crates, users, owner, cands, clock, k - 1);
    }
  }

  lemma CandidateIsReferral(users: seq<User>, crates: seq<Crate>, owner: string, u: User)
    requires u in Candidates(users, crates, owner)
    ensures Referral(users, u.name, owner)
  {
    CandidateMembers(users, crates, owner, u);
    var j :| 0 <= j < |users| && users[j] == u;
    assert users[j].name == u.name && users[j].verified && users[j].referredBy == owner;
  }

  /** A call adds rows only, each an unopened crate of its owner for somebody the owner referred. */
  lemma CallGrantsOnlyReferrals(crates: seq<Crate>, users: seq<User>, owner: string, clock: nat -> nat)
    ensures crates <= SyncCrates(crates, users, owner, clock)
    ensures NewRowsAreReferrals(|crates|, SyncCrates(crates, users, owner, clock), users, owner)
  {
    var cands := Candidates(users, crates, owner);
    forall i | 0 <= i < |cands| ensures Referral(users, cands[i].name, owner) {
      CandidateIsReferral(users, crates, owner, cands[i]);
    }
    CallKeepsRows(crates, users, owner, cands, clock, |cands|);
    CallGrantsReferrals(crates, users, owner, cands, clock, |cands|);
  }

  /** Row i is a crate of the owner, and its source signed up from the address. */
  ghost predicate FromAddress(crates: seq<Crate>, users: seq<User>, owner: string, ip: string, i: int) {
    0 <= i < |crates| && crates[i].owner == owner && IpOf(users, crates[i].source) == Some(ip)
  }

  /** Two crates of the owner come from the address already. */
  ghost predicate ShareUsedUp(crates: seq<Crate>, users: seq<User>, owner: string, ip: string) {
    exists i, j :: i < j && FromAddress(crates, users, owner, ip, i) && FromAddress(crates, users, owner, ip, j)
  }

  lemma {:induction false} OneCounted(crates: seq<Crate>, users: seq<User>, owner: string, ip: string)
    returns (i: int)
    requires SameIp(crates, users, owner, ip) >= 1
    ensures FromAddress(crates, users, owner, ip, i)
  {
    i := |crates| - 1;
    if !FromAddress(crates, users, owner, ip, i) {
      i := OneCounted(crates[..|crates| - 1], users, owner, ip);
    }
  }

  lemma {:induction false} TwoCounted(crates: seq<Crate>, users: seq<User>, owner: string, ip: string)
    requires SameIp(crates, users, owner, ip) >= 2
    ensures ShareUsedUp(crates, users, owner, ip)
  {
    var front := crates[..|crates| - 1];
    if FromAddress(crates, users, owner, ip, |crates| - 1) {
      var i := OneCounted(front, users, owner, ip);
      assert FromAddress(crates, users, owner, ip, i);
    } else {
      TwoCounted(front, users, owner, ip);
      var i, j :| i < j && FromAddress(front, users, owner, ip, i) && FromAddress(front, users, owner, ip, j);
      assert FromAddress(crates, users, owner, ip, i) && FromAddress(crates, users, owner, ip, j);
    }
  }

  /** Rows that count are counted. */
  lemma {:induction false} CountsAll(crates: seq<Crate>, users: seq<User>, owner: string, ip: string, s: seq<int>)
    requires forall a :: 0 <= a < |s| ==> FromAddress(crates, users, owner, ip, s[a])
    requires forall a, b :: 0 <= a < b < |s| ==> s[a] < s[b]
    ensures SameIp(crates, users, owner, ip) >= |s|
    decreases |crates|
  {
    if s != [] {
      assert FromAddress(crates, users, owner, ip, s[|s| - 1]);
      var front := crates[..|crates| - 1];
      var rest := if s[|s| - 1] == |crates| - 1 then s[..|s| - 1] else s;
      forall a | 0 <= a < |rest| ensures FromAddress(front, users, owner, ip, rest[a]) {
        assert rest[a] == s[a] <= s[|s| - 1];
      }
      CountsAll(front, users, owner, ip, rest);
    }
  }

  /** No three crates of one owner come from one non-empty signup address. */
  ghost predicate NoThirdFromAddress(crates: seq<Crate>, users: seq<User>) {
    forall owner, ip, i, j, k ::
      ip != "" && i < j < k && FromAddress(crates, users, owner, ip, i) && FromAddress(crates, users, owner, ip, j)
      ==> !FromAddress(crates, users, owner, ip, k)
  }

  lemma CapMeansNoThird(crates: seq<Crate>, users: seq<User>)
    requires IpCapHolds(crates, users)
    ensures NoThirdFromAddress(crates, users)
  {
    forall owner, ip, i, j, k | ip != "" && i < j < k && FromAddress(crates, users, owner, ip, i) &&
      FromAddress(crates, users, owner, ip, j)
      ensures !FromAddress(crates, users, owner, ip, k)
    {
      assert SameIp(crates, users, owner, ip) <= MAX_CRATES_PER_IP;
      if FromAddress(crates, users, owner, ip, k) {
        CountsAll(crates, users, owner, ip, [i, j, k]);
      }
    }
  }

  /** The table at the check of candidate j; fewer than five of the owner's crates fall in the day then. */
  ghost predicate BelowLimit(
    crates: seq<Crate>, users: seq<User>, owner: string, cands: seq<User>, clock: nat -> nat, j: nat)
    requires j <= |cands|
  {
    InWindow(After(crates, users, owner, cands, clock, j).crates, owner, clock(2 * j)) < MAX_CRATES_PER_DAY
  }

  ghost predicate NeverAtTheLimit(crates: seq<Crate>, users: seq<User>, owner: string, clock: nat -> nat) {
    var cands := Candidates(users, crates, owner);
    forall j :: 0 <= j < |cands| ==> BelowLimit(crates, users, owner, cands, clock, j)
  }

  /** With no row from the future, the day's count is the window that ends now. */
  lemma {:induction false} TodayIsWindow(crates: seq<Crate>, owner: string, now: nat)
    requires forall i :: 0 <= i < |crates| ==> crates[i].createdAt <= now
    ensures Today(crates, owner, now) == InWindow(crates, owner, now)
  {
    if crates != [] {
      TodayIsWindow(crates[..|crates| - 1], owner, now);
    }
  }

  lemma InsertedLast(crates: seq<Crate>, owner: string, source: string, now: nat)
    requires Chronological(crates, now)
    ensures Chronological(InsertOrIgnore(crates, owner, source, now), now)
  {
  }

  lemma ChronologicalLater(crates: seq<Crate>, now: nat, later: nat)
    requires Chronological(crates, now) && now <= later
    ensures Chronological(crates, later)
  {
  }

  lemma {:induction false} CallStaysChronological(
    crates: seq<Crate>, users: seq<User>, owner: string, cands: seq<User>, clock: nat -> nat, k: nat)
    requires k <= |cands| && Monotone(clock) && Chronological(crates, clock(0))
    ensures Chronological(After(crates, users, owner, cands, clock, k).crates, clock(2 * k))
  {
    if k > 0 {
      CallStaysChronological(crates, users, owner, cands, clock, k - 1);
      var p := After(crates, users, owner, cands, clock, k - 1).crates;
      var judged, inserted, done := clock(2 * k - 2), clock(2 * k - 1), clock(2 * k);
      assert judged <= inserted <= done;
      ChronologicalLater(p, judged, inserted);
      InsertedLast(p, owner, cands[k - 1].name, inserted);
      ChronologicalLater(InsertOrIgnore(p, owner, cands[k - 1].name, inserted), inserted, done);
      ChronologicalLater(p, inserted, done);
    }
  }

  lemma {:induction false} CallNotStopped(
    crates: seq<Crate>, users: seq<User>, owner: string, cands: seq<User>, clock: nat -> nat, k: nat)
    requires k <= |cands| && Monotone(clock) && Chronological(crates, clock(0))
    requires forall j :: 0 <= j < k ==> BelowLimit(crates, users, owner, cands, clock, j)
    ensures !After(crates, users, owner, cands, clock, k).stopped
  {
    if k > 0 {
      CallNotStopped(crates, users, owner, cands, clock, k - 1);
      CallStaysChronological(crates, users, owner, cands, clock, k - 1);
      assert BelowLimit(crates, users, owner, cands, clock, k - 1);
      TodayIsWindow(After(crates, users, owner, cands, clock, k - 1).crates, owner, clock(2 * (k - 1)));
    }
  }

  /**
   Nobody is passed over: unless the day's limit was met at some check, after a call every verified user the
   owner referred has earned a crate, or signed up from an address that two of the owner's crates come from.
   */
  lemma NobodyIsPassedOver(crates: seq<Crate>, users: seq<User>, owner: string, clock: nat -> nat, u: User)
    requires Monotone(clock) && Chronological(crates, clock(0))
    requires NeverAtTheLimit(crates, users, owner, clock)
    requires u in users && u.verified && u.referredBy == owner
    ensures var rows := SyncCrates(crates, users, owner, clock);
            || (exists i :: 0 <= i < |rows| && rows[i].source == u.name)
            || (u.signupIp != "" && ShareUsedUp(rows, users, owner, u.signupIp))
  {
    var cands := Candidates(users, crates, owner);
    var rows := SyncCrates(crates, users, owner, clock);
    CallKeepsRows(crates, users, owner, cands, clock, |cands|);
    if HasSource(crates, u.name) {
      var i :| 0 <= i < |crates| && crates[i].source == u.name;
      assert rows[i].source == u.name;
    } else {
      CandidateMembers(users, crates, owner, u);
      GrantsInTurn(crates, users, owner, cands, clock, |cands|);
      CallNotStopped(crates, users, owner, cands, clock, |cands|);
      var j :| 0 <= j < |cands| && cands[j] == u;
      assert Settled(rows, users, owner, cands[j]);
      if !HasSource(rows, u.name) {
        TwoCounted(rows, users, owner, u.signupIp);
      }
    }
  }

  /** After k candidates: no source was lost, a stop was for the daily cap, and otherwise the k
      candidates are settled. */
  ghost predicate CallSettled(
    crates: seq<Crate>, users: seq<User>, owner: string, cands: seq<User>, now: nat, k: nat, p: Progress)
    requires k <= |cands|
  {
    && (forall name :: HasSource(crates, name) ==> HasSource(p.crates, name))
    && (p.stopped ==> Today(p.crates, owner, now) >= MAX_CRATES_PER_DAY)
    && (!p.stopped ==> forall i :: 0 <= i < k ==> Settled(p.crates, users, owner, cands[i]))
  }

  lemma GiveSettles(
    crates: seq<Crate>, users: seq<User>, owner: string, cands: seq<User>, now: nat, k: nat, p: Progress)
    requires 0 < k <= |cands| && !p.stopped && CallSettled(crates, users, owner, cands, now, k - 1, p)
    ensures CallSettled(crates, users, owner, cands, now, k,
                        Progress(InsertOrIgnore(p.crates, owner, cands[k - 1].name, now), false))
  {
    var more := InsertOrIgnore(p.crates, owner, cands[k - 1].name, now);
    InsertKeepsSources(p.crates, owner, cands[k - 1].name, now);
    forall i | 0 <= i < k ensures Settled(more, users, owner, cands[i]) {
      if i < k - 1 {
        StaysSettled(p.crates, users, owner, cands[k - 1].name, now, cands[i]);
      }
    }
  }

  lemma {:induction false} CallSettlesCandidates(
    crates: seq<Crate>, users: seq<User>, owner: string, cands: seq<User>, clock: nat -> nat, now: nat, k: nat)
    requires k <= |cands| && forall i: nat :: clock(i) == now
    ensures CallSettled(crates, users, owner, cands, now, k, After(crates, users, owner, cands, clock, k))
  {
    if k > 0 {
      CallSettlesCandidates(crates, users, owner, cands, clock, now, k - 1);
      var p := After(crates, users, owner, cands, clock, k - 1);
      if !p.stopped && Judge(p.crates, users, owner, cands[k - 1], now) == Give {
        GiveSettles(crates, users, owner, cands, now, k, p);
      }
    }
  }

  lemma {:induction false} NothingToGrant(
    crates: seq<Crate>, users: seq<User>, owner: string, cands: seq<User>, clock: nat -> nat, now: nat, k: nat)
    requires k <= |cands| && forall i: nat :: clock(i) == now
    requires Today(crates, owner, now) >= MAX_CRATES_PER_DAY ||
             forall i :: 0 <= i < |cands| ==> Settled(crates, users, owner, cands[i])
    ensures After(crates, users, owner, cands, clock, k).crates == crates
  {
    if k > 0 {
      NothingToGrant(crates, users, owner, cands, clock, now, k - 1);
    }
  }

  /** syncCrates is idempotent: run again at once, it grants nothing. */
  lemma SecondSyncGrantsNothing(crates: seq<Crate>, users: seq<User>, owner: string, clock: nat -> nat, now: nat)
    requires forall i: nat :: clock(i) == now
    ensures var once := SyncCrates(crates, users, owner, clock);
            SyncCrates(once, users, owner, clock) == once
  {
    var first := Candidates(users, crates, owner);
    CallSettlesCandidates(crates, users, owner, first, clock, now, |first|);
    var p := After(crates, users, owner, first, clock, |first|);
    var second := Candidates(users, p.crates, owner);
    forall i | 0 <= i < |second| ensures p.stopped || Settled(p.crates, users, owner, second[i]) {
      CandidateMembers(users, p.crates, owner, second[i]);
      CandidateMembers(users, crates, owner, second[i]);
    }
    NothingToGrant(p.crates, users, owner, second, clock, now, |second|);
  }

  // ----- Whole serial runs

  datatype State = State(crates: seq<Crate>, users: seq<User>, now: nat)

  const NOBODY := State([], [], 0)

  /** Accounts are registered, verified and, while unverified, purged; verified accounts are not
      deleted.  Opening a crate writes the item, shards and opening time of its row. */
  datatype Event =
    | Sync(owner: string, clock: nat -> nat, until: nat)
    | Register(user: User)
    | Verify(name: string)
    | PurgeUnverified(names: set<string>)
    | OpenRow(k: nat, item: Option<ItemId>, shards: nat, openedAt: nat)

  ghost predicate Enabled(s: State, e: Event) {
    match e
    case Sync(owner, clock, until) =>
      Monotone(clock) && clock(0) >= s.now && until >= clock(2 * |Candidates(s.users, s.crates, owner)|)
    case Register(u) => !u.verified && forall i :: 0 <= i < |s.users| ==> s.users[i].name != u.name
    case Verify(_) => true
    case PurgeUnverified(_) => true
    case OpenRow(k, _, _, _) => k < |s.crates|
  }

  function Verified(users: seq<User>, name: string): seq<User> {
    if users == [] then []
    else [if users[0].name == name then users[0].(verified := true) else users[0]] + Verified(users[1..], name)
  }

  function Purged(users: seq<User>, names: set<string>): seq<User> {
    if users == [] then []
    else (if !users[0].verified && users[0].name in names then [] else [users[0]]) + Purged(users[1..], names)
  }

  ghost function Step(s: State, e: Event): State
    requires Enabled(s, e)
  {
    match e
    case Sync(owner, clock, until) => State(SyncCrates(s.crates, s.users, owner, clock), s.users, until)
    case Register(u) => s.(users := s.users + [u])
    case Verify(name) => s.(users := Verified(s.users, name))
    case PurgeUnverified(names) => s.(users := Purged(s.users, names))
    case OpenRow(k, item, shards, at) =>
      s.(crates := s.crates[k := s.crates[k].(item := item, shards := shards, openedAt := at)])
  }

  /** The user table may change as long as it keeps the verified users, their referrers and their addresses. */
  ghost predicate KeepsVerified(before: seq<User>, after: seq<User>) {
    forall name, owner :: Referral(before, name, owner) ==>
      Referral(after, name, owner) && IpOf(after, name) == IpOf(before, name)
  }

  lemma {:induction false} SameIpSame(
    crates: seq<Crate>, before: seq<User>, after: seq<User>, owner: string, ip: string)
    requires SourcesAreReferrals(crates, before) && KeepsVerified(before, after)
    ensures SameIp(crates, after, owner, ip) == SameIp(crates, before, owner, ip)
  {
    if crates != [] {
      var front := crates[..|crates| - 1];
      assert forall i :: 0 <= i < |front| ==> front[i] == crates[i];
      SameIpSame(front, before, after, owner, ip);
    }
  }

  lemma UserChangeKeepsOk(crates: seq<Crate>, before: seq<User>, after: seq<User>, now: nat)
    requires GrantsOk(crates, before, now) && UsersOk(after) && KeepsVerified(before, after)
    ensures GrantsOk(crates, after, now)
  {
    forall owner: string, ip: string | ip != "" ensures SameIp(crates, after, owner, ip) <= MAX_CRATES_PER_IP {
      SameIpSame(crates, before, after, owner, ip);
      assert SameIp(crates, before, owner, ip) <= MAX_CRATES_PER_IP;
    }
  }

  lemma {:induction false} RegisterKeeps(users: seq<User>, u: User)
    requires forall i :: 0 <= i < |users| ==> users[i].name != u.name
    ensures forall name :: name != u.name ==> IpOf(users + [u], name) == IpOf(users, name)
  {
    if users != [] {
      RegisterKeeps(users[1..], u);
      assert (users + [u])[1..] == users[1..] + [u];
    } else {
      assert users + [u] == [u];
    }
  }

  lemma RegisterKeepsVerified(users: seq<User>, u: User)
    requires UsersOk(users) && forall i :: 0 <= i < |users| ==> users[i].name != u.name
    ensures UsersOk(users + [u]) && KeepsVerified(users, users + [u])
  {
    RegisterKeeps(users, u);
    forall name, owner | Referral(users, name, owner)
      ensures Referral(users + [u], name, owner) && IpOf(users + [u], name) == IpOf(users, name)
    {
      var j :| 0 <= j < |users| && users[j].name == name && users[j].verified && users[j].referredBy == owner;
      assert (users + [u])[j] == users[j];
    }
  }

  lemma {:induction false} VerifyKeeps(users: seq<User>, name: string)
    ensures var after := Verified(users, name);
            && |after| == |users|
            && (forall i :: 0 <= i < |users| ==>
                  && after[i].name == users[i].name && after[i].referredBy == users[i].referredBy
                  && (users[i].verified ==> after[i].verified))
            && forall n :: IpOf(after, n) == IpOf(users, n)
  {
    if users != [] {
      VerifyKeeps(users[1..], name);
    }
  }

  lemma VerifyKeepsVerified(users: seq<User>, name: string)
    requires UsersOk(users)
    ensures UsersOk(Verified(users, name)) && KeepsVerified(users, Verified(users, name))
  {
    VerifyKeeps(users, name);
    var after := Verified(users, name);
    forall n, owner | Referral(users, n, owner) ensures Referral(after, n, owner) {
      var j :| 0 <= j < |users| && users[j].name == n && users[j].verified && users[j].referredBy == owner;
      assert after[j].name == n;
    }
  }

  lemma {:induction false} PurgeMembers(users: seq<User>, names: set<string>)
    ensures forall u :: u in Purged(users, names) ==> u in users
    ensures forall u :: u in users && u.verified ==> u in Purged(users, names)
  {
    if users != [] {
      PurgeMembers(users[1..], names);
    }
  }

  lemma {:induction false} PurgeKeepsUsersOk(users: seq<User>, names: set<string>)
    requires UsersOk(users)
    ensures UsersOk(Purged(users, names))
  {
    if users != [] {
      PurgeKeepsUsersOk(users[1..], names);
      PurgeMembers(users[1..], names);
      var rest := Purged(users[1..], names);
      forall i | 0 <= i < |rest| ensures users[0].name != rest[i].name {
        assert rest[i] in users[1..];
        var j :| 0 < j < |users| && users[j] == rest[i];
      }
    }
  }

  lemma PurgeKeepsVerified(users: seq<User>, names: set<string>)
    requires UsersOk(users)
    ensures UsersOk(Purged(users, names)) && KeepsVerified(users, Purged(users, names))
  {
    PurgeKeepsUsersOk(users, names);
    PurgeMembers(users, names);
    var after := Purged(users, names);
    forall n, owner | Referral(users, n, owner)
      ensures Referral(after, n, owner) && IpOf(after, n) == IpOf(users, n)
    {
      var j :| 0 <= j < |users| && users[j].name == n && users[j].verified && users[j].referredBy == owner;
      assert users[j] in after;
      IpOfUnique(users, users[j]);
      IpOfUnique(after, users[j]);
    }
  }

  lemma {:induction false} OpenRowCounts(crates: seq<Crate>, k: nat, row: Crate, users: seq<User>, owner: string)
    requires k < |crates| && row.owner == crates[k].owner
    requires row.source == crates[k].source && row.createdAt == crates[k].createdAt
    ensures forall end :: InWindow(crates[k := row], owner, end) == InWindow(crates, owner, end)
    ensures forall ip :: SameIp(crates[k := row], users, owner, ip) == SameIp(crates, users, owner, ip)
  {
    var n := |crates| - 1;
    if k == n {
      assert crates[k := row][..n] == crates[..n];
    } else {
      assert crates[k := row][..n] == crates[..n][k := row];
      OpenRowCounts(crates[..n], k, row, users, owner);
    }
  }

  lemma OpenRowKeepsOk(crates: seq<Crate>, users: seq<User>, now: nat, k: nat, row: Crate)
    requires k < |crates| && row.owner == crates[k].owner
    requires row.source == crates[k].source && row.createdAt == crates[k].createdAt
    requires GrantsOk(crates, users, now)
    ensures GrantsOk(crates[k := row], users, now)
  {
    var after := crates[k := row];
    forall owner: string, end: int ensures InWindow(after, owner, end) <= MAX_CRATES_PER_DAY {
      OpenRowCounts(crates, k, row, users, owner);
      assert InWindow(crates, owner, end) <= MAX_CRATES_PER_DAY;
    }
    forall owner: string, ip: string | ip != "" ensures SameIp(after, users, owner, ip) <= MAX_CRATES_PER_IP {
      OpenRowCounts(crates, k, row, users, owner);
      assert SameIp(crates, users, owner, ip) <= MAX_CRATES_PER_IP;
    }
  }

  lemma StepKeepsOk(s: State, e: Event)
    requires GrantsOk(s.crates, s.users, s.now) && Enabled(s, e)
    ensures var t := Step(s, e); GrantsOk(t.crates, t.users, t.now)
  {
    match e
    case Sync(owner, clock, until) =>
      Later(s.crates, s.users, s.now, clock(0));
      SyncKeepsOk(s.crates, s.users, owner, clock);
      Later(SyncCrates(s.crates, s.users, owner, clock), s.users,
            clock(2 * |Candidates(s.users, s.crates, owner)|), until);
    case Register(u) =>
      RegisterKeepsVerified(s.users, u);
      UserChangeKeepsOk(s.crates, s.users, s.users + [u], s.now);
    case Verify(name) =>
      VerifyKeepsVerified(s.users, name);
      UserChangeKeepsOk(s.crates, s.users, Verified(s.users, name), s.now);
    case PurgeUnverified(names) =>
      PurgeKeepsVerified(s.users, names);
      UserChangeKeepsOk(s.crates, s.users, Purged(s.users, names), s.now);
    case OpenRow(k, item, shards, at) =>
      OpenRowKeepsOk(s.crates, s.users, s.now, k, s.crates[k].(item := item, shards := shards, openedAt := at));
  }

  ghost predicate Reaches(events: seq<Event>, s: State)
    decreases |events|
  {
    if events == [] then s == NOBODY
    else
      var e := events[|events| - 1];
      exists p :: Reaches(events[..|events| - 1], p) && Enabled(p, e) && Step(p, e) == s
  }

  /**
   Over every serial run: each source is a verified user the owner referred and earns at most one crate,
   every 24-hour window holds at most five grants to an owner, and at most two come from one non-empty
   signup address.
   */
  lemma {:induction false} CapsHoldOnEveryRun(events: seq<Event>, s: State)
    requires Reaches(events, s)
    ensures GrantsOk(s.crates, s.users, s.now)
    ensures OneCratePerSource(s.crates) && DailyCapHolds(s.crates) && NoThirdFromAddress(s.crates, s.users)
    ensures SourcesAreReferrals(s.crates, s.users)
    decreases |events|
  {
    if events != [] {
      var e := events[|events| - 1];
      var p :| Reaches(events[..|events| - 1], p) && Enabled(p, e) && Step(p, e) == s;
      CapsHoldOnEveryRun(events[..|events| - 1], p);
      StepKeepsOk(p, e);
    }
    CapMeansNoThird(s.crates, s.users);
  }
}
