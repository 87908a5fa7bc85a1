/**
 Granting crates when the statements of several syncCrates calls interleave.  A call selects its
 candidates once and then, for each, counts the crates of the day, counts those of the signup address and
 inserts; nothing is in a transaction.
 */
module GrantRace {
  import opened Common
  import opened NatSets
  import Rolls = RewardRolls
  import opened RewardTables
  import opened CrateGrants
  import opened Sql

  datatype Phase = ToCount | ToCheckIp | ToInsert

  /** A running call, its candidates from the current one on, and its next statement for that one. */
  datatype Caller = Caller(owner: string, cands: seq<User>, phase: Phase)

  datatype Shop = Shop(crates: seq<Crate>, users: seq<User>, callers: map<nat, Caller>, now: nat)

  const EMPTY := Shop([], [], map[], 0)

  /** ChangeUsers stands for registrations, verifications and purges, OpenCrateRow for opening a crate. */
  datatype Statement =
    | Clock(to: nat)
    | ChangeUsers(users: seq<User>)
    | OpenCrateRow(k: nat, item: Option<Rolls.ItemId>, shards: nat, openedAt: nat)
    | SelectCandidates(w: nat, owner: string)
    | CountToday(w: nat)
    | CountAddress(w: nat)
    | InsertCrate(w: nat)
    | Finish(w: nat)

  ghost predicate CanRun(s: Shop, e: Statement) {
    match e
    case Clock(to) => to >= s.now
    case ChangeUsers(users) => UsersOk(users) && KeepsVerified(s.users, users)
    case OpenCrateRow(k, _, _, _) => k < |s.crates|
    case SelectCandidates(w, _) => w !in s.callers
    case CountToday(w) => w in s.callers && s.callers[w].phase.ToCount? && s.callers[w].cands != []
    case CountAddress(w) => w in s.callers && s.callers[w].phase.ToCheckIp? && s.callers[w].cands != []
    case InsertCrate(w) => w in s.callers && s.callers[w].phase.ToInsert? && s.callers[w].cands != []
    case Finish(w) => w in s.callers && s.callers[w].phase.ToCount? && s.callers[w].cands == []
  }

  function NextCrates(s: Shop, e: Statement): seq<Crate> {
    match e
    case OpenCrateRow(k, item, shards, at) =>
      if k < |s.crates| then s.crates[k := s.crates[k].(item := item, shards := shards, openedAt := at)] else s.crates
    case InsertCrate(w) =>
      if w in s.callers && s.callers[w].cands != []
      then InsertOrIgnore(s.crates, s.callers[w].owner, s.callers[w].cands[0].name, s.now)
      else s.crates
    case _ => s.crates
  }

  /** The day's limit ends the call, the limit of an address skips the candidate. */
  function NextCallers(s: Shop, e: Statement): map<nat, Caller> {
    match e
    case SelectCandidates(w, owner) => s.callers[w := Caller(owner, Candidates(s.users, s.crates, owner), ToCount)]
    case CountToday(w) =>
      if w !in s.callers || s.callers[w].cands == [] then s.callers
      else if Today(s.crates, s.callers[w].owner, s.now) >= MAX_CRATES_PER_DAY then s.callers - {w}
      else if s.callers[w].cands[0].signupIp != "" then s.callers[w := s.callers[w].(phase := ToCheckIp)]
      else s.callers[w := s.callers[w].(phase := ToInsert)]
    case CountAddress(w) =>
      if w !in s.callers || s.callers[w].cands == [] then s.callers
      else
        var c := s.callers[w];
        if SameIp(s.crates, s.users, c.owner, c.cands[0].signupIp) >= MAX_CRATES_PER_IP
        then s.callers[w := Caller(c.owner, c.cands[1..], ToCount)]
        else s.callers[w := c.(phase := ToInsert)]
    case InsertCrate(w) =>
      if w !in s.callers || s.callers[w].cands == [] then s.callers
      else s.callers[w := Caller(s.callers[w].owner, s.callers[w].cands[1..], ToCount)]
    case Finish(w) => s.callers - {w}
    case _ => s.callers
  }

  ghost function Run(s: Shop, e: Statement): Shop
    requires CanRun(s, e)
  {
    Shop(NextCrates(s, e), if e.ChangeUsers? then e.users else s.users, NextCallers(s, e),
         if e.Clock? then e.to else s.now)
  }

  datatype Entry = Entry(before: Shop, statement: Statement)

  ghost predicate Leads(log: seq<Entry>, s: Shop)
    decreases |log|
  {
    if log == [] then s == EMPTY
    else
      var last := log[|log| - 1];
      && Leads(log[..|log| - 1], last.before)
      && CanRun(last.before, last.statement) && Run(last.before, last.statement) == s
  }

  // ----- Callers past a check

  /** The calls of an owner that have passed the day's count and not yet inserted. */
  function Passing(s: Shop, owner: string): set<nat> {
    set w | w in s.callers && s.callers[w].owner == owner && !s.callers[w].phase.ToCount?
  }

  /** Those of them about to insert for a candidate with the given address. */
  function PassingIp(s: Shop, owner: string, ip: string): set<nat> {
    set w | w in s.callers && s.callers[w].owner == owner && s.callers[w].phase.ToInsert?
            && s.callers[w].cands != [] && s.callers[w].cands[0].signupIp == ip
  }

  /** Whenever a statement ran, and now, at most n calls of the owner were past their check. */
  ghost predicate AtMost(log: seq<Entry>, s: Shop, owner: string, n: nat) {
    |Passing(s, owner)| <= n && forall i :: 0 <= i < |log| ==> |Passing(log[i].before, owner)| <= n
  }

  ghost predicate AtMostIp(log: seq<Entry>, s: Shop, owner: string, ip: string, n: nat) {
    |PassingIp(s, owner, ip)| <= n && forall i :: 0 <= i < |log| ==> |PassingIp(log[i].before, owner, ip)| <= n
  }

  lemma PassingStep(s: Shop, e: Statement, owner: string)
    requires CanRun(s, e)
    ensures var n, m := Passing(s, owner), Passing(Run(s, e), owner);
            if e.CountToday? && s.callers[e.w].owner == owner && Today(s.crates, owner, s.now) < MAX_CRATES_PER_DAY
            then true
            else if e.InsertCrate? && s.callers[e.w].owner == owner then e.w in n && m == n - {e.w}
            else m <= n
  {
  }

  // ----- The day's limit

  ghost predicate DayOk(s: Shop, owner: string, n: nat) {
    forall end: int ::
      InWindow(s.crates, owner, end) + (if end >= s.now then |Passing(s, owner)| else 0) <= MAX_CRATES_PER_DAY - 1 + n
  }

  /** A check that passes has counted every window that ends now or later. */
  lemma PassedCheck(s: Shop, owner: string, end: int)
    requires Today(s.crates, owner, s.now) < MAX_CRATES_PER_DAY && end >= s.now
    ensures InWindow(s.crates, owner, end) <= MAX_CRATES_PER_DAY - 1
  {
    WindowIsCounted(s.crates, owner, end, s.now - DAY);
  }

  lemma InsertedWindow(crates: seq<Crate>, who: string, source: string, now: nat, owner: string, end: int)
    ensures InWindow(InsertOrIgnore(crates, who, source, now), owner, end) <=
            InWindow(crates, owner, end) + (if who == owner && now <= end then 1 else 0)
  {
    var row := NewRow(crates, who, source, now);
    assert (crates + [row])[..|crates|] == crates;
  }

  lemma OtherWindows(s: Shop, e: Statement, owner: string, end: int)
    requires CanRun(s, e) && !e.InsertCrate?
    ensures InWindow(Run(s, e).crates, owner, end) == InWindow(s.crates, owner, end)
  {
    if e.OpenCrateRow? {
      var row := s.crates[e.k].(item := e.item, shards := e.shards, openedAt := e.openedAt);
      OpenRowCounts(s.crates, e.k, row, s.users, owner);
    }
  }

  lemma DayStep(s: Shop, e: Statement, owner: string, n: nat)
    requires CanRun(s, e) && DayOk(s, owner, n) && |Passing(Run(s, e), owner)| <= n
    ensures DayOk(Run(s, e), owner, n)
  {
    var t := Run(s, e);
    PassingStep(s, e, owner);
    var before, after := Passing(s, owner), Passing(t, owner);
    forall end: int
      ensures InWindow(t.crates, owner, end) + (if end >= t.now then |after| else 0) <= MAX_CRATES_PER_DAY - 1 + n
    {
      assert InWindow(s.crates, owner, end) + (if end >= s.now then |before| else 0) <= MAX_CRATES_PER_DAY - 1 + n;
      if e.InsertCrate? {
        var c := s.callers[e.w];
        InsertedWindow(s.crates, c.owner, c.cands[0].name, s.now, owner, end);
        if c.owner != owner {
          SubsetIsSmaller(after, before);
        }
      } else {
        OtherWindows(s, e, owner, end);
        if e.CountToday? && s.callers[e.w].owner == owner && Today(s.crates, owner, s.now) < MAX_CRATES_PER_DAY {
          if end >= s.now {
            PassedCheck(s, owner, end);
          }
        } else {
          SubsetIsSmaller(after, before);
        }
      }
    }
  }

  lemma {:induction false} DayHolds(log: seq<Entry>, s: Shop, owner: string, n: nat)
    requires Leads(log, s) && AtMost(log, s, owner, n)
    ensures DayOk(s, owner, n)
    decreases |log|
  {
    if log != [] {
      var front, last := log[..|log| - 1], log[|log| - 1];
      assert forall i :: 0 <= i < |front| ==> front[i] == log[i];
      DayHolds(front, last.before, owner, n);
      DayStep(last.before, last.statement, owner, n);
    }
  }

  // ----- The limit of an address

  /** Candidates are verified users with the address they were selected with. */
  ghost predicate CandsOk(s: Shop) {
    forall w, i :: w in s.callers && 0 <= i < |s.callers[w].cands| ==>
      && Referral(s.users, s.callers[w].cands[i].name, s.callers[w].owner)
      && IpOf(s.users, s.callers[w].cands[i].name) == Some(s.callers[w].cands[i].signupIp)
  }

  ghost predicate SourcesOk(s: Shop) {
    UsersOk(s.users) && OneCratePerSource(s.crates) && SourcesAreReferrals(s.crates, s.users) && CandsOk(s)
  }

  lemma SelectedOk(s: Shop, owner: string, i: nat)
    requires UsersOk(s.users) && i < |Candidates(s.users, s.crates, owner)|
    ensures var c := Candidates(s.users, s.crates, owner)[i];
            Referral(s.users, c.name, owner) && IpOf(s.users, c.name) == Some(c.signupIp)
  {
    var c := Candidates(s.users, s.crates, owner)[i];
    CandidateMembers(s.users, s.crates, owner, c);
    IpOfUnique(s.users, c);
    CandidateIsReferral(s.users, s.crates, owner, c);
  }

  lemma CandsStayOk(s: Shop, e: Statement)
    requires CanRun(s, e) && UsersOk(s.users) && CandsOk(s)
    ensures CandsOk(Run(s, e))
  {
    var t := Run(s, e);
    forall w, i | w in t.callers && 0 <= i < |t.callers[w].cands|
      ensures && Referral(t.users, t.callers[w].cands[i].name, t.callers[w].owner)
              && IpOf(t.users, t.callers[w].cands[i].name) == Some(t.callers[w].cands[i].signupIp)
    {
      if e.SelectCandidates? && e.w == w {
        SelectedOk(s, e.owner, i);
      } else {
        var was := s.callers[w].cands;
        assert t.callers[w].cands == was || t.callers[w].cands == was[1..];
      }
    }
  }

  lemma SourcesStayOk(s: Shop, e: Statement)
    requires CanRun(s, e) && SourcesOk(s)
    ensures SourcesOk(Run(s, e))
  {
    CandsStayOk(s, e);
    if e.InsertCrate? {
      InsertedSources(s.crates, s.users, s.callers[e.w].owner, s.callers[e.w].cands[0].name, s.now);
    }
  }

  lemma InsertedSources(crates: seq<Crate>, users: seq<User>, owner: string, source: string, now: nat)
    requires OneCratePerSource(crates) && SourcesAreReferrals(crates, users) && Referral(users, source, owner)
    ensures var more := InsertOrIgnore(crates, owner, source, now);
            OneCratePerSource(more) && SourcesAreReferrals(more, users)
  {
  }

  ghost predicate AddressOk(s: Shop, owner: string, ip: string, n: nat) {
    SameIp(s.crates, s.users, owner, ip) + |PassingIp(s, owner, ip)| <= MAX_CRATES_PER_IP - 1 + n
  }

  lemma PassingIpStep(s: Shop, e: Statement, owner: string, ip: string)
    requires CanRun(s, e) && ip != ""
    ensures var n, m := PassingIp(s, owner, ip), PassingIp(Run(s, e), owner, ip);
            if e.CountAddress? && s.callers[e.w].owner == owner && s.callers[e.w].cands[0].signupIp == ip
               && SameIp(s.crates, s.users, owner, ip) < MAX_CRATES_PER_IP then true
            else if e.InsertCrate? && e.w in n then m == n - {e.w}
            else m <= n
  {
  }

  lemma InsertedAddress(
    crates: seq<Crate>, users: seq<User>, who: string, source: string, now: nat, owner: string, ip: string)
    ensures SameIp(InsertOrIgnore(crates, who, source, now), users, owner, ip) <=
            SameIp(crates, users, owner, ip) + (if who == owner && IpOf(users, source) == Some(ip) then 1 else 0)
  {
    var row := NewRow(crates, who, source, now);
    assert (crates + [row])[..|crates|] == crates;
  }

  lemma OtherAddresses(s: Shop, e: Statement, owner: string, ip: string)
    requires CanRun(s, e) && !e.InsertCrate? && SourcesOk(s)
    ensures SameIp(Run(s, e).crates, Run(s, e).users, owner, ip) == SameIp(s.crates, s.users, owner, ip)
  {
    if e.OpenCrateRow? {
      var row := s.crates[e.k].(item := e.item, shards := e.shards, openedAt := e.openedAt);
      OpenRowCounts(s.crates, e.k, row, s.users, owner);
    } else if e.ChangeUsers? {
      SameIpSame(s.crates, s.users, e.users, owner, ip);
    }
  }

  lemma AddressStep(s: Shop, e: Statement, owner: string, ip: string, n: nat)
    requires CanRun(s, e) && SourcesOk(s) && ip != "" && AddressOk(s, owner, ip, n)
    requires |PassingIp(Run(s, e), owner, ip)| <= n
    ensures AddressOk(Run(s, e), owner, ip, n)
  {
    PassingIpStep(s, e, owner, ip);
    var before, after := PassingIp(s, owner, ip), PassingIp(Run(s, e), owner, ip);
    if e.InsertCrate? {
      var c := s.callers[e.w];
      InsertedAddress(s.crates, s.users, c.owner, c.cands[0].name, s.now, owner, ip);
      if e.w !in before {
        SubsetIsSmaller(after, before);
      }
    } else {
      OtherAddresses(s, e, owner, ip);
      if !(e.CountAddress? && s.callers[e.w].owner == owner && s.callers[e.w].cands[0].signupIp == ip
           && SameIp(s.crates, s.users, owner, ip) < MAX_CRATES_PER_IP) {
        SubsetIsSmaller(after, before);
      }
    }
  }

  lemma {:induction false} SourcesHold(log: seq<Entry>, s: Shop)
    requires Leads(log, s)
    ensures SourcesOk(s)
    decreases |log|
  {
    if log != [] {
      var last := log[|log| - 1];
      SourcesHold(log[..|log| - 1], last.before);
      SourcesStayOk(last.before, last.statement);
    }
  }

  lemma {:induction false} AddressHolds(log: seq<Entry>, s: Shop, owner: string, ip: string, n: nat)
    requires Leads(log, s) && ip != "" && AtMostIp(log, s, owner, ip, n)
    ensures AddressOk(s, owner, ip, n)
    decreases |log|
  {
    if log != [] {
      var front, last := log[..|log| - 1], log[|log| - 1];
      assert forall i :: 0 <= i < |front| ==> front[i] == log[i];
      AddressHolds(front, last.before, owner, ip, n);
      SourcesHold(front, last.before);
      AddressStep(last.before, last.statement, owner, ip, n);
    }
  }

  // ----- The theorem

  /**
   In every interleaving each source is a verified user the owner referred and earns at most one crate.
   If at most n calls of an owner are ever past their check at once, every 24-hour window holds at most
   4 + n of its grants; if at most n are about to insert for one address, at most 1 + n come from it.
   With n = 1 these are the limits of serial runs.
   */
  lemma LimitsInEveryInterleaving(log: seq<Entry>, s: Shop, owner: string, n: nat, ip: string)
    requires Leads(log, s)
    ensures OneCratePerSource(s.crates) && SourcesAreReferrals(s.crates, s.users)
    ensures AtMost(log, s, owner, n) ==> forall end: int :: InWindow(s.crates, owner, end) <= MAX_CRATES_PER_DAY - 1 + n
    ensures ip != "" && AtMostIp(log, s, owner, ip, n) ==>
              SameIp(s.crates, s.users, owner, ip) <= MAX_CRATES_PER_IP - 1 + n
  {
    SourcesHold(log, s);
    if AtMost(log, s, owner, n) {
      DayHolds(log, s, owner, n);
      forall end: int ensures InWindow(s.crates, owner, end) <= MAX_CRATES_PER_DAY - 1 + n {
        assert InWindow(s.crates, owner, end) + (if end >= s.now then |Passing(s, owner)| else 0)
               <= MAX_CRATES_PER_DAY - 1 + n;
      }
    }
    if ip != "" && AtMostIp(log, s, owner, ip, n) {
      AddressHolds(log, s, owner, ip, n);
    }
  }

  // ----- The bound is attained

  /** Names of different lengths. */
  function Name(j: nat): (r: string)
    ensures |r| == j
  {
    seq(j, _ => 'x')
  }

  /** The referral that is verified as number w of m: the later, the older its account. */
  function Who(m: nat, w: nat): User
    requires w < m
  {
    User(Name(m - 1 - w), "o", true, "", m - 1 - w)
  }

  /** m referred accounts, the newest i of them verified. */
  function Accounts(m: nat, i: nat): (r: seq<User>)
    requires i <= m
    ensures |r| == m
    ensures forall j :: 0 <= j < m ==> r[j] == User(Name(j), "o", j >= m - i, "", j)
  {
    seq(m, j requires 0 <= j < m => User(Name(j), "o", j >= m - i, "", j))
  }

  /** The crates of the first g of them. */
  function Rows(m: nat, g: nat): (r: seq<Crate>)
    requires g <= m
    ensures |r| == g
    ensures forall j :: 0 <= j < g ==> r[j] == Crate(j + 1, "o", Name(m - 1 - j), None, 0, m, 0)
  {
    seq(g, j requires 0 <= j < g => Crate(j + 1, "o", Name(m - 1 - j), None, 0, m, 0))
  }

  lemma NewSource(m: nat, g: nat, w: nat)
    requires g <= w < m
    ensures !HasSource(Rows(m, g), Name(m - 1 - w))
  {
    forall j | 0 <= j < g ensures Rows(m, g)[j].source != Name(m - 1 - w) {
      assert |Rows(m, g)[j].source| == m - 1 - j;
    }
  }

  lemma {:induction false} RowsOfToday(m: nat, g: nat)
    requires g <= m
    ensures Today(Rows(m, g), "o", m) == g && InWindow(Rows(m, g), "o", m) == g
  {
    if g > 0 {
      RowsOfToday(m, g - 1);
      assert Rows(m, g)[..g - 1] == Rows(m, g - 1);
    }
  }

  lemma VerifyOneMore(m: nat, i: nat)
    requires i < m
    ensures UsersOk(Accounts(m, i + 1)) && KeepsVerified(Accounts(m, i), Accounts(m, i + 1))
  {
    var a, b := Accounts(m, i), Accounts(m, i + 1);
    forall j, k | 0 <= j < k < m ensures b[j].name != b[k].name {
      assert |b[j].name| == j && |b[k].name| == k;
    }
    assert UsersOk(a) by {
      forall j, k | 0 <= j < k < m ensures a[j].name != a[k].name {
        assert |a[j].name| == j && |a[k].name| == k;
      }
    }
    forall name, owner | Referral(a, name, owner)
      ensures Referral(b, name, owner) && IpOf(b, name) == IpOf(a, name)
    {
      var j :| 0 <= j < m && a[j].name == name && a[j].verified && a[j].referredBy == owner;
      assert b[j].name == name && b[j].verified;
      IpOfUnique(a, a[j]);
      IpOfUnique(b, b[j]);
    }
  }

  /** A candidate older than all others comes first. */
  lemma OldestIsFirst(users: seq<User>, crates: seq<Crate>, owner: string, u: User)
    requires u in users && Eligible(u, crates, owner)
    requires forall v :: v in users && Eligible(v, crates, owner) && v != u ==> u.createdAt < v.createdAt
    ensures CrateGrants.Candidates(users, crates, owner) != [] && CrateGrants.Candidates(users, crates, owner)[0] == u
  {
    var cands := CrateGrants.Candidates(users, crates, owner);
    CandidateMembers(users, crates, owner, u);
    var j :| 0 <= j < |cands| && cands[j] == u;
    CandidateMembers(users, crates, owner, cands[0]);
    CandidatesInOrder(users, crates, owner);
    assert forall b :: 0 < b < |cands| ==> ByCreatedAtThenName(cands[0], cands[b]);
  }

  lemma NextCandidate(m: nat, i: nat, g: nat)
    requires g <= i < m
    ensures var cands := CrateGrants.Candidates(Accounts(m, i + 1), Rows(m, g), "o");
            cands != [] && cands[0] == Who(m, i)
  {
    var users, u := Accounts(m, i + 1), Who(m, i);
    assert users[m - 1 - i] == u;
    NewSource(m, g, i);
    forall v | v in users && Eligible(v, Rows(m, g), "o") && v != u ensures u.createdAt < v.createdAt {
      var j :| 0 <= j < m && users[j] == v;
    }
    OldestIsFirst(users, Rows(m, g), "o", u);
  }

  /** i referrals verified, g of them granted, the others each at the insert of a call of its own. */
  ghost predicate Stage(s: Shop, m: nat, i: nat, g: nat)
    requires g <= i <= m
  {
    s.users == Accounts(m, i) && s.crates == Rows(m, g) && s.now == m && Waiting(s.callers, m, i, g)
  }

  ghost predicate AtInsert(c: Caller, m: nat, w: nat)
    requires w < m
  {
    c.owner == "o" && c.phase.ToInsert? && c.cands != [] && c.cands[0] == Who(m, w)
  }

  lemma PassingAtStage(s: Shop, m: nat, i: nat, g: nat)
    requires g <= i <= m && Stage(s, m, i, g)
    ensures |Passing(s, "o")| == i - g
  {
    assert Passing(s, "o") == Range(g, i);
  }

  /** One more statement of a run in which at most n calls are past their check. */
  lemma Extend(log: seq<Entry>, s: Shop, e: Statement, n: nat) returns (longer: seq<Entry>, t: Shop)
    requires Leads(log, s) && AtMost(log, s, "o", n) && CanRun(s, e) && |Passing(Run(s, e), "o")| <= n
    ensures Leads(longer, t) && t == Run(s, e) && AtMost(longer, t, "o", n)
  {
    longer, t := log + [Entry(s, e)], Run(s, e);
    assert longer[..|longer| - 1] == log;
    forall i | 0 <= i < |longer| ensures |Passing(longer[i].before, "o")| <= n {
      assert i < |log| ==> longer[i] == log[i];
    }
  }

  /** The callers of a stage, whatever the tables are. */
  ghost predicate Waiting(callers: map<nat, Caller>, m: nat, i: nat, g: nat)
    requires g <= i <= m
  {
    && (forall w :: w in callers ==> w < i && (w < g ==> callers[w].phase.ToCount?))
    && (forall w :: g <= w < i ==> w in callers && AtInsert(callers[w], m, w))
  }

  lemma OneMoreWaiting(callers: map<nat, Caller>, m: nat, i: nat, g: nat, c: Caller)
    requires g <= i < m && Waiting(callers, m, i, g) && AtInsert(c, m, i)
    ensures Waiting(callers[i := c], m, i + 1, g)
  {
  }

  /** A new call has selected its candidates, the oldest first. */
  ghost predicate Chosen(s: Shop, m: nat, i: nat, g: nat, callers: map<nat, Caller>)
    requires g <= i < m
  {
    && s.users == Accounts(m, i + 1) && s.crates == Rows(m, g) && s.now == m
    && Waiting(callers, m, i, g)
    && exists cands :: cands != [] && cands[0] == Who(m, i) && s.callers == callers[i := Caller("o", cands, ToCount)]
  }

  lemma ChosenAfterSelect(s: Shop, m: nat, i: nat, g: nat)
    requires g <= i < m && Waiting(s.callers, m, i, g)
    requires s.users == Accounts(m, i + 1) && s.crates == Rows(m, g) && s.now == m
    ensures CanRun(s, SelectCandidates(i, "o")) && Chosen(Run(s, SelectCandidates(i, "o")), m, i, g, s.callers)
  {
    NextCandidate(m, i, g);
  }

  lemma StageAfterCount(s: Shop, m: nat, i: nat, g: nat, callers: map<nat, Caller>)
    requires g <= i < m && g < MAX_CRATES_PER_DAY && Chosen(s, m, i, g, callers)
    ensures CanRun(s, CountToday(i)) && Stage(Run(s, CountToday(i)), m, i + 1, g)
  {
    RowsOfToday(m, g);
    var c := s.callers[i].(phase := ToInsert);
    assert NextCallers(s, CountToday(i)) == callers[i := c];
    OneMoreWaiting(callers, m, i, g, c);
  }

  /** The next referral is verified, and a new call selects it. */
  lemma Choose(log: seq<Entry>, s: Shop, m: nat, i: nat, g: nat, n: nat) returns (longer: seq<Entry>, t: Shop)
    requires g <= i < m && Stage(s, m, i, g)
    requires Leads(log, s) && AtMost(log, s, "o", n) && i - g <= n
    ensures Leads(longer, t) && AtMost(longer, t, "o", n) && Chosen(t, m, i, g, s.callers)
  {
    var accounts := Accounts(m, i + 1);
    VerifyOneMore(m, i);
    var s1 := Run(s, ChangeUsers(accounts));
    PassingSame(s, m, i, g, s1);
    longer, t := Extend(log, s, ChangeUsers(accounts), n);
    ChosenAfterSelect(s1, m, i, g);
    PassingSame(s, m, i, g, Run(s1, SelectCandidates(i, "o")));
    longer, t := Extend(longer, s1, SelectCandidates(i, "o"), n);
  }

  /** Then it counts the day. */
  lemma Admit(log: seq<Entry>, s: Shop, m: nat, i: nat, g: nat, n: nat) returns (longer: seq<Entry>, t: Shop)
    requires g <= i < m && g < MAX_CRATES_PER_DAY && Stage(s, m, i, g)
    requires Leads(log, s) && AtMost(log, s, "o", n) && i + 1 - g <= n
    ensures Leads(longer, t) && AtMost(longer, t, "o", n) && Stage(t, m, i + 1, g)
  {
    longer, t := Choose(log, s, m, i, g, n);
    StageAfterCount(t, m, i, g, s.callers);
    PassingAtStage(Run(t, CountToday(i)), m, i + 1, g);
    longer, t := Extend(longer, t, CountToday(i), n);
  }

  /** Callers that only count are not past their check. */
  lemma PassingSame(s: Shop, m: nat, i: nat, g: nat, t: Shop)
    requires g <= i <= m && Stage(s, m, i, g)
    requires forall w :: w in s.callers ==> w in t.callers && t.callers[w] == s.callers[w]
    requires forall w :: w in t.callers && w !in s.callers ==> t.callers[w].phase.ToCount?
    ensures |Passing(t, "o")| == i - g
  {
    PassingAtStage(s, m, i, g);
    assert Passing(t, "o") == Passing(s, "o");
  }

  lemma RowsGrow(m: nat, g: nat)
    requires g < m
    ensures InsertOrIgnore(Rows(m, g), "o", Name(m - 1 - g), m) == Rows(m, g + 1)
  {
    NewSource(m, g, g);
    assert Rows(m, g) + [NewRow(Rows(m, g), "o", Name(m - 1 - g), m)] == Rows(m, g + 1);
  }

  lemma OneLessWaiting(callers: map<nat, Caller>, m: nat, i: nat, g: nat, c: Caller)
    requires g < i <= m && Waiting(callers, m, i, g) && c.phase.ToCount?
    ensures Waiting(callers[g := c], m, i, g + 1)
  {
  }

  lemma StageAfterInsert(s: Shop, m: nat, i: nat, g: nat)
    requires g < i <= m && Stage(s, m, i, g)
    ensures CanRun(s, InsertCrate(g)) && Stage(Run(s, InsertCrate(g)), m, i, g + 1)
  {
    assert AtInsert(s.callers[g], m, g);
    RowsGrow(m, g);
    OneLessWaiting(s.callers, m, i, g, Caller("o", s.callers[g].cands[1..], ToCount));
  }

  /** The oldest waiting call inserts. */
  lemma Grant(log: seq<Entry>, s: Shop, m: nat, i: nat, g: nat, n: nat) returns (longer: seq<Entry>, t: Shop)
    requires g < i <= m && Stage(s, m, i, g) && Leads(log, s) && AtMost(log, s, "o", n)
    ensures Leads(longer, t) && AtMost(longer, t, "o", n) && Stage(t, m, i, g + 1)
  {
    StageAfterInsert(s, m, i, g);
    PassingAtStage(s, m, i, g);
    PassingAtStage(Run(s, InsertCrate(g)), m, i, g + 1);
    longer, t := Extend(log, s, InsertCrate(g), n);
  }

  lemma {:induction false} GrantMany(log: seq<Entry>, s: Shop, m: nat, i: nat, g: nat, n: nat)
    returns (longer: seq<Entry>, t: Shop)
    requires g <= i <= m && Stage(s, m, i, g) && Leads(log, s) && AtMost(log, s, "o", n)
    ensures Leads(longer, t) && AtMost(longer, t, "o", n) && Stage(t, m, i, i)
    decreases i - g
  {
    longer, t := log, s;
    if g < i {
      longer, t := Grant(log, s, m, i, g, n);
      longer, t := GrantMany(longer, t, m, i, g + 1, n);
    }
  }

  lemma {:induction false} AdmitMany(log: seq<Entry>, s: Shop, m: nat, i: nat, g: nat, n: nat)
    returns (longer: seq<Entry>, t: Shop)
    requires g <= i <= m && g < MAX_CRATES_PER_DAY && Stage(s, m, i, g) && m - g <= n
    requires Leads(log, s) && AtMost(log, s, "o", n)
    ensures Leads(longer, t) && AtMost(longer, t, "o", n) && Stage(t, m, m, g)
    decreases m - i
  {
    longer, t := log, s;
    if i < m {
      longer, t := Admit(log, s, m, i, g, n);
      longer, t := AdmitMany(longer, t, m, i + 1, g, n);
    }
  }

  /** One call after the other: g referrals verified and granted. */
  lemma {:induction false} GrantedSerially(m: nat, g: nat, n: nat) returns (log: seq<Entry>, s: Shop)
    requires g <= m && g < MAX_CRATES_PER_DAY && n >= 1
    ensures Leads(log, s) && AtMost(log, s, "o", n) && Stage(s, m, g, g)
  {
    if g == 0 {
      assert Passing(EMPTY, "o") == {};
      log, s := Extend([], EMPTY, Clock(m), n);
      assert UsersOk(Accounts(m, 0)) by {
        if m > 0 {
          forall j, k | 0 <= j < k < m ensures Accounts(m, 0)[j].name != Accounts(m, 0)[k].name {
            assert |Accounts(m, 0)[j].name| == j && |Accounts(m, 0)[k].name| == k;
          }
        }
      }
      log, s := Extend(log, s, ChangeUsers(Accounts(m, 0)), n);
    } else {
      log, s := GrantedSerially(m, g - 1, n);
      log, s := Admit(log, s, m, g - 1, g - 1, n);
      log, s := Grant(log, s, m, g, g - 1, n);
    }
  }

  /** With n calls past their check at once, a day can see 4 + n grants. */
  lemma DayBoundIsAttained(n: nat) returns (log: seq<Entry>, s: Shop)
    requires n >= 1
    ensures Leads(log, s) && AtMost(log, s, "o", n)
    ensures InWindow(s.crates, "o", s.now) == MAX_CRATES_PER_DAY - 1 + n
  {
    var m := MAX_CRATES_PER_DAY - 1 + n;
    log, s := GrantedSerially(m, MAX_CRATES_PER_DAY - 1, n);
    log, s := AdmitMany(log, s, m, MAX_CRATES_PER_DAY - 1, MAX_CRATES_PER_DAY - 1, n);
    log, s := GrantMany(log, s, m, m, MAX_CRATES_PER_DAY - 1, n);
    RowsOfToday(m, m);
  }
}
