/**
 Sessions gated by new-device approval.  Every SQL statement is one atomic step, so logins,
 guesses, approvals, denials, revocations, purges and sign-ins may interleave in any order.  A client can
 present a token once the login handler has returned it, or once list_sessions has shown it to a
 connection of the account.
 */
module DeviceSessions {
  import opened Common

  const CHALLENGE_TTL := 900
  const MAX_ATTEMPTS := 5

  datatype Session = Session(username: string, expires: nat, revoked: bool, pending: bool)

  datatype Challenge = Challenge(username: string, deviceId: string, token: string, code: string,
                                 attempts: nat, consumed: bool, expires: nat)

  type Sessions = map<string, Session>
  type Challenges = map<nat, Challenge>

  // ----- The statements

  /** sessionState: the account of a token, and whether it is still held. */
  function SessionState(sessions: Sessions, token: string, now: nat): Option<(string, bool)> {
    if token == "" || token !in sessions || sessions[token].revoked || now > sessions[token].expires then None
    else Some((sessions[token].username, sessions[token].pending))
  }

  /** sessionUsername: the account a token authenticates. */
  function SessionUsername(sessions: Sessions, token: string, now: nat): Option<string> {
    match SessionState(sessions, token, now)
    case Some((user, false)) => Some(user)
    case _ => None
  }

  function SetPending(sessions: Sessions, token: string, pending: bool): Sessions {
    if token in sessions then sessions[token := sessions[token].(pending := pending)] else sessions
  }

  function SetRevoked(sessions: Sessions, token: string): Sessions {
    if token in sessions then sessions[token := sessions[token].(revoked := true)] else sessions
  }

  /** UPDATE … SET revoked = 1 WHERE username = ? [AND token != ?] */
  function RevokeAll(sessions: Sessions, username: string, except: string): Sessions {
    map t | t in sessions ::
      if sessions[t].username == username && t != except then sessions[t].(revoked := true) else sessions[t]
  }

  function PurgedSessions(sessions: Sessions, now: nat): Sessions {
    map t | t in sessions && !sessions[t].revoked && sessions[t].expires >= now :: sessions[t]
  }

  function WithoutUser(sessions: Sessions, username: string): Sessions {
    map t | t in sessions && sessions[t].username != username :: sessions[t]
  }

  function CountAttempt(challenges: Challenges, id: nat): Challenges {
    if id in challenges then challenges[id := challenges[id].(attempts := challenges[id].attempts + 1)] else challenges
  }

  function Consume(challenges: Challenges, id: nat): Challenges {
    if id in challenges then challenges[id := challenges[id].(consumed := true)] else challenges
  }

  function PurgedChallenges(challenges: Challenges, now: nat): Challenges {
    map i | i in challenges && !challenges[i].consumed && challenges[i].expires >= now :: challenges[i]
  }

  /** WHERE session_token = ? ORDER BY id DESC LIMIT 1 */
  predicate IsLatest(challenges: Challenges, token: string, id: nat) {
    && id in challenges && challenges[id].token == token
    && forall j :: j in challenges && challenges[j].token == token ==> j <= id
  }

  /** unicode.IsSpace */
  predicate IsSpace(c: char) {
    || '\t' <= c <= '\r' || c == ' ' || c == '\U{85}' || c == '\U{A0}' || c == '\U{1680}'
    || '\U{2000}' <= c <= '\U{200A}' || c == '\U{2028}' || c == '\U{2029}' || c == '\U{202F}'
    || c == '\U{205F}' || c == '\U{3000}'
  }

  /** strings.TrimSpace */
  function TrimSpace(s: string): string {
    if s != [] && IsSpace(s[0]) then TrimSpace(s[1..])
    else if s != [] && IsSpace(s[|s| - 1]) then TrimSpace(s[..|s| - 1])
    else s
  }

  predicate AllSpace(s: string) {
    forall i :: 0 <= i < |s| ==> IsSpace(s[i])
  }

  /** Trimming takes white space off both ends, and nothing else. */
  lemma {:induction false} TrimTakesSpaceOff(s: string) returns (a: string, b: string)
    ensures AllSpace(a) && AllSpace(b) && s == a + TrimSpace(s) + b
  {
    a, b := "", "";
    if s != [] && IsSpace(s[0]) {
      a, b := TrimTakesSpaceOff(s[1..]);
      a := [s[0]] + a;
    } else if s != [] && IsSpace(s[|s| - 1]) {
      a, b := TrimTakesSpaceOff(s[..|s| - 1]);
      b := b + [s[|s| - 1]];
    }
  }

  /** A code counts with any white space around it. */
  lemma {:induction false} PaddedCode(a: string, code: string, b: string)
    requires AllSpace(a) && AllSpace(b) && code != "" && !IsSpace(code[0]) && !IsSpace(code[|code| - 1])
    ensures TrimSpace(a + code + b) == code
    decreases |a| + |b|
  {
    var s := a + code + b;
    if a != [] {
      assert s[1..] == a[1..] + code + b;
      PaddedCode(a[1..], code, b);
    } else if b != [] {
      assert s[0] == code[0] && s[..|s| - 1] == a + code + b[..|b| - 1];
      PaddedCode(a, code, b[..|b| - 1]);
    } else {
      assert s == code;
    }
  }

  datatype Verdict = NoChallenge | Expired | TooMany | BadCode | Right

  /** What verifyDeviceChallenge decides from the row it read. */
  function Judge(c: Challenge, code: string, now: nat): Verdict {
    if c.consumed then NoChallenge
    else if now > c.expires then Expired
    else if c.attempts >= MAX_ATTEMPTS then TooMany
    else if TrimSpace(code) != c.code then BadCode
    else Right
  }

  /** Which verdict when: the challenge is open, then unexpired, then has fewer than five guesses recorded. */
  predicate VerdictIs(c: Challenge, code: string, now: nat, r: Verdict) {
    var isOpen, unexpired, left, same := !c.consumed, now <= c.expires, c.attempts < 5, TrimSpace(code) == c.code;
    && (r == Right <==> isOpen && unexpired && left && same)
    && (r == BadCode <==> isOpen && unexpired && left && !same)
    && (r == TooMany <==> isOpen && unexpired && !left)
    && (r == Expired <==> isOpen && !unexpired)
    && (r == NoChallenge <==> !isOpen)
  }

  lemma JudgedExactly(c: Challenge, code: string, now: nat)
    ensures VerdictIs(c, code, now, Judge(c, code, now))
  {
  }

  /** A purge of sessions is never noticed: it takes only tokens that have no state any more. */
  lemma PurgeKeepsStates(sessions: Sessions, token: string, now: nat, later: nat)
    requires now <= later
    ensures SessionState(PurgedSessions(sessions, now), token, later) == SessionState(sessions, token, later)
  {
  }

  // ----- Interleaved runs

  /** What a running handler still has to do. */
  datatype Work =
    | WrongCode(id: nat)
    | Approving(id: nat, token: string)
    | Lifting(token: string)
    | Denying(id: nat, token: string)
    | Revoking(token: string)
    | Attaching(code: string, username: string, token: string)

  /** A gated login marks its new session pending, then creates the challenge. */
  datatype Stage = ToMark | ToChallenge

  /** How a connection was signed in: with the password, by a session token, by an approved QR code. */
  datatype Via = ByPassword | ByToken(token: string) | ByQr(code: string)

  datatype Conn = Conn(user: string, via: Via)

  /** A row of qr_login_tokens. */
  datatype Qr = Qr(username: string, token: string, approved: bool, expires: nat)

  const QR_TTL := 300

  /** issued, marked and listed record history: every token ever issued, and to whom; every token held;
      every token that list_sessions has shown. */
  datatype State = State(sessions: Sessions, challenges: Challenges, nextId: nat,
                         logins: map<string, Stage>, workers: map<nat, Work>, conns: map<nat, Conn>,
                         qrs: map<string, Qr>,
                         issued: map<string, string>, marked: set<string>, listed: set<string>, now: nat)

  const START := State(map[], map[], 1, map[], map[], map[], map[], map[], {}, {}, 0)

  datatype Event =
    | Tick(to: nat)
    | Issue(token: string, username: string, ttl: nat, gated: bool)
    | MarkPending(token: string)
    | CreateChallenge(token: string, deviceId: string, code: string)
    | ReadCode(worker: nat, token: string, id: nat, code: string)
    | FailMark(token: string)
    | FailChallenge(token: string)
    | SignIn(conn: nat, token: string)
    | SignInByPassword(conn: nat, username: string)
    | SignInByQr(conn: nat, code: string)
    | ListSessions(conn: nat)
    | CreateQr(code: string)
    | IssueForQr(worker: nat, conn: nat, code: string, token: string, ttl: nat)
    | PurgeQrs
    | Disconnect(conn: nat)
    | LookupInApp(worker: nat, conn: nat, id: nat, approve: bool)
    | Proceed(worker: nat)
    | Revoke(token: string)
    | RevokeAllOf(username: string, except: string)
    | PurgeSessions
    | PurgeChallenges
    | DeleteAccount(username: string)

  /** Some client may have the token: its login has returned it, or it was listed. */
  predicate Presentable(s: State, token: string) {
    token !in s.logins || token in s.listed
  }

  /** What list_sessions shows an account. */
  function ListedTo(s: State, username: string): set<string> {
    set t | t in s.sessions && s.sessions[t].username == username && !s.sessions[t].revoked &&
            s.sessions[t].expires > s.now
  }

  ghost predicate Enabled(s: State, e: Event) {
    match e
    case Tick(to) => to >= s.now
    case Issue(token, username, _, _) => token != "" && token !in s.issued
    case MarkPending(token) => token in s.logins && s.logins[token] == ToMark
    case CreateChallenge(token, _, _) => token in s.logins && s.logins[token] == ToChallenge && token in s.issued
    case ReadCode(w, token, id, _) => w !in s.workers && IsLatest(s.challenges, token, id)
    case FailMark(token) => token in s.logins && s.logins[token] == ToMark
    case FailChallenge(token) => token in s.logins && s.logins[token] == ToChallenge
    case SignIn(_, token) => SessionUsername(s.sessions, token, s.now).Some? && Presentable(s, token)
    case SignInByQr(_, code) => code in s.qrs && s.qrs[code].approved && s.now <= s.qrs[code].expires
    case ListSessions(conn) => conn in s.conns
    case CreateQr(code) => code !in s.qrs
    case IssueForQr(w, conn, _, token, _) =>
      w !in s.workers && conn in s.conns && token != "" && token !in s.issued
    case LookupInApp(w, conn, id, _) =>
      && w !in s.workers && conn in s.conns
      && id in s.challenges && s.challenges[id].username == s.conns[conn].user && !s.challenges[id].consumed
    case Proceed(w) => w in s.workers
    case _ => true
  }

  /** The session table after an event; a handler that passed its checks lifts the hold or revokes. */
  function NextSessions(s: State, e: Event): Sessions {
    match e
    case Issue(token, username, ttl, _) => s.sessions[token := Session(username, s.now + ttl, false, false)]
    case IssueForQr(_, conn, _, token, ttl) =>
      if conn !in s.conns then s.sessions
      else s.sessions[token := Session(s.conns[conn].user, s.now + ttl, false, false)]
    case MarkPending(token) => SetPending(s.sessions, token, true)
    case Proceed(w) =>
      if w !in s.workers then s.sessions
      else if s.workers[w].Lifting? then SetPending(s.sessions, s.workers[w].token, false)
      else if s.workers[w].Revoking? then SetRevoked(s.sessions, s.workers[w].token)
      else s.sessions
    case Revoke(token) => SetRevoked(s.sessions, token)
    case RevokeAllOf(username, except) => RevokeAll(s.sessions, username, except)
    case PurgeSessions => PurgedSessions(s.sessions, s.now)
    case DeleteAccount(username) => WithoutUser(s.sessions, username)
    case _ => s.sessions
  }

  /** The challenge table after an event. */
  function NextChallenges(s: State, e: Event): Challenges {
    match e
    case CreateChallenge(token, deviceId, code) =>
      if token !in s.issued then s.challenges
      else
        var c := Challenge(s.issued[token], deviceId, token, code, 0, false, s.now + CHALLENGE_TTL);
        s.challenges[s.nextId := c]
    case Proceed(w) =>
      if w !in s.workers then s.challenges
      else if s.workers[w].WrongCode? then CountAttempt(s.challenges, s.workers[w].id)
      else if s.workers[w].Approving? || s.workers[w].Denying? then Consume(s.challenges, s.workers[w].id)
      else s.challenges
    case PurgeChallenges => PurgedChallenges(s.challenges, s.now)
    case _ => s.challenges
  }

  /** Logins that have not returned to their client yet; a failed statement ends one early. */
  function NextLogins(s: State, e: Event): map<string, Stage> {
    match e
    case Issue(token, _, _, gated) => if gated then s.logins[token := ToMark] else s.logins
    case MarkPending(token) => s.logins[token := ToChallenge]
    case CreateChallenge(token, _, _) => s.logins - {token}
    case FailMark(token) => s.logins - {token}
    case FailChallenge(token) => s.logins - {token}
    case _ => s.logins
  }

  /** What the running handlers have left to do. */
  function NextWorkers(s: State, e: Event): map<nat, Work>
    requires e.ReadCode? || e.LookupInApp? ==> e.id in s.challenges
    requires e.Proceed? ==> e.worker in s.workers
    requires e.IssueForQr? ==> e.conn in s.conns
  {
    match e
    case IssueForQr(w, conn, code, token, _) => s.workers[w := Attaching(code, s.conns[conn].user, token)]
    case ReadCode(w, token, id, code) =>
      var verdict := Judge(s.challenges[id], code, s.now);
      if verdict == Right then s.workers[w := Approving(id, token)]
      else if verdict == BadCode then s.workers[w := WrongCode(id)]
      else s.workers
    case LookupInApp(w, _, id, approve) =>
      var token := s.challenges[id].token;
      s.workers[w := if approve then Approving(id, token) else Denying(id, token)]
    case Proceed(w) =>
      if s.workers[w].Approving? then s.workers[w := Lifting(s.workers[w].token)]
      else if s.workers[w].Denying? then s.workers[w := Revoking(s.workers[w].token)]
      else s.workers - {w}
    case _ => s.workers
  }

  function NextConns(s: State, e: Event): map<nat, Conn>
    requires e.SignIn? ==> SessionUsername(s.sessions, e.token, s.now).Some?
    requires e.SignInByQr? ==> e.code in s.qrs
  {
    match e
    case SignIn(conn, token) =>
      s.conns[conn := Conn(SessionUsername(s.sessions, token, s.now).value, ByToken(token))]
    case SignInByPassword(conn, username) => s.conns[conn := Conn(username, ByPassword)]
    case SignInByQr(conn, code) => s.conns[conn := Conn(s.qrs[code].username, ByQr(code))]
    case Disconnect(conn) => s.conns - {conn}
    case _ => s.conns
  }

  /** A QR code is approved once, while it is open; a purge takes approved and expired codes. */
  function NextQrs(s: State, e: Event): map<string, Qr> {
    match e
    case CreateQr(code) => s.qrs[code := Qr("", "", false, s.now + QR_TTL)]
    case Proceed(w) =>
      if w !in s.workers || !s.workers[w].Attaching? then s.qrs
      else
        var work := s.workers[w];
        if work.code in s.qrs && !s.qrs[work.code].approved && s.qrs[work.code].expires > s.now
        then s.qrs[work.code := Qr(work.username, work.token, true, s.qrs[work.code].expires)]
        else s.qrs
    case PurgeQrs => map c | c in s.qrs && !s.qrs[c].approved && s.qrs[c].expires >= s.now :: s.qrs[c]
    case DeleteAccount(username) => map c | c in s.qrs && s.qrs[c].username != username :: s.qrs[c]
    case _ => s.qrs
  }

  function NextIssued(s: State, e: Event): map<string, string> {
    match e
    case Issue(token, username, _, _) => s.issued[token := username]
    case IssueForQr(_, conn, _, token, _) =>
      if conn in s.conns then s.issued[token := s.conns[conn].user] else s.issued
    case _ => s.issued
  }

  function NextListed(s: State, e: Event): set<string> {
    if e.ListSessions? && e.conn in s.conns then s.listed + ListedTo(s, s.conns[e.conn].user) else s.listed
  }

  ghost function Step(s: State, e: Event): State
    requires Enabled(s, e)
  {
    State(NextSessions(s, e), NextChallenges(s, e), if e.CreateChallenge? then s.nextId + 1 else s.nextId,
          NextLogins(s, e), NextWorkers(s, e), NextConns(s, e), NextQrs(s, e), NextIssued(s, e),
          if e.MarkPending? then s.marked + {e.token} else s.marked,
          NextListed(s, e),
          if e.Tick? then e.to else s.now)
  }

  /** A run: each statement with the state it found. */
  datatype Entry = Entry(before: State, event: Event)

  ghost predicate Reaches(log: seq<Entry>, s: State)
    decreases |log|
  {
    if log == [] then s == START
    else
      var last := log[|log| - 1];
      && Reaches(log[..|log| - 1], last.before)
      && Enabled(last.before, last.event)
      && Step(last.before, last.event) == s
  }

  // ----- What a run shows about a token

  /** Somebody entitled let the session in: a connection of the same account, or the right code, in time
      and before the fifth wrong guess was recorded. */
  ghost predicate Approves(x: Entry, token: string, username: string) {
    match x.event
    case LookupInApp(_, conn, id, approve) =>
      && approve && conn in x.before.conns
      && x.before.conns[conn].user == username
      && id in x.before.challenges && x.before.challenges[id].token == token && !x.before.challenges[id].consumed
    case ReadCode(_, t, id, code) =>
      && t == token && id in x.before.challenges && x.before.challenges[id].token == token
      && x.before.challenges[id].username == username
      && TrimSpace(code) == x.before.challenges[id].code && !x.before.challenges[id].consumed
      && x.before.now <= x.before.challenges[id].expires
      && x.before.challenges[id].attempts < MAX_ATTEMPTS
    case _ => false
  }

  ghost predicate Approved(log: seq<Entry>, token: string, username: string) {
    exists i :: 0 <= i < |log| && Approves(log[i], token, username)
  }

  /** A statement that takes the token's session away: logout, denial, reset, ban, erasure. */
  ghost predicate Revokes(x: Entry, token: string) {
    token in x.before.issued &&
    match x.event
    case Revoke(t) => t == token
    case RevokeAllOf(username, except) => x.before.issued[token] == username && token != except
    case DeleteAccount(username) => x.before.issued[token] == username
    case Proceed(w) => w in x.before.workers && x.before.workers[w] == Revoking(token)
    case _ => false
  }

  ghost predicate Dead(s: State, token: string) {
    token in s.issued && (token in s.sessions ==> s.sessions[token].revoked)
  }

  ghost predicate SessionsOk(s: State) {
    forall t :: t in s.sessions ==> t in s.issued && s.sessions[t].username == s.issued[t]
  }

  ghost predicate LoginsOk(s: State) {
    forall t :: t in s.logins ==>
      && t in s.issued
      && (s.logins[t] == ToMark ==> t !in s.marked)
      && (s.logins[t] == ToChallenge ==> t in s.marked)
  }

  ghost predicate ChallengesOk(s: State) {
    forall i :: i in s.challenges ==>
      && i < s.nextId
      && s.challenges[i].token in s.issued && s.challenges[i].username == s.issued[s.challenges[i].token]
      && s.challenges[i].token in s.marked
  }

  /** A handler that is about to lift a hold was entitled to. */
  ghost predicate WorkersOk(log: seq<Entry>, s: State) {
    forall w :: w in s.workers ==> WorkOk(log, s, s.workers[w])
  }

  ghost predicate WorkOk(log: seq<Entry>, s: State, work: Work) {
    match work
    case Approving(_, token) => token in s.issued && token in s.marked && Approved(log, token, s.issued[token])
    case Lifting(token) => token in s.issued && token in s.marked && Approved(log, token, s.issued[token])
    case Denying(_, token) => token in s.issued
    case Revoking(token) => token in s.issued
    case Attaching(_, _, _) => true
    case WrongCode(_) => true
  }

  /** A session that was held and no longer is has been approved. */
  ghost predicate HoldsOk(log: seq<Entry>, s: State) {
    forall t :: t in s.sessions && t in s.issued && t in s.marked && !s.sessions[t].pending ==>
      Approved(log, t, s.issued[t])
  }

  ghost predicate RevocationsOk(log: seq<Entry>, s: State) {
    forall i, t :: 0 <= i < |log| && Revokes(log[i], t) ==> Dead(s, t)
  }

  /** The token is out of its login, and no challenge of it can be approved any more. */
  ghost predicate Settled(s: State, token: string) {
    && token in s.issued && token !in s.logins
    && forall j :: j in s.challenges && s.challenges[j].token == token ==> s.challenges[j].consumed
  }

  ghost predicate OneChallengeEach(s: State) {
    && (forall i, j ::
          i in s.challenges && j in s.challenges && s.challenges[i].token == s.challenges[j].token ==> i == j)
    && (forall i :: i in s.challenges ==> s.challenges[i].token !in s.logins)
  }

  ghost predicate WorkSettles(s: State, work: Work) {
    match work
    case Approving(id, token) =>
      && token in s.issued && token !in s.logins
      && forall j :: j in s.challenges && s.challenges[j].token == token ==> j == id
    case Lifting(token) => Settled(s, token)
    case _ => true
  }

  ghost predicate LiftedIsSettled(s: State) {
    forall t :: t in s.sessions && t in s.marked && !s.sessions[t].pending ==> Settled(s, t)
  }

  /** A hold that was lifted, or is about to be, leaves no challenge of that session open. */
  ghost predicate HoldsSettle(s: State) {
    && OneChallengeEach(s) && LiftedIsSettled(s)
    && (forall w :: w in s.workers ==> WorkSettles(s, s.workers[w]))
  }

  ghost predicate Inv(log: seq<Entry>, s: State) {
    && SessionsOk(s) && LoginsOk(s) && ChallengesOk(s) && HoldsSettle(s)
    && s.marked <= s.issued.Keys
    && WorkersOk(log, s) && HoldsOk(log, s) && RevocationsOk(log, s)
  }

  // ----- Steps

  lemma ApprovedStays(log: seq<Entry>, x: Entry, token: string, username: string)
    requires Approved(log, token, username) || Approves(x, token, username)
    ensures Approved(log + [x], token, username)
  {
    if Approves(x, token, username) {
      assert (log + [x])[|log|] == x;
    } else {
      var i :| 0 <= i < |log| && Approves(log[i], token, username);
      assert (log + [x])[i] == log[i];
    }
  }

  lemma SessionsStayOk(s: State, e: Event)
    requires SessionsOk(s) && Enabled(s, e)
    ensures SessionsOk(Step(s, e))
  {
  }

  lemma LoginsStayOk(s: State, e: Event)
    requires LoginsOk(s) && s.marked <= s.issued.Keys && Enabled(s, e)
    ensures LoginsOk(Step(s, e)) && Step(s, e).marked <= Step(s, e).issued.Keys
  {
    HistoryGrows(s, e);
  }

  lemma ChallengesStayOk(s: State, e: Event)
    requires ChallengesOk(s) && LoginsOk(s) && Enabled(s, e)
    ensures ChallengesOk(Step(s, e))
  {
    HistoryGrows(s, e);
    var t := Step(s, e);
    if e.CreateChallenge? {
      assert forall i :: i in t.challenges && i != s.nextId ==> i in s.challenges && t.challenges[i] == s.challenges[i];
    } else {
      RowsOnlyChangeInPlace(s, e);
    }
  }

  /** Outside CreateChallenge a challenge keeps its account and its session, and none is reopened. */
  lemma RowsOnlyChangeInPlace(s: State, e: Event)
    requires Enabled(s, e) && !e.CreateChallenge?
    ensures var t := Step(s, e);
            t.nextId == s.nextId &&
            forall i :: i in t.challenges ==>
              && i in s.challenges && t.challenges[i].token == s.challenges[i].token
              && t.challenges[i].username == s.challenges[i].username
              && (s.challenges[i].consumed ==> t.challenges[i].consumed)
  {
    if !e.Proceed? && !e.PurgeChallenges? {
      assert Step(s, e).challenges == s.challenges;
    }
  }

  /** Tokens stay issued, to the same account; holds are never forgotten. */
  lemma HistoryGrows(s: State, e: Event)
    requires Enabled(s, e)
    ensures var t := Step(s, e);
            && s.marked <= t.marked
            && forall x :: x in s.issued ==> x in t.issued && t.issued[x] == s.issued[x]
  {
  }

  lemma WorkStaysOk(log: seq<Entry>, s: State, e: Event, work: Work)
    requires Enabled(s, e) && WorkOk(log, s, work)
    ensures WorkOk(log + [Entry(s, e)], Step(s, e), work)
  {
    HistoryGrows(s, e);
    if work.Approving? || work.Lifting? {
      ApprovedStays(log, Entry(s, e), work.token, s.issued[work.token]);
    }
  }

  lemma NewWorkOk(log: seq<Entry>, s: State, e: Event)
    requires Enabled(s, e) && ChallengesOk(s)
    ensures e.ReadCode? && Judge(s.challenges[e.id], e.code, s.now) == Right ==>
              WorkOk(log + [Entry(s, e)], s, Approving(e.id, e.token))
    ensures e.LookupInApp? ==>
              var token := s.challenges[e.id].token;
              WorkOk(log + [Entry(s, e)], s, if e.approve then Approving(e.id, token) else Denying(e.id, token))
  {
    if e.ReadCode? && Judge(s.challenges[e.id], e.code, s.now) == Right {
      ApprovedStays(log, Entry(s, e), e.token, s.issued[e.token]);
    }
    if e.LookupInApp? && e.approve {
      var token := s.challenges[e.id].token;
      ApprovedStays(log, Entry(s, e), token, s.issued[token]);
    }
  }

  lemma WorkersStayOk(log: seq<Entry>, s: State, e: Event)
    requires Enabled(s, e) && ChallengesOk(s) && WorkersOk(log, s)
    ensures WorkersOk(log + [Entry(s, e)], Step(s, e))
  {
    var log', t := log + [Entry(s, e)], Step(s, e);
    NewWorkOk(log, s, e);
    forall w | w in t.workers ensures WorkOk(log', t, t.workers[w]) {
      if w in s.workers {
        WorkStaysOk(log, s, e, s.workers[w]);
      }
    }
  }

  lemma HoldsStayOk(log: seq<Entry>, s: State, e: Event)
    requires Inv(log, s) && Enabled(s, e)
    ensures HoldsOk(log + [Entry(s, e)], Step(s, e))
  {
    var log', t := log + [Entry(s, e)], Step(s, e);
    HistoryGrows(s, e);
    forall x | x in t.sessions && x in t.issued && x in t.marked && !t.sessions[x].pending
      ensures Approved(log', x, t.issued[x])
    {
      if x in s.sessions && x in s.marked && !s.sessions[x].pending {
        ApprovedStays(log, Entry(s, e), x, s.issued[x]);
      } else {
        assert e.Proceed? && s.workers[e.worker] == Lifting(x);
        ApprovedStays(log, Entry(s, e), x, s.issued[x]);
      }
    }
  }

  lemma DeadStays(s: State, e: Event, token: string)
    requires Enabled(s, e) && Dead(s, token)
    ensures Dead(Step(s, e), token)
  {
    HistoryGrows(s, e);
  }

  lemma RevokedIsDead(s: State, e: Event, token: string)
    requires Enabled(s, e) && SessionsOk(s) && Revokes(Entry(s, e), token)
    ensures Dead(Step(s, e), token)
  {
  }

  lemma RevocationsStayOk(log: seq<Entry>, s: State, e: Event)
    requires RevocationsOk(log, s) && SessionsOk(s) && Enabled(s, e)
    ensures RevocationsOk(log + [Entry(s, e)], Step(s, e))
  {
    var log' := log + [Entry(s, e)];
    forall i, t | 0 <= i < |log'| && Revokes(log'[i], t) ensures Dead(Step(s, e), t) {
      if i < |log| {
        assert log'[i] == log[i];
        DeadStays(s, e, t);
      } else {
        RevokedIsDead(s, e, t);
      }
    }
  }

  // ----- A lifted hold leaves no open challenge

  lemma SettledStays(s: State, e: Event, token: string)
    requires Enabled(s, e) && Settled(s, token)
    ensures Settled(Step(s, e), token)
  {
    HistoryGrows(s, e);
    if !e.CreateChallenge? {
      RowsOnlyChangeInPlace(s, e);
    }
  }

  /** Only an issue opens a login. */
  lemma LoginsShrink(s: State, e: Event, token: string)
    requires Enabled(s, e) && token in s.issued && token !in s.logins
    ensures token !in Step(s, e).logins
  {
  }

  lemma OneChallengeStays(s: State, e: Event)
    requires Enabled(s, e) && OneChallengeEach(s) && ChallengesOk(s) && LoginsOk(s)
    ensures OneChallengeEach(Step(s, e))
  {
    var t := Step(s, e);
    if e.CreateChallenge? {
      assert forall i :: i in t.challenges && i != s.nextId ==> i in s.challenges && t.challenges[i] == s.challenges[i];
    } else {
      RowsOnlyChangeInPlace(s, e);
      forall i | i in t.challenges ensures t.challenges[i].token !in t.logins {
        LoginsShrink(s, e, t.challenges[i].token);
      }
    }
  }

  lemma WorkKeepsSettling(s: State, e: Event, work: Work)
    requires Enabled(s, e) && WorkSettles(s, work)
    ensures WorkSettles(Step(s, e), work)
  {
    match work
    case Approving(id, token) =>
      HistoryGrows(s, e);
      LoginsShrink(s, e, token);
      if !e.CreateChallenge? {
        RowsOnlyChangeInPlace(s, e);
      }
    case Lifting(token) => SettledStays(s, e, token);
    case _ =>
  }

  lemma NewWorkSettles(s: State, e: Event, w: nat)
    requires Enabled(s, e) && OneChallengeEach(s) && ChallengesOk(s)
    requires forall v :: v in s.workers ==> WorkSettles(s, s.workers[v])
    requires w in Step(s, e).workers && (w !in s.workers || Step(s, e).workers[w] != s.workers[w])
    ensures WorkSettles(Step(s, e), Step(s, e).workers[w])
  {
    if e.Proceed? {
      assert WorkSettles(s, s.workers[w]);
    }
  }

  lemma WorkersKeepSettling(s: State, e: Event)
    requires Enabled(s, e) && OneChallengeEach(s) && ChallengesOk(s)
    requires forall w :: w in s.workers ==> WorkSettles(s, s.workers[w])
    ensures forall w :: w in Step(s, e).workers ==> WorkSettles(Step(s, e), Step(s, e).workers[w])
  {
    var t := Step(s, e);
    forall w | w in t.workers ensures WorkSettles(t, t.workers[w]) {
      if w in s.workers && t.workers[w] == s.workers[w] {
        WorkKeepsSettling(s, e, s.workers[w]);
      } else {
        NewWorkSettles(s, e, w);
      }
    }
  }

  lemma LiftedStaysSettled(s: State, e: Event)
    requires Enabled(s, e) && LiftedIsSettled(s) && s.marked <= s.issued.Keys
    requires forall w :: w in s.workers ==> WorkSettles(s, s.workers[w])
    ensures LiftedIsSettled(Step(s, e))
  {
    var t := Step(s, e);
    forall x | x in t.sessions && x in t.marked && !t.sessions[x].pending ensures Settled(t, x) {
      if e.Proceed? && s.workers[e.worker] == Lifting(x) {
        assert WorkSettles(s, s.workers[e.worker]);
      }
      SettledStays(s, e, x);
    }
  }

  lemma HoldsKeepSettling(s: State, e: Event)
    requires Enabled(s, e) && HoldsSettle(s) && SessionsOk(s) && LoginsOk(s) && ChallengesOk(s)
    requires s.marked <= s.issued.Keys
    ensures HoldsSettle(Step(s, e))
  {
    OneChallengeStays(s, e);
    WorkersKeepSettling(s, e);
    LiftedStaysSettled(s, e);
  }

  lemma {:induction false} RunKeepsInv(log: seq<Entry>, s: State)
    requires Reaches(log, s)
    ensures Inv(log, s)
    decreases |log|
  {
    if log != [] {
      var front, last := log[..|log| - 1], log[|log| - 1];
      RunKeepsInv(front, last.before);
      SessionsStayOk(last.before, last.event);
      LoginsStayOk(last.before, last.event);
      ChallengesStayOk(last.before, last.event);
      HoldsKeepSettling(last.before, last.event);
      WorkersStayOk(front, last.before, last.event);
      HoldsStayOk(front, last.before, last.event);
      RevocationsStayOk(front, last.before, last.event);
      assert log == front + [last];
    }
  }

  // ----- Counting guesses

  /** The UPDATE that records a wrong guess at challenge id. */
  ghost predicate RecordsGuess(x: Entry, id: nat) {
    && x.event.Proceed? && x.event.worker in x.before.workers
    && x.before.workers[x.event.worker] == WrongCode(id)
  }

  /** Wrong guesses recorded against a challenge. */
  ghost function WrongGuesses(log: seq<Entry>, id: nat): nat {
    if log == [] then 0
    else WrongGuesses(log[..|log| - 1], id) + (if RecordsGuess(log[|log| - 1], id) then 1 else 0)
  }

  lemma AttemptsStep(s: State, e: Event, id: nat)
    requires ChallengesOk(s) && Enabled(s, e) && id in Step(s, e).challenges
    ensures id in s.challenges ==>
              Step(s, e).challenges[id].attempts ==
              s.challenges[id].attempts + (if RecordsGuess(Entry(s, e), id) then 1 else 0)
    ensures id !in s.challenges ==> id == s.nextId && Step(s, e).challenges[id].attempts == 0 && !e.Proceed?
  {
  }

  ghost predicate GuessIdsOk(s: State) {
    forall w :: w in s.workers && s.workers[w].WrongCode? ==> s.workers[w].id < s.nextId
  }

  lemma GuessIdsStayOk(s: State, e: Event)
    requires ChallengesOk(s) && GuessIdsOk(s) && Enabled(s, e)
    ensures GuessIdsOk(Step(s, e)) && s.nextId <= Step(s, e).nextId
  {
  }

  lemma {:induction false} NoGuessesYet(log: seq<Entry>, s: State, id: nat)
    requires Reaches(log, s) && id >= s.nextId
    ensures WrongGuesses(log, id) == 0 && GuessIdsOk(s)
    decreases |log|
  {
    if log != [] {
      var front, last := log[..|log| - 1], log[|log| - 1];
      RunKeepsInv(front, last.before);
      assert last.before.nextId <= s.nextId by {
        NextIdGrows(last.before, last.event);
      }
      NoGuessesYet(front, last.before, id);
      GuessIdsStayOk(last.before, last.event);
    }
  }

  lemma NextIdGrows(s: State, e: Event)
    requires Enabled(s, e)
    ensures s.nextId <= Step(s, e).nextId
  {
  }

  /** The attempts column counts the wrong guesses. */
  lemma {:induction false} AttemptsCountGuesses(log: seq<Entry>, s: State, id: nat)
    requires Reaches(log, s) && id in s.challenges
    ensures s.challenges[id].attempts == WrongGuesses(log, id)
    decreases |log|
  {
    var front, last := log[..|log| - 1], log[|log| - 1];
    RunKeepsInv(front, last.before);
    AttemptsStep(last.before, last.event, id);
    if id in last.before.challenges {
      AttemptsCountGuesses(front, last.before, id);
    } else {
      NoGuessesYet(front, last.before, id);
    }
  }

  /** A guess that is read and found wrong. */
  ghost predicate GuessesWrong(x: Entry, id: nat) {
    && x.event.ReadCode? && x.event.id == id && id in x.before.challenges
    && Judge(x.before.challenges[id], x.event.code, x.before.now) == BadCode
  }

  /** Wrong guesses made against a challenge. */
  ghost function Guesses(log: seq<Entry>, id: nat): nat {
    if log == [] then 0
    else Guesses(log[..|log| - 1], id) + (if GuessesWrong(log[|log| - 1], id) then 1 else 0)
  }

  /** The handlers that found a guess wrong and have not recorded it. */
  function Waiting(s: State, id: nat): set<nat> {
    set w | w in s.workers && s.workers[w] == WrongCode(id)
  }

  lemma WaitingStep(s: State, e: Event, id: nat)
    requires Enabled(s, e)
    ensures var x, n, m := Entry(s, e), Waiting(s, id), Waiting(Step(s, e), id);
            if GuessesWrong(x, id) then !RecordsGuess(x, id) && e.worker !in n && m == n + {e.worker}
            else if RecordsGuess(x, id) then e.worker in n && m == n - {e.worker}
            else m == n
  {
  }

  /** No guess is lost: every wrong one is recorded, or its handler has yet to record it. */
  lemma {:induction false} GuessesAreConserved(log: seq<Entry>, s: State, id: nat)
    requires Reaches(log, s)
    ensures Guesses(log, id) == WrongGuesses(log, id) + |Waiting(s, id)|
    decreases |log|
  {
    if log != [] {
      var front, last := log[..|log| - 1], log[|log| - 1];
      GuessesAreConserved(front, last.before, id);
      WaitingStep(last.before, last.event, id);
    }
  }

  lemma {:induction false} PrefixReaches(log: seq<Entry>, s: State, i: nat)
    requires Reaches(log, s) && i < |log|
    ensures Reaches(log[..i], log[i].before)
    decreases |log|
  {
    if i < |log| - 1 {
      PrefixReaches(log[..|log| - 1], log[|log| - 1].before, i);
      assert log[..|log| - 1][..i] == log[..i];
    }
  }

  // ----- The theorems

  ghost predicate WasHeld(log: seq<Entry>, token: string) {
    exists i :: 0 <= i < |log| && log[i].event == MarkPending(token)
  }

  lemma {:induction false} HeldIsMarked(log: seq<Entry>, s: State, token: string)
    requires Reaches(log, s)
    ensures WasHeld(log, token) ==> token in s.marked
    decreases |log|
  {
    if WasHeld(log, token) {
      var i :| 0 <= i < |log| && log[i].event == MarkPending(token);
      var front, last := log[..|log| - 1], log[|log| - 1];
      if i < |log| - 1 {
        assert front[i] == log[i];
        HeldIsMarked(front, last.before, token);
        HistoryGrows(last.before, last.event);
      }
    }
  }

  /** The event issues the token to the account: a login, or the approval of a QR code. */
  ghost predicate Issues(x: Entry, token: string, username: string) {
    || (x.event.Issue? && x.event.token == token && x.event.username == username)
    || QrIssues(x, token, username)
  }

  ghost predicate QrIssues(x: Entry, token: string, username: string) {
    && x.event.IssueForQr? && x.event.token == token
    && x.event.conn in x.before.conns && x.before.conns[x.event.conn].user == username
  }

  ghost predicate IssuedIn(log: seq<Entry>, token: string, username: string, now: nat) {
    exists i :: 0 <= i < |log| && Issues(log[i], token, username) && now <= log[i].before.now + log[i].event.ttl
  }

  lemma SessionOrigin(s: State, e: Event, token: string)
    requires Enabled(s, e) && token in Step(s, e).sessions
    ensures var x := Step(s, e).sessions[token];
            || (&& token in s.sessions
                && s.sessions[token].username == x.username && s.sessions[token].expires == x.expires)
            || (Issues(Entry(s, e), token, x.username) && s.now + e.ttl == x.expires)
  {
  }

  lemma {:induction false} SessionWasIssued(log: seq<Entry>, s: State, token: string, now: nat)
    requires Reaches(log, s) && token in s.sessions && now <= s.sessions[token].expires
    ensures IssuedIn(log, token, s.sessions[token].username, now)
    decreases |log|
  {
    var front, last := log[..|log| - 1], log[|log| - 1];
    SessionOrigin(last.before, last.event, token);
    var b := last.before;
    var x := s.sessions[token];
    if token in b.sessions && b.sessions[token].username == x.username && b.sessions[token].expires == x.expires {
      SessionWasIssued(front, b, token, now);
      var i :| 0 <= i < |front| && Issues(front[i], token, x.username)
        && now <= front[i].before.now + front[i].event.ttl;
      assert log[i] == front[i];
    }
  }

  lemma LiveSessionIsEntitled(log: seq<Entry>, s: State, token: string)
    requires Reaches(log, s) && token in s.sessions && !s.sessions[token].revoked && !s.sessions[token].pending
    ensures forall i :: 0 <= i < |log| ==> !Revokes(log[i], token)
    ensures WasHeld(log, token) ==> Approved(log, token, s.sessions[token].username)
  {
    RunKeepsInv(log, s);
    HeldIsMarked(log, s, token);
    forall i | 0 <= i < |log| ensures !Revokes(log[i], token) {
      assert !Dead(s, token);
    }
  }

  /**
   In every interleaving a token authenticates an account only if it was issued to that account and
   has not expired, no statement of the run revoked it, and, if it was ever held, somebody entitled
   approved it.
   */
  lemma AuthenticatesOnlyIfEntitled(log: seq<Entry>, s: State, token: string)
    requires Reaches(log, s) && SessionUsername(s.sessions, token, s.now).Some?
    ensures var user := SessionUsername(s.sessions, token, s.now).value;
            && IssuedIn(log, token, user, s.now)
            && (forall i :: 0 <= i < |log| ==> !Revokes(log[i], token))
            && (WasHeld(log, token) ==> Approved(log, token, user))
  {
    SessionWasIssued(log, s, token, s.now);
    LiveSessionIsEntitled(log, s, token);
  }

  /**
   An approval by code came in time and before the fifth wrong guess was recorded, so the guesses made
   before it are fewer than five more than those still waiting to be recorded.
   */
  lemma CodeApprovalIsLimited(log: seq<Entry>, s: State, i: nat, token: string, username: string)
    requires Reaches(log, s) && i < |log| && log[i].event.ReadCode? && Approves(log[i], token, username)
    ensures var id := log[i].event.id;
            && WrongGuesses(log[..i], id) < MAX_ATTEMPTS
            && Guesses(log[..i], id) < MAX_ATTEMPTS + |Waiting(log[i].before, id)|
            && (Waiting(log[i].before, id) == {} ==> Guesses(log[..i], id) < MAX_ATTEMPTS)
            && log[i].before.now <= log[i].before.challenges[id].expires
  {
    PrefixReaches(log, s, i);
    AttemptsCountGuesses(log[..i], log[i].before, log[i].event.id);
    GuessesAreConserved(log[..i], log[i].before, log[i].event.id);
  }

  /** No guess at the challenge is read while another waits to be recorded. */
  ghost predicate OneAtATime(log: seq<Entry>, id: nat) {
    forall i :: 0 <= i < |log| && log[i].event.ReadCode? && log[i].event.id == id ==> Waiting(log[i].before, id) == {}
  }

  /** Read one at a time, at most five wrong guesses are ever judged. */
  lemma {:induction false} FiveGuessesOneAtATime(log: seq<Entry>, s: State, id: nat)
    requires Reaches(log, s) && OneAtATime(log, id)
    ensures Guesses(log, id) <= MAX_ATTEMPTS
    decreases |log|
  {
    if log != [] {
      var front, last := log[..|log| - 1], log[|log| - 1];
      assert OneAtATime(front, id) by {
        assert forall i :: 0 <= i < |front| ==> front[i] == log[i];
      }
      FiveGuessesOneAtATime(front, last.before, id);
      if GuessesWrong(last, id) {
        GuessesAreConserved(front, last.before, id);
        AttemptsCountGuesses(front, last.before, id);
      }
    }
  }

  lemma Extend(log: seq<Entry>, s: State, e: Event) returns (longer: seq<Entry>)
    requires Reaches(log, s) && Enabled(s, e)
    ensures longer == log + [Entry(s, e)] && Reaches(longer, Step(s, e))
    ensures forall id :: Guesses(longer, id) == Guesses(log, id) + (if GuessesWrong(Entry(s, e), id) then 1 else 0)
  {
    longer := log + [Entry(s, e)];
    assert longer[..|longer| - 1] == log;
  }

  /** One open challenge, held session and nobody who has recorded a guess. */
  ghost predicate Besieged(s: State, n: nat) {
    && s.challenges == map[1 := Challenge("u", "d", "t", "123456", 0, false, CHALLENGE_TTL)] && s.now == 0
    && forall w :: w in s.workers ==> w < n
  }

  lemma ChallengeOpened() returns (log: seq<Entry>, s: State)
    ensures Reaches(log, s) && Besieged(s, 0) && Guesses(log, 1) == 0
  {
    log, s := [], START;
    log := Extend(log, s, Issue("t", "u", 1000, true));
    s := Step(START, Issue("t", "u", 1000, true));
    log := Extend(log, s, MarkPending("t"));
    s := Step(s, MarkPending("t"));
    var e := CreateChallenge("t", "d", "123456");
    log := Extend(log, s, e);
    s := Step(s, e);
  }

  /** Before the first of them is recorded, any number of wrong guesses can be read. */
  lemma {:induction false} ManyGuesses(n: nat) returns (log: seq<Entry>, s: State)
    ensures Reaches(log, s) && Besieged(s, n) && Guesses(log, 1) == n
  {
    if n == 0 {
      log, s := ChallengeOpened();
    } else {
      var front, b := ManyGuesses(n - 1);
      var e := ReadCode(n - 1, "t", 1, "000000");
      assert TrimSpace("000000") == "000000";
      assert "000000"[0] != "123456"[0];
      log := Extend(front, b, e);
      s := Step(b, e);
    }
  }

  /** The limit of five does not hold for guesses in flight: for every n there is a run in which the code
      is accepted after n wrong guesses. */
  lemma ApprovalAfterAnyNumberOfGuesses(n: nat) returns (log: seq<Entry>, s: State)
    ensures Reaches(log, s) && log != [] && Guesses(log[..|log| - 1], 1) == n
    ensures Approves(log[|log| - 1], "t", "u") && log[|log| - 1].event.ReadCode? && log[|log| - 1].event.id == 1
  {
    var front, b := ManyGuesses(n);
    var e := ReadCode(n, "t", 1, "123456");
    assert TrimSpace("123456") == "123456";
    log := Extend(front, b, e);
    s := Step(b, e);
    assert log[..|log| - 1] == front;
  }

  // ----- The limit is five

  /** The challenge has k recorded wrong guesses, and nobody is at work. */
  ghost predicate Guessed(s: State, k: nat) {
    && s.challenges == map[1 := Challenge("u", "d", "t", "123456", k, false, CHALLENGE_TTL)]
    && s.now == 0 && s.workers == map[]
  }

  lemma ReadWrongly(s: State, k: nat)
    requires Guessed(s, k) && k < 5
    ensures var read := ReadCode(0, "t", 1, "000000");
            && Enabled(s, read) && GuessesWrong(Entry(s, read), 1) && !RecordsGuess(Entry(s, read), 1)
            && Step(s, read) == s.(workers := map[0 := WrongCode(1)])
  {
    assert TrimSpace("000000") == "000000" && "000000"[0] != "123456"[0];
    assert IsLatest(s.challenges, "t", 1);
  }

  lemma RecordIt(s: State, k: nat)
    requires Guessed(s.(workers := map[]), k) && s.workers == map[0 := WrongCode(1)]
    ensures Enabled(s, Proceed(0)) && RecordsGuess(Entry(s, Proceed(0)), 1) && Guessed(Step(s, Proceed(0)), k + 1)
  {
  }

  lemma MoreGuesses(log: seq<Entry>, s: State, e: Event, id: nat) returns (longer: seq<Entry>)
    requires Reaches(log, s) && Enabled(s, e)
    ensures Reaches(longer, Step(s, e))
    ensures WrongGuesses(longer, id) == WrongGuesses(log, id) + (if RecordsGuess(Entry(s, e), id) then 1 else 0)
  {
    longer := log + [Entry(s, e)];
    assert longer[..|longer| - 1] == log;
  }

  lemma OneRecordedGuess(log: seq<Entry>, s: State, k: nat) returns (longer: seq<Entry>, t: State)
    requires Reaches(log, s) && Guessed(s, k) && k < 5
    ensures Reaches(longer, t) && Guessed(t, k + 1) && WrongGuesses(longer, 1) == WrongGuesses(log, 1) + 1
  {
    ReadWrongly(s, k);
    longer := MoreGuesses(log, s, ReadCode(0, "t", 1, "000000"), 1);
    t := s.(workers := map[0 := WrongCode(1)]);
    assert t.(workers := map[]) == s;
    RecordIt(t, k);
    longer := MoreGuesses(longer, t, Proceed(0), 1);
    t := Step(t, Proceed(0));
  }

  lemma {:induction false} RecordedGuesses(k: nat) returns (log: seq<Entry>, s: State)
    requires k <= 5
    ensures Reaches(log, s) && Guessed(s, k) && WrongGuesses(log, 1) == k
  {
    if k == 0 {
      log, s := ChallengeOpened();
      AttemptsCountGuesses(log, s, 1);
    } else {
      log, s := RecordedGuesses(k - 1);
      log, s := OneRecordedGuess(log, s, k - 1);
    }
  }

  /**
   The limit is exactly five: with k wrong guesses recorded, the right code is accepted if and only if k is
   less than five; after the fifth no code is, and reading one changes nothing.
   */
  lemma LimitIsFive(k: nat, code: string) returns (log: seq<Entry>, s: State)
    requires k <= 5
    ensures Reaches(log, s) && WrongGuesses(log, 1) == k && s.workers == map[]
    ensures Enabled(s, ReadCode(0, "t", 1, "123456")) && Enabled(s, ReadCode(0, "t", 1, code))
    ensures Approves(Entry(s, ReadCode(0, "t", 1, "123456")), "t", "u") <==> k < 5
    ensures k < 5 ==> Step(s, ReadCode(0, "t", 1, "123456")).workers == map[0 := Approving(1, "t")]
    ensures k == 5 ==> Step(s, ReadCode(0, "t", 1, code)) == s
  {
    log, s := RecordedGuesses(k);
    assert TrimSpace("123456") == "123456";
    assert IsLatest(s.challenges, "t", 1);
  }

  /** Logout, denial, password reset, ban and erasure are permanent, whatever happens later. */
  lemma {:induction false} RevocationIsPermanent(log: seq<Entry>, s: State, i: nat, token: string)
    requires Reaches(log, s) && i < |log| && Revokes(log[i], token)
    ensures SessionState(s.sessions, token, s.now) == None
  {
    RunKeepsInv(log, s);
    assert Dead(s, token);
  }
}
