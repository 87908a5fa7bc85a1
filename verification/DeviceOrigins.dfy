/**
 Where sign-ins come from: when a held session can approve itself, and what every connection and every
 token in use traces back to.
 */
module DeviceOrigins {
  import opened Common
  import opened DeviceSessions

  // ----- When a held session can approve itself

  ghost predicate SignsIn(x: Entry, conn: nat, c: Conn) {
    match x.event
    case SignIn(k, token) =>
      && k == conn && SessionUsername(x.before.sessions, token, x.before.now) == Some(c.user)
      && c.via == ByToken(token) && Presentable(x.before, token)
    case SignInByPassword(k, username) => k == conn && c == Conn(username, ByPassword)
    case SignInByQr(k, code) =>
      && k == conn && code in x.before.qrs && x.before.qrs[code].approved
      && c == Conn(x.before.qrs[code].username, ByQr(code))
    case _ => false
  }

  /** The event changes who a connection is signed in as. */
  predicate Touches(e: Event, conn: nat) {
    (e.SignIn? || e.SignInByPassword? || e.SignInByQr? || e.Disconnect?) && e.conn == conn
  }

  /** Entry j signed the connection in, and it has been left alone since. */
  ghost predicate SignedInAt(log: seq<Entry>, j: nat, conn: nat, c: Conn) {
    j < |log| && SignsIn(log[j], conn, c) && forall k :: j < k < |log| ==> !Touches(log[k].event, conn)
  }

  lemma {:induction false} ConnOrigin(log: seq<Entry>, s: State, conn: nat) returns (j: nat)
    requires Reaches(log, s) && conn in s.conns
    ensures SignedInAt(log, j, conn, s.conns[conn])
    decreases |log|
  {
    var front, last := log[..|log| - 1], log[|log| - 1];
    if Touches(last.event, conn) {
      j := |log| - 1;
    } else {
      j := ConnOrigin(front, last.before, conn);
      assert front[j] == log[j];
      forall k | j < k < |log| ensures !Touches(log[k].event, conn) {
        assert k < |front| ==> front[k] == log[k];
      }
    }
  }

  /** It is the last sign-in that counts. */
  lemma {:induction false} ConnAfter(log: seq<Entry>, s: State, j: nat, conn: nat, c: Conn)
    requires Reaches(log, s) && SignedInAt(log, j, conn, c)
    ensures conn in s.conns && s.conns[conn] == c
    decreases |log|
  {
    var front, last := log[..|log| - 1], log[|log| - 1];
    if j < |front| {
      assert front[j] == log[j];
      assert forall k :: j < k < |front| ==> front[k] == log[k];
      ConnAfter(front, last.before, j, conn, c);
    }
  }

  /** What holds from some entry on: a settled token stays so, and one past its mark is never marked. */
  lemma {:induction false} LaterOn(log: seq<Entry>, s: State, j: nat, token: string)
    requires Reaches(log, s) && j < |log|
    ensures Settled(log[j].before, token) ==> Settled(s, token)
    ensures token in log[j].before.issued && token !in log[j].before.logins && token !in log[j].before.marked ==>
              token in s.issued && token !in s.logins && token !in s.marked
    decreases |log|
  {
    var front, last := log[..|log| - 1], log[|log| - 1];
    var b := last.before;
    if j < |front| {
      LaterOn(front, b, j, token);
    }
    HistoryGrows(b, last.event);
    if Settled(b, token) {
      SettledStays(b, last.event, token);
    }
    if token in b.issued && token !in b.logins {
      LoginsShrink(b, last.event, token);
    }
  }

  /** The connection signed in with the token after its issue and before its hold, and still is. */
  ghost predicate SignedInEarly(log: seq<Entry>, conn: nat, token: string) {
    exists j :: 0 <= j < |log| && log[j].event == SignIn(conn, token)
      && token in log[j].before.logins && log[j].before.logins[token] == ToMark
      && forall k :: j < k < |log| ==> !Touches(log[k].event, conn)
  }

  lemma EarlyIfSelf(log: seq<Entry>, s: State, conn: nat, id: nat)
    requires Reaches(log, s) && conn in s.conns && id in s.challenges && !s.challenges[id].consumed
    requires s.conns[conn].via == ByToken(s.challenges[id].token)
    ensures SignedInEarly(log, conn, s.challenges[id].token)
  {
    var token := s.challenges[id].token;
    var j := ConnOrigin(log, s, conn);
    var b := log[j].before;
    PrefixReaches(log, s, j);
    RunKeepsInv(log, s);
    RunKeepsInv(log[..j], b);
    LaterOn(log, s, j, token);
    assert token in b.sessions && !b.sessions[token].pending;
    assert token in b.logins && b.logins[token] == ToMark;
  }

  /**
   Whoever can resolve a challenge in the app was signed in by the very session it holds if and only if it
   signed in with that token between the issue of the session and its hold.
   */
  lemma SelfApprovalExactly(log: seq<Entry>, s: State, e: Event)
    requires Reaches(log, s) && Enabled(s, e) && e.LookupInApp?
    ensures s.conns[e.conn].via == ByToken(s.challenges[e.id].token)
            <==> SignedInEarly(log, e.conn, s.challenges[e.id].token)
  {
    var token := s.challenges[e.id].token;
    if s.conns[e.conn].via == ByToken(token) {
      EarlyIfSelf(log, s, e.conn, e.id);
    }
    if SignedInEarly(log, e.conn, token) {
      var j :| 0 <= j < |log| && log[j].event == SignIn(e.conn, token)
        && token in log[j].before.logins && log[j].before.logins[token] == ToMark
        && forall k :: j < k < |log| ==> !Touches(log[k].event, e.conn);
      EnabledAt(log, s, j);
      var user := SessionUsername(log[j].before.sessions, token, log[j].before.now).value;
      ConnAfter(log, s, j, e.conn, Conn(user, ByToken(token)));
    }
  }

  lemma {:induction false} EnabledAt(log: seq<Entry>, s: State, j: nat)
    requires Reaches(log, s) && j < |log|
    ensures Enabled(log[j].before, log[j].event)
    decreases |log|
  {
    if j < |log| - 1 {
      EnabledAt(log[..|log| - 1], log[|log| - 1].before, j);
    }
  }

  /** One session t of account u, listed while its login runs, and the two connections of the account. */
  ghost predicate Insider(s: State, pending: bool) {
    && s.sessions == map["t" := Session("u", 1000, false, pending)] && s.issued == map["t" := "u"] && s.now == 0
    && s.conns == map[0 := Conn("u", ByPassword), 1 := Conn("u", ByToken("t"))]
  }

  /** A connection lists the sessions of its account while a login is between issue and hold, and a second
      one signs in with the new token. */
  lemma SignedInDuringLogin() returns (log: seq<Entry>, s: State)
    ensures Reaches(log, s) && Insider(s, false) && s.logins == map["t" := ToMark]
    ensures s.challenges == map[] && s.nextId == 1 && s.workers == map[]
  {
    log, s := ExtendRun([], START, SignInByPassword(0, "u"));
    log, s := ExtendRun(log, s, Issue("t", "u", 1000, true));
    log, s := ExtendRun(log, s, ListSessions(0));
    assert "t" in s.listed;
    log, s := ExtendRun(log, s, SignIn(1, "t"));
  }

  /** Then the session is held and challenged. */
  lemma ChallengedItself() returns (log: seq<Entry>, s: State)
    ensures Reaches(log, s) && Insider(s, true) && WasHeld(log, "t") && s.workers == map[]
    ensures 1 in s.challenges && s.challenges[1].username == "u" && s.challenges[1].token == "t"
    ensures !s.challenges[1].consumed
  {
    log, s := SignedInDuringLogin();
    log, s := ExtendRun(log, s, MarkPending("t"));
    assert log[|log| - 1].event == MarkPending("t");
    log, s := ExtendRun(log, s, CreateChallenge("t", "d", "123456"));
    assert log[|log| - 2].event == MarkPending("t");
  }

  /** The run: the second connection approves the session that it was signed in by. */
  lemma SelfApproval() returns (log: seq<Entry>, s: State, i: nat)
    ensures Reaches(log, s) && SessionUsername(s.sessions, "t", s.now) == Some("u")
    ensures i < |log| && WasHeld(log[..i], "t") && Approves(log[i], "t", "u")
    ensures log[i].event == LookupInApp(0, 1, 1, true) && log[i].before.conns[1].via == ByToken("t")
  {
    log, s := ChallengedItself();
    i := |log|;
    var held := log;
    log, s := ExtendRun(log, s, LookupInApp(0, 1, 1, true));
    assert log[..i] == held;
    log, s := LiftedInTwo(log, s);
    assert log[..i] == held;
  }

  lemma LiftedInTwo(log: seq<Entry>, s: State) returns (longer: seq<Entry>, t: State)
    requires Reaches(log, s) && Insider(s, true) && s.workers == map[0 := Approving(1, "t")]
    ensures Reaches(longer, t) && log <= longer && SessionUsername(t.sessions, "t", t.now) == Some("u")
  {
    longer, t := ExtendRun(log, s, Proceed(0));
    longer, t := ExtendRun(longer, t, Proceed(0));
  }

  lemma ExtendRun(log: seq<Entry>, s: State, e: Event) returns (longer: seq<Entry>, t: State)
    requires Reaches(log, s) && Enabled(s, e)
    ensures longer == log + [Entry(s, e)] && t == Step(s, e) && Reaches(longer, t)
  {
    longer, t := log + [Entry(s, e)], Step(s, e);
    assert longer[..|longer| - 1] == log;
  }

  // ----- Every sign-in traces back

  /** list_sessions showed the token to a connection of the account. */
  ghost predicate Lists(x: Entry, token: string, user: string) {
    && x.event.ListSessions? && x.event.conn in x.before.conns && x.before.conns[x.event.conn].user == user
    && token in ListedTo(x.before, user)
  }

  /** A connection of the account approved the QR code. */
  ghost predicate ApprovesQr(x: Entry, code: string, user: string) {
    && x.event.IssueForQr? && x.event.code == code
    && x.event.conn in x.before.conns && x.before.conns[x.event.conn].user == user
  }

  ghost predicate FailedMark(log: seq<Entry>, token: string) {
    exists i :: 0 <= i < |log| && log[i].event == FailMark(token)
  }

  /** A login that was not gated, or whose hold failed. */
  ghost predicate PassedGate(log: seq<Entry>, token: string, user: string) {
    exists i :: 0 <= i < |log| && log[i].event.Issue? && log[i].event.token == token && log[i].event.username == user
      && (!log[i].event.gated || FailedMark(log, token))
  }

  /**
   Where a token that signs in came from.  A held one was let in by its code or by a connection that traces
   back.  One never held passed the gate of its login, or was issued for a QR code that a connection that
   traces back approved, or was listed, before its hold, to a connection that traces back.
   */
  ghost predicate TokenTraces(log: seq<Entry>, token: string, user: string)
    decreases |log|
  {
    if WasHeld(log, token) then
      exists i :: 0 <= i < |log| && Approves(log[i], token, user) &&
        (log[i].event.ReadCode? || ConnTraces(log[..i], log[i].event.conn, user))
    else
      || PassedGate(log, token, user)
      || (exists i :: 0 <= i < |log| && QrIssues(log[i], token, user) && ConnTraces(log[..i], log[i].event.conn, user))
      || (exists i :: 0 <= i < |log| && Lists(log[i], token, user) && ConnTraces(log[..i], log[i].event.conn, user))
  }

  /** A connection was signed in with the password, by a token that traces back, or by a QR code that a
      connection that traces back approved. */
  ghost predicate ConnTraces(log: seq<Entry>, conn: nat, user: string)
    decreases |log|
  {
    exists j: nat, c :: SignedInAt(log, j, conn, c) && c.user == user &&
      match c.via
      case ByPassword => true
      case ByToken(token) => TokenTraces(log[..j], token, user)
      case ByQr(code) => exists i :: 0 <= i < j && ApprovesQr(log[i], code, user)
                           && ConnTraces(log[..i], log[i].event.conn, user)
  }

  /** Approved codes, and those about to be, were approved by a connection of the account. */
  ghost predicate QrsOk(log: seq<Entry>, s: State) {
    && (forall c :: c in s.qrs && s.qrs[c].approved ==> QrApproved(log, c, s.qrs[c].username))
    && (forall w :: w in s.workers && s.workers[w].Attaching? ==>
          QrApproved(log, s.workers[w].code, s.workers[w].username))
  }

  ghost predicate QrApproved(log: seq<Entry>, code: string, user: string) {
    exists i :: 0 <= i < |log| && ApprovesQr(log[i], code, user)
  }

  lemma QrApprovedStays(log: seq<Entry>, x: Entry, code: string, user: string)
    requires QrApproved(log, code, user) || ApprovesQr(x, code, user)
    ensures QrApproved(log + [x], code, user)
  {
    if ApprovesQr(x, code, user) {
      assert (log + [x])[|log|] == x;
    } else {
      var i :| 0 <= i < |log| && ApprovesQr(log[i], code, user);
      assert (log + [x])[i] == log[i];
    }
  }

  lemma QrsStayOk(log: seq<Entry>, s: State, e: Event)
    requires QrsOk(log, s) && Enabled(s, e)
    ensures QrsOk(log + [Entry(s, e)], Step(s, e))
  {
    var log', t := log + [Entry(s, e)], Step(s, e);
    forall w | w in t.workers && t.workers[w].Attaching?
      ensures QrApproved(log', t.workers[w].code, t.workers[w].username)
    {
      QrApprovedStays(log, Entry(s, e), t.workers[w].code, t.workers[w].username);
    }
    forall c | c in t.qrs && t.qrs[c].approved ensures QrApproved(log', c, t.qrs[c].username) {
      QrApprovedStays(log, Entry(s, e), c, t.qrs[c].username);
    }
  }

  lemma {:induction false} RunKeepsQrs(log: seq<Entry>, s: State)
    requires Reaches(log, s)
    ensures QrsOk(log, s)
    decreases |log|
  {
    if log != [] {
      var front, last := log[..|log| - 1], log[|log| - 1];
      RunKeepsQrs(front, last.before);
      QrsStayOk(front, last.before, last.event);
      assert log == front + [last];
    }
  }

  /** A listed token was shown to a connection of the account it was issued to. */
  lemma {:induction false} ListedWasShown(log: seq<Entry>, s: State, token: string) returns (i: nat)
    requires Reaches(log, s) && token in s.listed
    ensures i < |log| && token in s.issued && Lists(log[i], token, s.issued[token])
    decreases |log|
  {
    var front, last := log[..|log| - 1], log[|log| - 1];
    RunKeepsInv(front, last.before);
    HistoryGrows(last.before, last.event);
    if token in last.before.listed {
      i := ListedWasShown(front, last.before, token);
      assert front[i] == log[i];
    } else {
      i := |log| - 1;
    }
  }

  /** A gated login is still running, or was held, or failed to hold. */
  lemma {:induction false} LoginOutcome(log: seq<Entry>, s: State, i: nat)
    requires Reaches(log, s) && i < |log| && log[i].event.Issue? && log[i].event.gated
    ensures var t := log[i].event.token;
            t in s.issued && (WasHeld(log, t) || FailedMark(log, t) || (t in s.logins && s.logins[t] == ToMark))
    decreases |log|
  {
    var front, last := log[..|log| - 1], log[|log| - 1];
    var t := log[i].event.token;
    if i < |front| {
      LoginOutcome(front, last.before, i);
      HistoryGrows(last.before, last.event);
      assert forall k :: 0 <= k < |front| ==> front[k] == log[k];
      assert last.event == MarkPending(t) || last.event == FailMark(t) || WasHeld(front, t) || FailedMark(front, t)
             || (t in s.logins && s.logins[t] == ToMark);
    }
  }

  /**
   Over every run: every connection, and every token that a client can present and that authenticates,
   traces back through approvals, listings and QR codes of the same account to a sign-in with the
   password, a right code, or a login that passed the gate.
   */
  lemma {:induction false} ConnsTraceBack(log: seq<Entry>, s: State, conn: nat)
    requires Reaches(log, s) && conn in s.conns
    ensures ConnTraces(log, conn, s.conns[conn].user)
    decreases |log|, 2
  {
    var c := s.conns[conn];
    var j := ConnOrigin(log, s, conn);
    PrefixReaches(log, s, j);
    match c.via
    case ByPassword =>
    case ByToken(token) => TokensTraceBack(log[..j], log[j].before, token);
    case ByQr(code) =>
      RunKeepsQrs(log[..j], log[j].before);
      var i :| 0 <= i < j && ApprovesQr(log[..j][i], code, c.user);
      assert log[..j][i] == log[i];
      PrefixReaches(log, s, i);
      ConnsTraceBack(log[..i], log[i].before, log[i].event.conn);
  }

  lemma {:induction false} TokensTraceBack(log: seq<Entry>, s: State, token: string)
    requires Reaches(log, s) && SessionUsername(s.sessions, token, s.now).Some? && Presentable(s, token)
    ensures TokenTraces(log, token, SessionUsername(s.sessions, token, s.now).value)
    decreases |log|, 1
  {
    var user := SessionUsername(s.sessions, token, s.now).value;
    AuthenticatesOnlyIfEntitled(log, s, token);
    if WasHeld(log, token) {
      var i :| 0 <= i < |log| && Approves(log[i], token, user);
      if log[i].event.LookupInApp? {
        PrefixReaches(log, s, i);
        ConnsTraceBack(log[..i], log[i].before, log[i].event.conn);
      }
    } else {
      UnheldTokenTraces(log, s, token, user);
    }
  }

  lemma {:induction false} UnheldTokenTraces(log: seq<Entry>, s: State, token: string, user: string)
    requires Reaches(log, s) && !WasHeld(log, token) && Presentable(s, token)
    requires token in s.sessions && IssuedIn(log, token, user, s.now) && s.sessions[token].username == user
    ensures TokenTraces(log, token, user)
    decreases |log|, 0
  {
    var i :| 0 <= i < |log| && Issues(log[i], token, user);
    if log[i].event.IssueForQr? {
      PrefixReaches(log, s, i);
      ConnsTraceBack(log[..i], log[i].before, log[i].event.conn);
    } else if log[i].event.gated {
      LoginOutcome(log, s, i);
      if !FailedMark(log, token) {
        var l := ListedWasShown(log, s, token);
        RunKeepsInv(log, s);
        PrefixReaches(log, s, l);
        ConnsTraceBack(log[..l], log[l].before, log[l].event.conn);
      } else {
        assert PassedGate(log, token, user);
      }
    } else {
      assert PassedGate(log, token, user);
    }
  }
}
