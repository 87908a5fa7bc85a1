/** Exactly which tokens authenticate an account, read off the run alone. */
module DeviceEntitled {
  import opened Common
  import opened DeviceSessions

  /** The second statement of an approval. */
  ghost predicate Lifts(x: Entry, token: string) {
    x.event.Proceed? && x.event.worker in x.before.workers && x.before.workers[x.event.worker] == Lifting(token)
  }

  /** The token was held and the hold has not been lifted since. */
  ghost predicate HeldNow(log: seq<Entry>, token: string) {
    exists i :: 0 <= i < |log| && HeldFrom(log, token, i)
  }

  ghost predicate HeldFrom(log: seq<Entry>, token: string, i: nat)
    requires i < |log|
  {
    log[i].event == MarkPending(token) && forall k :: i < k < |log| ==> !Lifts(log[k], token)
  }

  lemma HeldStep(log: seq<Entry>, x: Entry, token: string)
    ensures HeldNow(log + [x], token) <==> x.event == MarkPending(token) || (HeldNow(log, token) && !Lifts(x, token))
  {
    var longer := log + [x];
    assert longer[|log|] == x && forall k :: 0 <= k < |log| ==> longer[k] == log[k];
    if HeldNow(longer, token) {
      var i :| 0 <= i < |longer| && HeldFrom(longer, token, i);
      if i < |log| {
        assert HeldFrom(log, token, i);
        assert !Lifts(longer[|log|], token);
      }
    }
    if x.event == MarkPending(token) {
      assert HeldFrom(longer, token, |log|);
    } else if HeldNow(log, token) && !Lifts(x, token) {
      var i :| 0 <= i < |log| && HeldFrom(log, token, i);
      assert HeldFrom(longer, token, i);
    }
  }

  /** What one statement does to a session that is there before and after. */
  lemma PendingStep(s: State, e: Event, token: string)
    requires Enabled(s, e) && SessionsOk(s) && token in s.sessions && token in Step(s, e).sessions
    ensures Step(s, e).sessions[token].pending <==>
              e == MarkPending(token) || (s.sessions[token].pending && !Lifts(Entry(s, e), token))
  {
  }

  lemma NewIsNotPending(s: State, e: Event, token: string)
    requires Enabled(s, e) && SessionsOk(s) && token !in s.sessions && token in Step(s, e).sessions
    ensures token !in s.issued && !Step(s, e).sessions[token].pending && (e.Issue? || e.IssueForQr?)
  {
  }

  lemma {:induction false} PendingIsHeld(log: seq<Entry>, s: State, token: string)
    requires Reaches(log, s) && token in s.sessions
    ensures s.sessions[token].pending <==> HeldNow(log, token)
    decreases |log|
  {
    var front, last := log[..|log| - 1], log[|log| - 1];
    RunKeepsInv(front, last.before);
    HeldStep(front, last, token);
    assert log == front + [last];
    if token in last.before.sessions {
      PendingIsHeld(front, last.before, token);
      PendingStep(last.before, last.event, token);
    } else {
      NewIsNotPending(last.before, last.event, token);
      NotHeldBefore(front, last.before, token);
    }
  }

  lemma NotHeldBefore(log: seq<Entry>, s: State, token: string)
    requires Reaches(log, s) && token !in s.issued
    ensures !HeldNow(log, token)
  {
    RunKeepsInv(log, s);
    HeldIsMarked(log, s, token);
  }

  /** A session that is not expired survives every statement that does not revoke it. */
  lemma SessionSurvives(s: State, e: Event, token: string)
    requires Enabled(s, e) && SessionsOk(s) && token in s.sessions && !s.sessions[token].revoked
    requires Step(s, e).now <= s.sessions[token].expires && !Revokes(Entry(s, e), token)
    ensures token in Step(s, e).sessions && !Step(s, e).sessions[token].revoked
    ensures Step(s, e).sessions[token].username == s.sessions[token].username
    ensures Step(s, e).sessions[token].expires == s.sessions[token].expires
  {
  }

  lemma IssuedIsThere(s: State, e: Event, token: string, username: string)
    requires Enabled(s, e) && Issues(Entry(s, e), token, username)
    ensures token != "" && token in Step(s, e).sessions
    ensures Step(s, e).sessions[token] == Session(username, s.now + e.ttl, false, false)
  {
  }

  lemma {:induction false} IssuedStays(log: seq<Entry>, s: State, i: nat, token: string, username: string)
    requires Reaches(log, s) && i < |log| && Issues(log[i], token, username)
    requires s.now <= log[i].before.now + log[i].event.ttl
    requires forall k :: i < k < |log| ==> !Revokes(log[k], token)
    ensures token != "" && token in s.sessions && !s.sessions[token].revoked && s.sessions[token].username == username
    ensures s.sessions[token].expires == log[i].before.now + log[i].event.ttl
    decreases |log|
  {
    var front, last := log[..|log| - 1], log[|log| - 1];
    if i == |front| {
      IssuedIsThere(last.before, last.event, token, username);
    } else {
      assert front[i] == log[i] && forall k :: 0 <= k < |front| ==> front[k] == log[k];
      IssuedStays(front, last.before, i, token, username);
      RunKeepsInv(front, last.before);
      assert !Revokes(log[|front|], token);
      SessionSurvives(last.before, last.event, token);
    }
  }

  /**
   In every interleaving a token authenticates an account exactly when it was issued to the account and has not
   expired, nothing revoked it, and no hold of it is still to be lifted.
   */
  lemma AuthenticatesExactly(log: seq<Entry>, s: State, token: string, username: string)
    requires Reaches(log, s)
    ensures SessionUsername(s.sessions, token, s.now) == Some(username) <==>
              && IssuedIn(log, token, username, s.now)
              && (forall i :: 0 <= i < |log| ==> !Revokes(log[i], token))
              && !HeldNow(log, token)
  {
    if SessionUsername(s.sessions, token, s.now) == Some(username) {
      AuthenticatesOnlyIfEntitled(log, s, token);
      PendingIsHeld(log, s, token);
    } else if IssuedIn(log, token, username, s.now) && forall i :: 0 <= i < |log| ==> !Revokes(log[i], token) {
      var i :| 0 <= i < |log| && Issues(log[i], token, username) && s.now <= log[i].before.now + log[i].event.ttl;
      IssuedStays(log, s, i, token, username);
      PendingIsHeld(log, s, token);
    }
  }
}
