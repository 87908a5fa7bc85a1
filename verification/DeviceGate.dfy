/** The session and device-challenge operations as the server runs them, on the tables. */
module DeviceGate {
  import opened Common
  import opened DeviceSessions

  /** DeviceIdError and HoldError are answered like SessionError, but the session has been issued. */
  datatype LoginResult = SessionError | DeviceIdError | HoldError | Held | SignedIn

  type Devices = set<(string, string)>

  function Remembered(known: Devices, username: string, deviceId: string): Devices {
    if deviceId == "" then known else known + {(username, deviceId)}
  }

  const SESSION_TTL := 30 * 24 * 3600

  lemma {:induction false} LargestId(ids: set<nat>) returns (id: nat)
    requires ids != {}
    ensures id in ids && forall j :: j in ids ==> j <= id
    decreases |ids|
  {
    var x :| x in ids;
    var rest := ids - {x};
    id := x;
    if rest != {} {
      var other := LargestId(rest);
      if other > x {
        id := other;
      }
    }
    forall j | j in ids ensures j <= id {
      assert j == x || j in rest;
    }
  }

  lemma NewestExists(challenges: Challenges, token: string)
    ensures (forall j :: j in challenges ==> challenges[j].token != token) ||
            exists i :: i in challenges.Keys && IsLatest(challenges, token, i)
  {
    var ids := set j | j in challenges && challenges[j].token == token;
    if ids == {} {
      forall j | j in challenges ensures challenges[j].token != token {
        assert j !in ids;
      }
    } else {
      var best := LargestId(ids);
      forall j | j in challenges && challenges[j].token == token ensures j <= best {
        assert j in ids;
      }
      assert IsLatest(challenges, token, best);
    }
  }

  /** The device that a login is from: the cookie's, or the one just given to the browser. */
  function DeviceOf(cookieDevice: string, newDevice: Option<string>): string {
    if cookieDevice == "" && newDevice.Some? then newDevice.value else cookieDevice
  }

  class Gate {
    var sessions: Sessions
    var challenges: Challenges
    var nextId: nat
    var known: Devices
    var now: nat

    ghost predicate Valid()
      reads this
    {
      nextId >= 1 && forall i :: i in challenges ==> 1 <= i < nextId
    }

    constructor ()
      ensures Valid() && sessions == map[] && challenges == map[] && known == {}
    {
      sessions, challenges, nextId, known, now := map[], map[], 1, {}, 0;
    }

    /** The token column is the primary key, so a repeated token is an error. */
    method IssueSessionToken(token: string, username: string) returns (ok: bool)
      modifies this`sessions
      ensures ok == (token !in old(sessions))
      ensures var row := Session(username, now + SESSION_TTL, false, false);
              sessions == if ok then old(sessions)[token := row] else old(sessions)
    {
      ok := token !in sessions;
      if ok {
        sessions := sessions[token := Session(username, now + SESSION_TTL, false, false)];
      }
    }

    /** Holds a session: it keeps its account and authenticates nothing.  The UPDATE itself may fail. */
    method MarkSessionPendingDevice(token: string, fails: bool) returns (ok: bool)
      modifies this`sessions
      ensures ok == !fails
      ensures !ok ==> sessions == old(sessions)
      ensures ok ==> SessionUsername(sessions, token, now) == None
      ensures var was := SessionState(old(sessions), token, now);
              ok ==> SessionState(sessions, token, now) == if was.Some? then Some((was.value.0, true)) else None
      ensures sessions.Keys == old(sessions).Keys
      ensures forall t :: t in sessions && t != token ==> sessions[t] == old(sessions)[t]
      ensures token in sessions ==> sessions[token] == old(sessions)[token].(pending := sessions[token].pending)
    {
      ok := !fails;
      if ok {
        sessions := SetPending(sessions, token, true);
      }
    }

    method RevokeSession(token: string)
      modifies this`sessions
      ensures sessions == SetRevoked(old(sessions), token)
      ensures SessionState(sessions, token, now) == None
    {
      sessions := SetRevoked(sessions, token);
    }

    /** Id 0 stands for a code that could not be drawn or an INSERT that failed. */
    method CreateDeviceChallenge(username: string, deviceId: string, token: string, code: string, fails: bool)
      returns (id: nat)
      requires Valid()
      modifies this`challenges, this`nextId
      ensures Valid()
      ensures fails <==> id == 0
      ensures fails ==> challenges == old(challenges) && nextId == old(nextId)
      ensures !fails ==>
                && id !in old(challenges) && id == old(nextId) && nextId == id + 1
                && challenges ==
                   old(challenges)[id := Challenge(username, deviceId, token, code, 0, false, now + CHALLENGE_TTL)]
                && IsLatest(challenges, token, id)
    {
      if fails {
        return 0;
      }
      id := nextId;
      challenges := challenges[id := Challenge(username, deviceId, token, code, 0, false, now + CHALLENGE_TTL)];
      nextId := nextId + 1;
    }

    method RememberDevice(username: string, deviceId: string)
      modifies this`known
      ensures known == Remembered(old(known), username, deviceId)
    {
      if deviceId != "" {
        known := known + {(username, deviceId)};
      }
    }

    /** Afterwards the token authenticates its account again, if it is alive, and nobody finds the challenge. */
    method ApproveDeviceChallenge(id: nat, username: string, deviceId: string, token: string)
      modifies this`challenges, this`sessions, this`known
      ensures challenges == Consume(old(challenges), id)
      ensures sessions == SetPending(old(sessions), token, false)
      ensures known == Remembered(old(known), username, deviceId)
      ensures var was := SessionState(old(sessions), token, now);
              SessionUsername(sessions, token, now) == if was.Some? then Some(was.value.0) else None
      ensures id in challenges ==> challenges[id].consumed
      ensures deviceId != "" ==> (username, deviceId) in known
    {
      challenges := Consume(challenges, id);
      sessions := SetPending(sessions, token, false);
      RememberDevice(username, deviceId);
    }

    method DenyDeviceChallenge(id: nat, token: string)
      modifies this`challenges, this`sessions
      ensures challenges == Consume(old(challenges), id)
      ensures sessions == SetRevoked(old(sessions), token)
      ensures SessionState(sessions, token, now) == None
    {
      challenges := Consume(challenges, id);
      sessions := SetRevoked(sessions, token);
    }

    /** The query for the newest challenge of a session. */
    method LatestChallenge(token: string) returns (id: Option<nat>)
      ensures id.Some? ==> IsLatest(challenges, token, id.value)
      ensures id.None? ==> forall j :: j in challenges ==> challenges[j].token != token
    {
      NewestExists(challenges, token);
      if exists i :: i in challenges.Keys && IsLatest(challenges, token, i) {
        var i :| i in challenges.Keys && IsLatest(challenges, token, i);
        return Some(i);
      }
      return None;
    }

    /** The emailed-code path: right lifts the hold and trusts the device, wrong costs an attempt,
        and anything else changes nothing. */
    method VerifyDeviceChallenge(token: string, code: string) returns (r: Verdict)
      requires Valid()
      modifies this`challenges, this`sessions, this`known
      ensures Valid()
      ensures (forall j :: j in old(challenges) ==> old(challenges)[j].token != token) ==> r == NoChallenge
      ensures forall id :: IsLatest(old(challenges), token, id) ==>
                && VerdictIs(old(challenges)[id], code, now, r)
                && challenges == (match r
                                  case Right => Consume(old(challenges), id)
                                  case BadCode => CountAttempt(old(challenges), id)
                                  case _ => old(challenges))
                && (r == Right ==>
                      known == Remembered(old(known), old(challenges)[id].username, old(challenges)[id].deviceId))
      ensures sessions == if r == Right then SetPending(old(sessions), token, false) else old(sessions)
      ensures r != Right ==> known == old(known)
    {
      var latest := LatestChallenge(token);
      if latest.None? {
        return NoChallenge;
      }
      var id := latest.value;
      var c := challenges[id];
      if c.consumed {
        return NoChallenge;
      }
      if now > c.expires {
        return Expired;
      }
      if c.attempts >= MAX_ATTEMPTS {
        return TooMany;
      }
      if TrimSpace(code) != c.code {
        challenges := CountAttempt(challenges, id);
        return BadCode;
      }
      ApproveDeviceChallenge(id, c.username, c.deviceId, token);
      return Right;
    }

    method LookupDeviceChallenge(id: nat, username: string) returns (c: Option<Challenge>)
      ensures c.Some? <==> id in challenges && challenges[id].username == username && !challenges[id].consumed
      ensures c.Some? ==> c.value == challenges[id]
    {
      if id in challenges && challenges[id].username == username && !challenges[id].consumed {
        return Some(challenges[id]);
      }
      return None;
    }

    /** The in-app path, device_approve and device_deny, of an account that is signed in. */
    method ResolveInApp(id: nat, username: string, approve: bool) returns (ok: bool)
      requires Valid()
      modifies this`challenges, this`sessions, this`known
      ensures Valid()
      ensures ok == (id in old(challenges) && old(challenges)[id].username == username && !old(challenges)[id].consumed)
      ensures !ok ==> challenges == old(challenges) && sessions == old(sessions) && known == old(known)
      ensures ok ==>
                && challenges == Consume(old(challenges), id)
                && var c := old(challenges)[id];
                   if approve
                   then sessions == SetPending(old(sessions), c.token, false)
                        && known == Remembered(old(known), username, c.deviceId)
                   else sessions == SetRevoked(old(sessions), c.token) && known == old(known)
    {
      var c := LookupDeviceChallenge(id, username);
      if c.None? {
        return false;
      }
      if approve {
        ApproveDeviceChallenge(id, username, c.value.deviceId, c.value.token);
      } else {
        DenyDeviceChallenge(id, c.value.token);
      }
      return true;
    }

    /**
     The end of the login handler, once the password and second factor are right: the session is issued
     first and, on a device the account has not approved, held.  The cookie with the token is set before
     the hold, so a hold that fails delivers a session that is not held.
     */
    method FinishLogin(
      username: string, cookieDevice: string, newDevice: Option<string>, token: string, code: string,
      enabled: bool, canDeliver: bool, holdFails: bool, challengeFails: bool)
      returns (r: LoginResult, cookie: Option<string>)
      requires Valid() && token != ""
      modifies this`sessions, this`challenges, this`nextId, this`known
      ensures Valid()
      ensures r.SessionError? ||
              sessions == old(sessions)[token := Session(username, now + SESSION_TTL, false, r.Held?)]
      ensures cookie == if r.Held? || r.HoldError? || r.SignedIn? then Some(token) else None
      ensures r.SessionError? <==> token in old(sessions)
      ensures r.SessionError? ==> sessions == old(sessions) && challenges == old(challenges) && known == old(known)
      ensures var gated := enabled && (cookieDevice == "" || (username, cookieDevice) !in old(known)) && canDeliver;
              !r.SessionError? ==>
                && (r.SignedIn? <==> !gated)
                && (r.DeviceIdError? <==> gated && cookieDevice == "" && newDevice.None?)
                && (r.HoldError? <==> gated && !r.DeviceIdError? && holdFails)
                && SessionState(sessions, token, now) == Some((username, r.Held?))
                && SessionUsername(sessions, token, now) == if r.Held? then None else Some(username)
      ensures known == if r.SignedIn? && cookieDevice == "" && newDevice.Some?
                       then Remembered(old(known), username, newDevice.value) else old(known)
      ensures var c := Challenge(username, DeviceOf(cookieDevice, newDevice), token, code, 0, false, now + 900);
              challenges == if r.Held? && !challengeFails then old(challenges)[old(nextId) := c] else old(challenges)
      ensures r.Held? && !challengeFails ==> IsLatest(challenges, token, old(nextId)) && nextId == old(nextId) + 1
    {
      var ok := IssueSessionToken(token, username);
      if !ok {
        return SessionError, None;
      }
      var deviceId := cookieDevice;
      if enabled && (deviceId == "" || (username, deviceId) !in known) && canDeliver {
        if deviceId == "" {
          if newDevice.None? {
            return DeviceIdError, None;
          }
          deviceId := newDevice.value;
        }
        var held := MarkSessionPendingDevice(token, holdFails);
        if !held {
          return HoldError, Some(token);
        }
        var _ := CreateDeviceChallenge(username, deviceId, token, code, challengeFails);
        return Held, Some(token);
      }
      if deviceId == "" && newDevice.Some? {
        RememberDevice(username, newDevice.value);
      }
      return SignedIn, Some(token);
    }
  }

  /**
   From a held login to the next one on the same device.  The code that was mailed, typed in time and with
   any white space around it, makes the device known, and the next login with its cookie is not held.
   */
  method HeldThenCodeThenLogin(
    g: Gate, username: string, cookieDevice: string, newDevice: Option<string>, token: string, code: string,
    guess: string, wait: nat, nextToken: string, nextDevice: Option<string>, canDeliver: bool)
    returns (first: LoginResult, verdict: Verdict, second: LoginResult)
    requires g.Valid() && token != "" && nextToken != "" && token != nextToken
    requires token !in g.sessions && nextToken !in g.sessions
    requires cookieDevice == "" || (username, cookieDevice) !in g.known
    requires cookieDevice == "" ==> newDevice.Some? && newDevice.value != ""
    requires wait <= 900 && TrimSpace(guess) == code
    modifies g
    ensures first.Held? && verdict == Right && second.SignedIn?
    ensures (username, DeviceOf(cookieDevice, newDevice)) in g.known
    ensures SessionUsername(g.sessions, token, g.now) == Some(username)
  {
    var device, id := DeviceOf(cookieDevice, newDevice), g.nextId;
    var cookie;
    first, cookie := g.FinishLogin(username, cookieDevice, newDevice, token, code, true, true, false, false);
    g.now := g.now + wait;
    ghost var was := g.challenges;
    ghost var c := was[id];
    assert IsLatest(was, token, id) && c.deviceId == device && !c.consumed && c.attempts == 0 && c.code == code;
    verdict := g.VerifyDeviceChallenge(token, guess);
    assert VerdictIs(c, guess, g.now, verdict);
    second, cookie := g.FinishLogin(username, device, nextDevice, nextToken, code, true, canDeliver, false, false);
  }

  /** The same with an approval in the app, whenever it comes before the session expires. */
  method HeldThenApprovedThenLogin(
    g: Gate, username: string, cookieDevice: string, newDevice: Option<string>, token: string, code: string,
    wait: nat, nextToken: string, nextDevice: Option<string>, canDeliver: bool)
    returns (first: LoginResult, ok: bool, second: LoginResult)
    requires g.Valid() && token != "" && nextToken != "" && token != nextToken
    requires token !in g.sessions && nextToken !in g.sessions
    requires cookieDevice == "" || (username, cookieDevice) !in g.known
    requires cookieDevice == "" ==> newDevice.Some? && newDevice.value != ""
    requires wait <= SESSION_TTL
    modifies g
    ensures first.Held? && ok && second.SignedIn?
    ensures (username, DeviceOf(cookieDevice, newDevice)) in g.known
    ensures SessionUsername(g.sessions, token, g.now) == Some(username)
  {
    var device, id := DeviceOf(cookieDevice, newDevice), g.nextId;
    var cookie;
    first, cookie := g.FinishLogin(username, cookieDevice, newDevice, token, code, true, true, false, false);
    g.now := g.now + wait;
    ok := g.ResolveInApp(id, username, true);
    second, cookie := g.FinishLogin(username, device, nextDevice, nextToken, code, true, canDeliver, false, false);
  }
}
