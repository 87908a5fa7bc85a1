/**
 One-to-one calls: the call fields of each connection, and the call log.  Each section under the
 server's mutex is one step, and so is the insertion of a call row, which happens before the lock
 is taken; offers, answers, hang-ups and disconnects may interleave.
 */
module Calls {
  import opened Common
  import Registry

  /** The call fields of a connection; callId 0 means no call row is held. */
  datatype Conn = Conn(user: string, inCall: bool, partner: string, room: string,
                       callId: nat, startedAt: nat, answered: bool)

  /** A row of the call log; finalizations counts how often its outcome was written. */
  datatype Row = Row(answered: bool, durationS: nat, finalizations: nat)

  /** A call row that was inserted and is not yet noted on the connection that dialled. */
  datatype Dial = Dial(callId: nat, startedAt: nat)

  type Conns = map<nat, Conn>

  datatype State = State(conns: Conns, online: map<string, seq<nat>>, calls: map<nat, Row>,
                         nextCall: nat, dialling: map<nat, Dial>, now: nat)

  const START := State(map[], map[], map[], 1, map[], 0)

  function Listed(online: map<string, seq<nat>>, user: string): seq<nat> {
    if user in online then online[user] else []
  }

  predicate IsPeer(conns: Conns, c: nat, partner: string) {
    c in conns && conns[c].inCall && conns[c].partner == partner
  }

  predicate IsPending(conns: Conns, c: nat) {
    c in conns && (conns[c].room != "" || conns[c].callId != 0)
  }

  /** Which of a user's connections is in a call with the given partner. */
  function CallPeer(conns: Conns, list: seq<nat>, partner: string): Option<nat> {
    if list == [] then None
    else if IsPeer(conns, list[0], partner) then Some(list[0])
    else CallPeer(conns, list[1..], partner)
  }

  /** Which of a user's connections has an outgoing call waiting. */
  function PendingCaller(conns: Conns, list: seq<nat>): Option<nat> {
    if list == [] then None
    else if IsPending(conns, list[0]) then Some(list[0])
    else PendingCaller(conns, list[1..])
  }

  // ----- Outcomes

  /** A call that was never answered is a miss, however long it rang. */
  function CallOutcome(answered: bool, startedAt: int, endedAt: int): (bool, nat) {
    if !answered then (false, 0) else (true, if endedAt > startedAt then endedAt - startedAt else 0)
  }

  function FinalizeCall(calls: map<nat, Row>, id: nat, answered: bool, startedAt: nat, now: nat): map<nat, Row> {
    if id !in calls then calls
    else
      var outcome := CallOutcome(answered, startedAt, now);
      calls[id := Row(outcome.0, outcome.1, calls[id].finalizations + 1)]
  }

  /** Writes the outcome of the row that connection k holds and lets go of it. */
  function Close(s: State, k: nat): State
    requires k in s.conns
  {
    var c := s.conns[k];
    s.(calls := FinalizeCall(s.calls, c.callId, c.answered, c.startedAt, s.now),
       conns := s.conns[k := c.(callId := 0, answered := false)])
  }

  function HangUp(s: State, k: nat): State
    requires k in s.conns
  {
    s.(conns := s.conns[k := s.conns[k].(inCall := false, partner := "")])
  }

  // ----- The steps

  datatype Event =
    | Tick(to: nat)
    | Register(conn: nat, user: string)
    | InsertCall(conn: nat, ok: bool)
    | NoteOffer(conn: nat, room: string)
    | Answer(conn: nat, recipient: string)
    | End(conn: nat, recipient: string)
    | Disconnect(conn: nat)

  ghost predicate Enabled(s: State, e: Event) {
    match e
    case Tick(to) => to >= s.now
    case Register(_, user) => user != ""
    case InsertCall(c, _) => c in s.conns && c !in s.dialling
    case NoteOffer(c, _) => c in s.dialling && c in s.conns
    case Answer(c, _) => c in s.conns && c !in s.dialling
    case End(c, _) => c in s.conns && c !in s.dialling
    case Disconnect(c) => c in s.conns && c !in s.dialling
  }

  /** A socket may sign in again, also under another name; its older registration stays. */
  function AfterRegister(s: State, c: nat, user: string): State {
    var conn := if c in s.conns then s.conns[c].(user := user) else Conn(user, false, "", "", 0, 0, false);
    s.(conns := s.conns[c := conn],
       online := s.online[user := Listed(s.online, user) + [c]])
  }

  /** recordCallStart; a failed insert gives id 0. */
  function AfterInsert(s: State, c: nat, ok: bool): State {
    if ok then
      s.(calls := s.calls[s.nextCall := Row(false, 0, 0)], nextCall := s.nextCall + 1,
         dialling := s.dialling[c := Dial(s.nextCall, s.now)])
    else s.(dialling := s.dialling[c := Dial(0, s.now)])
  }

  /** The dialling connection notes the room and the row; a row it held before is forgotten. */
  function AfterNote(s: State, c: nat, room: string): State
    requires c in s.dialling && c in s.conns
  {
    var d := s.dialling[c];
    s.(conns := s.conns[c := s.conns[c].(room := room, callId := d.callId, startedAt := d.startedAt)],
       dialling := s.dialling - {c})
  }

  function AfterAnswer(s: State, c: nat, recipient: string): State
    requires c in s.conns
  {
    var caller := PendingCaller(s.conns, Listed(s.online, recipient));
    var conns :=
      if caller.Some? && caller.value in s.conns then
        var waiting := s.conns[caller.value];
        s.conns[caller.value := waiting.(room := "", answered := true, inCall := true, partner := s.conns[c].user)]
      else s.conns;
    s.(conns := conns[c := conns[c].(inCall := true, partner := recipient)])
  }

  /** The other side of a call that is being ended: in the call, or still waiting for an answer. */
  function OtherSide(s: State, c: nat, recipient: string): Option<nat>
    requires c in s.conns
  {
    var peer := CallPeer(s.conns, Listed(s.online, recipient), s.conns[c].user);
    if peer.Some? then peer else PendingCaller(s.conns, Listed(s.online, recipient))
  }

  /** The connection that holds the call row, the one acting first. */
  function Holder(s: State, c: nat, peer: Option<nat>): Option<nat>
    requires c in s.conns
  {
    if s.conns[c].callId != 0 then Some(c)
    else if peer.Some? && peer.value in s.conns && s.conns[peer.value].callId != 0 then peer
    else None
  }

  function CloseHeld(s: State, c: nat, peer: Option<nat>): (t: State)
    requires c in s.conns
    ensures t.conns.Keys == s.conns.Keys
  {
    var holder := Holder(s, c, peer);
    if holder.Some? then Close(s, holder.value) else s
  }

  function AfterEnd(s: State, c: nat, recipient: string): State
    requires c in s.conns
  {
    var peer := OtherSide(s, c, recipient);
    var ended := HangUp(CloseHeld(s, c, peer), c);
    if peer.Some? && peer.value in ended.conns then HangUp(ended, peer.value) else ended
  }

  /** The registration of a connection is taken away. */
  function Unregister(s: State, c: nat): State
    requires c in s.conns
  {
    var user := s.conns[c].user;
    var rest := Registry.RemoveFirst(Listed(s.online, user), c);
    s.(online := if rest == [] then s.online - {user} else s.online[user := rest])
  }

  /** The partner's side of the call a connection is in, once that connection is no longer registered. */
  function Partner(s: State, c: nat): Option<nat>
    requires c in s.conns
  {
    if s.conns[c].partner == "" then None
    else CallPeer(s.conns, Listed(Unregister(s, c).online, s.conns[c].partner), s.conns[c].user)
  }

  function AfterDisconnect(s: State, c: nat): State
    requires c in s.conns
  {
    var gone, peer := Unregister(s, c), Partner(s, c);
    if peer.None? || peer.value !in gone.conns then gone
    else CloseHeld(HangUp(gone, peer.value), c, peer)
  }

  ghost function Step(s: State, e: Event): State
    requires Enabled(s, e)
  {
    match e
    case Tick(to) => s.(now := to)
    case Register(c, user) => AfterRegister(s, c, user)
    case InsertCall(c, ok) => AfterInsert(s, c, ok)
    case NoteOffer(c, room) => AfterNote(s, c, room)
    case Answer(c, recipient) => AfterAnswer(s, c, recipient)
    case End(c, recipient) => AfterEnd(s, c, recipient)
    case Disconnect(c) => AfterDisconnect(s, c)
  }

  // ----- The invariant

  ghost predicate RowsOk(s: State) {
    forall id :: id in s.calls ==>
      && 0 < id < s.nextCall
      && s.calls[id].finalizations <= 1
      && (!s.calls[id].answered ==> s.calls[id].durationS == 0)
      && (s.calls[id].finalizations == 0 ==> !s.calls[id].answered)
  }

  /** A row id, if it is one, names an open row. */
  ghost predicate OpenRow(s: State, id: nat) {
    id != 0 ==> id in s.calls && s.calls[id].finalizations == 0
  }

  ghost predicate ConnsHoldOpen(s: State) {
    forall c :: c in s.conns ==> OpenRow(s, s.conns[c].callId)
  }

  ghost predicate DialsHoldOpen(s: State) {
    forall c :: c in s.dialling ==> OpenRow(s, s.dialling[c].callId)
  }

  ghost predicate ConnsDiffer(s: State) {
    forall c, d :: c in s.conns && d in s.conns && c != d && s.conns[c].callId != 0 ==>
      s.conns[c].callId != s.conns[d].callId
  }

  ghost predicate DialsDiffer(s: State) {
    forall c, d :: c in s.dialling && d in s.dialling && c != d && s.dialling[c].callId != 0 ==>
      s.dialling[c].callId != s.dialling[d].callId
  }

  ghost predicate ConnsDifferFromDials(s: State) {
    forall c, d :: c in s.conns && d in s.dialling && s.conns[c].callId != 0 ==>
      s.conns[c].callId != s.dialling[d].callId
  }

  /** Rows are held by at most one connection, and only while open. */
  ghost predicate HeldOk(s: State) {
    ConnsHoldOpen(s) && DialsHoldOpen(s) && ConnsDiffer(s) && DialsDiffer(s) && ConnsDifferFromDials(s)
  }

  /** A connection with a partner is in a call. */
  ghost predicate PartnersOk(s: State) {
    forall c :: c in s.conns && s.conns[c].partner != "" ==> s.conns[c].inCall
  }

  ghost predicate Inv(s: State) {
    RowsOk(s) && HeldOk(s) && PartnersOk(s)
  }

  lemma HangUpKeepsInv(s: State, k: nat)
    requires Inv(s) && k in s.conns
    ensures Inv(HangUp(s, k))
  {
  }

  lemma CloseKeepsInv(s: State, k: nat)
    requires Inv(s) && k in s.conns && s.conns[k].callId != 0
    ensures Inv(Close(s, k))
  {
  }

  lemma CloseHeldKeepsInv(s: State, c: nat, peer: Option<nat>)
    requires Inv(s) && c in s.conns
    ensures Inv(CloseHeld(s, c, peer))
  {
    var holder := Holder(s, c, peer);
    if holder.Some? {
      CloseKeepsInv(s, holder.value);
    }
  }

  lemma RegisterKeepsInv(s: State, c: nat, user: string)
    requires Inv(s)
    ensures Inv(AfterRegister(s, c, user))
  {
  }

  lemma InsertKeepsRows(s: State, c: nat, ok: bool)
    requires RowsOk(s) && s.nextCall >= 1
    ensures RowsOk(AfterInsert(s, c, ok))
  {
  }

  /** The new row is open, and its id is larger than every id in use. */
  lemma InsertKeepsOpen(s: State, c: nat, ok: bool)
    requires RowsOk(s) && ConnsHoldOpen(s) && DialsHoldOpen(s) && s.nextCall >= 1
    ensures ConnsHoldOpen(AfterInsert(s, c, ok)) && DialsHoldOpen(AfterInsert(s, c, ok))
    ensures forall k :: k in s.conns ==> s.conns[k].callId < s.nextCall
    ensures forall k :: k in s.dialling ==> s.dialling[k].callId < s.nextCall
  {
    var t := AfterInsert(s, c, ok);
    forall id: nat | OpenRow(s, id) ensures OpenRow(t, id) && id < s.nextCall {
    }
  }

  lemma InsertKeepsDials(s: State, c: nat, ok: bool)
    requires DialsDiffer(s) && c !in s.dialling && forall k :: k in s.dialling ==> s.dialling[k].callId < s.nextCall
    ensures DialsDiffer(AfterInsert(s, c, ok))
  {
  }

  lemma InsertKeepsInv(s: State, c: nat, ok: bool)
    requires Inv(s) && s.nextCall >= 1 && c !in s.dialling
    ensures Inv(AfterInsert(s, c, ok))
  {
    InsertKeepsRows(s, c, ok);
    InsertKeepsOpen(s, c, ok);
    InsertKeepsDials(s, c, ok);
  }

  lemma NoteKeepsInv(s: State, c: nat, room: string)
    requires Inv(s) && c in s.dialling && c in s.conns
    ensures Inv(AfterNote(s, c, room))
  {
  }

  lemma AnswerKeepsInv(s: State, c: nat, recipient: string)
    requires Inv(s) && c in s.conns
    ensures Inv(AfterAnswer(s, c, recipient))
  {
  }

  lemma {:induction false} EndKeepsInv(s: State, c: nat, recipient: string)
    requires Inv(s) && c in s.conns
    ensures Inv(AfterEnd(s, c, recipient))
  {
    var peer := OtherSide(s, c, recipient);
    CloseHeldKeepsInv(s, c, peer);
    HangUpKeepsInv(CloseHeld(s, c, peer), c);
    var ended := HangUp(CloseHeld(s, c, peer), c);
    if peer.Some? && peer.value in ended.conns {
      HangUpKeepsInv(ended, peer.value);
    }
  }

  lemma {:induction false} DisconnectKeepsInv(s: State, c: nat)
    requires Inv(s) && c in s.conns
    ensures Inv(AfterDisconnect(s, c))
  {
    var gone, peer := Unregister(s, c), Partner(s, c);
    if peer.Some? && peer.value in gone.conns {
      HangUpKeepsInv(gone, peer.value);
      CloseHeldKeepsInv(HangUp(gone, peer.value), c, peer);
    }
  }

  lemma {:induction false} StepKeepsInv(s: State, e: Event)
    requires Inv(s) && s.nextCall >= 1 && Enabled(s, e)
    ensures Inv(Step(s, e)) && Step(s, e).nextCall >= 1
  {
    match e
    case Tick(to) => assert Inv(s.(now := to));
    case Register(c, user) => RegisterKeepsInv(s, c, user);
    case InsertCall(c, ok) => InsertKeepsInv(s, c, ok);
    case NoteOffer(c, room) => NoteKeepsInv(s, c, room);
    case Answer(c, recipient) => AnswerKeepsInv(s, c, recipient);
    case End(c, recipient) => EndKeepsInv(s, c, recipient);
    case Disconnect(c) => DisconnectKeepsInv(s, c);
  }

  // ----- Whole runs

  datatype Entry = Entry(before: State, event: Event)

  ghost predicate Reaches(log: seq<Entry>, s: State)
    decreases |log|
  {
    if log == [] then s == START
    else
      var last := log[|log| - 1];
      Reaches(log[..|log| - 1], last.before) && Enabled(last.before, last.event) && Step(last.before, last.event) == s
  }

  /**
   Over every run: each call row is held by at most one connection and written at most once, an
   unanswered row has duration 0, and a connection with a partner is marked in a call.
   */
  lemma {:induction false} CallLogIsConsistent(log: seq<Entry>, s: State)
    requires Reaches(log, s)
    ensures RowsOk(s) && HeldOk(s) && PartnersOk(s) && s.nextCall >= 1
    decreases |log|
  {
    if log != [] {
      var last := log[|log| - 1];
      CallLogIsConsistent(log[..|log| - 1], last.before);
      StepKeepsInv(last.before, last.event);
    }
  }

  lemma CloseHeldKeepsRow(s: State, c: nat, peer: Option<nat>, id: nat)
    requires Inv(s) && c in s.conns && id in s.calls && s.calls[id].finalizations == 1
    ensures id in CloseHeld(s, c, peer).calls && CloseHeld(s, c, peer).calls[id] == s.calls[id]
  {
    var holder := Holder(s, c, peer);
    if holder.Some? {
      assert OpenRow(s, s.conns[holder.value].callId);
    }
  }

  lemma DisconnectKeepsRow(s: State, c: nat, id: nat)
    requires Inv(s) && c in s.conns && id in s.calls && s.calls[id].finalizations == 1
    ensures id in AfterDisconnect(s, c).calls && AfterDisconnect(s, c).calls[id] == s.calls[id]
  {
    var gone, peer := Unregister(s, c), Partner(s, c);
    if peer.Some? && peer.value in gone.conns {
      HangUpKeepsInv(gone, peer.value);
      CloseHeldKeepsRow(HangUp(gone, peer.value), c, peer, id);
    }
  }

  /** The outcome of a finalized call never changes again. */
  lemma {:induction false} OutcomeIsFinal(log: seq<Entry>, s: State, e: Event, id: nat)
    requires Reaches(log, s) && Enabled(s, e) && id in s.calls && s.calls[id].finalizations == 1
    ensures id in Step(s, e).calls && Step(s, e).calls[id] == s.calls[id]
  {
    CallLogIsConsistent(log, s);
    match e
    case Tick(_) =>
    case Register(_, _) =>
    case InsertCall(c, ok) =>
    case NoteOffer(c, room) =>
    case Answer(c, recipient) =>
    case End(c, recipient) => CloseHeldKeepsRow(s, c, OtherSide(s, c, recipient), id);
    case Disconnect(c) => DisconnectKeepsRow(s, c, id);
  }

  // ----- What an answered row means

  /** The answer reached a connection that held row id. */
  ghost predicate Answers(x: Entry, id: nat) {
    && x.event.Answer? && id != 0
    && var caller := PendingCaller(x.before.conns, Listed(x.before.online, x.event.recipient));
       caller.Some? && caller.value in x.before.conns && x.before.conns[caller.value].callId == id
  }

  /** Row id was noted on a connection that still had the answered flag of an earlier call. */
  ghost predicate NotedAnswered(x: Entry, id: nat) {
    && x.event.NoteOffer? && id != 0 && x.event.conn in x.before.dialling && x.event.conn in x.before.conns
    && x.before.dialling[x.event.conn].callId == id && x.before.conns[x.event.conn].answered
  }

  ghost predicate HasAnswer(log: seq<Entry>, id: nat) {
    exists i :: 0 <= i < |log| && Answers(log[i], id)
  }

  ghost predicate HasFlag(log: seq<Entry>, id: nat) {
    exists i :: 0 <= i < |log| && NotedAnswered(log[i], id)
  }

  /** The reasons for which a row can be marked answered. */
  ghost predicate Cause(log: seq<Entry>, id: nat) {
    HasAnswer(log, id) || HasFlag(log, id)
  }

  lemma CauseStep(log: seq<Entry>, x: Entry, id: nat)
    ensures Cause(log + [x], id) <==> Cause(log, id) || Answers(x, id) || NotedAnswered(x, id)
  {
    var longer := log + [x];
    assert longer[|log|] == x;
    assert forall i :: 0 <= i < |log| ==> longer[i] == log[i];
    if Cause(longer, id) && !Answers(x, id) && !NotedAnswered(x, id) {
      var i :| 0 <= i < |longer| && (Answers(longer[i], id) || NotedAnswered(longer[i], id));
      assert log[i] == longer[i];
    }
  }

  /** The flag of the connection that holds a row, and a written row, say exactly whether there was a cause;
      a row that is not noted yet has none. */
  ghost predicate FlagsOk(log: seq<Entry>, s: State) {
    && (forall c :: c in s.conns && s.conns[c].callId != 0 ==>
          (s.conns[c].answered <==> Cause(log, s.conns[c].callId)))
    && (forall c :: c in s.dialling && s.dialling[c].callId != 0 ==> !Cause(log, s.dialling[c].callId))
    && (forall id :: id in s.calls && s.calls[id].finalizations == 1 ==> (s.calls[id].answered <==> Cause(log, id)))
    && (forall id :: id >= s.nextCall ==> !Cause(log, id))
  }

  /** Nothing the flags depend on is touched by an event that is no cause. */
  lemma NoCause(log: seq<Entry>, s: State, e: Event)
    requires FlagsOk(log, s) && !e.Answer? && !e.NoteOffer?
    ensures FlagsOk(log + [Entry(s, e)], s)
  {
    forall id: nat ensures Cause(log + [Entry(s, e)], id) <==> Cause(log, id) {
      CauseStep(log, Entry(s, e), id);
    }
  }

  lemma HangUpKeepsFlags(log: seq<Entry>, s: State, k: nat)
    requires FlagsOk(log, s) && k in s.conns
    ensures FlagsOk(log, HangUp(s, k))
  {
  }

  lemma CloseKeepsFlags(log: seq<Entry>, s: State, k: nat)
    requires Inv(s) && FlagsOk(log, s) && k in s.conns && s.conns[k].callId != 0
    ensures FlagsOk(log, Close(s, k))
  {
    assert OpenRow(s, s.conns[k].callId);
  }

  lemma CloseHeldKeepsFlags(log: seq<Entry>, s: State, c: nat, peer: Option<nat>)
    requires Inv(s) && FlagsOk(log, s) && c in s.conns
    ensures FlagsOk(log, CloseHeld(s, c, peer))
  {
    var holder := Holder(s, c, peer);
    if holder.Some? {
      CloseKeepsFlags(log, s, holder.value);
    }
  }

  lemma EndKeepsFlags(log: seq<Entry>, s: State, c: nat, recipient: string)
    requires Inv(s) && FlagsOk(log, s) && c in s.conns
    ensures FlagsOk(log, AfterEnd(s, c, recipient))
  {
    var peer := OtherSide(s, c, recipient);
    CloseHeldKeepsFlags(log, s, c, peer);
    HangUpKeepsFlags(log, CloseHeld(s, c, peer), c);
    var ended := HangUp(CloseHeld(s, c, peer), c);
    if peer.Some? && peer.value in ended.conns {
      HangUpKeepsFlags(log, ended, peer.value);
    }
  }

  lemma DisconnectKeepsFlags(log: seq<Entry>, s: State, c: nat)
    requires Inv(s) && FlagsOk(log, s) && c in s.conns
    ensures FlagsOk(log, AfterDisconnect(s, c))
  {
    var gone, peer := Unregister(s, c), Partner(s, c);
    if peer.Some? && peer.value in gone.conns {
      HangUpKeepsInv(gone, peer.value);
      HangUpKeepsFlags(log, gone, peer.value);
      CloseHeldKeepsFlags(log, HangUp(gone, peer.value), c, peer);
    }
  }

  lemma RegisterKeepsFlags(log: seq<Entry>, s: State, c: nat, user: string)
    requires FlagsOk(log, s)
    ensures FlagsOk(log, AfterRegister(s, c, user))
  {
  }

  lemma InsertKeepsFlags(log: seq<Entry>, s: State, c: nat, ok: bool)
    requires Inv(s) && FlagsOk(log, s) && s.nextCall >= 1
    ensures FlagsOk(log, AfterInsert(s, c, ok))
  {
  }

  /** A row of the log that is noted, or answered, is open, so its causes concern its holder only. */
  lemma NoteKeepsFlags(log: seq<Entry>, s: State, c: nat, room: string)
    requires Inv(s) && FlagsOk(log, s) && c in s.dialling && c in s.conns
    ensures FlagsOk(log + [Entry(s, NoteOffer(c, room))], AfterNote(s, c, room))
  {
    var x, noted := Entry(s, NoteOffer(c, room)), s.dialling[c].callId;
    forall id: nat ensures
      Cause(log + [x], id) <==> Cause(log, id) || (id == noted && id != 0 && s.conns[c].answered)
    {
      CauseStep(log, x, id);
    }
    assert OpenRow(s, noted);
  }

  lemma AnswerKeepsFlags(log: seq<Entry>, s: State, c: nat, recipient: string)
    requires Inv(s) && FlagsOk(log, s) && c in s.conns
    ensures FlagsOk(log + [Entry(s, Answer(c, recipient))], AfterAnswer(s, c, recipient))
  {
    var x := Entry(s, Answer(c, recipient));
    var caller := PendingCaller(s.conns, Listed(s.online, recipient));
    var held := if caller.Some? && caller.value in s.conns then s.conns[caller.value].callId else 0;
    forall id: nat ensures Cause(log + [x], id) <==> Cause(log, id) || (id == held && id != 0) {
      CauseStep(log, x, id);
    }
    assert OpenRow(s, held);
  }

  lemma {:induction false} StepKeepsFlags(log: seq<Entry>, s: State, e: Event)
    requires Inv(s) && s.nextCall >= 1 && FlagsOk(log, s) && Enabled(s, e)
    ensures FlagsOk(log + [Entry(s, e)], Step(s, e))
  {
    var longer := log + [Entry(s, e)];
    if !e.Answer? && !e.NoteOffer? {
      NoCause(log, s, e);
    }
    match e
    case Tick(to) => assert FlagsOk(longer, s.(now := to));
    case Register(c, user) => RegisterKeepsFlags(longer, s, c, user);
    case InsertCall(c, ok) => InsertKeepsFlags(longer, s, c, ok);
    case NoteOffer(c, room) => NoteKeepsFlags(log, s, c, room);
    case Answer(c, recipient) => AnswerKeepsFlags(log, s, c, recipient);
    case End(c, recipient) => EndKeepsFlags(longer, s, c, recipient);
    case Disconnect(c) => DisconnectKeepsFlags(longer, s, c);
  }

  lemma {:induction false} RunKeepsFlags(log: seq<Entry>, s: State)
    requires Reaches(log, s)
    ensures FlagsOk(log, s)
    decreases |log|
  {
    if log != [] {
      var front, last := log[..|log| - 1], log[|log| - 1];
      RunKeepsFlags(front, last.before);
      CallLogIsConsistent(front, last.before);
      StepKeepsFlags(front, last.before, last.event);
      assert log == front + [last];
    }
  }

  /**
   Over every run, a written row says answered if and only if an answer reached the connection while it
   held the row, or the row was noted on a connection that still carried the flag of an earlier call.  So
   the log tells the truth exactly as long as nobody dials with that flag set.
   */
  lemma AnsweredExactly(log: seq<Entry>, s: State, id: nat)
    requires Reaches(log, s) && id in s.calls && s.calls[id].finalizations == 1
    ensures s.calls[id].answered <==> HasAnswer(log, id) || HasFlag(log, id)
    ensures !HasFlag(log, id) ==> (s.calls[id].answered <==> HasAnswer(log, id))
  {
    RunKeepsFlags(log, s);
    assert s.calls[id].answered <==> Cause(log, id);
  }

  lemma Extend(log: seq<Entry>, s: State, e: Event) returns (longer: seq<Entry>, t: State)
    requires Reaches(log, s) && Enabled(s, e)
    ensures longer == log + [Entry(s, e)] && t == Step(s, e) && Reaches(longer, t)
  {
    longer, t := log + [Entry(s, e)], Step(s, e);
    assert longer[..|longer| - 1] == log;
  }

  /** Offer, answer, and a second offer on the same connection: the second row ends as answered, with a
      duration, although nobody answered it. */
  lemma SecondOfferLooksAnswered() returns (log: seq<Entry>, s: State)
    ensures Reaches(log, s) && 2 in s.calls && s.calls[2] == Row(true, 10, 1) && !HasAnswer(log, 2)
  {
    var front, b := AnsweredOnce();
    RunKeepsFlags(front, b);
    assert !HasAnswer(front, 2) by {
      assert !Cause(front, 2);
    }
    log, s := DialledAgain(front, b);
    assert forall i :: 0 <= i < |front| ==> log[i] == front[i];
  }

  lemma DialledAgain(front: seq<Entry>, b: State) returns (log: seq<Entry>, s: State)
    requires Reaches(front, b) && b.nextCall == 2 && b.dialling == map[] && b.now == 0
    requires 1 in b.conns && b.conns[1].answered
    ensures Reaches(log, s) && 2 in s.calls && s.calls[2] == Row(true, 10, 1)
    ensures front <= log && forall i :: |front| <= i < |log| ==> !log[i].event.Answer?
  {
    log, s := Extend(front, b, InsertCall(1, true));
    log, s := Extend(log, s, NoteOffer(1, "r"));
    log, s := Extend(log, s, Tick(10));
    log, s := Extend(log, s, End(1, "b"));
  }

  lemma AnsweredOnce() returns (log: seq<Entry>, s: State)
    ensures Reaches(log, s) && s.nextCall == 2 && s.dialling == map[] && s.now == 0
    ensures 1 in s.conns && s.conns[1].answered && s.conns[1].user == "a"
    ensures 1 in s.calls && s.calls[1] == Row(false, 0, 0) && 2 !in s.calls
  {
    log, s := Extend([], START, Register(1, "a"));
    log, s := Extend(log, s, Register(2, "b"));
    log, s := Extend(log, s, InsertCall(1, true));
    log, s := Extend(log, s, NoteOffer(1, "r"));
    assert PendingCaller(s.conns, Listed(s.online, "a")) == Some(1);
    log, s := Extend(log, s, Answer(2, "a"));
  }

  // ----- What an answer, a hang-up and a disconnect do

  /** The first of the connections that is good; none when no connection is. */
  ghost predicate IsFirst(list: seq<nat>, good: nat -> bool, r: Option<nat>) {
    match r
    case None => forall i :: 0 <= i < |list| ==> !good(list[i])
    case Some(c) => exists i :: 0 <= i < |list| && list[i] == c && good(c) && forall j :: 0 <= j < i ==> !good(list[j])
  }

  /** The user's first connection in a call with the partner. */
  ghost predicate PeerIs(conns: Conns, list: seq<nat>, partner: string, r: Option<nat>) {
    IsFirst(list, c => c in conns && conns[c].inCall && conns[c].partner == partner, r)
  }

  /** The user's first connection that rings somebody or holds a row. */
  ghost predicate CallerIs(conns: Conns, list: seq<nat>, r: Option<nat>) {
    IsFirst(list, c => c in conns && (conns[c].room != "" || conns[c].callId != 0), r)
  }

  lemma {:induction false} PeerIsFirst(conns: Conns, list: seq<nat>, partner: string)
    ensures PeerIs(conns, list, partner, CallPeer(conns, list, partner))
  {
    if list != [] && !IsPeer(conns, list[0], partner) {
      PeerIsFirst(conns, list[1..], partner);
      FirstLater(list, c => c in conns && conns[c].inCall && conns[c].partner == partner,
                 CallPeer(conns, list[1..], partner));
    }
  }

  lemma {:induction false} CallerIsFirst(conns: Conns, list: seq<nat>)
    ensures CallerIs(conns, list, PendingCaller(conns, list))
  {
    if list != [] && !IsPending(conns, list[0]) {
      CallerIsFirst(conns, list[1..]);
      FirstLater(list, c => c in conns && (conns[c].room != "" || conns[c].callId != 0),
                 PendingCaller(conns, list[1..]));
    }
  }

  lemma FirstLater(list: seq<nat>, good: nat -> bool, r: Option<nat>)
    requires list != [] && !good(list[0]) && IsFirst(list[1..], good, r)
    ensures IsFirst(list, good, r)
  {
    var rest := list[1..];
    assert forall i :: 0 < i < |list| ==> list[i] == rest[i - 1];
    if r.Some? {
      var i :| 0 <= i < |rest| && rest[i] == r.value && good(r.value) && forall j :: 0 <= j < i ==> !good(rest[j]);
      assert list[i + 1] == r.value;
    }
  }

  /** The other side of a hang-up: in the call, or else still waiting for an answer. */
  ghost predicate OtherSideIs(s: State, c: nat, recipient: string, r: Option<nat>)
    requires c in s.conns
  {
    var list := Listed(s.online, recipient);
    if PeerIs(s.conns, list, s.conns[c].user, None) then CallerIs(s.conns, list, r)
    else PeerIs(s.conns, list, s.conns[c].user, r)
  }

  /** The one who answers and the waiting caller, if there is one, are in a call with each other. */
  predicate Joined(was: Conns, conns: Conns, c: nat, recipient: string, caller: Option<nat>) {
    && c in was && conns.Keys == was.Keys
    && forall k :: k in was ==>
         var rang := caller == Some(k);
         && conns[k].user == was[k].user && conns[k].callId == was[k].callId && conns[k].startedAt == was[k].startedAt
         && conns[k].inCall == (was[k].inCall || rang || k == c)
         && conns[k].partner == (if k == c then recipient else if rang then was[c].user else was[k].partner)
         && conns[k].room == (if rang then "" else was[k].room)
         && conns[k].answered == (was[k].answered || rang)
  }

  /** The row is held by the connection that acts or, if that holds none, by the other side. */
  predicate HolderIs(conns: Conns, c: nat, peer: Option<nat>, holder: Option<nat>) {
    var own := c in conns && conns[c].callId != 0;
    var others := peer.Some? && peer.value in conns && conns[peer.value].callId != 0;
    && (own ==> holder == Some(c))
    && (!own && others ==> holder == peer)
    && (!own && !others ==> holder == None)
  }

  /** Those who leave are out of the call, the holder lets go of its row, and nothing else changes. */
  predicate CallLeft(was: Conns, conns: Conns, leaving: set<nat>, holder: Option<nat>) {
    && conns.Keys == was.Keys
    && forall k :: k in was ==>
         && conns[k].user == was[k].user && conns[k].room == was[k].room && conns[k].startedAt == was[k].startedAt
         && conns[k].inCall == (was[k].inCall && k !in leaving)
         && conns[k].partner == (if k in leaving then "" else was[k].partner)
         && conns[k].callId == (if holder == Some(k) then 0 else was[k].callId)
         && conns[k].answered == (was[k].answered && holder != Some(k))
  }

  /** The held row gets its outcome: missed with no duration, or answered with the seconds since the offer. */
  predicate RowWritten(was: map<nat, Row>, calls: map<nat, Row>, conns: Conns, holder: Option<nat>, now: nat) {
    && calls.Keys == was.Keys
    && forall id :: id in was ==>
         if holder.Some? && holder.value in conns && conns[holder.value].callId == id then
           var h := conns[holder.value];
           && calls[id].answered == h.answered
           && calls[id].durationS == (if h.answered && now > h.startedAt then now - h.startedAt else 0)
           && calls[id].finalizations == was[id].finalizations + 1
         else calls[id] == was[id]
  }

  lemma OtherSideFound(s: State, c: nat, recipient: string)
    requires c in s.conns
    ensures OtherSideIs(s, c, recipient, OtherSide(s, c, recipient))
  {
    PeerIsFirst(s.conns, Listed(s.online, recipient), s.conns[c].user);
    CallerIsFirst(s.conns, Listed(s.online, recipient));
  }

  predicate OnlyCallsChange(s: State, t: State) {
    t.online == s.online && t.nextCall == s.nextCall && t.dialling == s.dialling && t.now == s.now
  }

  lemma HeldIsClosed(s: State, c: nat, peer: Option<nat>)
    requires c in s.conns
    ensures var t, holder := CloseHeld(s, c, peer), Holder(s, c, peer);
            && HolderIs(s.conns, c, peer, holder) && CallLeft(s.conns, t.conns, {}, holder)
            && RowWritten(s.calls, t.calls, s.conns, holder, s.now) && OnlyCallsChange(s, t)
  {
    var holder := Holder(s, c, peer);
    if holder.Some? {
      RowIsClosed(s, holder.value);
    }
  }

  lemma RowIsClosed(s: State, k: nat)
    requires k in s.conns
    ensures CallLeft(s.conns, Close(s, k).conns, {}, Some(k)) && OnlyCallsChange(s, Close(s, k))
    ensures RowWritten(s.calls, Close(s, k).calls, s.conns, Some(k), s.now)
  {
  }

  lemma HangUpLeaves(s: State, k: nat)
    requires k in s.conns
    ensures CallLeft(s.conns, HangUp(s, k).conns, {k}, None)
    ensures OnlyCallsChange(s, HangUp(s, k)) && HangUp(s, k).calls == s.calls
  {
  }

  lemma LeavesAdd(a: Conns, b: Conns, c: Conns, left: set<nat>, more: set<nat>, one: Option<nat>, two: Option<nat>)
    requires CallLeft(a, b, left, one) && CallLeft(b, c, more, two) && (one.None? || two.None?)
    ensures CallLeft(a, c, left + more, if one.Some? then one else two)
  {
  }

  function Both(c: nat, peer: Option<nat>): set<nat> {
    if peer.Some? then {c, peer.value} else {c}
  }

  lemma EndExactly(s: State, c: nat, recipient: string)
    requires c in s.conns
    ensures var t, peer := AfterEnd(s, c, recipient), OtherSide(s, c, recipient);
            && CallLeft(s.conns, t.conns, Both(c, peer), Holder(s, c, peer))
            && RowWritten(s.calls, t.calls, s.conns, Holder(s, c, peer), s.now) && OnlyCallsChange(s, t)
  {
    var peer := OtherSide(s, c, recipient);
    HeldIsClosed(s, c, peer);
    var closed := CloseHeld(s, c, peer);
    var ended := HangUp(closed, c);
    HangUpLeaves(closed, c);
    LeavesAdd(s.conns, closed.conns, ended.conns, {}, {c}, Holder(s, c, peer), None);
    assert {} + {c} == {c};
    if peer.Some? {
      OtherSideIsThere(s, c, recipient);
      HangUpLeaves(ended, peer.value);
      LeavesAdd(s.conns, ended.conns, HangUp(ended, peer.value).conns, {c}, {peer.value}, Holder(s, c, peer), None);
      assert {c} + {peer.value} == Both(c, peer);
    }
  }

  lemma OtherSideIsThere(s: State, c: nat, recipient: string)
    requires c in s.conns
    ensures OtherSide(s, c, recipient).Some? ==> OtherSide(s, c, recipient).value in s.conns
  {
    OtherSideFound(s, c, recipient);
  }

  /** The user's list loses the connection once, and an empty list goes; other lists stay. */
  ghost predicate Unregistered(was: map<string, seq<nat>>, online: map<string, seq<nat>>, user: string, c: nat) {
    && Registry.FirstTaken(Listed(was, user), c, Listed(online, user))
    && (user in online ==> online[user] != [])
    && forall u :: u != user ==> (u in online <==> u in was) && (u in was ==> online[u] == was[u])
  }

  ghost predicate PartnerIs(s: State, c: nat, online: map<string, seq<nat>>, r: Option<nat>)
    requires c in s.conns
  {
    if s.conns[c].partner == "" then r == None
    else PeerIs(s.conns, Listed(online, s.conns[c].partner), s.conns[c].user, r)
  }

  lemma PartnerFound(s: State, c: nat)
    requires c in s.conns
    ensures PartnerIs(s, c, Unregister(s, c).online, Partner(s, c))
    ensures Partner(s, c).Some? ==> Partner(s, c).value in s.conns
  {
    PeerIsFirst(s.conns, Listed(Unregister(s, c).online, s.conns[c].partner), s.conns[c].user);
  }

  lemma UnregisterExactly(s: State, c: nat)
    requires c in s.conns
    ensures Unregistered(s.online, Unregister(s, c).online, s.conns[c].user, c)
  {
    Registry.RemoveFirstTakes(Listed(s.online, s.conns[c].user), c);
  }

  /** The row is written only when there is somebody to tell; it is then held by either side. */
  predicate HolderAtLeaving(conns: Conns, c: nat, peer: Option<nat>, holder: Option<nat>) {
    if peer.Some? then HolderIs(conns, c, peer, holder) else holder == None
  }

  lemma DisconnectExactly(s: State, c: nat) returns (holder: Option<nat>)
    requires c in s.conns
    ensures var t, peer := AfterDisconnect(s, c), Partner(s, c);
            && t.online == Unregister(s, c).online && HolderAtLeaving(s.conns, c, peer, holder)
            && CallLeft(s.conns, t.conns, if peer.Some? then {peer.value} else {}, holder)
            && RowWritten(s.calls, t.calls, s.conns, holder, s.now)
            && t.nextCall == s.nextCall && t.dialling == s.dialling && t.now == s.now
  {
    var gone, peer := Unregister(s, c), Partner(s, c);
    PartnerFound(s, c);
    holder := None;
    if peer.Some? {
      var told := HangUp(gone, peer.value);
      HangUpLeaves(gone, peer.value);
      HeldIsClosed(told, c, peer);
      holder := Holder(told, c, peer);
      LeavesAdd(s.conns, told.conns, CloseHeld(told, c, peer).conns, {peer.value}, {}, None, holder);
      assert {peer.value} + {} == {peer.value};
      SameHolder(s, told, c, peer, holder);
    }
  }

  /** Hanging up does not change who holds the row, nor what is written to it. */
  lemma SameHolder(s: State, told: State, c: nat, peer: Option<nat>, holder: Option<nat>)
    requires c in s.conns && peer.Some? && peer.value in s.conns && CallLeft(s.conns, told.conns, {peer.value}, None)
    ensures HolderIs(told.conns, c, peer, holder) ==> HolderIs(s.conns, c, peer, holder)
    ensures forall calls: map<nat, Row> :: RowWritten(s.calls, calls, told.conns, holder, s.now) ==>
              RowWritten(s.calls, calls, s.conns, holder, s.now)
  {
  }

  // ----- The server's methods

  class Hub {
    var conns: Conns
    var online: map<string, seq<nat>>
    var calls: map<nat, Row>
    var nextCall: nat
    var dialling: map<nat, Dial>
    var now: nat

    ghost function Contents(): State
      reads this
    {
      State(conns, online, calls, nextCall, dialling, now)
    }

    constructor ()
      ensures Contents() == START
    {
      conns, online, calls, nextCall, dialling, now := map[], map[], map[], 1, map[], 0;
    }

    method FindCallPeer(peer: string, partner: string) returns (r: Option<nat>)
      ensures r == CallPeer(conns, Listed(online, peer), partner)
      ensures PeerIs(conns, Listed(online, peer), partner, r)
    {
      PeerIsFirst(conns, Listed(online, peer), partner);
      var list := Listed(online, peer);
      var i := 0;
      assert list[0..] == list;
      while i < |list|
        invariant 0 <= i <= |list|
        invariant CallPeer(conns, list, partner) == CallPeer(conns, list[i..], partner)
      {
        if IsPeer(conns, list[i], partner) {
          return Some(list[i]);
        }
        assert list[i..][1..] == list[i + 1..];
        i := i + 1;
      }
      return None;
    }

    method FindPendingCaller(caller: string) returns (r: Option<nat>)
      ensures r == PendingCaller(conns, Listed(online, caller))
      ensures CallerIs(conns, Listed(online, caller), r)
    {
      CallerIsFirst(conns, Listed(online, caller));
      var list := Listed(online, caller);
      var i := 0;
      assert list[0..] == list;
      while i < |list|
        invariant 0 <= i <= |list|
        invariant PendingCaller(conns, list) == PendingCaller(conns, list[i..])
      {
        if IsPending(conns, list[i]) {
          return Some(list[i]);
        }
        assert list[i..][1..] == list[i + 1..];
        i := i + 1;
      }
      return None;
    }

    /** The statement before the lock. */
    method RecordCallStart(c: nat, ok: bool)
      modifies this
      ensures Contents() == AfterInsert(old(Contents()), c, ok)
      ensures conns == old(conns) && online == old(online) && now == old(now)
      ensures nextCall == old(nextCall) + (if ok then 1 else 0)
      ensures calls == if ok then old(calls)[old(nextCall) := Row(false, 0, 0)] else old(calls)
      ensures dialling == old(dialling)[c := Dial(if ok then old(nextCall) else 0, now)]
    {
      if ok {
        calls := calls[nextCall := Row(false, 0, 0)];
        dialling := dialling[c := Dial(nextCall, now)];
        nextCall := nextCall + 1;
      } else {
        dialling := dialling[c := Dial(0, now)];
      }
    }

    method NoteOffer(c: nat, room: string)
      requires c in conns && c in dialling
      modifies this
      ensures Contents() == AfterNote(old(Contents()), c, room)
      ensures calls == old(calls) && online == old(online) && now == old(now) && nextCall == old(nextCall)
      ensures var was, d := old(conns)[c], old(dialling)[c];
              && conns == old(conns)[c :=
                   Conn(was.user, was.inCall, was.partner, room, d.callId, d.startedAt, was.answered)]
              && dialling == map k | k in old(dialling) && k != c :: old(dialling)[k]
    {
      var d := dialling[c];
      conns := conns[c := conns[c].(room := room, callId := d.callId, startedAt := d.startedAt)];
      dialling := dialling - {c};
    }

    /** Answers the call of the recipient's first waiting connection, and says which that is. */
    method CallAnswer(c: nat, recipient: string) returns (caller: Option<nat>)
      requires c in conns
      modifies this
      ensures Contents() == AfterAnswer(old(Contents()), c, recipient)
      ensures CallerIs(old(conns), Listed(online, recipient), caller)
      ensures Joined(old(conns), conns, c, recipient, caller)
      ensures calls == old(calls) && OnlyCallsChange(old(Contents()), Contents())
    {
      var user := conns[c].user;
      caller := FindPendingCaller(recipient);
      if caller.Some? && caller.value in conns {
        var k := caller.value;
        conns := conns[k := conns[k].(room := "", answered := true, inCall := true, partner := user)];
      }
      conns := conns[c := conns[c].(inCall := true, partner := recipient)];
    }

    method FinalizeHeld(k: nat)
      requires k in conns
      modifies this
      ensures Contents() == Close(old(Contents()), k)
    {
      var c := conns[k];
      calls := FinalizeCall(calls, c.callId, c.answered, c.startedAt, now);
      conns := conns[k := c.(callId := 0, answered := false)];
    }

    /** Ends or rejects a call, and says which connection of the recipient is told. */
    method CallEnd(c: nat, recipient: string) returns (peer: Option<nat>)
      requires c in conns
      modifies this
      ensures Contents() == AfterEnd(old(Contents()), c, recipient)
      ensures OtherSideIs(old(Contents()), c, recipient, peer)
      ensures exists holder :: HolderIs(old(conns), c, peer, holder)
                && CallLeft(old(conns), conns, Both(c, peer), holder)
                && RowWritten(old(calls), calls, old(conns), holder, now)
      ensures OnlyCallsChange(old(Contents()), Contents())
    {
      ghost var was := Contents();
      EndExactly(was, c, recipient);
      OtherSideFound(was, c, recipient);
      HeldIsClosed(was, c, OtherSide(was, c, recipient));
      peer := FindCallPeer(recipient, conns[c].user);
      if peer.None? {
        peer := FindPendingCaller(recipient);
      }
      if conns[c].callId != 0 {
        FinalizeHeld(c);
      } else if peer.Some? && peer.value in conns && conns[peer.value].callId != 0 {
        FinalizeHeld(peer.value);
      }
      conns := conns[c := conns[c].(inCall := false, partner := "")];
      if peer.Some? && peer.value in conns {
        conns := conns[peer.value := conns[peer.value].(inCall := false, partner := "")];
      }
    }

    /** Drops a connection; says how many its user has left, and which connection of the partner is told. */
    method Disconnect(c: nat) returns (remaining: nat, peer: Option<nat>)
      requires c in conns
      modifies this
      ensures Contents() == AfterDisconnect(old(Contents()), c)
      ensures remaining == |Listed(online, old(conns)[c].user)|
      ensures Unregistered(old(online), online, old(conns)[c].user, c)
      ensures PartnerIs(old(Contents()), c, online, peer)
      ensures exists holder :: HolderAtLeaving(old(conns), c, peer, holder)
                && CallLeft(old(conns), conns, if peer.Some? then {peer.value} else {}, holder)
                && RowWritten(old(calls), calls, old(conns), holder, now)
      ensures nextCall == old(nextCall) && dialling == old(dialling) && now == old(now)
    {
      ghost var was := Contents();
      UnregisterExactly(was, c);
      PartnerFound(was, c);
      ghost var holder := DisconnectExactly(was, c);
      peer := None;
      var user, partner := conns[c].user, conns[c].partner;
      var rest := Registry.RemoveFirst(Listed(online, user), c);
      remaining := |rest|;
      online := if rest == [] then online - {user} else online[user := rest];
      if partner != "" {
        peer := FindCallPeer(partner, user);
        if peer.Some? && peer.value in conns {
          var p := peer.value;
          conns := conns[p := conns[p].(inCall := false, partner := "")];
          if conns[c].callId != 0 {
            FinalizeHeld(c);
          } else if conns[p].callId != 0 {
            FinalizeHeld(p);
          }
        }
      }
    }
  }
}
