/**
 The whiteboard when the SQL statements of several callers interleave.  An append is INSERT, COUNT and,
 if the count was too high, DELETE; an undo is SELECT and DELETE.  None of them is in a transaction.
 An undo without a name reads a uid first and goes on as the undo of that uid, so the runs here, in which
 an undo may name any uid, cover it.
 */
module WhiteboardRace {
  import opened Common
  import opened Whiteboard

  /** Where a running caller stands; one that found nothing to undo has nothing to delete. */
  datatype Caller =
    | Inserted(channel: string)
    | Counted(channel: string, over: bool)
    | Deleting(id: Option<nat>)

  datatype State = State(table: Table, callers: map<nat, Caller>)

  datatype Statement =
    | InsertRow(w: nat, channel: string, author: string, uid: string, body: string)
    | CountRows(w: nat)
    | TrimRows(w: nat)
    | SelectRow(w: nat, channel: string, author: string, uid: string)
    | DeleteRow(w: nat)
    | ClearRows(channel: string)

  predicate Enabled(s: State, e: Statement) {
    match e
    case InsertRow(w, _, _, _, _) => w !in s.callers
    case CountRows(w) => w in s.callers && s.callers[w].Inserted?
    case TrimRows(w) => w in s.callers && s.callers[w].Counted?
    case SelectRow(w, _, _, uid) => w !in s.callers && uid != ""
    case DeleteRow(w) => w in s.callers && s.callers[w].Deleting?
    case ClearRows(_) => true
  }

  function IdOf(row: Option<Stroke>): Option<nat> {
    if row.Some? then Some(row.value.id) else None
  }

  function DeleteIfAny(rows: seq<Stroke>, id: Option<nat>): seq<Stroke> {
    if id.Some? then DeleteId(rows, id.value) else rows
  }

  /** The effect of a statement; without the cap, the trimming DELETE does nothing. */
  function Execute(s: State, e: Statement, capped: bool): State
    requires Enabled(s, e)
  {
    match e
    case InsertRow(w, channel, author, uid, body) =>
      State(Table(s.table.rows + [Stroke(s.table.nextId, channel, author, uid, body)], s.table.nextId + 1),
            s.callers[w := Inserted(channel)])
    case CountRows(w) =>
      var channel := s.callers[w].channel;
      s.(callers := s.callers[w := Counted(channel, |Board(s.table.rows, channel)| > MAX_STROKES)])
    case TrimRows(w) =>
      var c := s.callers[w];
      var rows := if c.over && capped then Trim(s.table.rows, c.channel, MAX_STROKES) else s.table.rows;
      State(s.table.(rows := rows), s.callers - {w})
    case SelectRow(w, channel, author, uid) =>
      s.(callers := s.callers[w := Deleting(IdOf(Newest(s.table.rows, channel, author, Some(uid))))])
    case DeleteRow(w) =>
      State(s.table.(rows := DeleteIfAny(s.table.rows, s.callers[w].id)), s.callers - {w})
    case ClearRows(channel) => s.(table := s.table.(rows := Cleared(s.table.rows, channel)))
  }

  const Empty := State(Table([], 1), map[])

  /** Both boards, capped and uncapped, after the same statements. */
  ghost predicate Reaches(log: seq<Statement>, capped: State, free: State) {
    if log == [] then capped == Empty && free == Empty
    else
      var last := log[|log| - 1];
      exists c, f ::
        && Reaches(log[..|log| - 1], c, f) && Enabled(c, last) && Enabled(f, last)
        && capped == Execute(c, last, true) && free == Execute(f, last, false)
  }

  // ----- Boards under single statements

  lemma {:induction false} BoardDelete(rows: seq<Stroke>, id: nat, ch: string)
    ensures Board(DeleteId(rows, id), ch) == DeleteId(Board(rows, ch), id)
  {
    if rows != [] {
      var front, last := rows[..|rows| - 1], rows[|rows| - 1];
      BoardDelete(front, id, ch);
      BoardSnoc(DeleteId(front, id), last, ch);
      DeleteSnoc(Board(front, ch), last, id);
      assert Board(front, ch) + [] == Board(front, ch);
      assert DeleteId(front, id) + [] == DeleteId(front, id);
    }
  }

  lemma DeleteSnoc(rows: seq<Stroke>, row: Stroke, id: nat)
    ensures DeleteId(rows + [row], id) == DeleteId(rows, id) + (if row.id == id then [] else [row])
  {
    assert (rows + [row])[..|rows|] == rows;
  }

  lemma {:induction false} DeleteSplit(x: seq<Stroke>, y: seq<Stroke>, id: nat)
    ensures DeleteId(x + y, id) == DeleteId(x, id) + DeleteId(y, id)
    decreases |y|
  {
    if y == [] {
      assert x + y == x;
    } else {
      var front, last := y[..|y| - 1], y[|y| - 1];
      DeleteSplit(x, front, id);
      assert x + y == (x + front) + [last];
      DeleteSnoc(x + front, last, id);
    }
  }

  lemma {:induction false} DeleteIsShorter(rows: seq<Stroke>, id: nat)
    ensures |DeleteId(rows, id)| <= |rows|
  {
    if rows != [] {
      DeleteIsShorter(rows[..|rows| - 1], id);
    }
  }

  lemma SuffixDelete(a: seq<Stroke>, b: seq<Stroke>, id: nat)
    requires IsSuffix(a, b)
    ensures IsSuffix(DeleteId(a, id), DeleteId(b, id))
  {
    var x := b[..|b| - |a|];
    assert b == x + a;
    DeleteSplit(x, a, id);
  }

  /** A row that only the uncapped board still has. */
  lemma SuffixDeleteAbove(a: seq<Stroke>, b: seq<Stroke>, id: nat)
    requires IsSuffix(a, b) && forall i :: 0 <= i < |a| ==> a[i].id != id
    ensures IsSuffix(a, DeleteId(b, id))
  {
    SuffixDelete(a, b, id);
    DeleteMissingId(a, id);
  }

  lemma SuffixTrim(a: seq<Stroke>, b: seq<Stroke>, n: nat)
    requires IsSuffix(a, b)
    ensures IsSuffix(LastN(a, n), b) && |LastN(a, n)| <= n && |LastN(a, n)| <= |a|
  {
    LastNIsSuffix(a, n);
    var c := LastN(a, n);
    assert c == b[|b| - |c|..];
  }

  // ----- Members

  lemma {:induction false} BoardMembers(rows: seq<Stroke>, ch: string)
    ensures forall r :: r in Board(rows, ch) <==> r in rows && r.channel == ch
  {
    if rows != [] {
      var front, last := rows[..|rows| - 1], rows[|rows| - 1];
      BoardMembers(front, ch);
      assert rows == front + [last];
    }
  }

  lemma {:induction false} NoneMatches(rows: seq<Stroke>, channel: string, author: string, uid: Option<string>)
    requires Newest(rows, channel, author, uid).None?
    ensures forall r :: r in rows ==> !Matches(r, channel, author, uid)
  {
    if rows != [] {
      var front, last := rows[..|rows| - 1], rows[|rows| - 1];
      NoneMatches(front, channel, author, uid);
      assert rows == front + [last];
    }
  }

  lemma PickedMembers(a: seq<Stroke>, b: seq<Stroke>, f: seq<nat>)
    requires Picks(a, b, f)
    ensures forall r :: r in a ==> r in b
  {
    forall r | r in a ensures r in b {
      var i :| 0 <= i < |a| && a[i] == r;
      assert b[f[i]] == r;
    }
  }

  // ----- What is kept

  ghost predicate NotIn(rows: seq<Stroke>, id: nat) {
    forall r :: r in rows ==> r.id != id
  }

  /** The callers of both runs stand at the same point; a delete they disagree on is of a trimmed row. */
  ghost predicate CallerAgrees(table: Table, c: Caller, f: Caller) {
    match c
    case Inserted(channel) => f == c
    case Counted(channel, _) => f.Counted? && f.channel == channel
    case Deleting(id) =>
      && f.Deleting?
      && (f.id == id || (id.None? && f.id.value < table.nextId && NotIn(table.rows, f.id.value)))
  }

  ghost predicate CallersAgree(capped: State, free: State) {
    && capped.callers.Keys == free.callers.Keys
    && forall w :: w in capped.callers ==> CallerAgrees(capped.table, capped.callers[w], free.callers[w])
  }

  ghost predicate TablesAgree(capped: Table, free: Table) {
    && TableOk(capped) && TableOk(free) && capped.nextId == free.nextId
    && forall ch :: IsSuffix(Board(capped.rows, ch), Board(free.rows, ch))
  }

  /** The appends to a channel that are still to count, or to trim. */
  function Appending(s: State, ch: string): set<nat> {
    set w | w in s.callers &&
            (s.callers[w] == Inserted(ch) || (s.callers[w].Counted? && s.callers[w].channel == ch && s.callers[w].over))
  }

  ghost predicate WithinCap(s: State) {
    forall ch :: |Board(s.table.rows, ch)| <= MAX_STROKES + |Appending(s, ch)|
  }

  // ----- The tables

  lemma ExecuteKeepsOk(s: State, e: Statement, capped: bool)
    requires TableOk(s.table) && Enabled(s, e)
    ensures TableOk(Execute(s, e, capped).table)
    ensures forall r :: r in Execute(s, e, capped).table.rows ==> r in s.table.rows || r.id == s.table.nextId
    ensures Execute(s, e, capped).table.nextId >= s.table.nextId
  {
    var rows, nextId := s.table.rows, s.table.nextId;
    match e
    case InsertRow(_, _, _, _, _) =>
    case CountRows(_) =>
    case TrimRows(w) =>
      var channel := s.callers[w].channel;
      var f := TrimPicks(rows, channel, MAX_STROKES);
      PickedIsOk(Trim(rows, channel, MAX_STROKES), rows, f, nextId);
      PickedMembers(Trim(rows, channel, MAX_STROKES), rows, f);
    case SelectRow(_, _, _, _) =>
    case DeleteRow(w) =>
      if s.callers[w].id.Some? {
        var id := s.callers[w].id.value;
        var f := DeletePicks(rows, id);
        PickedIsOk(DeleteId(rows, id), rows, f, nextId);
        PickedMembers(DeleteId(rows, id), rows, f);
      }
    case ClearRows(channel) =>
      var f := ClearPicks(rows, channel);
      PickedIsOk(Cleared(rows, channel), rows, f, nextId);
      PickedMembers(Cleared(rows, channel), rows, f);
  }

  lemma DeleteKeepsSuffix(capped: State, free: State, w: nat, ch: string)
    requires TablesAgree(capped.table, free.table) && CallersAgree(capped, free)
    requires w in capped.callers && capped.callers[w].Deleting?
    ensures IsSuffix(Board(DeleteIfAny(capped.table.rows, capped.callers[w].id), ch),
                     Board(DeleteIfAny(free.table.rows, free.callers[w].id), ch))
  {
    var a, b := Board(capped.table.rows, ch), Board(free.table.rows, ch);
    var c, f := capped.callers[w], free.callers[w];
    assert CallerAgrees(capped.table, c, f);
    if f.id.Some? {
      BoardDelete(free.table.rows, f.id.value, ch);
      BoardDelete(capped.table.rows, f.id.value, ch);
      if c.id.Some? {
        SuffixDelete(a, b, f.id.value);
      } else {
        BoardMembers(capped.table.rows, ch);
        forall i | 0 <= i < |a| ensures a[i].id != f.id.value {
          assert a[i] in a;
        }
        SuffixDeleteAbove(a, b, f.id.value);
      }
    }
  }

  lemma ExecuteKeepsSuffix(capped: State, free: State, e: Statement, ch: string)
    requires TablesAgree(capped.table, free.table) && CallersAgree(capped, free)
    requires Enabled(capped, e) && Enabled(free, e)
    ensures IsSuffix(Board(Execute(capped, e, true).table.rows, ch), Board(Execute(free, e, false).table.rows, ch))
  {
    var a, b := Board(capped.table.rows, ch), Board(free.table.rows, ch);
    match e
    case InsertRow(_, channel, author, uid, body) =>
      var row := Stroke(capped.table.nextId, channel, author, uid, body);
      BoardSnoc(capped.table.rows, row, ch);
      BoardSnoc(free.table.rows, row, ch);
      assert (b + [row])[|b| - |a|..] == b[|b| - |a|..] + [row];
      assert a + [] == a && b + [] == b;
    case CountRows(_) =>
    case TrimRows(w) =>
      var channel := capped.callers[w].channel;
      if ch == channel {
        OwnBoardTrim(capped.table.rows, channel, MAX_STROKES);
      } else {
        OtherBoardTrim(capped.table.rows, channel, MAX_STROKES, ch);
      }
      SuffixTrim(a, b, MAX_STROKES);
    case SelectRow(_, _, _, _) =>
    case DeleteRow(w) => DeleteKeepsSuffix(capped, free, w, ch);
    case ClearRows(channel) =>
      BoardCleared(capped.table.rows, channel, ch);
      BoardCleared(free.table.rows, channel, ch);
  }

  // ----- The callers

  /** A SELECT that answers differently without the cap names a row that was trimmed. */
  lemma SelectsAgree(capped: Table, free: Table, channel: string, author: string, uid: string)
    requires TablesAgree(capped, free)
    ensures CallerAgrees(capped,
                         Deleting(IdOf(Newest(capped.rows, channel, author, Some(uid)))),
                         Deleting(IdOf(Newest(free.rows, channel, author, Some(uid)))))
  {
    var a, b := Board(capped.rows, channel), Board(free.rows, channel);
    assert IsSuffix(a, b);
    var x := b[..|b| - |a|];
    assert b == x + a;
    NewestOnBoard(capped.rows, channel, author, Some(uid));
    NewestOnBoard(free.rows, channel, author, Some(uid));
    NewestSplit(x, a, channel, author, Some(uid));
    var c, f := Newest(capped.rows, channel, author, Some(uid)), Newest(free.rows, channel, author, Some(uid));
    if c.None? && f.Some? {
      NewestIsARow(free.rows, channel, author, Some(uid));
      NoneMatches(capped.rows, channel, author, Some(uid));
      OnlyInFree(capped, free, f.value);
    }
  }

  /** Rows are the same wherever both tables have them. */
  lemma OnlyInFree(capped: Table, free: Table, row: Stroke)
    requires TablesAgree(capped, free) && row in free.rows && row !in capped.rows
    ensures row.id < capped.nextId && NotIn(capped.rows, row.id)
  {
    forall r | r in capped.rows ensures r.id != row.id {
      var a, b := Board(capped.rows, r.channel), Board(free.rows, r.channel);
      BoardMembers(capped.rows, r.channel);
      BoardMembers(free.rows, r.channel);
      assert IsSuffix(a, b);
      var i :| 0 <= i < |a| && a[i] == r;
      assert b[|b| - |a|..][i] == b[|b| - |a| + i];
      assert r in b;
    }
  }

  lemma AgreementLasts(before: Table, after: Table, c: Caller, f: Caller)
    requires CallerAgrees(before, c, f) && after.nextId >= before.nextId
    requires forall r :: r in after.rows ==> r in before.rows || r.id == before.nextId
    ensures CallerAgrees(after, c, f)
  {
  }

  lemma ExecuteKeepsCallers(capped: State, free: State, e: Statement)
    requires TablesAgree(capped.table, free.table) && CallersAgree(capped, free)
    requires Enabled(capped, e) && Enabled(free, e)
    ensures CallersAgree(Execute(capped, e, true), Execute(free, e, false))
  {
    var c1, f1 := Execute(capped, e, true), Execute(free, e, false);
    ExecuteKeepsOk(capped, e, true);
    forall w | w in c1.callers ensures CallerAgrees(c1.table, c1.callers[w], f1.callers[w]) {
      if w in capped.callers && c1.callers[w] == capped.callers[w] && f1.callers[w] == free.callers[w] {
        AgreementLasts(capped.table, c1.table, c1.callers[w], f1.callers[w]);
      } else if e.SelectRow? {
        SelectsAgree(capped.table, free.table, e.channel, e.author, e.uid);
      }
    }
  }

  // ----- The cap

  lemma BoardShrinks(s: State, e: Statement, ch: string)
    requires Enabled(s, e) && (e.TrimRows? || e.DeleteRow? || e.ClearRows?)
    ensures |Board(Execute(s, e, true).table.rows, ch)| <= |Board(s.table.rows, ch)|
    ensures e.TrimRows? && s.callers[e.w].over && s.callers[e.w].channel == ch ==>
              |Board(Execute(s, e, true).table.rows, ch)| <= MAX_STROKES
  {
    var rows := s.table.rows;
    match e
    case TrimRows(w) =>
      var channel := s.callers[w].channel;
      if ch == channel {
        OwnBoardTrim(rows, channel, MAX_STROKES);
        LastNIsSuffix(Board(rows, ch), MAX_STROKES);
      } else {
        OtherBoardTrim(rows, channel, MAX_STROKES, ch);
      }
    case DeleteRow(w) =>
      if s.callers[w].id.Some? {
        BoardDelete(rows, s.callers[w].id.value, ch);
        DeleteIsShorter(Board(rows, ch), s.callers[w].id.value);
      }
    case ClearRows(channel) => BoardCleared(rows, channel, ch);
  }

  /** An append stops counting only when it found the board within the cap, or when it trimmed. */
  lemma AppendingAfter(s: State, e: Statement, ch: string)
    requires Enabled(s, e)
    ensures var n, m := Appending(s, ch), Appending(Execute(s, e, true), ch);
            if e.InsertRow? && e.channel == ch then e.w !in n && m == n + {e.w}
            else if e.CountRows? && |Board(s.table.rows, ch)| <= MAX_STROKES then true
            else if e.TrimRows? && s.callers[e.w].over && s.callers[e.w].channel == ch then true
            else m == n
  {
  }

  lemma ExecuteKeepsCap(s: State, e: Statement, ch: string)
    requires Enabled(s, e) && |Board(s.table.rows, ch)| <= MAX_STROKES + |Appending(s, ch)|
    ensures var t := Execute(s, e, true); |Board(t.table.rows, ch)| <= MAX_STROKES + |Appending(t, ch)|
  {
    AppendingAfter(s, e, ch);
    if e.InsertRow? {
      BoardSnoc(s.table.rows, Stroke(s.table.nextId, e.channel, e.author, e.uid, e.body), ch);
    } else if e.TrimRows? || e.DeleteRow? || e.ClearRows? {
      BoardShrinks(s, e, ch);
    }
  }

  // ----- Every interleaving

  lemma {:induction false} ReachesAgree(log: seq<Statement>, capped: State, free: State)
    requires Reaches(log, capped, free)
    ensures TablesAgree(capped.table, free.table) && CallersAgree(capped, free)
    decreases |log|
  {
    if log != [] {
      var before, last := log[..|log| - 1], log[|log| - 1];
      var c, f :|
        && Reaches(before, c, f) && Enabled(c, last) && Enabled(f, last)
        && capped == Execute(c, last, true) && free == Execute(f, last, false);
      ReachesAgree(before, c, f);
      ExecuteKeepsOk(c, last, true);
      ExecuteKeepsOk(f, last, false);
      ExecuteKeepsCallers(c, f, last);
      forall ch ensures IsSuffix(Board(capped.table.rows, ch), Board(free.table.rows, ch)) {
        ExecuteKeepsSuffix(c, f, last, ch);
      }
    }
  }

  lemma {:induction false} ReachesWithinCap(log: seq<Statement>, capped: State, free: State)
    requires Reaches(log, capped, free)
    ensures WithinCap(capped)
    decreases |log|
  {
    if log != [] {
      var before, last := log[..|log| - 1], log[|log| - 1];
      var c, f :|
        && Reaches(before, c, f) && Enabled(c, last) && Enabled(f, last)
        && capped == Execute(c, last, true) && free == Execute(f, last, false);
      ReachesWithinCap(before, c, f);
      forall ch ensures |Board(capped.table.rows, ch)| <= MAX_STROKES + |Appending(capped, ch)| {
        ExecuteKeepsCap(c, last, ch);
      }
    }
  }

  /**
   In every interleaving, every board is a suffix of the one the same statements give without the cap,
   and exceeds 4000 strokes by at most the appends to it that have not finished.
   */
  lemma CapHoldsInEveryInterleaving(log: seq<Statement>, capped: State, free: State, ch: string)
    requires Reaches(log, capped, free)
    ensures IsSuffix(Board(capped.table.rows, ch), Board(free.table.rows, ch))
    ensures |Board(capped.table.rows, ch)| <= MAX_STROKES + |Appending(capped, ch)|
    ensures Appending(capped, ch) == {} ==> |Board(capped.table.rows, ch)| <= MAX_STROKES
  {
    ReachesAgree(log, capped, free);
    ReachesWithinCap(log, capped, free);
  }

  /** Control points agree, so a statement that can run under the cap can run without it. */
  lemma SameEnabled(log: seq<Statement>, capped: State, free: State, e: Statement)
    requires Reaches(log, capped, free)
    ensures Enabled(capped, e) <==> Enabled(free, e)
  {
    ReachesAgree(log, capped, free);
    match e
    case CountRows(w) => assert w in capped.callers ==> CallerAgrees(capped.table, capped.callers[w], free.callers[w]);
    case TrimRows(w) => assert w in capped.callers ==> CallerAgrees(capped.table, capped.callers[w], free.callers[w]);
    case DeleteRow(w) => assert w in capped.callers ==> CallerAgrees(capped.table, capped.callers[w], free.callers[w]);
    case _ =>
  }

  // ----- The bound is attained

  /** Runs of whole appends fill a board up to the cap. */
  lemma {:induction false} FilledBoard(n: nat, ch: string) returns (log: seq<Statement>, capped: State, free: State)
    requires n <= MAX_STROKES
    ensures Reaches(log, capped, free)
    ensures |Board(capped.table.rows, ch)| == n && capped.callers == map[] && free.callers == map[]
  {
    if n == 0 {
      log, capped, free := [], Empty, Empty;
    } else {
      log, capped, free := FilledBoard(n - 1, ch);
      log, capped, free := AppendOne(log, capped, free, ch);
    }
  }

  lemma AppendOne(log: seq<Statement>, capped: State, free: State, ch: string)
    returns (longer: seq<Statement>, c: State, f: State)
    requires Reaches(log, capped, free) && capped.callers == map[] && free.callers == map[]
    requires |Board(capped.table.rows, ch)| < MAX_STROKES
    ensures Reaches(longer, c, f) && c.callers == map[] && f.callers == map[]
    ensures |Board(c.table.rows, ch)| == |Board(capped.table.rows, ch)| + 1
  {
    BoardSnoc(capped.table.rows, Stroke(capped.table.nextId, ch, "", "", ""), ch);
    longer, c, f := RunOne(log, capped, free, InsertRow(0, ch, "", "", ""));
    assert |Board(c.table.rows, ch)| == |Board(capped.table.rows, ch)| + 1;
    longer, c, f := RunOne(longer, c, f, CountRows(0));
    longer, c, f := RunOne(longer, c, f, TrimRows(0));
  }

  lemma RunOne(log: seq<Statement>, capped: State, free: State, e: Statement)
    returns (longer: seq<Statement>, c: State, f: State)
    requires Reaches(log, capped, free) && Enabled(capped, e)
    ensures Enabled(free, e) && Reaches(longer, c, f)
    ensures c == Execute(capped, e, true) && f == Execute(free, e, false)
  {
    SameEnabled(log, capped, free, e);
    longer, c, f := log + [e], Execute(capped, e, true), Execute(free, e, false);
    assert longer[..|longer| - 1] == log && longer[|longer| - 1] == e;
    assert Reaches(longer[..|longer| - 1], capped, free);
  }

  /** With k appends between their INSERT and their DELETE, a reader can find 4000 + k strokes. */
  lemma {:induction false} BoundIsAttained(k: nat, ch: string)
    returns (log: seq<Statement>, capped: State, free: State)
    ensures Reaches(log, capped, free)
    ensures |Board(capped.table.rows, ch)| == MAX_STROKES + k
    ensures forall w :: w in capped.callers ==> w < k
    ensures |Appending(capped, ch)| == k
  {
    if k == 0 {
      log, capped, free := FilledBoard(MAX_STROKES, ch);
    } else {
      log, capped, free := BoundIsAttained(k - 1, ch);
      var insert := InsertRow(k - 1, ch, "", "", "");
      AppendingAfter(capped, insert, ch);
      BoardSnoc(capped.table.rows, Stroke(capped.table.nextId, ch, "", "", ""), ch);
      log, capped, free := RunOne(log, capped, free, insert);
    }
  }

  // ----- Undisturbed callers do what the serial operations do

  lemma UndisturbedAppend(s: State, w: nat, channel: string, author: string, uid: string, body: string)
    requires w !in s.callers
    ensures var s1 := Execute(s, InsertRow(w, channel, author, uid, body), true);
            var s2 := Execute(s1, CountRows(w), true);
            Execute(s2, TrimRows(w), true) == s.(table := Step(s.table, AppendStroke(channel, author, uid, body), true))
  {
    var s1 := Execute(s, InsertRow(w, channel, author, uid, body), true);
    var s2 := Execute(s1, CountRows(w), true);
    assert s2.callers - {w} == s.callers;
  }

  lemma UndisturbedUndo(s: State, w: nat, channel: string, author: string, uid: string)
    requires w !in s.callers && uid != ""
    ensures var s1 := Execute(s, SelectRow(w, channel, author, uid), true);
            Execute(s1, DeleteRow(w), true) == s.(table := Step(s.table, UndoStroke(channel, author, uid), true))
  {
    var s1 := Execute(s, SelectRow(w, channel, author, uid), true);
    assert s1.callers - {w} == s.callers;
  }
}
