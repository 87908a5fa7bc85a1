/**
 The shared whiteboard: one table of strokes for all channels, appended to, undone by name, cleared,
 and trimmed to the newest 4000 strokes of a channel.  The runs here are serial, one operation after the
 other; WhiteboardRace lets their statements interleave.
 */
module Whiteboard {
  import opened Common

  datatype Stroke = Stroke(id: nat, channel: string, author: string, uid: string, body: string)

  const MAX_STROKES := 4000

  // ----- The statements

  /** SELECT … WHERE channel_id = ? ORDER BY id */
  function Board(rows: seq<Stroke>, channel: string): seq<Stroke> {
    if rows == [] then []
    else
      var last := rows[|rows| - 1];
      Board(rows[..|rows| - 1], channel) + (if last.channel == channel then [last] else [])
  }

  /** DELETE … WHERE channel_id = ? AND id NOT IN (the newest keep of the channel) */
  function Trim(rows: seq<Stroke>, channel: string, keep: nat): seq<Stroke> {
    if rows == [] then []
    else
      var front, last := rows[..|rows| - 1], rows[|rows| - 1];
      if last.channel != channel then Trim(front, channel, keep) + [last]
      else if keep > 0 then Trim(front, channel, keep - 1) + [last]
      else Trim(front, channel, 0)
  }

  function Cleared(rows: seq<Stroke>, channel: string): seq<Stroke> {
    if rows == [] then []
    else
      var last := rows[|rows| - 1];
      Cleared(rows[..|rows| - 1], channel) + (if last.channel == channel then [] else [last])
  }

  /** By this author on this channel and, when a uid is given, with that uid. */
  predicate Matches(row: Stroke, channel: string, author: string, uid: Option<string>) {
    row.channel == channel && row.author == author && (uid.Some? ==> row.uid == uid.value)
  }

  /** … ORDER BY id DESC LIMIT 1 */
  function Newest(rows: seq<Stroke>, channel: string, author: string, uid: Option<string>): Option<Stroke> {
    if rows == [] then None
    else if Matches(rows[|rows| - 1], channel, author, uid) then Some(rows[|rows| - 1])
    else Newest(rows[..|rows| - 1], channel, author, uid)
  }

  /** DELETE … WHERE id = ? */
  function DeleteId(rows: seq<Stroke>, id: nat): seq<Stroke> {
    if rows == [] then []
    else DeleteId(rows[..|rows| - 1], id) + (if rows[|rows| - 1].id == id then [] else [rows[|rows| - 1]])
  }

  // ----- The operations

  function Append(rows: seq<Stroke>, row: Stroke): seq<Stroke> {
    var longer := rows + [row];
    if |Board(longer, row.channel)| > MAX_STROKES then Trim(longer, row.channel, MAX_STROKES) else longer
  }

  function Undo(rows: seq<Stroke>, channel: string, author: string, uid: string): seq<Stroke> {
    if uid == "" then rows
    else
      match Newest(rows, channel, author, Some(uid))
      case None => rows
      case Some(row) => DeleteId(rows, row.id)
  }

  function UndoLast(rows: seq<Stroke>, channel: string, author: string): seq<Stroke> {
    match Newest(rows, channel, author, None)
    case None => rows
    case Some(row) => Undo(rows, channel, author, row.uid)
  }

  ghost predicate IdsRise(rows: seq<Stroke>) {
    forall i, j :: 0 <= i < j < |rows| ==> rows[i].id < rows[j].id
  }

  // ----- What the operations do to one channel's board

  /** The board without the newest stroke that matches. */
  function WithoutNewest(board: seq<Stroke>, channel: string, author: string, uid: Option<string>): seq<Stroke> {
    if board == [] then []
    else
      var front, last := board[..|board| - 1], board[|board| - 1];
      if Matches(last, channel, author, uid) then front
      else WithoutNewest(front, channel, author, uid) + [last]
  }

  lemma {:induction false} DeleteMissingId(rows: seq<Stroke>, id: nat)
    requires forall i :: 0 <= i < |rows| ==> rows[i].id != id
    ensures DeleteId(rows, id) == rows
  {
    if rows != [] {
      var front := rows[..|rows| - 1];
      assert forall i :: 0 <= i < |front| ==> front[i] == rows[i];
      DeleteMissingId(front, id);
    }
  }

  lemma {:induction false} NewestIsARow(rows: seq<Stroke>, channel: string, author: string, uid: Option<string>)
    ensures var n := Newest(rows, channel, author, uid);
            n.Some? ==> n.value in rows && Matches(n.value, channel, author, uid)
  {
    if rows != [] {
      NewestIsARow(rows[..|rows| - 1], channel, author, uid);
    }
  }

  lemma NewestIsOlder(rows: seq<Stroke>, channel: string, author: string, uid: Option<string>)
    requires IdsRise(rows) && rows != []
    ensures var n := Newest(rows[..|rows| - 1], channel, author, uid);
            n.Some? ==> n.value.id < rows[|rows| - 1].id
  {
    var front := rows[..|rows| - 1];
    NewestIsARow(front, channel, author, uid);
    var n := Newest(front, channel, author, uid);
    if n.Some? {
      var i :| 0 <= i < |front| && front[i] == n.value;
      assert rows[i] == n.value;
    }
  }

  lemma DeleteLast(rows: seq<Stroke>)
    requires IdsRise(rows) && rows != []
    ensures DeleteId(rows, rows[|rows| - 1].id) == rows[..|rows| - 1]
  {
    var front := rows[..|rows| - 1];
    forall i | 0 <= i < |front| ensures front[i].id != rows[|rows| - 1].id {
      assert front[i] == rows[i];
    }
    DeleteMissingId(front, rows[|rows| - 1].id);
  }

  /** Deleting the newest match by id takes out that one row. */
  lemma {:induction false} DeleteNewest(rows: seq<Stroke>, channel: string, author: string, uid: Option<string>)
    requires IdsRise(rows)
    ensures var n := Newest(rows, channel, author, uid);
            (if n.Some? then DeleteId(rows, n.value.id) else rows) == WithoutNewest(rows, channel, author, uid)
  {
    if rows != [] {
      var front, last := rows[..|rows| - 1], rows[|rows| - 1];
      if Matches(last, channel, author, uid) {
        DeleteLast(rows);
      } else {
        assert IdsRise(front);
        DeleteNewest(front, channel, author, uid);
        NewestIsOlder(rows, channel, author, uid);
        assert front + [last] == rows;
      }
    }
  }

  lemma {:induction false} BoardWithoutNewest(
    rows: seq<Stroke>, channel: string, author: string, uid: Option<string>, ch: string)
    ensures Board(WithoutNewest(rows, channel, author, uid), ch) ==
            if ch == channel then WithoutNewest(Board(rows, ch), channel, author, uid) else Board(rows, ch)
  {
    if rows != [] {
      var front, last := rows[..|rows| - 1], rows[|rows| - 1];
      BoardWithoutNewest(front, channel, author, uid, ch);
      if !Matches(last, channel, author, uid) {
        var w := WithoutNewest(front, channel, author, uid);
        assert (w + [last])[..|w|] == w;
      }
      if last.channel == ch {
        assert (Board(front, ch) + [last])[..|Board(front, ch)|] == Board(front, ch);
      } else {
        assert Board(rows, ch) == Board(front, ch);
      }
    }
  }

  lemma {:induction false} NewestOnBoard(rows: seq<Stroke>, channel: string, author: string, uid: Option<string>)
    ensures Newest(rows, channel, author, uid) == Newest(Board(rows, channel), channel, author, uid)
  {
    if rows != [] {
      var front, last := rows[..|rows| - 1], rows[|rows| - 1];
      NewestOnBoard(front, channel, author, uid);
      if last.channel == channel {
        assert (Board(front, channel) + [last])[..|Board(front, channel)|] == Board(front, channel);
      } else {
        assert Board(rows, channel) == Board(front, channel);
      }
    }
  }

  function LastN(s: seq<Stroke>, n: nat): seq<Stroke> {
    if s == [] || n == 0 then [] else LastN(s[..|s| - 1], n - 1) + [s[|s| - 1]]
  }

  lemma {:induction false} LastNIsSuffix(s: seq<Stroke>, n: nat)
    ensures |LastN(s, n)| == (if |s| <= n then |s| else n) && LastN(s, n) == s[|s| - |LastN(s, n)|..]
  {
    if s != [] && n > 0 {
      var front := s[..|s| - 1];
      LastNIsSuffix(front, n - 1);
      var k := |front| - |LastN(front, n - 1)|;
      assert front[k..] + [s[|s| - 1]] == s[k..];
    }
  }

  lemma BoardSnoc(rows: seq<Stroke>, row: Stroke, ch: string)
    ensures Board(rows + [row], ch) == Board(rows, ch) + (if row.channel == ch then [row] else [])
  {
    assert (rows + [row])[..|rows|] == rows;
  }

  lemma {:induction false} OwnBoardTrim(rows: seq<Stroke>, ch: string, keep: nat)
    ensures Board(Trim(rows, ch, keep), ch) == LastN(Board(rows, ch), keep)
  {
    if rows != [] {
      var front, last := rows[..|rows| - 1], rows[|rows| - 1];
      if last.channel != ch {
        OwnBoardTrim(front, ch, keep);
        BoardSnoc(Trim(front, ch, keep), last, ch);
        assert Board(rows, ch) == Board(front, ch);
      } else if keep > 0 {
        OwnBoardTrim(front, ch, keep - 1);
        BoardSnoc(Trim(front, ch, keep - 1), last, ch);
        assert Board(rows, ch)[..|Board(front, ch)|] == Board(front, ch);
      } else {
        OwnBoardTrim(front, ch, 0);
      }
    }
  }

  lemma {:induction false} OtherBoardTrim(rows: seq<Stroke>, channel: string, keep: nat, ch: string)
    requires ch != channel
    ensures Board(Trim(rows, channel, keep), ch) == Board(rows, ch)
  {
    if rows != [] {
      var front, last := rows[..|rows| - 1], rows[|rows| - 1];
      var rest := if last.channel == channel && keep > 0 then keep - 1 else keep;
      OtherBoardTrim(front, channel, rest, ch);
      BoardSnoc(Trim(front, channel, rest), last, ch);
    }
  }

  lemma {:induction false} BoardCleared(rows: seq<Stroke>, channel: string, ch: string)
    ensures Board(Cleared(rows, channel), ch) == if ch == channel then [] else Board(rows, ch)
  {
    if rows != [] {
      var front, last := rows[..|rows| - 1], rows[|rows| - 1];
      BoardCleared(front, channel, ch);
      var t := Cleared(front, channel);
      assert (t + [last])[..|t|] == t;
      assert t + [] == t;
    }
  }

  /** Appending changes the board of its own channel only, and keeps the newest 4000 there. */
  lemma BoardAppend(rows: seq<Stroke>, row: Stroke, ch: string)
    ensures Board(Append(rows, row), ch) ==
            if ch == row.channel then LastN(Board(rows, ch) + [row], MAX_STROKES) else Board(rows, ch)
  {
    var longer := rows + [row];
    assert longer[..|rows|] == rows;
    OwnBoardTrim(longer, row.channel, MAX_STROKES);
    LastNIsSuffix(Board(longer, row.channel), MAX_STROKES);
    if ch != row.channel {
      OtherBoardTrim(longer, row.channel, MAX_STROKES, ch);
    }
  }

  lemma BoardUndo(rows: seq<Stroke>, channel: string, author: string, uid: string, ch: string)
    requires IdsRise(rows)
    ensures Board(Undo(rows, channel, author, uid), ch) ==
            if ch == channel && uid != ""
            then WithoutNewest(Board(rows, ch), channel, author, Some(uid)) else Board(rows, ch)
  {
    DeleteNewest(rows, channel, author, Some(uid));
    BoardWithoutNewest(rows, channel, author, Some(uid), ch);
  }

  /** The newest stroke by the author is also the newest with its own uid. */
  lemma {:induction false} NewestHasItsUid(rows: seq<Stroke>, channel: string, author: string)
    ensures var n := Newest(rows, channel, author, None);
            n.Some? ==>
              && Newest(rows, channel, author, Some(n.value.uid)) == n
              && WithoutNewest(rows, channel, author, Some(n.value.uid)) == WithoutNewest(rows, channel, author, None)
  {
    if rows != [] && !Matches(rows[|rows| - 1], channel, author, None) {
      NewestHasItsUid(rows[..|rows| - 1], channel, author);
    }
  }

  /** Undo without a name takes back exactly the author's newest stroke if and only if that stroke
      has a uid; otherwise nothing happens. */
  lemma UndoLastIsExact(rows: seq<Stroke>, channel: string, author: string)
    requires IdsRise(rows)
    ensures var n := Newest(rows, channel, author, None);
            UndoLast(rows, channel, author) ==
            if n.Some? && n.value.uid != "" then WithoutNewest(rows, channel, author, None) else rows
  {
    NewestHasItsUid(rows, channel, author);
    var n := Newest(rows, channel, author, None);
    if n.Some? {
      DeleteNewest(rows, channel, author, Some(n.value.uid));
    }
  }

  // ----- The capped board is a suffix of the uncapped one

  ghost predicate IsSuffix(a: seq<Stroke>, b: seq<Stroke>) {
    |a| <= |b| && b[|b| - |a|..] == a
  }

  lemma SuffixAppend(a: seq<Stroke>, b: seq<Stroke>, row: Stroke, n: nat)
    requires IsSuffix(a, b)
    ensures IsSuffix(LastN(a + [row], n), b + [row]) && |LastN(a + [row], n)| <= n
  {
    var longA, longB := a + [row], b + [row];
    assert longB[|longB| - |longA|..] == longA;
    LastNIsSuffix(longA, n);
    var c := LastN(longA, n);
    assert c == longB[|longB| - |c|..];
  }

  lemma {:induction false} NewestSplit(
    x: seq<Stroke>, y: seq<Stroke>, channel: string, author: string, uid: Option<string>)
    ensures Newest(x + y, channel, author, uid) ==
            if Newest(y, channel, author, uid).Some?
            then Newest(y, channel, author, uid) else Newest(x, channel, author, uid)
    decreases |y|
  {
    if y == [] {
      assert x + y == x;
    } else {
      var front, whole := y[..|y| - 1], x + y;
      assert whole[|whole| - 1] == y[|y| - 1] && whole[..|whole| - 1] == x + front;
      NewestSplit(x, front, channel, author, uid);
    }
  }

  lemma {:induction false} WithoutNewestSplit(
    x: seq<Stroke>, y: seq<Stroke>, channel: string, author: string, uid: Option<string>)
    ensures WithoutNewest(x + y, channel, author, uid) ==
            if Newest(y, channel, author, uid).Some? then x + WithoutNewest(y, channel, author, uid)
            else WithoutNewest(x, channel, author, uid) + y
    decreases |y|
  {
    if y == [] {
      assert x + y == x;
    } else {
      var front, last, whole := y[..|y| - 1], y[|y| - 1], x + y;
      assert whole[|whole| - 1] == last && whole[..|whole| - 1] == x + front;
      if !Matches(last, channel, author, uid) {
        WithoutNewestSplit(x, front, channel, author, uid);
        assert y == front + [last];
      }
    }
  }

  lemma {:induction false} NothingToTakeOut(board: seq<Stroke>, channel: string, author: string, uid: Option<string>)
    ensures Newest(board, channel, author, uid).None? ==> WithoutNewest(board, channel, author, uid) == board
  {
    if board != [] {
      NothingToTakeOut(board[..|board| - 1], channel, author, uid);
    }
  }

  lemma SuffixUndo(a: seq<Stroke>, b: seq<Stroke>, channel: string, author: string, uid: Option<string>)
    requires IsSuffix(a, b)
    ensures IsSuffix(WithoutNewest(a, channel, author, uid), WithoutNewest(b, channel, author, uid))
  {
    var x := b[..|b| - |a|];
    assert b == x + a;
    WithoutNewestSplit(x, a, channel, author, uid);
    NothingToTakeOut(a, channel, author, uid);
  }

  /** Undo without a name, on a board alone. */
  function BoardUndoLast(board: seq<Stroke>, channel: string, author: string): seq<Stroke> {
    var n := Newest(board, channel, author, None);
    if n.Some? && n.value.uid != "" then WithoutNewest(board, channel, author, None) else board
  }

  lemma SuffixUndoLast(a: seq<Stroke>, b: seq<Stroke>, channel: string, author: string)
    requires IsSuffix(a, b)
    ensures IsSuffix(BoardUndoLast(a, channel, author), BoardUndoLast(b, channel, author))
  {
    var x := b[..|b| - |a|];
    assert b == x + a;
    NewestSplit(x, a, channel, author, None);
    WithoutNewestSplit(x, a, channel, author, None);
    SuffixUndo(a, b, channel, author, None);
    NothingToTakeOut(a, channel, author, None);
  }

  lemma BoardUndoLastOnTable(rows: seq<Stroke>, channel: string, author: string, ch: string)
    requires IdsRise(rows)
    ensures Board(UndoLast(rows, channel, author), ch) ==
            if ch == channel then BoardUndoLast(Board(rows, ch), channel, author) else Board(rows, ch)
  {
    UndoLastIsExact(rows, channel, author);
    NewestOnBoard(rows, channel, author, None);
    BoardWithoutNewest(rows, channel, author, None, ch);
  }

  // ----- Serial runs

  datatype Event =
    | AppendStroke(channel: string, author: string, uid: string, body: string)
    | UndoStroke(channel: string, author: string, uid: string)
    | UndoLastStroke(channel: string, author: string)
    | Clear(channel: string)

  /** The strokes table with or without the cap; ids are never reused. */
  datatype Table = Table(rows: seq<Stroke>, nextId: nat)

  function Step(t: Table, e: Event, capped: bool): Table {
    match e
    case AppendStroke(channel, author, uid, body) =>
      var row := Stroke(t.nextId, channel, author, uid, body);
      Table(if capped then Append(t.rows, row) else t.rows + [row], t.nextId + 1)
    case UndoStroke(channel, author, uid) => t.(rows := Undo(t.rows, channel, author, uid))
    case UndoLastStroke(channel, author) => t.(rows := UndoLast(t.rows, channel, author))
    case Clear(channel) => t.(rows := Cleared(t.rows, channel))
  }

  function Run(events: seq<Event>, capped: bool): Table {
    if events == [] then Table([], 1)
    else Step(Run(events[..|events| - 1], capped), events[|events| - 1], capped)
  }

  ghost predicate TableOk(t: Table) {
    IdsRise(t.rows) && forall i :: 0 <= i < |t.rows| ==> t.rows[i].id < t.nextId
  }

  /** f says which rows of b are left in a; they keep their order. */
  ghost predicate Picks(a: seq<Stroke>, b: seq<Stroke>, f: seq<nat>) {
    && |f| == |a|
    && (forall i :: 0 <= i < |f| ==> f[i] < |b| && a[i] == b[f[i]])
    && (forall i, j :: 0 <= i < j < |f| ==> f[i] < f[j])
  }

  lemma PicksMore(a: seq<Stroke>, b: seq<Stroke>, f: seq<nat>, row: Stroke)
    requires Picks(a, b, f)
    ensures Picks(a, b + [row], f)
    ensures Picks(a + [row], b + [row], f + [|b|])
  {
  }

  lemma {:induction false} TrimPicks(rows: seq<Stroke>, channel: string, keep: nat) returns (f: seq<nat>)
    ensures Picks(Trim(rows, channel, keep), rows, f)
  {
    f := [];
    if rows != [] {
      var front, last := rows[..|rows| - 1], rows[|rows| - 1];
      var drops := last.channel == channel && keep == 0;
      var rest := if last.channel == channel && keep > 0 then keep - 1 else keep;
      f := TrimPicks(front, channel, rest);
      PicksMore(Trim(front, channel, rest), front, f, last);
      assert front + [last] == rows;
      if !drops {
        f := f + [|front|];
      }
    }
  }

  lemma {:induction false} ClearPicks(rows: seq<Stroke>, channel: string) returns (f: seq<nat>)
    ensures Picks(Cleared(rows, channel), rows, f)
  {
    f := [];
    if rows != [] {
      var front, last := rows[..|rows| - 1], rows[|rows| - 1];
      f := ClearPicks(front, channel);
      PicksMore(Cleared(front, channel), front, f, last);
      assert front + [last] == rows;
      if last.channel != channel {
        f := f + [|front|];
      } else {
        assert Cleared(front, channel) + [] == Cleared(front, channel);
      }
    }
  }

  lemma {:induction false} DeletePicks(rows: seq<Stroke>, id: nat) returns (f: seq<nat>)
    ensures Picks(DeleteId(rows, id), rows, f)
  {
    f := [];
    if rows != [] {
      var front, last := rows[..|rows| - 1], rows[|rows| - 1];
      f := DeletePicks(front, id);
      PicksMore(DeleteId(front, id), front, f, last);
      assert front + [last] == rows;
      if last.id != id {
        f := f + [|front|];
      } else {
        assert DeleteId(front, id) + [] == DeleteId(front, id);
      }
    }
  }

  lemma PickedIsOk(a: seq<Stroke>, b: seq<Stroke>, f: seq<nat>, nextId: nat)
    requires Picks(a, b, f) && TableOk(Table(b, nextId))
    ensures TableOk(Table(a, nextId))
  {
  }

  lemma StepKeepsOk(t: Table, e: Event, capped: bool)
    requires TableOk(t)
    ensures TableOk(Step(t, e, capped))
  {
    match e
    case AppendStroke(channel, author, uid, body) =>
      var longer := t.rows + [Stroke(t.nextId, channel, author, uid, body)];
      var f := TrimPicks(longer, channel, MAX_STROKES);
      PickedIsOk(Trim(longer, channel, MAX_STROKES), longer, f, t.nextId + 1);
    case UndoStroke(channel, author, uid) => UndoKeepsOk(t, channel, author, uid);
    case UndoLastStroke(channel, author) =>
      var n := Newest(t.rows, channel, author, None);
      if n.Some? {
        UndoKeepsOk(t, channel, author, n.value.uid);
      }
    case Clear(channel) =>
      var f := ClearPicks(t.rows, channel);
      PickedIsOk(Cleared(t.rows, channel), t.rows, f, t.nextId);
  }

  lemma UndoKeepsOk(t: Table, channel: string, author: string, uid: string)
    requires TableOk(t)
    ensures TableOk(t.(rows := Undo(t.rows, channel, author, uid)))
  {
    var n := Newest(t.rows, channel, author, Some(uid));
    if n.Some? {
      var f := DeletePicks(t.rows, n.value.id);
      PickedIsOk(DeleteId(t.rows, n.value.id), t.rows, f, t.nextId);
    }
  }

  lemma {:induction false} RunIsOk(events: seq<Event>, capped: bool)
    ensures TableOk(Run(events, capped))
  {
    if events != [] {
      RunIsOk(events[..|events| - 1], capped);
      StepKeepsOk(Run(events[..|events| - 1], capped), events[|events| - 1], capped);
    }
  }

  lemma {:induction false} SameIds(events: seq<Event>)
    ensures Run(events, true).nextId == Run(events, false).nextId
  {
    if events != [] {
      SameIds(events[..|events| - 1]);
    }
  }

  lemma StepKeepsSuffix(capped: Table, free: Table, e: Event, ch: string)
    requires TableOk(capped) && TableOk(free) && capped.nextId == free.nextId
    requires IsSuffix(Board(capped.rows, ch), Board(free.rows, ch)) && |Board(capped.rows, ch)| <= MAX_STROKES
    ensures IsSuffix(Board(Step(capped, e, true).rows, ch), Board(Step(free, e, false).rows, ch))
    ensures |Board(Step(capped, e, true).rows, ch)| <= MAX_STROKES
  {
    var a, b := Board(capped.rows, ch), Board(free.rows, ch);
    match e
    case AppendStroke(channel, author, uid, body) =>
      var row := Stroke(capped.nextId, channel, author, uid, body);
      BoardAppend(capped.rows, row, ch);
      BoardSnoc(free.rows, row, ch);
      SuffixAppend(a, b, row, MAX_STROKES);
    case UndoStroke(channel, author, uid) =>
      BoardUndo(capped.rows, channel, author, uid, ch);
      BoardUndo(free.rows, channel, author, uid, ch);
      SuffixUndo(a, b, channel, author, Some(uid));
      WithoutNewestIsShorter(a, channel, author, Some(uid));
    case UndoLastStroke(channel, author) =>
      BoardUndoLastOnTable(capped.rows, channel, author, ch);
      BoardUndoLastOnTable(free.rows, channel, author, ch);
      SuffixUndoLast(a, b, channel, author);
      WithoutNewestIsShorter(a, channel, author, None);
    case Clear(channel) =>
      BoardCleared(capped.rows, channel, ch);
      BoardCleared(free.rows, channel, ch);
  }

  lemma {:induction false} WithoutNewestIsShorter(
    board: seq<Stroke>, channel: string, author: string, uid: Option<string>)
    ensures |WithoutNewest(board, channel, author, uid)| <= |board|
  {
    if board != [] {
      WithoutNewestIsShorter(board[..|board| - 1], channel, author, uid);
    }
  }

  /** On every serial run the capped board of a channel is a suffix of the board that the same operations
      give without the cap, and holds at most 4000 strokes. */
  lemma {:induction false} CappedIsSuffix(events: seq<Event>, ch: string)
    ensures IsSuffix(Board(Run(events, true).rows, ch), Board(Run(events, false).rows, ch))
    ensures |Board(Run(events, true).rows, ch)| <= MAX_STROKES
  {
    if events != [] {
      var before := events[..|events| - 1];
      CappedIsSuffix(before, ch);
      RunIsOk(before, true);
      RunIsOk(before, false);
      SameIds(before);
      StepKeepsSuffix(Run(before, true), Run(before, false), events[|events| - 1], ch);
    }
  }

  /** An operation on one channel leaves every other board alone. */
  lemma OtherChannelsUntouched(t: Table, e: Event, ch: string)
    requires TableOk(t) && e.channel != ch
    ensures Board(Step(t, e, true).rows, ch) == Board(t.rows, ch)
  {
    match e
    case AppendStroke(channel, author, uid, body) =>
      BoardAppend(t.rows, Stroke(t.nextId, channel, author, uid, body), ch);
    case UndoStroke(channel, author, uid) => BoardUndo(t.rows, channel, author, uid, ch);
    case UndoLastStroke(channel, author) => BoardUndoLastOnTable(t.rows, channel, author, ch);
    case Clear(channel) => BoardCleared(t.rows, channel, ch);
  }

  // ----- The operations as the server runs them

  class Store {
    var rows: seq<Stroke>
    var nextId: nat

    ghost function Contents(): Table
      reads this
    {
      Table(rows, nextId)
    }

    constructor ()
      ensures Contents() == Run([], true)
    {
      rows, nextId := [], 1;
    }

    method AppendStroke(channel: string, author: string, uid: string, body: string) returns (id: nat)
      modifies this
      ensures id == old(nextId)
      ensures Contents() == Step(old(Contents()), Event.AppendStroke(channel, author, uid, body), true)
    {
      id := nextId;
      rows := rows + [Stroke(id, channel, author, uid, body)];
      nextId := nextId + 1;
      var n := |Board(rows, channel)|;
      if n > MAX_STROKES {
        rows := Trim(rows, channel, MAX_STROKES);
      }
    }

    /** Every stroke of a board, oldest first. */
    method WhiteboardState(channel: string) returns (out: seq<string>)
      ensures |out| == |Board(rows, channel)|
      ensures forall i :: 0 <= i < |out| ==> out[i] == Board(rows, channel)[i].body
    {
      var selected := Board(rows, channel);
      out := [];
      for i := 0 to |selected|
        invariant |out| == i && forall k :: 0 <= k < i ==> out[k] == selected[k].body
      {
        out := out + [selected[i].body];
      }
    }

    method UndoStroke(channel: string, author: string, uid: string) returns (r: Option<Stroke>)
      modifies this`rows
      ensures r == if uid == "" then None else Newest(old(rows), channel, author, Some(uid))
      ensures Contents() == Step(old(Contents()), Event.UndoStroke(channel, author, uid), true)
    {
      if uid == "" {
        return None;
      }
      r := Newest(rows, channel, author, Some(uid));
      if r.Some? {
        rows := DeleteId(rows, r.value.id);
      }
    }

    method UndoLastStroke(channel: string, author: string) returns (r: Option<Stroke>)
      modifies this`rows
      ensures r.Some? ==> r == Newest(old(rows), channel, author, None)
      ensures Contents() == Step(old(Contents()), Event.UndoLastStroke(channel, author), true)
    {
      var newest := Newest(rows, channel, author, None);
      if newest.None? {
        return None;
      }
      NewestHasItsUid(rows, channel, author);
      r := UndoStroke(channel, author, newest.value.uid);
    }

    method ClearWhiteboard(channel: string)
      modifies this`rows
      ensures Contents() == Step(old(Contents()), Clear(channel), true)
    {
      rows := Cleared(rows, channel);
    }
  }
}
