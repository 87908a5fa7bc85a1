/** Message history in pages: the newest messages before a cursor, returned oldest first. */
module History {

  import opened Common

  /** A row of the channel or of the direct message table; fields the table lacks are empty. */
  datatype Message = Message(
    id: nat, msgId: string, channel: string, sender: string, recipient: string,
    body: string, edited: bool, deleted: bool, pinned: bool)

  /** A message as a client gets it.  Channel messages carry their row id, direct messages do not. */
  datatype Item = Item(
    id: Option<nat>, msgId: string, channel: string, sender: string, recipient: string,
    body: string, edited: bool, deleted: bool, pinned: bool)

  /** A channel, or the direct messages between two parties. */
  datatype Scope = Channel(id: string) | Direct(a: string, b: string)

  predicate InScope(m: Message, scope: Scope) {
    match scope
    case Channel(id) => m.channel == id
    case Direct(a, b) => (m.sender == a && m.recipient == b) || (m.sender == b && m.recipient == a)
  }

  function Clamp(limit: int, scope: Scope): (n: nat)
    ensures n >= 1
  {
    if limit <= 0 || limit > 200 then (if scope.Channel? then 50 else 100) else limit
  }

  /** WHERE scope [AND id < before], in id order; 0 stands for no cursor. */
  function Selected(rows: seq<Message>, scope: Scope, before: nat): seq<Message> {
    if rows == [] then []
    else
      var last := rows[|rows| - 1];
      Selected(rows[..|rows| - 1], scope, before) +
      (if InScope(last, scope) && (before == 0 || last.id < before) then [last] else [])
  }

  function Reversed<T>(s: seq<T>): (r: seq<T>)
    ensures |r| == |s| && forall i :: 0 <= i < |s| ==> r[i] == s[|s| - 1 - i]
  {
    if s == [] then [] else Reversed(s[1..]) + [s[0]]
  }

  function Newest(s: seq<Message>, limit: nat): seq<Message> {
    if |s| <= limit then s else s[|s| - limit..]
  }

  /** ORDER BY id DESC LIMIT ? */
  function Query(rows: seq<Message>, scope: Scope, before: nat, limit: nat): seq<Message> {
    Reversed(Newest(Selected(rows, scope, before), limit))
  }

  /** A deleted message is shown without its text. */
  function Shown(m: Message, scope: Scope): Item {
    Item(if scope.Channel? then Some(m.id) else None, m.msgId, m.channel, m.sender, m.recipient,
         if m.deleted then "" else m.body, m.edited, m.deleted, m.pinned)
  }

  function AllShown(s: seq<Message>, scope: Scope): (r: seq<Item>)
    ensures |r| == |s| && forall i :: 0 <= i < |s| ==> r[i] == Shown(s[i], scope)
  {
    seq(|s|, i requires 0 <= i < |s| => Shown(s[i], scope))
  }

  /** One page, oldest first. */
  function Page(rows: seq<Message>, scope: Scope, before: nat, limit: int): seq<Message> {
    Newest(Selected(rows, scope, before), Clamp(limit, scope))
  }

  // ----- The page as the server builds it

  method ReverseInPlace(a: array<Item>)
    modifies a
    ensures a[..] == Reversed(old(a[..]))
  {
    ghost var was := a[..];
    var i, j := 0, a.Length - 1;
    while i < j
      invariant 0 <= i <= j + 1 <= a.Length && j == a.Length - 1 - i
      invariant forall k :: 0 <= k < a.Length && (k < i || j < k) ==> a[k] == was[a.Length - 1 - k]
      invariant forall k :: i <= k <= j ==> a[k] == was[k]
    {
      a[i], a[j] := a[j], a[i];
      i, j := i + 1, j - 1;
    }
  }

  lemma ShownCommutes(page: seq<Message>, scope: Scope)
    ensures Reversed(AllShown(Reversed(page), scope)) == AllShown(page, scope)
  {
  }

  /** A cursor that is not positive counts as none. */
  function Cursor(beforeId: int): nat {
    if beforeId > 0 then beforeId else 0
  }

  /** The reply to one request. */
  function Reply(rows: seq<Message>, scope: Scope, beforeId: int, limit: int): seq<Item> {
    AllShown(Page(rows, scope, Cursor(beforeId), limit), scope)
  }

  /** At most the clamp, and no deleted message's text. */
  lemma ReplyIsSafe(rows: seq<Message>, scope: Scope, beforeId: int, limit: int)
    ensures |Reply(rows, scope, beforeId, limit)| <=
            if 1 <= limit <= 200 then limit else if scope.Channel? then 50 else 100
    ensures forall x :: x in Reply(rows, scope, beforeId, limit) && x.deleted ==> x.body == ""
  {
  }

  method FetchHistory(rows: seq<Message>, scope: Scope, beforeId: int, limit: int) returns (out: array<Item>)
    ensures fresh(out) && out[..] == Reply(rows, scope, beforeId, limit)
    ensures out.Length <= if 1 <= limit <= 200 then limit else if scope.Channel? then 50 else 100
    ensures forall x :: x in out[..] && x.deleted ==> x.body == ""
  {
    var result := Query(rows, scope, Cursor(beforeId), Clamp(limit, scope));
    out := new Item[|result|](_ => Item(None, "", "", "", "", "", false, false, false));
    for i := 0 to |result|
      invariant forall k :: 0 <= k < i ==> out[k] == Shown(result[k], scope)
    {
      out[i] := Shown(result[i], scope);
    }
    assert out[..] == AllShown(result, scope);
    ReplyIsSafe(rows, scope, beforeId, limit);
    ReverseInPlace(out);
    ShownCommutes(Page(rows, scope, Cursor(beforeId), limit), scope);
  }

  // ----- Pages join up

  /** Ids are positive and rise with the rows. */
  ghost predicate RowsOk(rows: seq<Message>) {
    (forall i :: 0 <= i < |rows| ==> rows[i].id >= 1) && Rising(rows)
  }

  ghost predicate Rising(s: seq<Message>) {
    forall i, j :: 0 <= i < j < |s| ==> s[i].id < s[j].id
  }

  lemma {:induction false} SelectedMembers(rows: seq<Message>, scope: Scope, before: nat)
    ensures forall m :: m in Selected(rows, scope, before) ==> m in rows && (before == 0 || m.id < before)
  {
    if rows != [] {
      SelectedMembers(rows[..|rows| - 1], scope, before);
    }
  }

  lemma RisingSnoc(s: seq<Message>, m: Message)
    requires RowsOk(s) && m.id >= 1 && forall i :: 0 <= i < |s| ==> s[i].id < m.id
    ensures RowsOk(s + [m])
  {
  }

  lemma {:induction false} SelectedRows(rows: seq<Message>, scope: Scope, before: nat)
    requires RowsOk(rows)
    ensures RowsOk(Selected(rows, scope, before))
  {
    if rows != [] {
      var front, last := rows[..|rows| - 1], rows[|rows| - 1];
      assert RowsOk(front);
      SelectedRows(front, scope, before);
      SelectedMembers(front, scope, before);
      var s := Selected(front, scope, before);
      forall i | 0 <= i < |s| ensures s[i].id < last.id {
        assert s[i] in front;
      }
      RisingSnoc(s, last);
    }
  }

  /** The rows of s below a bound. */
  function Below(s: seq<Message>, bound: nat): seq<Message> {
    if s == [] then [] else Below(s[..|s| - 1], bound) + (if s[|s| - 1].id < bound then [s[|s| - 1]] else [])
  }

  lemma {:induction false} NarrowerCursor(rows: seq<Message>, scope: Scope, before: nat, bound: nat)
    requires bound >= 1 && (before == 0 || bound <= before)
    ensures Selected(rows, scope, bound) == Below(Selected(rows, scope, before), bound)
  {
    if rows != [] {
      var front, last := rows[..|rows| - 1], rows[|rows| - 1];
      NarrowerCursor(front, scope, before, bound);
      var s := Selected(front, scope, before);
      assert (s + [last])[..|s|] == s;
      assert s + [] == s;
    }
  }

  lemma {:induction false} BelowRising(s: seq<Message>, p: nat)
    requires Rising(s) && p < |s|
    ensures Below(s, s[p].id) == s[..p]
  {
    var front := s[..|s| - 1];
    assert forall i :: 0 <= i < |front| ==> front[i] == s[i];
    if p < |front| {
      BelowRising(front, p);
      assert front[..p] == s[..p];
    } else {
      AllBelow(front, s[p].id);
    }
  }

  lemma {:induction false} AllBelow(s: seq<Message>, bound: nat)
    requires forall i :: 0 <= i < |s| ==> s[i].id < bound
    ensures Below(s, bound) == s
  {
    if s != [] {
      var front := s[..|s| - 1];
      assert forall i :: 0 <= i < |front| ==> front[i] == s[i];
      AllBelow(front, bound);
    }
  }

  lemma NewestIsTail(s: seq<Message>, limit: nat) returns (p: nat)
    requires limit >= 1 && s != []
    ensures p < |s| && Newest(s, limit) == s[p..] && Newest(s, limit)[0] == s[p]
    ensures s == s[..p] + Newest(s, limit)
  {
    p := if |s| <= limit then 0 else |s| - limit;
  }

  /** What lies before the oldest message of a page, followed by the page, is everything. */
  lemma PageSplits(rows: seq<Message>, scope: Scope, before: nat, limit: int)
    requires RowsOk(rows) && Page(rows, scope, before, limit) != []
    ensures var page := Page(rows, scope, before, limit);
            && page[0].id >= 1 && (before == 0 || page[0].id < before)
            && Selected(rows, scope, before) == Selected(rows, scope, page[0].id) + page
  {
    SelectedRows(rows, scope, before);
    var s := Selected(rows, scope, before);
    var p := NewestIsTail(s, Clamp(limit, scope));
    CursorSplits(rows, scope, before, s, p);
  }

  lemma CursorSplits(rows: seq<Message>, scope: Scope, before: nat, s: seq<Message>, p: nat)
    requires RowsOk(rows) && s == Selected(rows, scope, before) && p < |s|
    ensures s[p].id >= 1 && (before == 0 || s[p].id < before)
    ensures Selected(rows, scope, s[p].id) == s[..p]
  {
    SelectedRows(rows, scope, before);
    SelectedMembers(rows, scope, before);
    assert s[p] in s;
    NarrowerCursor(rows, scope, before, s[p].id);
    BelowRising(s, p);
  }

  // ----- Walking back through a channel while it changes

  ghost predicate At(rows: seq<Message>, channel: string, id: nat) {
    exists i :: 0 <= i < |rows| && rows[i].id == id && rows[i].channel == channel
  }

  /** A message keeps its id and its channel, and ids of vanished messages are not used again. */
  ghost predicate NothingInThePast(first: seq<Message>, rows: seq<Message>) {
    forall i :: 0 <= i < |rows| ==>
      At(first, rows[i].channel, rows[i].id) || forall j :: 0 <= j < |first| ==> first[j].id < rows[i].id
  }

  /** The table at the time of the k-th request: messages are added with larger ids; earlier ones may be
      edited, blanked, pinned and deleted. */
  ghost predicate Evolves(tables: nat -> seq<Message>) {
    forall k: nat :: RowsOk(tables(k)) && NothingInThePast(tables(0), tables(k))
  }

  ghost predicate Seen(items: seq<Item>, id: nat) {
    exists i :: 0 <= i < |items| && items[i].id == Some(id)
  }

  /** All items carry ids, in ascending order. */
  ghost predicate ItemsRise(items: seq<Item>) {
    && (forall i :: 0 <= i < |items| ==> items[i].id.Some?)
    && (forall i, j :: 0 <= i < j < |items| ==> items[i].id.value < items[j].id.value)
  }

  ghost predicate ItemsBelow(items: seq<Item>, bound: nat) {
    forall i :: 0 <= i < |items| ==> items[i].id.Some? && items[i].id.value < bound
  }

  /** The messages a client collects from request k on, taking the oldest id it was sent as its cursor. */
  ghost function WalkFrom(tables: nat -> seq<Message>, channel: string, before: nat, limit: int, k: nat): seq<Item>
    requires Evolves(tables) && before >= 1
    decreases before
  {
    var page := Reply(tables(k), Channel(channel), before, limit);
    if page == [] then []
    else
      assert page[0].id.Some? && 1 <= page[0].id.value < before by {
        ReplyInOrder(tables(k), channel, before, limit);
      }
      WalkFrom(tables, channel, page[0].id.value, limit, k + 1) + page
  }

  /** The whole walk: the first request has no cursor. */
  ghost function Walk(tables: nat -> seq<Message>, channel: string, limit: int): seq<Item>
    requires Evolves(tables)
  {
    var page := Reply(tables(0), Channel(channel), 0, limit);
    if page == [] then []
    else
      assert page[0].id.Some? && 1 <= page[0].id.value by {
        ReplyInOrder(tables(0), channel, 0, limit);
      }
      WalkFrom(tables, channel, page[0].id.value, limit, 1) + page
  }

  /** The items of a reply carry ids, ascending and before the cursor. */
  lemma ReplyInOrder(rows: seq<Message>, channel: string, before: nat, limit: int)
    requires RowsOk(rows)
    ensures var page := Reply(rows, Channel(channel), before, limit);
            && ItemsRise(page) && (before >= 1 ==> ItemsBelow(page, before))
            && (page != [] ==> page[0].id.value >= 1)
  {
    var s, page := Selected(rows, Channel(channel), before), Page(rows, Channel(channel), before, limit);
    SelectedRows(rows, Channel(channel), before);
    SelectedMembers(rows, Channel(channel), before);
    forall i | 0 <= i < |page| ensures page[i] in s {
    }
  }

  /** A message before the cursor is in the reply, or before the oldest item of it. */
  lemma ReplyOrOlder(rows: seq<Message>, channel: string, before: nat, limit: int, id: nat)
    requires RowsOk(rows) && At(rows, channel, id) && (before == 0 || id < before)
    ensures var page := Reply(rows, Channel(channel), before, limit);
            page != [] && page[0].id.Some? && (Seen(page, id) || id < page[0].id.value)
  {
    var scope := Channel(channel);
    var i :| 0 <= i < |rows| && rows[i].id == id && rows[i].channel == channel;
    SelectedIsComplete(rows, scope, before);
    assert rows[i] in Selected(rows, scope, before);
    var page := Page(rows, scope, before, limit);
    PageSplits(rows, scope, before, limit);
    if rows[i] in page {
      var p :| 0 <= p < |page| && page[p] == rows[i];
      assert Reply(rows, scope, before, limit)[p].id == Some(id);
    } else {
      SelectedMembers(rows, scope, page[0].id);
      assert rows[i] in Selected(rows, scope, page[0].id);
    }
  }

  lemma JoinInOrder(older: seq<Item>, page: seq<Item>)
    requires ItemsRise(older) && ItemsRise(page) && page != [] && ItemsBelow(older, page[0].id.value)
    ensures ItemsRise(older + page)
  {
  }

  lemma SeenInJoin(older: seq<Item>, page: seq<Item>, id: nat)
    ensures Seen(older + page, id) <==> Seen(older, id) || Seen(page, id)
  {
    var all := older + page;
    if Seen(older, id) {
      var i :| 0 <= i < |older| && older[i].id == Some(id);
      assert all[i].id == Some(id);
    }
    if Seen(page, id) {
      var i :| 0 <= i < |page| && page[i].id == Some(id);
      assert all[|older| + i].id == Some(id);
    }
  }

  lemma {:induction false} WalkInOrder(tables: nat -> seq<Message>, channel: string, before: nat, limit: int, k: nat)
    requires Evolves(tables) && before >= 1
    ensures ItemsRise(WalkFrom(tables, channel, before, limit, k))
    ensures ItemsBelow(WalkFrom(tables, channel, before, limit, k), before)
    decreases before
  {
    var page := Reply(tables(k), Channel(channel), before, limit);
    assert RowsOk(tables(k));
    ReplyInOrder(tables(k), channel, before, limit);
    if page != [] {
      WalkInOrder(tables, channel, page[0].id.value, limit, k + 1);
      JoinInOrder(WalkFrom(tables, channel, page[0].id.value, limit, k + 1), page);
    }
  }

  /** In the channel at every request. */
  ghost predicate Stays(tables: nat -> seq<Message>, channel: string, id: nat) {
    forall k: nat :: At(tables(k), channel, id)
  }

  lemma {:induction false} WalkReaches(
    tables: nat -> seq<Message>, channel: string, before: nat, limit: int, k: nat, id: nat)
    requires Evolves(tables) && before >= 1 && Stays(tables, channel, id) && id < before
    ensures Seen(WalkFrom(tables, channel, before, limit, k), id)
    decreases before
  {
    var page := Reply(tables(k), Channel(channel), before, limit);
    assert RowsOk(tables(k)) && At(tables(k), channel, id);
    ReplyInOrder(tables(k), channel, before, limit);
    ReplyOrOlder(tables(k), channel, before, limit, id);
    var next := page[0].id.value;
    SeenInJoin(WalkFrom(tables, channel, next, limit, k + 1), page, id);
    if !Seen(page, id) {
      WalkReaches(tables, channel, next, limit, k + 1, id);
    }
  }

  /** The item shows some row of the channel as it stood at the time of a request. */
  ghost predicate ShowsARow(tables: nat -> seq<Message>, channel: string, item: Item) {
    exists j: nat, m :: m in tables(j) && m.channel == channel && item == Shown(m, Channel(channel))
  }

  lemma ReplyShowsRows(tables: nat -> seq<Message>, channel: string, before: nat, limit: int, k: nat, item: Item)
    requires item in Reply(tables(k), Channel(channel), before, limit)
    ensures ShowsARow(tables, channel, item)
  {
    var scope := Channel(channel);
    var page := Page(tables(k), scope, before, limit);
    var i :| 0 <= i < |page| && Shown(page[i], scope) == item;
    assert page[i] in Selected(tables(k), scope, before);
    SelectedIsComplete(tables(k), scope, before);
    assert page[i] in tables(k) && item == Shown(page[i], scope);
  }

  lemma {:induction false} LaterItemsShowRows(
    tables: nat -> seq<Message>, channel: string, before: nat, limit: int, k: nat, item: Item)
    requires Evolves(tables) && before >= 1 && item in WalkFrom(tables, channel, before, limit, k)
    ensures ShowsARow(tables, channel, item)
    decreases before
  {
    var page := Reply(tables(k), Channel(channel), before, limit);
    if item in page {
      ReplyShowsRows(tables, channel, before, limit, k, item);
    } else {
      assert RowsOk(tables(k));
      ReplyInOrder(tables(k), channel, before, limit);
      LaterItemsShowRows(tables, channel, page[0].id.value, limit, k + 1, item);
    }
  }

  /** Nothing is collected but rows of the channel, each as it stood at one of the requests. */
  lemma WalkShowsRows(tables: nat -> seq<Message>, channel: string, limit: int, item: Item)
    requires Evolves(tables) && item in Walk(tables, channel, limit)
    ensures ShowsARow(tables, channel, item)
  {
    var page := Reply(tables(0), Channel(channel), 0, limit);
    if item in page {
      ReplyShowsRows(tables, channel, 0, limit, 0, item);
    } else {
      assert RowsOk(tables(0));
      ReplyInOrder(tables(0), channel, 0, limit);
      LaterItemsShowRows(tables, channel, page[0].id.value, limit, 1, item);
    }
  }

  /** A row shown below an id of the first table was already in it. */
  lemma ShownIsOld(tables: nat -> seq<Message>, channel: string, item: Item, bound: nat)
    requires Evolves(tables) && ShowsARow(tables, channel, item)
    requires item.id.Some? && item.id.value <= bound && At(tables(0), channel, bound)
    ensures At(tables(0), channel, item.id.value)
  {
    var k: nat, m :| m in tables(k) && m.channel == channel && item == Shown(m, Channel(channel));
    assert NothingInThePast(tables(0), tables(k));
    var i :| 0 <= i < |tables(k)| && tables(k)[i] == m;
    var j :| 0 <= j < |tables(0)| && tables(0)[j].id == bound;
    assert tables(0)[j].id >= tables(k)[i].id;
  }

  lemma FirstReplyIsOld(tables: nat -> seq<Message>, channel: string, limit: int, id: nat)
    requires Evolves(tables) && Seen(Reply(tables(0), Channel(channel), 0, limit), id)
    ensures At(tables(0), channel, id)
  {
    var page := Page(tables(0), Channel(channel), 0, limit);
    var i :| 0 <= i < |page| && page[i].id == id;
    assert page[i] in Selected(tables(0), Channel(channel), 0);
    SelectedIsComplete(tables(0), Channel(channel), 0);
  }

  lemma WalkIsOld(tables: nat -> seq<Message>, channel: string, limit: int, id: nat)
    requires Evolves(tables) && Seen(Walk(tables, channel, limit), id)
    ensures At(tables(0), channel, id)
  {
    var page := Reply(tables(0), Channel(channel), 0, limit);
    assert RowsOk(tables(0));
    ReplyInOrder(tables(0), channel, 0, limit);
    var bound := page[0].id.value;
    var older := WalkFrom(tables, channel, bound, limit, 1);
    SeenInJoin(older, page, id);
    if Seen(page, id) {
      FirstReplyIsOld(tables, channel, limit, id);
    } else {
      var i :| 0 <= i < |older| && older[i].id == Some(id);
      WalkInOrder(tables, channel, bound, limit, 1);
      LaterItemsShowRows(tables, channel, bound, limit, 1, older[i]);
      assert page[0].id == Some(bound);
      FirstReplyIsOld(tables, channel, limit, bound);
      ShownIsOld(tables, channel, older[i], bound);
    }
  }

  lemma WalkIsWhole(tables: nat -> seq<Message>, channel: string, limit: int, id: nat)
    requires Evolves(tables) && Stays(tables, channel, id)
    ensures Seen(Walk(tables, channel, limit), id)
  {
    var page := Reply(tables(0), Channel(channel), 0, limit);
    assert RowsOk(tables(0)) && At(tables(0), channel, id);
    ReplyInOrder(tables(0), channel, 0, limit);
    ReplyOrOlder(tables(0), channel, 0, limit, id);
    var next := page[0].id.value;
    SeenInJoin(WalkFrom(tables, channel, next, limit, 1), page, id);
    if !Seen(page, id) {
      WalkReaches(tables, channel, next, limit, 1, id);
    }
  }

  /**
   Following the oldest id it was sent, a client collects ids in ascending order, each once; among them
   every message of the channel that was there at every request, and none that was not there at the first,
   however many messages arrive, are edited, blanked, pinned and deleted meanwhile.  The walk ends.
   */
  lemma WalkCollectsEverything(tables: nat -> seq<Message>, channel: string, limit: int)
    requires Evolves(tables)
    ensures ItemsRise(Walk(tables, channel, limit))
    ensures forall id :: Stays(tables, channel, id) ==> Seen(Walk(tables, channel, limit), id)
    ensures forall id :: Seen(Walk(tables, channel, limit), id) ==> At(tables(0), channel, id)
  {
    WalkRises(tables, channel, limit);
    forall id: nat | Stays(tables, channel, id) ensures Seen(Walk(tables, channel, limit), id) {
      WalkIsWhole(tables, channel, limit, id);
    }
    forall id: nat | Seen(Walk(tables, channel, limit), id) ensures At(tables(0), channel, id) {
      WalkIsOld(tables, channel, limit, id);
    }
  }

  lemma WalkRises(tables: nat -> seq<Message>, channel: string, limit: int)
    requires Evolves(tables)
    ensures ItemsRise(Walk(tables, channel, limit))
  {
    var page := Reply(tables(0), Channel(channel), 0, limit);
    assert RowsOk(tables(0));
    ReplyInOrder(tables(0), channel, 0, limit);
    if page != [] {
      WalkInOrder(tables, channel, page[0].id.value, limit, 1);
      JoinInOrder(WalkFrom(tables, channel, page[0].id.value, limit, 1), page);
    }
  }

  /** The query finds exactly the messages in scope before the cursor. */
  lemma {:induction false} SelectedIsComplete(rows: seq<Message>, scope: Scope, before: nat)
    ensures forall m ::
              m in Selected(rows, scope, before) <==> m in rows && InScope(m, scope) && (before == 0 || m.id < before)
  {
    if rows != [] {
      var front, last := rows[..|rows| - 1], rows[|rows| - 1];
      SelectedIsComplete(front, scope, before);
      assert rows == front + [last];
    }
  }

  // ----- Direct messages: replies carry no cursor

  /** The first reply shows the whole conversation exactly if it is no longer than the clamp. */
  lemma FirstReplyIsWhole(rows: seq<Message>, scope: Scope, limit: int)
    ensures Reply(rows, scope, 0, limit) == AllShown(Selected(rows, scope, 0), scope)
            <==> |Selected(rows, scope, 0)| <= Clamp(limit, scope)
  {
    var s := Selected(rows, scope, 0);
    if |s| > Clamp(limit, scope) {
      assert |Reply(rows, scope, 0, limit)| < |AllShown(s, scope)|;
    }
  }

  /** The next cursor as a client computes it from all replies so far. */
  type Client = seq<seq<Item>> -> int

  /** The replies to the first n requests. */
  function Replies(rows: seq<Message>, scope: Scope, limit: int, client: Client, n: nat): seq<seq<Item>> {
    if n == 0 then []
    else
      var seen := Replies(rows, scope, limit, client, n - 1);
      seen + [Reply(rows, scope, client(seen), limit)]
  }

  /** The same messages under other row ids. */
  function Shift(rows: seq<Message>, base: nat): (r: seq<Message>)
    ensures |r| == |rows| && forall i :: 0 <= i < |rows| ==> r[i] == rows[i].(id := rows[i].id + base)
  {
    seq(|rows|, i requires 0 <= i < |rows| => rows[i].(id := rows[i].id + base))
  }

  lemma ShiftSnoc(s: seq<Message>, m: Message, base: nat)
    ensures Shift(s + [m], base) == Shift(s, base) + [m.(id := m.id + base)]
  {
  }

  lemma SelectedSnoc(rows: seq<Message>, m: Message, scope: Scope, before: nat)
    ensures Selected(rows + [m], scope, before)
            == Selected(rows, scope, before) + (if InScope(m, scope) && (before == 0 || m.id < before) then [m] else [])
  {
    assert (rows + [m])[..|rows|] == rows;
  }

  lemma SelectedShiftStep(front: seq<Message>, last: Message, scope: Scope, base: nat)
    requires Selected(Shift(front, base), scope, 0) == Shift(Selected(front, scope, 0), base)
    ensures Selected(Shift(front + [last], base), scope, 0) == Shift(Selected(front + [last], scope, 0), base)
  {
    ShiftSnoc(front, last, base);
    SelectedSnoc(Shift(front, base), last.(id := last.id + base), scope, 0);
    SelectedSnoc(front, last, scope, 0);
    if InScope(last, scope) {
      ShiftSnoc(Selected(front, scope, 0), last, base);
    } else {
      assert Selected(front, scope, 0) + [] == Selected(front, scope, 0);
    }
  }

  lemma {:induction false} SelectedShift(rows: seq<Message>, scope: Scope, base: nat)
    ensures Selected(Shift(rows, base), scope, 0) == Shift(Selected(rows, scope, 0), base)
  {
    if rows != [] {
      var front, last := rows[..|rows| - 1], rows[|rows| - 1];
      SelectedShift(front, scope, base);
      SelectedShiftStep(front, last, scope, base);
      assert rows == front + [last];
    }
  }

  lemma {:induction false} NothingBelow(rows: seq<Message>, scope: Scope, before: nat)
    requires before >= 1 && forall i :: 0 <= i < |rows| ==> rows[i].id >= before
    ensures Selected(rows, scope, before) == []
  {
    if rows != [] {
      NothingBelow(rows[..|rows| - 1], scope, before);
    }
  }

  lemma ReplyShift(rows: seq<Message>, a: string, b: string, base: nat, beforeId: int, limit: int)
    requires RowsOk(rows) && beforeId <= base
    ensures Reply(Shift(rows, base), Direct(a, b), beforeId, limit)
            == if beforeId <= 0 then Reply(rows, Direct(a, b), 0, limit) else []
  {
    if beforeId <= 0 {
      SelectedShift(rows, Direct(a, b), base);
    } else {
      NothingBelow(Shift(rows, base), Direct(a, b), beforeId);
    }
  }

  /** What the client sees while every cursor it names lies below all row ids. */
  function Blind(first: seq<Item>, client: Client, n: nat): seq<seq<Item>> {
    if n == 0 then []
    else
      var seen := Blind(first, client, n - 1);
      seen + [if client(seen) <= 0 then first else []]
  }

  function LargestCursor(first: seq<Item>, client: Client, n: nat): nat {
    if n == 0 then 0
    else
      var c, m := client(Blind(first, client, n - 1)), LargestCursor(first, client, n - 1);
      if c > m then c else m
  }

  lemma {:induction false} ClientIsBlind(
    rows: seq<Message>, a: string, b: string, limit: int, client: Client, n: nat, base: nat)
    requires RowsOk(rows) && base >= LargestCursor(Reply(rows, Direct(a, b), 0, limit), client, n)
    ensures Replies(Shift(rows, base), Direct(a, b), limit, client, n)
            == Blind(Reply(rows, Direct(a, b), 0, limit), client, n)
  {
    if n > 0 {
      ClientIsBlind(rows, a, b, limit, client, n - 1, base);
      ReplyShift(rows, a, b, base, client(Blind(Reply(rows, Direct(a, b), 0, limit), client, n - 1)), limit);
    }
  }

  lemma {:induction false} BlindSeesTheFirst(first: seq<Item>, client: Client, n: nat)
    ensures |Blind(first, client, n)| == n
    ensures forall i :: 0 <= i < n ==> Blind(first, client, n)[i] == first || Blind(first, client, n)[i] == []
  {
    if n > 0 {
      BlindSeesTheFirst(first, client, n - 1);
    }
  }

  /**
   However a client computes its cursors, and for any number of requests fixed in advance: to every
   conversation longer than the clamp there is one with the same messages of which those requests return
   nothing but the newest page.
   */
  lemma DirectHistoryStopsAtOnePage(
    rows: seq<Message>, a: string, b: string, limit: int, client: Client, n: nat) returns (same: seq<Message>)
    requires RowsOk(rows) && |Selected(rows, Direct(a, b), 0)| > Clamp(limit, Direct(a, b))
    ensures RowsOk(same) && |same| == |rows|
    ensures forall i :: 0 <= i < |rows| ==> same[i] == rows[i].(id := same[i].id)
    ensures var scope := Direct(a, b);
            var replies := Replies(same, scope, limit, client, n);
            && |replies| == n
            && (forall i :: 0 <= i < n ==> replies[i] == [] || replies[i] == Reply(rows, scope, 0, limit))
            && |Reply(rows, scope, 0, limit)| < |Selected(same, scope, 0)| == |Selected(rows, scope, 0)|
  {
    var first := Reply(rows, Direct(a, b), 0, limit);
    var base := LargestCursor(first, client, n);
    same := Shift(rows, base);
    ClientIsBlind(rows, a, b, limit, client, n, base);
    BlindSeesTheFirst(first, client, n);
    SelectedShift(rows, Direct(a, b), base);
  }

  // ----- Counting through the ids

  /** The client that asks with the cursors 1, 2, 3 and so on. */
  const Counting: Client := seen => |seen| + 1

  lemma {:induction false} CountingAsks(rows: seq<Message>, scope: Scope, limit: int, n: nat, i: nat)
    requires i < n
    ensures |Replies(rows, scope, limit, Counting, n)| == n
    ensures Replies(rows, scope, limit, Counting, n)[i] == Reply(rows, scope, i + 1, limit)
  {
    if n > 1 {
      CountingAsks(rows, scope, limit, n - 1, if i < n - 1 then i else 0);
    }
  }

  lemma LargestIsLast(s: seq<Message>, m: Message)
    requires Rising(s) && m in s && forall i :: 0 <= i < |s| ==> s[i].id <= m.id
    ensures s[|s| - 1] == m
  {
    var i :| 0 <= i < |s| && s[i] == m;
    assert s[|s| - 1].id <= m.id;
  }

  lemma SelectedBelow(rows: seq<Message>, scope: Scope, before: nat)
    requires before >= 1
    ensures forall i :: 0 <= i < |Selected(rows, scope, before)| ==> Selected(rows, scope, before)[i].id < before
  {
    var s := Selected(rows, scope, before);
    SelectedMembers(rows, scope, before);
    forall i | 0 <= i < |s| ensures s[i].id < before {
      assert s[i] in s;
    }
  }

  lemma LastSelected(rows: seq<Message>, scope: Scope, m: Message)
    requires RowsOk(rows) && m in rows && InScope(m, scope)
    ensures var s := Selected(rows, scope, m.id + 1); s != [] && s[|s| - 1] == m
  {
    var before := m.id + 1;
    SelectedRows(rows, scope, before);
    SelectedBelow(rows, scope, before);
    assert m in Selected(rows, scope, before) by {
      SelectedIsComplete(rows, scope, before);
    }
    LargestIsLast(Selected(rows, scope, before), m);
  }

  lemma NewestKeepsLast(s: seq<Message>, limit: nat)
    requires s != [] && limit >= 1
    ensures var p := Newest(s, limit); p != [] && p[|p| - 1] == s[|s| - 1]
  {
  }

  /** The newest message before a cursor is in the reply. */
  lemma JustBeforeCursor(rows: seq<Message>, scope: Scope, m: Message, limit: int)
    requires RowsOk(rows) && m in rows && InScope(m, scope)
    ensures Shown(m, scope) in Reply(rows, scope, m.id + 1, limit)
  {
    var before := m.id + 1;
    LastSelected(rows, scope, m);
    NewestKeepsLast(Selected(rows, scope, before), Clamp(limit, scope));
    InReply(rows, scope, before, limit, |Page(rows, scope, before, limit)| - 1);
  }

  lemma InReply(rows: seq<Message>, scope: Scope, before: nat, limit: int, i: nat)
    requires i < |Page(rows, scope, before, limit)|
    ensures Shown(Page(rows, scope, before, limit)[i], scope) in Reply(rows, scope, before, limit)
  {
    assert Cursor(before) == before;
    assert Reply(rows, scope, before, limit)[i] == Shown(Page(rows, scope, before, limit)[i], scope);
  }

  /** The other half: on any given table, enough requests of that client show every message in scope. */
  lemma CountingFindsEverything(rows: seq<Message>, scope: Scope, limit: int, n: nat, m: Message)
    requires RowsOk(rows) && m in rows && InScope(m, scope)
    requires forall i :: 0 <= i < |rows| ==> rows[i].id < n
    ensures |Replies(rows, scope, limit, Counting, n)| == n && m.id < n
    ensures Shown(m, scope) in Replies(rows, scope, limit, Counting, n)[m.id]
  {
    CountingAsks(rows, scope, limit, n, m.id);
    JustBeforeCursor(rows, scope, m, limit);
  }
}
