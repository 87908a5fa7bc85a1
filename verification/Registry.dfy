/**
 The connection registry: for each user a Go slice of live connections.  Slices share their backing
 arrays, appending may write into spare capacity and removal shifts elements in place, so the model
 keeps the arrays on the heap.
 */
module Registry {

  /** A connection's identity. */
  type Conn = nat

  datatype Slice = Slice(data: array<Conn>, len: nat)

  function RemoveFirst(s: seq<Conn>, c: Conn): (r: seq<Conn>)
    ensures |r| == |s| - (if c in s then 1 else 0)
  {
    if s == [] then [] else if s[0] == c then s[1..] else [s[0]] + RemoveFirst(s[1..], c)
  }

  lemma {:induction false} RemoveFirstAt(s: seq<Conn>, c: Conn, i: nat)
    requires i < |s| && s[i] == c && forall k :: 0 <= k < i ==> s[k] != c
    ensures RemoveFirst(s, c) == s[..i] + s[i + 1..]
  {
    if i > 0 {
      RemoveFirstAt(s[1..], c, i - 1);
      assert s[..i] == [s[0]] + s[1..][..i - 1];
    }
  }

  lemma {:induction false} RemoveAbsent(s: seq<Conn>, c: Conn)
    requires c !in s
    ensures RemoveFirst(s, c) == s
  {
    if s != [] {
      RemoveAbsent(s[1..], c);
    }
  }

  /** The first occurrence of c is taken out of a list, if there is one. */
  ghost predicate FirstTaken(s: seq<Conn>, c: Conn, rest: seq<Conn>) {
    if c in s then
      exists i :: 0 <= i < |s| && s[i] == c && (forall k :: 0 <= k < i ==> s[k] != c) && rest == s[..i] + s[i + 1..]
    else rest == s
  }

  lemma {:induction false} FirstPlace(s: seq<Conn>, c: Conn) returns (i: nat)
    requires c in s
    ensures i < |s| && s[i] == c && forall k :: 0 <= k < i ==> s[k] != c
  {
    if s[0] == c {
      i := 0;
    } else {
      var j := FirstPlace(s[1..], c);
      i := j + 1;
    }
  }

  lemma RemoveFirstTakes(s: seq<Conn>, c: Conn)
    ensures FirstTaken(s, c, RemoveFirst(s, c))
  {
    if c in s {
      var i := FirstPlace(s, c);
      RemoveFirstAt(s, c, i);
    } else {
      RemoveAbsent(s, c);
    }
  }

  /** append(cs[:i], cs[i+1:]...): everything after i moves down by one, in place. */
  method ShiftDown(a: array<Conn>, i: nat, len: nat)
    requires i < len <= a.Length
    modifies a
    ensures a[..len - 1] == old(a[..i]) + old(a[i + 1..len])
  {
    ghost var was := a[..];
    var j := i;
    while j + 1 < len
      invariant i <= j < len
      invariant forall k :: 0 <= k < i ==> a[k] == was[k]
      invariant forall k :: i <= k < j ==> a[k] == was[k + 1]
      invariant forall k :: j <= k < len ==> a[k] == was[k]
    {
      a[j] := a[j + 1];
      j := j + 1;
    }
  }

  class Registry {
    var clients: map<string, Slice>
    /** The backing arrays, and the arrays that callers have been given. */
    ghost var Repr: set<array<Conn>>
    ghost var handedOut: set<array<Conn>>

    /** Nobody has an empty list; no two users share an array; no caller's copy is a backing array. */
    ghost predicate Valid()
      reads this, Repr
    {
      && (forall u :: u in clients ==> clients[u].data in Repr && 1 <= clients[u].len <= clients[u].data.Length)
      && (forall u, v :: u in clients && v in clients && u != v ==> clients[u].data != clients[v].data)
      && Repr !! handedOut
    }

    /** The registered connections of a user, none for a user without an entry. */
    ghost function Listed(u: string): seq<Conn>
      requires Valid()
      reads this, Repr
    {
      if u in clients then clients[u].data[..clients[u].len] else []
    }

    constructor ()
      ensures Valid() && handedOut == {} && fresh(Repr)
      ensures forall u :: Listed(u) == []
    {
      clients, Repr, handedOut := map[], {}, {};
    }

    /** A copy that the caller may use without the lock. */
    method ClientsOf(username: string) returns (out: array<Conn>)
      requires Valid()
      modifies this`handedOut
      ensures Valid() && Repr == old(Repr) && clients == old(clients)
      ensures fresh(out) && out[..] == Listed(username) && handedOut == old(handedOut) + {out}
    {
      if username !in clients {
        out := new Conn[0];
      } else {
        var cs := clients[username];
        out := new Conn[cs.len](i requires 0 <= i < cs.len && cs.len <= cs.data.Length reads cs.data => cs.data[i]);
      }
      handedOut := handedOut + {out};
    }

    method IsOnline(username: string) returns (online: bool)
      requires Valid()
      ensures online <==> username in clients
      ensures online <==> Listed(username) != []
    {
      online := username in clients && clients[username].len > 0;
    }

    /** Distinct signed-in users, not open sockets. */
    method OnlineUserCount() returns (n: nat)
      requires Valid()
      ensures n == |set u | u in clients && Listed(u) != []|
    {
      n := |clients|;
      assert (set u | u in clients && Listed(u) != []) == clients.Keys;
    }

    /** append: into spare capacity when there is some, else into a larger array. */
    method AddClient(username: string, c: Conn)
      requires Valid()
      modifies this`clients, this`Repr, Repr
      ensures Valid() && handedOut == old(handedOut) && fresh(Repr - old(Repr))
      ensures forall u :: Listed(u) == if u == username then old(Listed(u)) + [c] else old(Listed(u))
      ensures forall snapshot :: snapshot in old(handedOut) ==> snapshot[..] == old(snapshot[..])
    {
      if username in clients && clients[username].len < clients[username].data.Length {
        var cs := clients[username];
        cs.data[cs.len] := c;
        clients := clients[username := Slice(cs.data, cs.len + 1)];
        assert cs.data[..cs.len + 1] == old(Listed(username)) + [c];
      } else {
        var data, len := Grown(username, c);
        clients := clients[username := Slice(data, len)];
        Repr := Repr + {data};
      }
    }

    method Grown(username: string, c: Conn) returns (data: array<Conn>, len: nat)
      requires Valid()
      ensures fresh(data) && 1 <= len <= data.Length && data[..len] == Listed(username) + [c]
    {
      var n := if username in clients then clients[username].len else 0;
      len := n + 1;
      data := new Conn[2 * n + 1](_ => c);
      if username in clients {
        var cs := clients[username];
        forall i | 0 <= i < n {
          data[i] := cs.data[i];
        }
      }
    }

    method IndexOf(username: string, c: Conn) returns (i: nat)
      requires Valid() && username in clients
      ensures i <= clients[username].len
      ensures forall k :: 0 <= k < i ==> clients[username].data[k] != c
      ensures i < clients[username].len ==> clients[username].data[i] == c
    {
      var cs := clients[username];
      i := 0;
      while i < cs.len && cs.data[i] != c
        invariant i <= cs.len
        invariant forall k :: 0 <= k < i ==> cs.data[k] != c
      {
        i := i + 1;
      }
    }

    /** Drops one registration and says how many the user has left. */
    method RemoveClient(username: string, c: Conn) returns (left: nat)
      requires Valid()
      modifies this`clients, Repr
      ensures Valid() && Repr == old(Repr) && handedOut == old(handedOut)
      ensures left == |Listed(username)| && FirstTaken(old(Listed(username)), c, Listed(username))
      ensures forall u :: Listed(u) == if u == username then RemoveFirst(old(Listed(u)), c) else old(Listed(u))
      ensures forall snapshot :: snapshot in old(handedOut) ==> snapshot[..] == old(snapshot[..])
    {
      RemoveFirstTakes(Listed(username), c);
      if username !in clients {
        return 0;
      }
      var i := IndexOf(username, c);
      if i == clients[username].len {
        RemoveAbsent(Listed(username), c);
        return i;
      }
      RemoveFirstAt(Listed(username), c, i);
      left := RemoveAt(username, i);
    }

    method RemoveAt(username: string, i: nat) returns (left: nat)
      requires Valid() && username in clients && i < clients[username].len
      modifies this`clients, Repr
      ensures Valid() && Repr == old(Repr) && handedOut == old(handedOut)
      ensures left == |Listed(username)|
      ensures Listed(username) == old(Listed(username)[..i] + Listed(username)[i + 1..])
      ensures forall u :: u != username ==> Listed(u) == old(Listed(u))
    {
      var cs := clients[username];
      ghost var was := Listed(username);
      ShiftDown(cs.data, i, cs.len);
      left := cs.len - 1;
      assert cs.data[..left] == was[..i] + was[i + 1..];
      if left == 0 {
        clients := clients - {username};
      } else {
        clients := clients[username := Slice(cs.data, left)];
      }
    }

    /** Takes all of a user's connections out; the slice itself goes to the caller, uncopied. */
    method DropAllClients(username: string) returns (dropped: Slice)
      requires Valid()
      modifies this`clients, this`Repr, this`handedOut
      ensures Valid() && Repr <= old(Repr)
      ensures forall u :: Listed(u) == if u == username then [] else old(Listed(u))
      ensures dropped.len <= dropped.data.Length && dropped.data[..dropped.len] == old(Listed(username))
      ensures dropped.data in handedOut && old(handedOut) <= handedOut
    {
      if username !in clients {
        var none := new Conn[0];
        dropped := Slice(none, 0);
      } else {
        dropped := clients[username];
        clients := clients - {username};
        Repr := Repr - {dropped.data};
      }
      handedOut := handedOut + {dropped.data};
    }
  }

  datatype Operation =
    | Register(user: string, c: Conn)
    | Remove(user: string, c: Conn)
    | DropAll(user: string)

  /** A user's list after one operation. */
  function NextList(list: seq<Conn>, user: string, op: Operation): seq<Conn> {
    if op.user != user then list
    else match op
      case Register(_, c) => list + [c]
      case Remove(_, c) => RemoveFirst(list, c)
      case DropAll(_) => []
  }

  /** A user's list after some operations. */
  function ListAfter(list: seq<Conn>, user: string, ops: seq<Operation>): seq<Conn> {
    if ops == [] then list else NextList(ListAfter(list, user, ops[..|ops| - 1]), user, ops[|ops| - 1])
  }

  method Perform(r: Registry, op: Operation)
    requires r.Valid()
    modifies r, r.Repr
    ensures r.Valid() && old(r.handedOut) <= r.handedOut && fresh(r.Repr - old(r.Repr))
    ensures forall u :: r.Listed(u) == NextList(old(r.Listed(u)), u, op)
    ensures forall snapshot :: snapshot in old(r.handedOut) ==> snapshot[..] == old(snapshot[..])
  {
    match op
    case Register(user, c) => r.AddClient(user, c);
    case Remove(user, c) => var _ := r.RemoveClient(user, c);
    case DropAll(user) => var _ := r.DropAllClients(user);
  }

  /** Whatever is registered, removed and dropped later, and for whomever, a snapshot does not change. */
  method SnapshotIsStable(r: Registry, watched: string, ops: seq<Operation>) returns (snapshot: array<Conn>)
    requires r.Valid()
    modifies r, r.Repr
    ensures snapshot[..] == old(r.Listed(watched))
    ensures r.Valid() && snapshot in r.handedOut
    ensures forall u :: r.Listed(u) == ListAfter(old(r.Listed(u)), u, ops)
  {
    snapshot := r.ClientsOf(watched);
    for i := 0 to |ops|
      invariant r.Valid() && snapshot in r.handedOut && fresh(r.Repr - old(r.Repr))
      invariant snapshot[..] == old(r.Listed(watched))
      invariant forall u :: r.Listed(u) == ListAfter(old(r.Listed(u)), u, ops[..i])
    {
      assert ops[..i + 1][..i] == ops[..i];
      Perform(r, ops[i]);
    }
    assert ops[..|ops|] == ops;
  }
}
