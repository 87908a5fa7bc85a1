/** ORDER BY, as a stable insertion sort. */
module Sql {

  function Insert<T>(x: T, rows: seq<T>, le: (T, T) -> bool): (r: seq<T>)
    ensures multiset(r) == multiset(rows) + multiset{x}
  {
    if rows == [] || le(x, rows[0]) then [x] + rows
    else
      assert rows == [rows[0]] + rows[1..];
      [rows[0]] + Insert(x, rows[1..], le)
  }

  /** The rows of the query result are the selected rows, reordered. */
  function OrderBy<T>(rows: seq<T>, le: (T, T) -> bool): (r: seq<T>)
    ensures multiset(r) == multiset(rows)
  {
    if rows == [] then []
    else
      assert rows == [rows[0]] + rows[1..];
      Insert(rows[0], OrderBy(rows[1..], le), le)
  }

  ghost predicate Ordered<T>(rows: seq<T>, le: (T, T) -> bool) {
    forall i, j :: 0 <= i < j < |rows| ==> le(rows[i], rows[j])
  }

  lemma {:induction false} OrderedStays<T>(rows: seq<T>, le: (T, T) -> bool)
    requires Ordered(rows, le)
    ensures OrderBy(rows, le) == rows
  {
    if rows != [] {
      OrderedStays(rows[1..], le);
      assert [rows[0]] + rows[1..] == rows;
    }
  }

  lemma {:induction false} InsertKeepsOrder<T(!new)>(x: T, rows: seq<T>, le: (T, T) -> bool)
    requires forall a, b :: le(a, b) || le(b, a)
    requires forall a, b, c :: le(a, b) && le(b, c) ==> le(a, c)
    requires Ordered(rows, le)
    ensures Ordered(Insert(x, rows, le), le)
  {
    if rows != [] && !le(x, rows[0]) {
      var tail := Insert(x, rows[1..], le);
      InsertKeepsOrder(x, rows[1..], le);
      forall i | 0 <= i < |tail| ensures le(rows[0], tail[i]) {
        assert tail[i] in multiset(tail);
        assert tail[i] == x || tail[i] in rows[1..];
      }
    }
  }

  /** Under a total order the result is sorted. */
  lemma {:induction false} OrderBySorts<T(!new)>(rows: seq<T>, le: (T, T) -> bool)
    requires forall a, b :: le(a, b) || le(b, a)
    requires forall a, b, c :: le(a, b) && le(b, c) ==> le(a, c)
    ensures Ordered(OrderBy(rows, le), le)
  {
    if rows != [] {
      OrderBySorts(rows[1..], le);
      InsertKeepsOrder(rows[0], OrderBy(rows[1..], le), le);
    }
  }

  lemma SameRows<T>(rows: seq<T>, le: (T, T) -> bool)
    ensures forall x :: x in OrderBy(rows, le) <==> x in rows
  {
    forall x ensures x in OrderBy(rows, le) <==> x in rows {
      assert x in OrderBy(rows, le) <==> x in multiset(OrderBy(rows, le));
      assert x in rows <==> x in multiset(rows);
    }
  }
}
