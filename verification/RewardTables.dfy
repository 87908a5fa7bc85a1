/** The reward_crates and reward_crafts tables, and the queries made on them. */
module RewardTables {
  import opened Common
  import opened RewardRolls
  import opened Sql

  /** A row of reward_crates.  A row's id is its position in the table plus one. */
  datatype Crate = Crate(id: nat, owner: string, source: string, item: Option<ItemId>,
                         shards: nat, createdAt: nat, openedAt: nat)

  datatype Craft = Craft(owner: string, item: ItemId, cost: nat)

  predicate HasSource(crates: seq<Crate>, source: string) {
    exists i :: 0 <= i < |crates| && crates[i].source == source
  }

  function NewRow(crates: seq<Crate>, owner: string, source: string, now: nat): Crate {
    Crate(|crates| + 1, owner, source, None, 0, now, 0)
  }

  /** INSERT OR IGNORE, the source column being UNIQUE. */
  function InsertOrIgnore(crates: seq<Crate>, owner: string, source: string, now: nat): seq<Crate> {
    if HasSource(crates, source) then crates else crates + [NewRow(crates, owner, source, now)]
  }

  /** WHERE owner = ? AND item IS NOT NULL, in id order. */
  function OpenedRows(crates: seq<Crate>, owner: string): seq<Crate> {
    if crates == [] then []
    else
      var last := crates[|crates| - 1];
      OpenedRows(crates[..|crates| - 1], owner) +
      (if last.owner == owner && last.item.Some? then [last] else [])
  }

  predicate ByOpenedAtThenId(a: Crate, b: Crate) {
    a.openedAt < b.openedAt || (a.openedAt == b.openedAt && a.id <= b.id)
  }

  function ItemOf(row: Crate): ItemId {
    if row.item.Some? then row.item.value else Other("")
  }

  function ItemsOf(rows: seq<Crate>): (items: seq<ItemId>)
    ensures |items| == |rows|
    ensures forall i :: 0 <= i < |rows| ==> items[i] == ItemOf(rows[i])
  {
    if rows == [] then [] else [ItemOf(rows[0])] + ItemsOf(rows[1..])
  }

  /** The query of rolledItems: what the owner's crates dropped, oldest first. */
  function RolledItems(crates: seq<Crate>, owner: string): seq<ItemId> {
    ItemsOf(OrderBy(OpenedRows(crates, owner), ByOpenedAtThenId))
  }

  /** What the owner's crates dropped, in id order. */
  function Drops(crates: seq<Crate>, owner: string): seq<ItemId> {
    ItemsOf(OpenedRows(crates, owner))
  }

  function Crafted(crafts: seq<Craft>, owner: string): set<ItemId> {
    set c | c in crafts && c.owner == owner :: c.item
  }

  /** openedItems as a set: everything rolled or crafted that the catalog knows. */
  function Inventory(crates: seq<Crate>, crafts: seq<Craft>, owner: string): set<ItemId> {
    (set id | id in RolledItems(crates, owner) && Known(id)) +
    (set id | id in Crafted(crafts, owner) && Known(id))
  }

  /** openCrate's first query: the oldest unopened crate, by position. */
  function FirstUnopened(crates: seq<Crate>, owner: string): (k: Option<nat>)
    ensures k.Some? ==> k.value < |crates|
  {
    if crates == [] then None
    else
      var last := |crates| - 1;
      match FirstUnopened(crates[..last], owner)
      case Some(k) => Some(k)
      case None => if crates[last].owner == owner && crates[last].item.None? then Some(last) else None
  }

  lemma {:induction false} FirstUnopenedIsFirst(crates: seq<Crate>, owner: string)
    ensures var k := FirstUnopened(crates, owner);
            if k.Some? then
              && crates[k.value].owner == owner && crates[k.value].item.None?
              && forall i :: 0 <= i < k.value && crates[i].owner == owner ==> crates[i].item.Some?
            else forall i :: 0 <= i < |crates| && crates[i].owner == owner ==> crates[i].item.Some?
  {
    if crates != [] {
      var front := crates[..|crates| - 1];
      FirstUnopenedIsFirst(front, owner);
      assert forall i :: 0 <= i < |front| ==> front[i] == crates[i];
    }
  }

  // ----- How the queries react to the statements

  lemma OpenedRowsAppendUnopened(crates: seq<Crate>, row: Crate, owner: string)
    requires row.item.None?
    ensures OpenedRows(crates + [row], owner) == OpenedRows(crates, owner)
  {
    assert (crates + [row])[..|crates|] == crates;
  }

  /** Opening row k, after which the owner has no opened row, appends that row to the query. */
  lemma {:induction false} OpenedRowsUpdate(crates: seq<Crate>, k: nat, row: Crate, owner: string)
    requires k < |crates| && crates[k].item.None? && row.item.Some? && row.owner == crates[k].owner
    requires forall j :: k < j < |crates| && crates[j].owner == row.owner ==> crates[j].item.None?
    ensures OpenedRows(crates[k := row], owner) ==
            OpenedRows(crates, owner) + (if owner == row.owner then [row] else [])
  {
    var n := |crates| - 1;
    if k == n {
      assert crates[k := row][..n] == crates[..n];
    } else {
      assert crates[k := row][..n] == crates[..n][k := row];
      OpenedRowsUpdate(crates[..n], k, row, owner);
    }
  }

  lemma ItemsOfAppend(rows: seq<Crate>, row: Crate)
    ensures ItemsOf(rows + [row]) == ItemsOf(rows) + [ItemOf(row)]
  {
  }

  /** The query result is drawn from the table, in table order. */
  lemma {:induction false} OpenedRowsAreRows(crates: seq<Crate>, owner: string)
    ensures forall r :: r in OpenedRows(crates, owner) ==> r in crates && r.owner == owner && r.item.Some?
  {
    if crates != [] {
      OpenedRowsAreRows(crates[..|crates| - 1], owner);
    }
  }
}
