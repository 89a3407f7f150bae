/** The `properties` table of the hosted store, as an in-memory map from id to row. */
module Store {
  import opened Listing

  /** The error `.single()` raises when a statement matched no row; both gateways rethrow it. */
  datatype StoreError = NoRows

  /** Positions of `r` hold distinct ids. */
  predicate DistinctIds(r: seq<Property>) {
    forall i, j :: 0 <= i < j < |r| ==> r[i].id != r[j].id
  }

  /** `created_at` descending: newest first. */
  predicate NewestFirst(r: seq<Property>) {
    forall i, j :: 0 <= i < j < |r| ==> r[i].createdAt >= r[j].createdAt
  }

  function IdsOf(r: seq<Property>): set<int> {
    set i | 0 <= i < |r| :: r[i].id
  }

  /** Every row is filed under its own id. */
  predicate KeyedById(rows: map<int, Property>) {
    forall id | id in rows :: rows[id].id == id
  }

  /**
   * `r` is what `select('*') ... .order('created_at', { ascending: false })` returns for the
   * rows whose ids are `sel`: each of those rows once, unchanged, newest first. Rows with
   * equal `created_at` may come in any order.
   */
  predicate IsOrderedSelection(rows: map<int, Property>, sel: set<int>, r: seq<Property>) {
    && IdsOf(r) == sel
    && DistinctIds(r)
    && NewestFirst(r)
    && forall i :: 0 <= i < |r| ==> r[i].id in rows && r[i] == rows[r[i].id]
  }

  lemma NonEmptyHasElement(s: set<int>)
    requires s != {}
    ensures exists x :: x in s
  {
    if forall x :: x !in s {
      assert false;
    }
  }

  /** An id in `sel` whose row is at least as new as every other row of `sel`. */
  ghost function Newest(rows: map<int, Property>, sel: set<int>): (m: int)
    requires sel != {} && sel <= rows.Keys
    ensures m in sel
    ensures forall id | id in sel :: rows[m].createdAt >= rows[id].createdAt
    decreases sel
  {
    NonEmptyHasElement(sel);
    var x :| x in sel;
    if sel == {x} then x
    else
      var m := Newest(rows, sel - {x});
      if rows[x].createdAt >= rows[m].createdAt then x else m
  }

  /** The rows of `sel`, newest first. */
  ghost function NewestFirstRows(rows: map<int, Property>, sel: set<int>): (r: seq<Property>)
    requires sel <= rows.Keys && KeyedById(rows)
    ensures IsOrderedSelection(rows, sel, r)
    decreases sel
  {
    if sel == {} then []
    else
      var m := Newest(rows, sel);
      var rest := NewestFirstRows(rows, sel - {m});
      PrependNewest(rows, sel, m, rest);
      [rows[m]] + rest
  }

  /** Putting the newest row of `sel` before an ordered selection of the others orders all of `sel`. */
  lemma PrependNewest(rows: map<int, Property>, sel: set<int>, m: int, rest: seq<Property>)
    requires KeyedById(rows) && sel <= rows.Keys && m in sel
    requires forall id | id in sel :: rows[m].createdAt >= rows[id].createdAt
    requires IsOrderedSelection(rows, sel - {m}, rest)
    ensures IsOrderedSelection(rows, sel, [rows[m]] + rest)
  {
    var r := [rows[m]] + rest;
    forall id | id in sel
      ensures id in IdsOf(r)
    {
      if id != m {
        assert id in IdsOf(rest);
        var k :| 0 <= k < |rest| && rest[k].id == id;
        assert r[k + 1] == rest[k];
      } else {
        assert r[0].id == id;
      }
    }
    forall id | id in IdsOf(r)
      ensures id in sel
    {
      var k :| 0 <= k < |r| && r[k].id == id;
      if k > 0 {
        assert r[k] == rest[k - 1];
        assert rest[k - 1].id in IdsOf(rest);
      }
    }
    forall i, j | 0 <= i < j < |r|
      ensures r[i].id != r[j].id && r[i].createdAt >= r[j].createdAt
    {
      assert r[j] == rest[j - 1];
      if i == 0 {
        assert r[j].id in IdsOf(rest);
      } else {
        assert r[i] == rest[i - 1];
      }
    }
  }

  /** The store's `properties` table. */
  class Table {
    var rows: map<int, Property>
    /** The next value of the table's identity column. */
    var nextId: int

    ghost predicate Valid()
      reads this
    {
      KeyedById(rows) && forall id | id in rows :: id < nextId
    }

    constructor ()
      ensures Valid() && rows == map[]
    {
      rows := map[];
      nextId := 1;
    }

    /** `insert([row]).select().single()`: the store assigns a fresh id and returns the stored row. */
    method Insert(row: Property) returns (stored: Property)
      requires Valid()
      modifies this
      ensures Valid()
      ensures stored.id !in old(rows)
      ensures stored == row.(id := stored.id)
      ensures rows == old(rows)[stored.id := stored]
    {
      stored := row.(id := nextId);
      rows := rows[nextId := stored];
      nextId := nextId + 1;
    }

    /** The rows whose ids are `sel`, in `created_at` descending order (ties in the store's order). */
    method SelectNewestFirst(sel: set<int>) returns (r: seq<Property>)
      requires Valid() && sel <= rows.Keys
      ensures IsOrderedSelection(rows, sel, r)
    {
      ghost var sorted := NewestFirstRows(rows, sel);
      r :| IsOrderedSelection(rows, sel, r);
    }
  }
}
