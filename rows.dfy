/** A table of the SQLite file: a sequence of rows, each keyed by its rowid.

    Every table of the application declares `id INTEGER PRIMARY KEY` without
    `AUTOINCREMENT`, so `id` is the rowid and SQLite gives an inserted row
    "largest id in the table + 1", or 1 when the table is empty. A deleted
    maximum id is therefore handed out again. The model keeps each table in
    increasing id order; since every new id exceeds all present ones, an
    insert appends at the end. */
module Rows {

  datatype Row<D> = Row(id: nat, fields: D)

  /** Ids strictly increase along the table, so they are pairwise distinct. */
  predicate Ascending<D>(rows: seq<Row<D>>) {
    forall i, j :: 0 <= i < j < |rows| ==> rows[i].id < rows[j].id
  }

  /** The largest id in the table, 0 for an empty table. */
  function MaxId<D>(rows: seq<Row<D>>): (m: nat)
    ensures forall i :: 0 <= i < |rows| ==> rows[i].id <= m
    ensures rows != [] ==> exists i :: 0 <= i < |rows| && rows[i].id == m
  {
    if rows == [] then 0
    else
      var m := MaxId(rows[..|rows| - 1]);
      if rows[|rows| - 1].id > m then rows[|rows| - 1].id else m
  }

  /** The rowid SQLite assigns to the next inserted row. */
  function NextId<D>(rows: seq<Row<D>>): (id: nat)
    ensures id >= 1
    ensures forall i :: 0 <= i < |rows| ==> rows[i].id < id
    ensures rows == [] ==> id == 1
    ensures rows != [] ==> exists i :: 0 <= i < |rows| && rows[i].id == id - 1
  {
    if rows == [] then 1 else MaxId(rows) + 1
  }

  /** `INSERT` of a row whose id is left to SQLite. */
  function Insert<D>(rows: seq<Row<D>>, fields: D): (r: seq<Row<D>>)
    ensures |r| == |rows| + 1 && r[..|rows|] == rows
    ensures r[|rows|] == Row(NextId(rows), fields)
    ensures Ascending(rows) ==> Ascending(r)
  {
    rows + [Row(NextId(rows), fields)]
  }

  /** The rows that satisfy `keep`, in their original order. */
  function Filter<T(!new)>(s: seq<T>, keep: T -> bool): (r: seq<T>)
    ensures |r| <= |s|
    ensures forall x :: x in r <==> x in s && keep(x)
    ensures (forall i :: 0 <= i < |s| ==> keep(s[i])) ==> r == s
    decreases |s|
  {
    if s == [] then []
    else
      var rest := Filter(s[..|s| - 1], keep);
      assert s == s[..|s| - 1] + [s[|s| - 1]];
      if keep(s[|s| - 1]) then rest + [s[|s| - 1]] else rest
  }

  /** `DELETE FROM t WHERE <not keep>` leaves the ids in order. */
  lemma {:induction false} FilterAscending<D(!new)>(rows: seq<Row<D>>, keep: Row<D> -> bool)
    requires Ascending(rows)
    ensures Ascending(Filter(rows, keep))
    decreases |rows|
  {
    if rows != [] {
      var init := rows[..|rows| - 1];
      FilterAscending(init, keep);
      var rest := Filter(init, keep);
      forall x | x in rest
        ensures x.id < rows[|rows| - 1].id
      {
        var i :| 0 <= i < |init| && init[i] == x;
      }
    }
  }

  /** Filtering a table that grew by one row. */
  lemma {:induction false} FilterAppend<T(!new)>(s: seq<T>, x: T, keep: T -> bool)
    ensures Filter(s + [x], keep) == Filter(s, keep) + (if keep(x) then [x] else [])
  {
    assert (s + [x])[..|s + [x]| - 1] == s;
  }

  /** Two predicates that agree on the rows select the same rows. */
  lemma {:induction false} FilterCongruent<T(!new)>(s: seq<T>, p: T -> bool, q: T -> bool)
    requires forall i :: 0 <= i < |s| ==> p(s[i]) == q(s[i])
    ensures Filter(s, p) == Filter(s, q)
    decreases |s|
  {
    if s != [] {
      FilterCongruent(s[..|s| - 1], p, q);
    }
  }

  /** `UPDATE t SET ... WHERE id = key`: every row with that id is rewritten
      by `change`, the others stay, and no row moves. */
  function UpdateById<D>(rows: seq<Row<D>>, key: int, change: D -> D): (r: seq<Row<D>>)
    ensures |r| == |rows|
    ensures forall i :: 0 <= i < |rows| ==> r[i].id == rows[i].id
    ensures forall i :: 0 <= i < |rows| && rows[i].id == key ==> r[i].fields == change(rows[i].fields)
    ensures forall i :: 0 <= i < |rows| && rows[i].id != key ==> r[i] == rows[i]
    ensures (forall i :: 0 <= i < |rows| ==> rows[i].id != key) ==> r == rows
    ensures Ascending(rows) ==> Ascending(r)
  {
    seq(|rows|, i requires 0 <= i < |rows| =>
      if rows[i].id == key then Row(rows[i].id, change(rows[i].fields)) else rows[i])
  }

  /** `DELETE FROM t WHERE id = key`: the row with that id goes, every other
      row stays in its place. */
  function DeleteById<D(!new)>(rows: seq<Row<D>>, key: int): (r: seq<Row<D>>)
    ensures |r| <= |rows|
    ensures forall x :: x in r <==> x in rows && x.id != key
    ensures !HasId(r, key)
    ensures !HasId(rows, key) ==> r == rows
    ensures Ascending(rows) ==> Ascending(r)
  {
    var keep := (x: Row<D>) => x.id != key;
    var r := Filter(rows, keep);
    if Ascending(rows) then FilterAscending(rows, keep); r else r
  }

  /** Rows inserted one after the other, each with the id SQLite gives it. */
  function InsertAll<D>(rows: seq<Row<D>>, items: seq<D>): seq<Row<D>>
    decreases |items|
  {
    if items == [] then rows else Insert(InsertAll(rows, items[..|items| - 1]), items[|items| - 1])
  }

  /** One more insertion extends the inserted prefix by one item. */
  lemma InsertAllStep<D>(rows: seq<Row<D>>, items: seq<D>, k: nat)
    requires k < |items|
    ensures InsertAll(rows, items[..k + 1]) == Insert(InsertAll(rows, items[..k]), items[k])
  {
    assert items[..k + 1][..k] == items[..k];
  }

  /** Inserting keeps the ids ascending. */
  lemma {:induction false} InsertAllAscending<D>(rows: seq<Row<D>>, items: seq<D>)
    requires Ascending(rows)
    ensures Ascending(InsertAll(rows, items))
    ensures |InsertAll(rows, items)| == |rows| + |items|
    decreases |items|
  {
    if items != [] {
      InsertAllAscending(rows, items[..|items| - 1]);
    }
  }

  /** Into an empty table, the i-th inserted row gets id i + 1. */
  lemma {:induction false} InsertAllFromEmpty<D>(items: seq<D>)
    ensures |InsertAll([], items)| == |items|
    ensures forall i :: 0 <= i < |items| ==> InsertAll([], items)[i] == Row(i + 1, items[i])
    decreases |items|
  {
    if items != [] {
      var n := |items|;
      var init := items[..n - 1];
      InsertAllFromEmpty(init);
      var before: seq<Row<D>> := InsertAll([], init);
      CountingNextId(before);
      var after := InsertAll([], items);
      assert after == Insert(before, items[n - 1]);
      assert after[..n - 1] == before && after[n - 1] == Row(n, items[n - 1]);
      forall i | 0 <= i < n ensures after[i] == Row(i + 1, items[i]) {
        if i < n - 1 {
          assert after[i] == before[i];
          assert init[i] == items[i];
        }
      }
    }
  }

  /** A table numbered 1, 2, ..., n hands out n + 1 next. */
  lemma CountingNextId<D>(rows: seq<Row<D>>)
    requires forall i :: 0 <= i < |rows| ==> rows[i].id == i + 1
    ensures NextId(rows) == |rows| + 1
  {
    if rows != [] {
      var k :| 0 <= k < |rows| && rows[k].id == MaxId(rows);
      assert rows[|rows| - 1].id <= MaxId(rows);
    }
  }

  /** Whether the table holds a row with this id. */
  predicate HasId<D>(rows: seq<Row<D>>, key: int) {
    exists i :: 0 <= i < |rows| && rows[i].id == key
  }
}
