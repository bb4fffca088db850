/** The sequential public number of tasks and tickets: `Task.save` and
    `Ticket.save` give a row without one the largest number in use plus one,
    and migration 0004 of each app numbers the existing rows 1, 2, ... in
    primary-key order. Both models share the same code, modelled once. */
module PublicIds {
  import opened Wrappers

  /** A row as these steps see it: its primary key and its public number. */
  datatype Row = Row(id: int, publicId: Option<nat>)

  /** `aggregate(Max('public_id'))['public_id__max'] or 0`: the largest number
      in use, 0 when none is (NULLs are ignored). */
  function MaxPublicId(rows: seq<Row>): (m: nat)
    ensures forall i :: 0 <= i < |rows| && rows[i].publicId.Some? ==> rows[i].publicId.value <= m
    ensures m == 0 || exists i :: 0 <= i < |rows| && rows[i].publicId == Some(m)
  {
    if |rows| == 0 then 0
    else
      var m := MaxPublicId(rows[..|rows| - 1]);
      var last := rows[|rows| - 1];
      if last.publicId.Some? && last.publicId.value > m then last.publicId.value
      else
        assert m != 0 ==> exists i :: 0 <= i < |rows| - 1 && rows[i].publicId == Some(m) by {
          if m != 0 {
            var i :| 0 <= i < |rows| - 1 && rows[..|rows| - 1][i].publicId == Some(m);
            assert rows[i] == rows[..|rows| - 1][i];
          }
        }
        m
  }

  /** No two rows share a public number. */
  ghost predicate UniquePublicIds(rows: seq<Row>) {
    forall i, j :: 0 <= i < j < |rows| && rows[i].publicId.Some? ==> rows[i].publicId != rows[j].publicId
  }

  /** The number `save()` stores for a row about to be written among `rows`:
      the row's own number when it has one, else the largest in use plus one. */
  function NumberOnSave(rows: seq<Row>, own: Option<nat>): (n: nat)
    ensures own.Some? ==> n == own.value
    ensures own.None? ==> n >= 1 && forall i :: 0 <= i < |rows| && rows[i].publicId.Some? ==> rows[i].publicId.value < n
    ensures own.None? && (forall i :: 0 <= i < |rows| ==> rows[i].publicId.None?) ==> n == 1
  {
    if own.Some? then own.value else MaxPublicId(rows) + 1
  }

  /** Saving a new row: it is appended with its number, which keeps the
      numbers unique when the row came without one. */
  function Insert(rows: seq<Row>, id: int, own: Option<nat>): (r: seq<Row>)
    requires UniquePublicIds(rows) && own.None?
    ensures r == rows + [Row(id, Some(NumberOnSave(rows, own)))]
    ensures UniquePublicIds(r)
  {
    rows + [Row(id, Some(NumberOnSave(rows, own)))]
  }

  /** Numbers handed out one save after another keep increasing. */
  lemma InsertIncreases(rows: seq<Row>, id1: int, id2: int)
    requires UniquePublicIds(rows)
    ensures var once := Insert(rows, id1, None);
      NumberOnSave(once, None) == NumberOnSave(rows, None) + 1
  {
    var once := Insert(rows, id1, None);
    var m := MaxPublicId(rows);
    var m2 := MaxPublicId(once);
    assert once[|once| - 1].publicId == Some(m + 1);
  }

  // ---------------------------------------------------------------------
  // Migration 0004: numbering the existing rows

  /** How many of the first `i` rows have no number. */
  function NullsBefore(rows: seq<Row>, i: nat): (k: nat)
    requires i <= |rows|
    ensures k <= i
  {
    if i == 0 then 0
    else NullsBefore(rows, i - 1) + (if rows[i - 1].publicId.None? then 1 else 0)
  }

  /** Primary keys in ascending order, as `order_by('id')` walks them. */
  ghost predicate AscendingIds(rows: seq<Row>) {
    forall i, j :: 0 <= i < j < |rows| ==> rows[i].id < rows[j].id
  }

  /** `out` is `rows` after the migration: the same rows in the same order,
      numbered rows unchanged, and the k-th row without a number, counting
      from 0, numbered k + 1. */
  ghost predicate Backfilled(rows: seq<Row>, out: seq<Row>) {
    && |out| == |rows|
    && (forall i {:trigger out[i]} :: 0 <= i < |rows| ==> out[i].id == rows[i].id)
    && (forall i {:trigger out[i]} :: 0 <= i < |rows| && rows[i].publicId.Some? ==> out[i] == rows[i])
    && (forall i {:trigger out[i]} :: 0 <= i < |rows| && rows[i].publicId.None? ==>
          out[i].publicId == Some(NullsBefore(rows, i) + 1))
  }

  /** `populate_*_public_id`: walking the rows in primary-key order, each row
      without a number gets the next of 1, 2, ...; a row that has one keeps
      it and does not move the counter. */
  method Backfill(rows: seq<Row>) returns (out: seq<Row>)
    requires AscendingIds(rows)
    ensures Backfilled(rows, out)
  {
    var last := 0;
    out := [];
    for i := 0 to |rows|
      invariant |out| == i
      invariant last == NullsBefore(rows, i)
      invariant forall k :: 0 <= k < i ==> out[k].id == rows[k].id
      invariant forall k :: 0 <= k < i && rows[k].publicId.Some? ==> out[k] == rows[k]
      invariant forall k :: 0 <= k < i && rows[k].publicId.None? ==>
        out[k].publicId == Some(NullsBefore(rows, k) + 1)
    {
      var row := rows[i];
      if row.publicId.None? {
        last := last + 1;
        row := row.(publicId := Some(last));
      }
      out := out + [row];
    }
  }

  /** Later rows without a number get larger numbers. */
  lemma {:induction false} NullsBeforeGrows(rows: seq<Row>, i: nat, j: nat)
    requires i < j <= |rows| && rows[i].publicId.None?
    ensures NullsBefore(rows, i) < NullsBefore(rows, j)
  {
    if j > i + 1 {
      NullsBeforeGrows(rows, i, j - 1);
    }
  }

  /** The numbers the migration hands out are distinct: the k-th row without
      a number, counting from 1, gets k. */
  lemma BackfillDistinct(rows: seq<Row>, out: seq<Row>, i: nat, j: nat)
    requires Backfilled(rows, out)
    requires i < j < |rows| && rows[i].publicId.None? && rows[j].publicId.None?
    ensures out[i].publicId != out[j].publicId
  {
    NullsBeforeGrows(rows, i, j);
  }

  /** With every row still unnumbered, as right after the column is added,
      the rows get 1, 2, ..., n in primary-key order. */
  lemma {:induction false} AllNullsNumbered(rows: seq<Row>, i: nat)
    requires i <= |rows|
    requires forall k :: 0 <= k < |rows| ==> rows[k].publicId.None?
    ensures NullsBefore(rows, i) == i
  {
    if i > 0 {
      AllNullsNumbered(rows, i - 1);
    }
  }

  /** The reverse step: every number cleared. */
  function Unpopulate(rows: seq<Row>): (r: seq<Row>)
    ensures |r| == |rows|
    ensures forall i :: 0 <= i < |rows| ==> r[i] == Row(rows[i].id, None)
  {
    seq(|rows|, i requires 0 <= i < |rows| => Row(rows[i].id, None))
  }

  /** What the migration makes of rows that all start without a number. */
  lemma UnnumberedGetPositions(rows: seq<Row>, out: seq<Row>)
    requires forall k :: 0 <= k < |rows| ==> rows[k].publicId.None?
    requires Backfilled(rows, out)
    ensures forall k {:trigger out[k]} :: 0 <= k < |rows| ==> out[k] == Row(rows[k].id, Some(k + 1))
  {
    forall k | 0 <= k < |rows|
      ensures out[k] == Row(rows[k].id, Some(k + 1))
    {
      AllNullsNumbered(rows, k);
    }
  }

  /** Rows numbered by their position share no number: the numbering a
      migration from all-NULL produces is injective. */
  lemma CountingIsUnique(rows: seq<Row>)
    requires forall i :: 0 <= i < |rows| ==> rows[i].publicId == Some(i + 1)
    ensures UniquePublicIds(rows)
  {
  }

  /** Migrating back and forth renumbers the rows 1, ..., n in primary-key
      order (so, by `CountingIsUnique`, no two rows share a number). */
  method RoundTrip(rows: seq<Row>) returns (out: seq<Row>)
    requires AscendingIds(rows)
    ensures |out| == |rows|
    ensures forall i :: 0 <= i < |rows| ==> out[i] == Row(rows[i].id, Some(i + 1))
  {
    var cleared := Unpopulate(rows);
    assert AscendingIds(cleared) by {
      forall i, j | 0 <= i < j < |cleared|
        ensures cleared[i].id < cleared[j].id
      {
        assert cleared[i].id == rows[i].id && cleared[j].id == rows[j].id;
      }
    }
    out := Backfill(cleared);
    UnnumberedGetPositions(cleared, out);
  }
}
