/**
 * The two stored tables, `schedules` and `schedules_update`, as in-memory
 * sequences of rows, and the facts about keys and ids that every operation
 * on them relies on.
 */
module Tables {
  import opened Types

  /** The identity key by which an upload is matched to stored rows. */
  datatype Key = Key(email: Option<string>, date: Date)

  function KeyOf(r: Record): Key {
    Key(r.email, r.date)
  }

  /** A stored row: its surrogate id and its columns. */
  datatype Row = Row(id: nat, rec: Record)

  function RowKey(row: Row): Key {
    KeyOf(row.rec)
  }

  /** A table: its rows in storage order and the next value of its id sequence. */
  datatype Table = Table(rows: seq<Row>, nextId: nat)

  /** The set of (email, date) pairs stored in `rows`. */
  function Keys(rows: seq<Row>): set<Key> {
    set row | row in rows :: RowKey(row)
  }

  /** The set of (email, date) pairs of a batch of records. */
  function BatchKeys(recs: seq<Record>): set<Key> {
    set r | r in recs :: KeyOf(r)
  }

  /** At most one row per (email, date). */
  predicate UniqueKeys(rows: seq<Row>) {
    forall i, j :: 0 <= i < j < |rows| ==> RowKey(rows[i]) != RowKey(rows[j])
  }

  /** No two records of a batch share an (email, date). */
  predicate DistinctKeys(recs: seq<Record>) {
    forall i, j :: 0 <= i < j < |recs| ==> KeyOf(recs[i]) != KeyOf(recs[j])
  }

  /** No two rows share an id. */
  predicate DistinctIds(rows: seq<Row>) {
    forall i, j :: 0 <= i < j < |rows| ==> rows[i].id != rows[j].id
  }

  /** Ids are distinct and all below the next id the table will hand out. */
  predicate ValidIds(t: Table) {
    && (forall i :: 0 <= i < |t.rows| ==> t.rows[i].id < t.nextId)
    && DistinctIds(t.rows)
  }

  /** `rows'` has the same rows as `rows` up to columns other than id, email and date. */
  predicate SameShape(rows: seq<Row>, rows': seq<Row>) {
    && |rows'| == |rows|
    && forall n :: 0 <= n < |rows| ==> rows'[n].id == rows[n].id && RowKey(rows'[n]) == RowKey(rows[n])
  }

  /** The index of the earliest stored row with key `k`, or None when no row has that key. */
  function FirstMatch(rows: seq<Row>, k: Key): (r: Option<nat>)
    ensures r.Some? <==> k in Keys(rows)
    ensures r.Some? ==> r.value < |rows| && RowKey(rows[r.value]) == k
    ensures r.Some? ==> forall j :: 0 <= j < r.value ==> RowKey(rows[j]) != k
    ensures r.None? ==> forall j :: 0 <= j < |rows| ==> RowKey(rows[j]) != k
  {
    if rows == [] then None
    else if RowKey(rows[0]) == k then Some(0)
    else
      assert Keys(rows) == {RowKey(rows[0])} + Keys(rows[1..]) by {
        assert rows == [rows[0]] + rows[1..];
      }
      match FirstMatch(rows[1..], k)
      case None => None
      case Some(i) => Some(i + 1)
  }

  lemma KeysAppend(rows: seq<Row>, row: Row)
    ensures Keys(rows + [row]) == Keys(rows) + {RowKey(row)}
  {
    assert row in rows + [row];
    forall k | k in Keys(rows + [row]) ensures k in Keys(rows) + {RowKey(row)} {
      var x :| x in rows + [row] && RowKey(x) == k;
      if x != row { assert x in rows; }
    }
  }

  lemma BatchKeysAppend(recs: seq<Record>, r: Record)
    ensures BatchKeys(recs + [r]) == BatchKeys(recs) + {KeyOf(r)}
  {
    assert r in recs + [r];
    forall k | k in BatchKeys(recs + [r]) ensures k in BatchKeys(recs) + {KeyOf(r)} {
      var x :| x in recs + [r] && KeyOf(x) == k;
      if x != r { assert x in recs; }
    }
  }

  /** Rewriting columns other than id, email and date changes neither the key set nor key uniqueness. */
  lemma SameShapeKeys(rows: seq<Row>, rows': seq<Row>)
    requires SameShape(rows, rows')
    ensures Keys(rows') == Keys(rows)
    ensures UniqueKeys(rows) ==> UniqueKeys(rows')
  {
    forall k | k in Keys(rows') ensures k in Keys(rows) {
      var x :| x in rows' && RowKey(x) == k;
      var n :| 0 <= n < |rows'| && rows'[n] == x;
      assert rows[n] in rows;
    }
    forall k | k in Keys(rows) ensures k in Keys(rows') {
      var x :| x in rows && RowKey(x) == k;
      var n :| 0 <= n < |rows| && rows[n] == x;
      assert rows'[n] in rows';
    }
  }

  /** Rewriting columns other than id keeps the ids valid. */
  lemma SameShapeIds(t: Table, rows': seq<Row>)
    requires ValidIds(t) && SameShape(t.rows, rows')
    ensures ValidIds(Table(rows', t.nextId))
  {
  }

  /** Appending a row with a fresh key keeps keys unique. */
  lemma UniqueAppend(rows: seq<Row>, row: Row)
    requires UniqueKeys(rows)
    requires forall j :: 0 <= j < |rows| ==> RowKey(rows[j]) != RowKey(row)
    ensures UniqueKeys(rows + [row])
  {
  }
}
