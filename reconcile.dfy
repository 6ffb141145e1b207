/**
 * The reconciliation pass: each normalised record is applied, in batch order,
 * to the canonical `schedules` table under the overwrite policy and to the
 * `schedules_update` mirror, which always takes the latest values. The pass is
 * specified here as functions over tables; `Store.Database.ProcessUpload` is
 * the loop that performs it.
 */
module Reconcile {
  import opened Types
  import opened Tables

  datatype CanonicalAction = Added | Updated | Skipped

  /** The per-table counters of one pass. */
  datatype CanonicalStats = CanonicalStats(added: nat, updated: nat, skipped: nat)
  datatype MirrorStats = MirrorStats(added: nat, updated: nat)

  /** Appends `rec` as a new row carrying the table's next id. */
  function Insert(t: Table, rec: Record): Table {
    Table(t.rows + [Row(t.nextId, rec)], t.nextId + 1)
  }

  /**
   * One record against `schedules`: the first row with the record's key has
   * all its columns replaced when overwriting is forced and is left alone
   * otherwise; a record whose key is not stored is inserted.
   */
  function CanonicalStep(t: Table, rec: Record, force: bool): (Table, CanonicalAction) {
    match FirstMatch(t.rows, KeyOf(rec))
    case Some(n) =>
      if force then (t.(rows := t.rows[n := Row(t.rows[n].id, rec)]), Updated)
      else (t, Skipped)
    case None => (Insert(t, rec), Added)
  }

  function Tally(s: CanonicalStats, a: CanonicalAction): CanonicalStats {
    match a
    case Added => s.(added := s.added + 1)
    case Updated => s.(updated := s.updated + 1)
    case Skipped => s.(skipped := s.skipped + 1)
  }

  /** The whole batch against `schedules`, record by record, with the counters. */
  function CanonicalPass(t: Table, recs: seq<Record>, force: bool): (Table, CanonicalStats)
    decreases |recs|
  {
    if recs == [] then (t, CanonicalStats(0, 0, 0))
    else
      var before := CanonicalPass(t, recs[..|recs| - 1], force);
      var step := CanonicalStep(before.0, recs[|recs| - 1], force);
      (step.0, Tally(before.1, step.1))
  }

  /** Every row with the record's key takes all of the record's columns. */
  function Overwrite(rows: seq<Row>, rec: Record): seq<Row> {
    seq(|rows|, n requires 0 <= n < |rows| =>
      if RowKey(rows[n]) == KeyOf(rec) then Row(rows[n].id, rec) else rows[n])
  }

  /**
   * One record against `schedules_update`: when the key is stored the record
   * overwrites the matching rows (the result says "updated"), otherwise it is
   * inserted.
   */
  function MirrorStep(t: Table, rec: Record): (Table, bool) {
    if FirstMatch(t.rows, KeyOf(rec)).Some? then (t.(rows := Overwrite(t.rows, rec)), true)
    else (Insert(t, rec), false)
  }

  function Count(s: MirrorStats, updated: bool): MirrorStats {
    if updated then s.(updated := s.updated + 1) else s.(added := s.added + 1)
  }

  /** The whole batch against `schedules_update`, with the counters. */
  function MirrorPass(t: Table, recs: seq<Record>): (Table, MirrorStats)
    decreases |recs|
  {
    if recs == [] then (t, MirrorStats(0, 0))
    else
      var before := MirrorPass(t, recs[..|recs| - 1]);
      var step := MirrorStep(before.0, recs[|recs| - 1]);
      (step.0, Count(before.1, step.1))
  }

  /** Passing over the first i + 1 records is passing over the first i and taking one more step. */
  lemma CanonicalPassNext(t: Table, recs: seq<Record>, i: nat, force: bool)
    requires i < |recs|
    ensures var before := CanonicalPass(t, recs[..i], force);
      var step := CanonicalStep(before.0, recs[i], force);
      CanonicalPass(t, recs[..i + 1], force) == (step.0, Tally(before.1, step.1))
  {
    assert recs[..i + 1][..i] == recs[..i];
  }

  lemma MirrorPassNext(t: Table, recs: seq<Record>, i: nat)
    requires i < |recs|
    ensures var before := MirrorPass(t, recs[..i]);
      var step := MirrorStep(before.0, recs[i]);
      MirrorPass(t, recs[..i + 1]) == (step.0, Count(before.1, step.1))
  {
    assert recs[..i + 1][..i] == recs[..i];
  }

  /** The last record of the batch with key `k`. */
  function LastWith(recs: seq<Record>, k: Key): (r: Option<Record>)
    ensures r.Some? ==> exists i :: (0 <= i < |recs| && recs[i] == r.value && KeyOf(recs[i]) == k
      && forall j :: i < j < |recs| ==> KeyOf(recs[j]) != k)
    ensures r.None? <==> k !in BatchKeys(recs)
    decreases |recs|
  {
    if recs == [] then None
    else
      var last := recs[|recs| - 1];
      assert recs == recs[..|recs| - 1] + [last];
      BatchKeysAppend(recs[..|recs| - 1], last);
      if KeyOf(last) == k then Some(last) else LastWith(recs[..|recs| - 1], k)
  }

  /** The first record of the batch with key `k`. */
  function FirstWith(recs: seq<Record>, k: Key): (r: Option<Record>)
    ensures r.Some? ==> exists i :: (0 <= i < |recs| && recs[i] == r.value && KeyOf(recs[i]) == k
      && forall j :: 0 <= j < i ==> KeyOf(recs[j]) != k)
    ensures r.None? <==> k !in BatchKeys(recs)
    decreases |recs|
  {
    if recs == [] then None
    else
      var last := recs[|recs| - 1];
      assert recs == recs[..|recs| - 1] + [last];
      BatchKeysAppend(recs[..|recs| - 1], last);
      var earlier := FirstWith(recs[..|recs| - 1], k);
      if earlier.Some? then earlier
      else if KeyOf(last) == k then Some(last)
      else None
  }

  /** Every row whose key the batch mentions holds the last batch record with that key. */
  predicate HoldsLast(rows: seq<Row>, recs: seq<Record>) {
    forall n :: 0 <= n < |rows| && LastWith(recs, RowKey(rows[n])).Some? ==>
      rows[n].rec == LastWith(recs, RowKey(rows[n])).value
  }

  // ---------------------------------------------------------------------
  // The canonical table

  /**
   * Each record moves exactly one counter, so the three add up to the batch
   * size; without forcing nothing is updated; every added record is one new
   * row and one id used.
   */
  lemma {:induction false} CanonicalCounts(t: Table, recs: seq<Record>, force: bool)
    ensures var (t', s) := CanonicalPass(t, recs, force);
      && s.added + s.updated + s.skipped == |recs|
      && (!force ==> s.updated == 0)
      && |t'.rows| == |t.rows| + s.added
      && t'.nextId == t.nextId + s.added
    decreases |recs|
  {
    if recs != [] {
      CanonicalCounts(t, recs[..|recs| - 1], force);
    }
  }

  /**
   * Rows are never removed or moved and keep their id and key; a row whose key
   * the batch does not mention is unchanged; without forcing, every row that
   * was stored before is unchanged.
   */
  lemma {:induction false} CanonicalFrame(t: Table, recs: seq<Record>, force: bool)
    ensures var t' := CanonicalPass(t, recs, force).0;
      && |t.rows| <= |t'.rows|
      && (forall n :: 0 <= n < |t.rows| ==> t'.rows[n].id == t.rows[n].id && RowKey(t'.rows[n]) == RowKey(t.rows[n]))
      && (forall n :: 0 <= n < |t.rows| && RowKey(t.rows[n]) !in BatchKeys(recs) ==> t'.rows[n] == t.rows[n])
      && (!force ==> t'.rows[..|t.rows|] == t.rows)
    decreases |recs|
  {
    if recs != [] {
      var prefix, last := recs[..|recs| - 1], recs[|recs| - 1];
      assert recs == prefix + [last];
      BatchKeysAppend(prefix, last);
      CanonicalFrame(t, prefix, force);
    }
  }

  /** After the pass the stored keys are the old ones plus the batch's. */
  lemma {:induction false} CanonicalKeys(t: Table, recs: seq<Record>, force: bool)
    ensures Keys(CanonicalPass(t, recs, force).0.rows) == Keys(t.rows) + BatchKeys(recs)
    decreases |recs|
  {
    if recs != [] {
      var prefix, last := recs[..|recs| - 1], recs[|recs| - 1];
      assert recs == prefix + [last];
      BatchKeysAppend(prefix, last);
      CanonicalKeys(t, prefix, force);
      var before := CanonicalPass(t, prefix, force).0;
      match FirstMatch(before.rows, KeyOf(last))
      case Some(n) =>
        if force {
          SameShapeKeys(before.rows, before.rows[n := Row(before.rows[n].id, last)]);
        }
      case None =>
        KeysAppend(before.rows, Row(before.nextId, last));
    }
  }

  /** The pass keeps "at most one row per (email, date)". */
  lemma {:induction false} CanonicalUnique(t: Table, recs: seq<Record>, force: bool)
    requires UniqueKeys(t.rows)
    ensures UniqueKeys(CanonicalPass(t, recs, force).0.rows)
    decreases |recs|
  {
    if recs != [] {
      var prefix, last := recs[..|recs| - 1], recs[|recs| - 1];
      CanonicalUnique(t, prefix, force);
      var before := CanonicalPass(t, prefix, force).0;
      match FirstMatch(before.rows, KeyOf(last))
      case Some(n) =>
        if force {
          SameShapeKeys(before.rows, before.rows[n := Row(before.rows[n].id, last)]);
        }
      case None =>
        UniqueAppend(before.rows, Row(before.nextId, last));
    }
  }

  /** The pass keeps ids distinct and below the next id. */
  lemma {:induction false} CanonicalIds(t: Table, recs: seq<Record>, force: bool)
    requires ValidIds(t)
    ensures ValidIds(CanonicalPass(t, recs, force).0)
    decreases |recs|
  {
    if recs != [] {
      CanonicalIds(t, recs[..|recs| - 1], force);
    }
  }

  /**
   * With forced overwriting and unique keys, every row whose key the batch
   * mentions ends up holding the last batch record with that key.
   */
  lemma {:induction false} CanonicalForceLastWins(t: Table, recs: seq<Record>)
    requires UniqueKeys(t.rows)
    ensures HoldsLast(CanonicalPass(t, recs, true).0.rows, recs)
    decreases |recs|
  {
    if recs != [] {
      var prefix, last := recs[..|recs| - 1], recs[|recs| - 1];
      CanonicalForceLastWins(t, prefix);
      CanonicalUnique(t, prefix, true);
      var before := CanonicalPass(t, prefix, true).0;
      var t' := CanonicalPass(t, recs, true).0;
      forall n | 0 <= n < |t'.rows| && LastWith(recs, RowKey(t'.rows[n])).Some?
        ensures t'.rows[n].rec == LastWith(recs, RowKey(t'.rows[n])).value
      {
        var k := RowKey(t'.rows[n]);
        assert LastWith(recs, k) == if KeyOf(last) == k then Some(last) else LastWith(prefix, k);
        match FirstMatch(before.rows, KeyOf(last))
        case Some(m) =>
          assert t'.rows == before.rows[m := Row(before.rows[m].id, last)];
          if n != m {
            assert RowKey(before.rows[n]) != RowKey(before.rows[m]);
            assert t'.rows[n] == before.rows[n];
          }
        case None =>
          assert t'.rows == before.rows + [Row(before.nextId, last)];
          if n < |before.rows| {
            assert t'.rows[n] == before.rows[n];
          }
      }
    }
  }

  /**
   * The rows from index `from` on were appended in order from id `firstId`,
   * and each holds the first batch record with its key.
   */
  predicate HoldsFirst(rows: seq<Row>, from: nat, firstId: nat, recs: seq<Record>) {
    forall n :: from <= n < |rows| ==>
      rows[n].id == firstId + (n - from) && FirstWith(recs, RowKey(rows[n])) == Some(rows[n].rec)
  }

  /**
   * Without forcing, every row the pass inserts into `schedules` holds the
   * FIRST batch record with its key, under consecutive ids from the table's
   * next id: later records with the same key are skipped.
   */
  lemma {:induction false} CanonicalFirstWins(t: Table, recs: seq<Record>)
    ensures HoldsFirst(CanonicalPass(t, recs, false).0.rows, |t.rows|, t.nextId, recs)
    decreases |recs|
  {
    if recs != [] {
      var prefix, last := recs[..|recs| - 1], recs[|recs| - 1];
      CanonicalFirstWins(t, prefix);
      CanonicalCounts(t, prefix, false);
      CanonicalKeys(t, prefix, false);
      var before := CanonicalPass(t, prefix, false).0;
      var after := CanonicalPass(t, recs, false).0;
      assert after == CanonicalStep(before, last, false).0;
      forall n | |t.rows| <= n < |after.rows|
        ensures after.rows[n].id == t.nextId + (n - |t.rows|)
        ensures FirstWith(recs, RowKey(after.rows[n])) == Some(after.rows[n].rec)
      {
        if n < |before.rows| {
          assert after.rows[n] == before.rows[n];
        } else {
          assert KeyOf(last) !in Keys(before.rows);
          assert FirstWith(prefix, KeyOf(last)).None?;
        }
      }
    }
  }

  /**
   * Without forcing, a batch whose every key is already stored changes
   * nothing and skips every record.
   */
  lemma {:induction false} CanonicalAllStored(t: Table, recs: seq<Record>)
    requires BatchKeys(recs) <= Keys(t.rows)
    ensures CanonicalPass(t, recs, false) == (t, CanonicalStats(0, 0, |recs|))
    decreases |recs|
  {
    if recs != [] {
      var prefix, last := recs[..|recs| - 1], recs[|recs| - 1];
      assert recs == prefix + [last];
      BatchKeysAppend(prefix, last);
      CanonicalAllStored(t, prefix);
    }
  }

  /**
   * Uploading the same batch again without forcing adds nothing, updates
   * nothing and skips every record, whatever policy the first upload used.
   */
  lemma ReuploadSkipsAll(t: Table, recs: seq<Record>, force: bool)
    ensures var t1 := CanonicalPass(t, recs, force).0;
      CanonicalPass(t1, recs, false) == (t1, CanonicalStats(0, 0, |recs|))
  {
    CanonicalKeys(t, recs, force);
    CanonicalAllStored(CanonicalPass(t, recs, force).0, recs);
  }

  // ---------------------------------------------------------------------
  // The mirror table

  /** Each record is either added or updated; every added record is one new row and one id used. */
  lemma {:induction false} MirrorCounts(t: Table, recs: seq<Record>)
    ensures var (t', s) := MirrorPass(t, recs);
      && s.added + s.updated == |recs|
      && |t'.rows| == |t.rows| + s.added
      && t'.nextId == t.nextId + s.added
    decreases |recs|
  {
    if recs != [] {
      MirrorCounts(t, recs[..|recs| - 1]);
    }
  }

  /**
   * Rows are never removed or moved and keep their id and key; a row whose key
   * the batch does not mention is unchanged.
   */
  lemma {:induction false} MirrorFrame(t: Table, recs: seq<Record>)
    ensures var t' := MirrorPass(t, recs).0;
      && |t.rows| <= |t'.rows|
      && (forall n :: 0 <= n < |t.rows| ==> t'.rows[n].id == t.rows[n].id && RowKey(t'.rows[n]) == RowKey(t.rows[n]))
      && (forall n :: 0 <= n < |t.rows| && RowKey(t.rows[n]) !in BatchKeys(recs) ==> t'.rows[n] == t.rows[n])
    decreases |recs|
  {
    if recs != [] {
      var prefix, last := recs[..|recs| - 1], recs[|recs| - 1];
      assert recs == prefix + [last];
      BatchKeysAppend(prefix, last);
      MirrorFrame(t, prefix);
    }
  }

  /** After the pass the stored keys are the old ones plus the batch's. */
  lemma {:induction false} MirrorKeys(t: Table, recs: seq<Record>)
    ensures Keys(MirrorPass(t, recs).0.rows) == Keys(t.rows) + BatchKeys(recs)
    decreases |recs|
  {
    if recs != [] {
      var prefix, last := recs[..|recs| - 1], recs[|recs| - 1];
      assert recs == prefix + [last];
      BatchKeysAppend(prefix, last);
      MirrorKeys(t, prefix);
      var before := MirrorPass(t, prefix).0;
      if FirstMatch(before.rows, KeyOf(last)).Some? {
        SameShapeKeys(before.rows, Overwrite(before.rows, last));
      } else {
        KeysAppend(before.rows, Row(before.nextId, last));
      }
    }
  }

  /** The pass keeps "at most one row per (email, date)". */
  lemma {:induction false} MirrorUnique(t: Table, recs: seq<Record>)
    requires UniqueKeys(t.rows)
    ensures UniqueKeys(MirrorPass(t, recs).0.rows)
    decreases |recs|
  {
    if recs != [] {
      var prefix, last := recs[..|recs| - 1], recs[|recs| - 1];
      MirrorUnique(t, prefix);
      var before := MirrorPass(t, prefix).0;
      if FirstMatch(before.rows, KeyOf(last)).Some? {
        SameShapeKeys(before.rows, Overwrite(before.rows, last));
      } else {
        UniqueAppend(before.rows, Row(before.nextId, last));
      }
    }
  }

  /** The pass keeps ids distinct and below the next id. */
  lemma {:induction false} MirrorIds(t: Table, recs: seq<Record>)
    requires ValidIds(t)
    ensures ValidIds(MirrorPass(t, recs).0)
    decreases |recs|
  {
    if recs != [] {
      var prefix, last := recs[..|recs| - 1], recs[|recs| - 1];
      MirrorIds(t, prefix);
      var before := MirrorPass(t, prefix).0;
      if FirstMatch(before.rows, KeyOf(last)).Some? {
        SameShapeIds(before, Overwrite(before.rows, last));
      }
    }
  }

  /**
   * Last write wins: every mirror row whose key the batch mentions holds the
   * last batch record with that key (all of its columns).
   */
  lemma {:induction false} MirrorLastWins(t: Table, recs: seq<Record>)
    ensures HoldsLast(MirrorPass(t, recs).0.rows, recs)
    decreases |recs|
  {
    if recs != [] {
      var prefix, last := recs[..|recs| - 1], recs[|recs| - 1];
      MirrorLastWins(t, prefix);
      var before := MirrorPass(t, prefix).0;
      var t' := MirrorPass(t, recs).0;
      forall n | 0 <= n < |t'.rows| && LastWith(recs, RowKey(t'.rows[n])).Some?
        ensures t'.rows[n].rec == LastWith(recs, RowKey(t'.rows[n])).value
      {
        var k := RowKey(t'.rows[n]);
        assert LastWith(recs, k) == if KeyOf(last) == k then Some(last) else LastWith(prefix, k);
        if FirstMatch(before.rows, KeyOf(last)).Some? {
          assert t'.rows == Overwrite(before.rows, last);
        } else {
          assert t'.rows == before.rows + [Row(before.nextId, last)];
        }
      }
    }
  }

  /** A batch whose every key is already mirrored updates every record and adds none. */
  lemma {:induction false} MirrorAllStored(t: Table, recs: seq<Record>)
    requires BatchKeys(recs) <= Keys(t.rows)
    ensures MirrorPass(t, recs).1 == MirrorStats(0, |recs|)
    decreases |recs|
  {
    if recs != [] {
      var prefix, last := recs[..|recs| - 1], recs[|recs| - 1];
      assert recs == prefix + [last];
      BatchKeysAppend(prefix, last);
      MirrorAllStored(t, prefix);
      MirrorKeys(t, prefix);
    }
  }

  /** Uploading the same batch again updates every mirror record. */
  lemma MirrorReuploadUpdatesAll(t: Table, recs: seq<Record>)
    ensures MirrorPass(MirrorPass(t, recs).0, recs).1 == MirrorStats(0, |recs|)
  {
    MirrorKeys(t, recs);
    MirrorAllStored(MirrorPass(t, recs).0, recs);
  }
}
