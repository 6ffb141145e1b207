/**
 * The duplicate check: a read-only preview that splits a batch of normalised
 * records by whether their (email, date) is already stored in `schedules`.
 */
module Duplicates {
  import opened Types
  import opened Tables

  /** What the check reports. */
  datatype DuplicateReport = DuplicateReport(
    duplicates: nat,
    totalRecords: nat,
    newRecords: int,
    duplicatePairs: seq<Key>)

  /** The records whose key is in `existing`, in batch order. */
  function DuplicateRecords(recs: seq<Record>, existing: set<Key>): (d: seq<Record>)
    ensures |d| <= |recs|
    ensures forall r :: r in d <==> r in recs && KeyOf(r) in existing
    decreases |recs|
  {
    if recs == [] then []
    else
      var last := recs[|recs| - 1];
      assert recs == recs[..|recs| - 1] + [last];
      DuplicateRecords(recs[..|recs| - 1], existing) + (if KeyOf(last) in existing then [last] else [])
  }

  /** The records whose key is not in `existing`, in batch order. */
  function FreshRecords(recs: seq<Record>, existing: set<Key>): (f: seq<Record>)
    ensures |f| <= |recs|
    ensures forall r :: r in f <==> r in recs && KeyOf(r) !in existing
    decreases |recs|
  {
    if recs == [] then []
    else
      var last := recs[|recs| - 1];
      assert recs == recs[..|recs| - 1] + [last];
      FreshRecords(recs[..|recs| - 1], existing) + (if KeyOf(last) !in existing then [last] else [])
  }

  /**
   * Every record is either a duplicate or fresh, once each: the two lists
   * together hold the batch's records with their multiplicities.
   */
  lemma {:induction false} SplitCounts(recs: seq<Record>, existing: set<Key>)
    ensures |DuplicateRecords(recs, existing)| + |FreshRecords(recs, existing)| == |recs|
    ensures multiset(DuplicateRecords(recs, existing)) + multiset(FreshRecords(recs, existing)) == multiset(recs)
    decreases |recs|
  {
    if recs != [] {
      var prefix, last := recs[..|recs| - 1], recs[|recs| - 1];
      assert recs == prefix + [last];
      SplitCounts(prefix, existing);
    }
  }

  /**
   * The duplicates keep batch order: splitting a concatenation is splitting
   * each part and concatenating the results.
   */
  lemma {:induction false} DuplicatesAppend(a: seq<Record>, b: seq<Record>, existing: set<Key>)
    ensures DuplicateRecords(a + b, existing) == DuplicateRecords(a, existing) + DuplicateRecords(b, existing)
    decreases |b|
  {
    if b == [] {
      assert a + b == a;
    } else {
      var prefix, last := b[..|b| - 1], b[|b| - 1];
      assert (a + b)[..|a + b| - 1] == a + prefix;
      assert (a + b)[|a + b| - 1] == last;
      DuplicatesAppend(a, prefix, existing);
    }
  }

  /** The fresh records keep batch order in the same way. */
  lemma {:induction false} FreshAppend(a: seq<Record>, b: seq<Record>, existing: set<Key>)
    ensures FreshRecords(a + b, existing) == FreshRecords(a, existing) + FreshRecords(b, existing)
    decreases |b|
  {
    if b == [] {
      assert a + b == a;
    } else {
      var prefix, last := b[..|b| - 1], b[|b| - 1];
      assert (a + b)[..|a + b| - 1] == a + prefix;
      assert (a + b)[|a + b| - 1] == last;
      FreshAppend(a, prefix, existing);
    }
  }

  /** A single record is a duplicate exactly when its pair is stored, and fresh otherwise. */
  lemma SplitOne(r: Record, existing: set<Key>)
    ensures DuplicateRecords([r], existing) == if KeyOf(r) in existing then [r] else []
    ensures FreshRecords([r], existing) == if KeyOf(r) in existing then [] else [r]
  {
    assert [r][..0] == [];
  }

  /** The (email, date) of each record, in order. */
  function KeysOf(recs: seq<Record>): seq<Key> {
    seq(|recs|, i requires 0 <= i < |recs| => KeyOf(recs[i]))
  }

  /** The pairs of the duplicate records are exactly the stored pairs the batch hits. */
  lemma DuplicatePairs(recs: seq<Record>, existing: set<Key>)
    ensures forall k :: k in KeysOf(DuplicateRecords(recs, existing)) <==> k in existing && k in BatchKeys(recs)
  {
    var d := DuplicateRecords(recs, existing);
    forall k | k in existing && k in BatchKeys(recs) ensures k in KeysOf(d) {
      var x :| x in recs && KeyOf(x) == k;
      var n :| 0 <= n < |d| && d[n] == x;
      assert KeysOf(d)[n] == k;
    }
  }

  /**
   * The report for a batch against the stored pairs: its size, how many of
   * its records are duplicates and their pairs in batch order, and how many
   * are new, which is the size less the duplicates and exactly the number of
   * records whose pair is not stored.
   */
  function Report(recs: seq<Record>, existing: set<Key>): (r: DuplicateReport)
    ensures r.totalRecords == |recs|
    ensures r.duplicates == |DuplicateRecords(recs, existing)| == |r.duplicatePairs| <= |recs|
    ensures r.newRecords == r.totalRecords - r.duplicates == |FreshRecords(recs, existing)|
    ensures forall i :: 0 <= i < r.duplicates ==> r.duplicatePairs[i] == KeyOf(DuplicateRecords(recs, existing)[i])
    ensures forall k :: k in r.duplicatePairs <==> k in existing && k in BatchKeys(recs)
  {
    var d := DuplicateRecords(recs, existing);
    SplitCounts(recs, existing);
    DuplicatePairs(recs, existing);
    DuplicateReport(
      duplicates := |d|,
      totalRecords := |recs|,
      newRecords := |recs| - |d|,
      duplicatePairs := KeysOf(d))
  }
}
