/**
 * Team-leader propagation: after an upload, the batch's latest team leader
 * for each email is written onto every `schedules_update` row with that
 * email, whatever its date.
 */
module Propagate {
  import opened Types
  import opened Tables

  /**
   * A record contributes an (email, team leader) entry when both cells are
   * truthy in Python: an empty text is falsy, while a missing cell is the
   * float NaN, which is truthy and so passes the filter.
   */
  predicate Qualifies(r: Record) {
    r.email != Some("") && r.teamLeader != Some("")
  }

  /** The last record of the batch that contributes an entry for `email`. */
  function LastQualifying(recs: seq<Record>, email: Option<string>): (r: Option<Record>)
    ensures r.Some? ==> exists i :: (0 <= i < |recs| && recs[i] == r.value && Qualifies(recs[i]) && recs[i].email == email
      && forall j :: i < j < |recs| ==> !(Qualifies(recs[j]) && recs[j].email == email))
    ensures r.None? <==> forall x :: x in recs ==> !(Qualifies(x) && x.email == email)
    decreases |recs|
  {
    if recs == [] then None
    else
      var last := recs[|recs| - 1];
      assert recs == recs[..|recs| - 1] + [last];
      if Qualifies(last) && last.email == email then Some(last)
      else LastQualifying(recs[..|recs| - 1], email)
  }

  /** The email-to-team-leader map built from the batch, later entries replacing earlier ones. */
  function EmailToLeader(recs: seq<Record>): map<Option<string>, Option<string>>
    decreases |recs|
  {
    if recs == [] then map[]
    else
      var m := EmailToLeader(recs[..|recs| - 1]);
      var last := recs[|recs| - 1];
      if Qualifies(last) then m[last.email := last.teamLeader] else m
  }

  /**
   * The map holds an entry for exactly the emails some qualifying record
   * carries, and that entry is the team leader of the last such record.
   */
  lemma {:induction false} EmailToLeaderLastWins(recs: seq<Record>)
    ensures forall e :: e in EmailToLeader(recs) <==> LastQualifying(recs, e).Some?
    ensures forall e :: e in EmailToLeader(recs) ==> EmailToLeader(recs)[e] == LastQualifying(recs, e).value.teamLeader
    decreases |recs|
  {
    if recs != [] {
      EmailToLeaderLastWins(recs[..|recs| - 1]);
    }
  }

  /**
   * One UPDATE: rows keep their ids, keys and every column but the team
   * leader; the team leader is `leader` on the rows with `email`, and the
   * other rows are untouched.
   */
  function SetLeader(rows: seq<Row>, email: Option<string>, leader: Option<string>): (rows': seq<Row>)
    ensures SameShape(rows, rows')
    ensures forall n :: 0 <= n < |rows| ==> rows'[n].rec == rows[n].rec.(teamLeader := rows'[n].rec.teamLeader)
    ensures forall n :: 0 <= n < |rows| && rows[n].rec.email == email ==> rows'[n].rec.teamLeader == leader
    ensures forall n :: 0 <= n < |rows| && rows[n].rec.email != email ==> rows'[n] == rows[n]
  {
    seq(|rows|, n requires 0 <= n < |rows| =>
      if rows[n].rec.email == email then Row(rows[n].id, rows[n].rec.(teamLeader := leader)) else rows[n])
  }

  /** A row after every entry of `m` has been applied. */
  function WithLeader(row: Row, m: map<Option<string>, Option<string>>): Row {
    if row.rec.email in m then Row(row.id, row.rec.(teamLeader := m[row.rec.email])) else row
  }

  /**
   * Every entry of `m` applied: rows keep their ids, keys and every column
   * but the team leader; a row whose email has an entry takes that entry's
   * team leader, and the other rows are untouched.
   */
  function Propagated(rows: seq<Row>, m: map<Option<string>, Option<string>>): (rows': seq<Row>)
    ensures SameShape(rows, rows')
    ensures forall n :: 0 <= n < |rows| ==> rows'[n].rec == rows[n].rec.(teamLeader := rows'[n].rec.teamLeader)
    ensures forall n :: 0 <= n < |rows| && rows[n].rec.email in m ==> rows'[n].rec.teamLeader == m[rows[n].rec.email]
    ensures forall n :: 0 <= n < |rows| && rows[n].rec.email !in m ==> rows'[n] == rows[n]
  {
    seq(|rows|, n requires 0 <= n < |rows| => WithLeader(rows[n], m))
  }

  /** The entries of `m` for the emails in `done`. */
  function Restrict(m: map<Option<string>, Option<string>>, done: set<Option<string>>): (r: map<Option<string>, Option<string>>)
    ensures forall e :: e in r <==> e in m && e in done
    ensures forall e :: e in r ==> r[e] == m[e]
  {
    map e | e in m && e in done :: m[e]
  }

  /**
   * Issuing the UPDATE for one more email, on rows that already carry the
   * entries of the other emails done, gives the rows with that email done too:
   * the order in which the emails are processed does not matter.
   */
  lemma SetLeaderStep(rows: seq<Row>, m: map<Option<string>, Option<string>>, done: set<Option<string>>, e: Option<string>)
    requires e in m && e !in done
    ensures SetLeader(Propagated(rows, Restrict(m, done)), e, m[e]) == Propagated(rows, Restrict(m, done + {e}))
  {
  }

  /** Propagation keeps every row's id and key, so key uniqueness and the ids are kept. */
  lemma PropagatedShape(t: Table, m: map<Option<string>, Option<string>>)
    ensures SameShape(t.rows, Propagated(t.rows, m))
    ensures UniqueKeys(t.rows) ==> UniqueKeys(Propagated(t.rows, m))
    ensures ValidIds(t) ==> ValidIds(Table(Propagated(t.rows, m), t.nextId))
  {
    SameShapeKeys(t.rows, Propagated(t.rows, m));
  }

  /**
   * After propagating the batch's map, a row whose email some qualifying
   * record carries holds the last such record's team leader, whatever its
   * date; every other column of every row, and every row of another email,
   * is unchanged.
   */
  lemma TeamLeaderLastWins(rows: seq<Row>, recs: seq<Record>)
    ensures var rows' := Propagated(rows, EmailToLeader(recs));
      && |rows'| == |rows|
      && (forall n :: 0 <= n < |rows| ==>
            rows'[n].id == rows[n].id
            && rows'[n].rec == rows[n].rec.(teamLeader := rows'[n].rec.teamLeader))
      && (forall n :: 0 <= n < |rows| && LastQualifying(recs, rows[n].rec.email).Some? ==>
            rows'[n].rec.teamLeader == LastQualifying(recs, rows[n].rec.email).value.teamLeader)
      && (forall n :: 0 <= n < |rows| && LastQualifying(recs, rows[n].rec.email).None? ==>
            rows'[n] == rows[n])
  {
    EmailToLeaderLastWins(recs);
  }

  /** Propagating the same map twice is the same as propagating it once. */
  lemma PropagatedIdempotent(rows: seq<Row>, m: map<Option<string>, Option<string>>)
    ensures Propagated(Propagated(rows, m), m) == Propagated(rows, m)
  {
  }
}
