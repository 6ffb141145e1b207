/**
 * The database the upload routes work on: the canonical `schedules` table,
 * the `schedules_update` mirror and whether the mirror has been created yet.
 * Its methods are the upload pass, the team-leader propagation, the delete
 * by agent and the read-only duplicate check, together with the route-level
 * checks that guard them.
 */
module Store {
  import opened Types
  import opened Tables
  import opened FileNames
  import opened Normalizer
  import opened Duplicates
  import opened Reconcile
  import opened Propagate
  import opened Deletion

  /** The counters one upload reports, per table. */
  datatype UploadStats = UploadStats(schedules: CanonicalStats, schedulesUpdate: MirrorStats)

  /** A freshly created, empty mirror: no rows, ids starting at 1. */
  const EmptyMirror := Table([], 1)

  /** The upload route overwrites only when its `force` query argument is exactly "true". */
  function ForceFlag(arg: Option<string>): bool {
    arg == Some("true")
  }

  /**
   * The checks both upload routes make before reading the file: a request
   * without a file part, an empty file name, then a name without a spreadsheet
   * extension are refused, in that order.
   */
  function CheckFile(filename: Option<string>): (r: Option<Error>)
    ensures r.None? <==> filename.Some? && filename.value != "" && AllowedFile(filename.value)
    ensures filename.None? ==> r == Some(NoFileUploaded)
    ensures filename == Some("") ==> r == Some(NoFileSelected)
    ensures filename.Some? && filename.value != "" && !AllowedFile(filename.value) ==> r == Some(InvalidFileType)
  {
    match filename
    case None => Some(NoFileUploaded)
    case Some(name) =>
      if name == "" then Some(NoFileSelected)
      else if !AllowedFile(name) then Some(InvalidFileType)
      else None
  }

  /** In a batch without repeated keys, the last record's key is not among the earlier ones. */
  lemma DistinctLast(recs: seq<Record>)
    requires recs != [] && DistinctKeys(recs)
    ensures DistinctKeys(recs[..|recs| - 1])
    ensures KeyOf(recs[|recs| - 1]) !in BatchKeys(recs[..|recs| - 1])
  {
    var prefix := recs[..|recs| - 1];
    forall x | x in prefix ensures KeyOf(x) != KeyOf(recs[|recs| - 1]) {
      var i :| 0 <= i < |prefix| && prefix[i] == x;
      assert recs[i] == x;
    }
  }

  /**
   * An upload adds at most the records the preview counts as new, and exactly
   * those when no two records of the batch share an (email, date).
   */
  lemma {:induction false} AddedAtMostFresh(t: Table, recs: seq<Record>, force: bool)
    ensures CanonicalPass(t, recs, force).1.added <= |FreshRecords(recs, Keys(t.rows))|
    ensures DistinctKeys(recs) ==> CanonicalPass(t, recs, force).1.added == |FreshRecords(recs, Keys(t.rows))|
    decreases |recs|
  {
    if recs != [] {
      var prefix, last := recs[..|recs| - 1], recs[|recs| - 1];
      AddedAtMostFresh(t, prefix, force);
      var before := CanonicalPass(t, prefix, force);
      var action := CanonicalStep(before.0, last, force).1;
      assert CanonicalPass(t, recs, force).1 == Tally(before.1, action);
      assert action == Added <==> KeyOf(last) !in Keys(before.0.rows);
      CanonicalKeys(t, prefix, force);
      assert FreshRecords(recs, Keys(t.rows))
             == FreshRecords(prefix, Keys(t.rows)) + (if KeyOf(last) !in Keys(t.rows) then [last] else []);
      if DistinctKeys(recs) {
        DistinctLast(recs);
      }
    }
  }

  /**
   * The counters the duplicate check previews agree with an upload: an upload
   * never adds more records than the preview calls new, and when no two
   * records of the batch share an (email, date) it adds exactly those, while
   * without forcing it skips exactly the duplicates.
   */
  lemma PreviewMatchesUpload(t: Table, recs: seq<Record>, force: bool)
    ensures var s := CanonicalPass(t, recs, force).1;
      var r := Report(recs, Keys(t.rows));
      && s.added <= r.newRecords
      && (DistinctKeys(recs) ==> s.added == r.newRecords)
      && (DistinctKeys(recs) && !force ==> s.skipped == r.duplicates)
  {
    AddedAtMostFresh(t, recs, force);
    CanonicalCounts(t, recs, force);
    SplitCounts(recs, Keys(t.rows));
  }

  class Database {
    var schedules: Table
    var schedulesUpdate: Table
    var hasSchedulesUpdate: bool

    /**
     * Ids are valid in both tables, the mirror keeps at most one row per
     * (email, date), and a mirror not yet created is empty.
     */
    predicate Valid()
      reads this
    {
      && ValidIds(schedules)
      && ValidIds(schedulesUpdate)
      && UniqueKeys(schedulesUpdate.rows)
      && (!hasSchedulesUpdate ==> schedulesUpdate == EmptyMirror)
    }

    /** A database holding `schedules` and, when given, an existing mirror. */
    constructor (schedules: Table, mirror: Option<Table>)
      requires ValidIds(schedules)
      requires mirror.Some? ==> ValidIds(mirror.value) && UniqueKeys(mirror.value.rows)
      ensures Valid()
      ensures this.schedules == schedules
      ensures hasSchedulesUpdate == mirror.Some?
      ensures schedulesUpdate == if mirror.Some? then mirror.value else EmptyMirror
    {
      this.schedules := schedules;
      hasSchedulesUpdate := mirror.Some?;
      schedulesUpdate := if mirror.Some? then mirror.value else EmptyMirror;
    }

    /** Creates the mirror, empty, when it does not exist yet; an existing one is kept. */
    method EnsureSchedulesUpdateTable()
      requires Valid()
      modifies this
      ensures Valid()
      ensures hasSchedulesUpdate
      ensures schedules == old(schedules) && schedulesUpdate == old(schedulesUpdate)
    {
      if !hasSchedulesUpdate {
        hasSchedulesUpdate := true;
        schedulesUpdate := EmptyMirror;
      }
    }

    /**
     * Applies each record in turn to `schedules` under the overwrite policy
     * and to `schedules_update`, which it creates first if need be, counting
     * what happened to each record in each table.
     */
    method ProcessUpload(records: seq<Record>, force: bool) returns (stats: UploadStats)
      requires Valid()
      modifies this
      ensures Valid()
      ensures hasSchedulesUpdate
      ensures (schedules, stats.schedules) == CanonicalPass(old(schedules), records, force)
      ensures (schedulesUpdate, stats.schedulesUpdate) == MirrorPass(old(schedulesUpdate), records)
    {
      EnsureSchedulesUpdateTable();
      CanonicalIds(schedules, records, force);
      MirrorIds(schedulesUpdate, records);
      MirrorUnique(schedulesUpdate, records);
      var cs, ms;
      schedules, schedulesUpdate, cs, ms := ApplyRecords(schedules, schedulesUpdate, records, force);
      stats := UploadStats(cs, ms);
    }

    /** The loop of the upload pass: every record against both tables, in batch order. */
    static method ApplyRecords(schedules: Table, schedulesUpdate: Table, records: seq<Record>, force: bool)
      returns (s: Table, u: Table, cs: CanonicalStats, ms: MirrorStats)
      ensures (s, cs) == CanonicalPass(schedules, records, force)
      ensures (u, ms) == MirrorPass(schedulesUpdate, records)
    {
      s, u := schedules, schedulesUpdate;
      cs, ms := CanonicalStats(0, 0, 0), MirrorStats(0, 0);
      var i := 0;
      while i < |records|
        invariant 0 <= i <= |records|
        invariant (s, cs) == CanonicalPass(schedules, records[..i], force)
        invariant (u, ms) == MirrorPass(schedulesUpdate, records[..i])
      {
        var record := records[i];
        CanonicalPassNext(schedules, records, i, force);
        MirrorPassNext(schedulesUpdate, records, i);
        var action;
        s, action := ApplyToSchedules(s, record, force);
        cs := Tally(cs, action);
        var updated;
        u, updated := ApplyToSchedulesUpdate(u, record);
        ms := Count(ms, updated);
        i := i + 1;
      }
      assert records[..i] == records;
    }

    /**
     * One record against `schedules`: the first row with its (email, date) is
     * overwritten when forcing and left alone otherwise; an unmatched record
     * is inserted with the next id.
     */
    static method ApplyToSchedules(t: Table, record: Record, force: bool) returns (t': Table, action: CanonicalAction)
      ensures (t', action) == CanonicalStep(t, record, force)
    {
      var existing := FirstMatch(t.rows, KeyOf(record));
      if existing.Some? {
        if force {
          var n := existing.value;
          t' := t.(rows := t.rows[n := Row(t.rows[n].id, record)]);
          action := Updated;
        } else {
          t', action := t, Skipped;
        }
      } else {
        t' := Table(t.rows + [Row(t.nextId, record)], t.nextId + 1);
        action := Added;
      }
    }

    /**
     * One record against `schedules_update`: every row with its (email, date)
     * takes all its columns, or it is inserted with the next id when none does.
     */
    static method ApplyToSchedulesUpdate(t: Table, record: Record) returns (t': Table, updated: bool)
      ensures (t', updated) == MirrorStep(t, record)
    {
      if FirstMatch(t.rows, KeyOf(record)).Some? {
        t' := t.(rows := Overwrite(t.rows, record));
        updated := true;
      } else {
        t' := Table(t.rows + [Row(t.nextId, record)], t.nextId + 1);
        updated := false;
      }
    }

    /**
     * Writes the batch's latest team leader per email onto every mirror row
     * with that email; does nothing when the mirror does not exist.
     */
    method UpdateTeamLeaderByEmail(records: seq<Record>)
      requires Valid()
      modifies this
      ensures Valid()
      ensures schedules == old(schedules) && hasSchedulesUpdate == old(hasSchedulesUpdate)
      ensures !hasSchedulesUpdate ==> schedulesUpdate == old(schedulesUpdate)
      ensures hasSchedulesUpdate ==>
        schedulesUpdate == old(schedulesUpdate).(rows := Propagated(old(schedulesUpdate).rows, EmailToLeader(records)))
    {
      if !hasSchedulesUpdate {
        return;
      }
      var emailToLeader := EmailToLeader(records);
      PropagatedShape(schedulesUpdate, emailToLeader);
      var rows := ApplyLeaders(schedulesUpdate.rows, emailToLeader);
      schedulesUpdate := schedulesUpdate.(rows := rows);
    }

    /** One UPDATE per entry of the map, in whatever order the map yields its emails. */
    static method ApplyLeaders(rows0: seq<Row>, emailToLeader: map<Option<string>, Option<string>>) returns (rows: seq<Row>)
      ensures rows == Propagated(rows0, emailToLeader)
    {
      rows := rows0;
      var pending := emailToLeader.Keys;
      assert Restrict(emailToLeader, {}) == map[];
      assert Propagated(rows0, map[]) == rows0;
      while pending != {}
        invariant pending <= emailToLeader.Keys
        invariant rows == Propagated(rows0, Restrict(emailToLeader, emailToLeader.Keys - pending))
        decreases pending
      {
        var email :| email in pending;
        SetLeaderStep(rows0, emailToLeader, emailToLeader.Keys - pending, email);
        assert (emailToLeader.Keys - pending) + {email} == emailToLeader.Keys - (pending - {email});
        rows := SetLeader(rows, email, emailToLeader[email]);
        pending := pending - {email};
      }
      assert Restrict(emailToLeader, emailToLeader.Keys) == emailToLeader;
    }

    /**
     * Deletes every mirror row of `agent` and reports how many went; refuses
     * when the mirror does not exist, then when no agent name is given.
     */
    method DeleteSchedulesUpdate(agent: Option<string>) returns (res: Result<nat, Error>)
      requires Valid()
      modifies this
      ensures Valid()
      ensures schedules == old(schedules) && hasSchedulesUpdate == old(hasSchedulesUpdate)
      ensures !old(hasSchedulesUpdate) ==> res == Failure(TableNotFound) && schedulesUpdate == old(schedulesUpdate)
      ensures old(hasSchedulesUpdate) && (agent.None? || agent == Some("")) ==>
        res == Failure(AgentRequired) && schedulesUpdate == old(schedulesUpdate)
      ensures old(hasSchedulesUpdate) && agent.Some? && agent.value != "" ==>
        && res == Success(CountAgent(old(schedulesUpdate).rows, agent.value))
        && schedulesUpdate == old(schedulesUpdate).(rows := WithoutAgent(old(schedulesUpdate).rows, agent.value))
    {
      if !hasSchedulesUpdate {
        return Failure(TableNotFound);
      }
      if agent.None? || agent.value == "" {
        return Failure(AgentRequired);
      }
      var removed := CountAgent(schedulesUpdate.rows, agent.value);
      DeleteKeepsIds(schedulesUpdate, agent.value);
      DeleteKeepsUnique(schedulesUpdate.rows, agent.value);
      schedulesUpdate := schedulesUpdate.(rows := WithoutAgent(schedulesUpdate.rows, agent.value));
      res := Success(removed);
    }

    /**
     * The duplicate check: after the file checks, normalises the sheet and
     * reports the batch against the pairs stored in `schedules`, changing
     * nothing.
     */
    method CheckDuplicates(filename: Option<string>, sheet: Sheet, parseDate: string -> Option<Date>)
      returns (res: Result<DuplicateReport, Error>)
      ensures CheckFile(filename).Some? ==> res == Failure(CheckFile(filename).value)
      ensures CheckFile(filename).None? && NormalizeOutcome(sheet, parseDate).Failure? ==>
        res == Failure(NormalizeOutcome(sheet, parseDate).error)
      ensures CheckFile(filename).None? && NormalizeOutcome(sheet, parseDate).Success? ==>
        res == Success(Report(NormalizeOutcome(sheet, parseDate).value, Keys(schedules.rows)))
    {
      var bad := CheckFile(filename);
      if bad.Some? {
        return Failure(bad.value);
      }
      var normalized := NormalizeScheduleExcel(sheet, parseDate);
      if normalized.Failure? {
        return Failure(normalized.error);
      }
      res := Success(Report(normalized.value, Keys(schedules.rows)));
    }

    /**
     * The upload: after the file checks, normalises the sheet, runs the
     * two-table pass and the team-leader propagation. A refused file or a
     * sheet that cannot be normalised changes nothing.
     */
    method Upload(filename: Option<string>, sheet: Sheet, parseDate: string -> Option<Date>, forceArg: Option<string>)
      returns (res: Result<UploadStats, Error>)
      requires Valid()
      modifies this
      ensures Valid()
      ensures CheckFile(filename).Some? ==>
        res == Failure(CheckFile(filename).value) && unchanged(this)
      ensures CheckFile(filename).None? && NormalizeOutcome(sheet, parseDate).Failure? ==>
        res == Failure(NormalizeOutcome(sheet, parseDate).error) && unchanged(this)
      ensures CheckFile(filename).None? && NormalizeOutcome(sheet, parseDate).Success? ==>
        var recs := NormalizeOutcome(sheet, parseDate).value;
        var (s', cs) := CanonicalPass(old(schedules), recs, ForceFlag(forceArg));
        var (u', ms) := MirrorPass(old(schedulesUpdate), recs);
        && res == Success(UploadStats(cs, ms))
        && schedules == s'
        && hasSchedulesUpdate
        && schedulesUpdate == u'.(rows := Propagated(u'.rows, EmailToLeader(recs)))
    {
      var bad := CheckFile(filename);
      if bad.Some? {
        return Failure(bad.value);
      }
      var normalized := NormalizeScheduleExcel(sheet, parseDate);
      if normalized.Failure? {
        return Failure(normalized.error);
      }
      var stats := ProcessUpload(normalized.value, ForceFlag(forceArg));
      UpdateTeamLeaderByEmail(normalized.value);
      res := Success(stats);
    }
  }
}
