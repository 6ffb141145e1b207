/**
 * The spreadsheet normaliser: a wide sheet, one row per agent and one column
 * per date, becomes a flat list of per-agent, per-day records.
 */
module Normalizer {
  import opened Types

  /** The identity columns, in the order the normaliser reads them for a record. */
  const StaticColumns: seq<string> :=
    ["Code", "Agent Name", "Email", "Gender", "Batch", "Skill", "Seniority", "Team Leader"]

  /**
   * A sheet as the spreadsheet reader delivers it: the column headers, in
   * order, and one row per agent mapping each header to its cell, a missing
   * (blank) cell being None.
   */
  datatype Sheet = Sheet(headers: seq<string>, rows: seq<map<string, Option<string>>>)

  /** A header names a date column when it is not an identity column and parses as a date. */
  predicate IsDateColumn(h: string, parseDate: string -> Option<Date>) {
    h !in StaticColumns && parseDate(h).Some?
  }

  /** The indices of the date columns among the first `n` headers, in column order. */
  function DateColumns(headers: seq<string>, parseDate: string -> Option<Date>, n: nat): (cols: seq<nat>)
    requires n <= |headers|
    ensures forall k :: 0 <= k < |cols| ==> cols[k] < n && IsDateColumn(headers[cols[k]], parseDate)
    ensures forall k, l :: 0 <= k < l < |cols| ==> cols[k] < cols[l]
  {
    if n == 0 then []
    else DateColumns(headers, parseDate, n - 1) + (if IsDateColumn(headers[n - 1], parseDate) then [n - 1] else [])
  }

  /** Every date column among the first `n` headers is listed. */
  lemma {:induction false} DateColumnsComplete(headers: seq<string>, parseDate: string -> Option<Date>, n: nat, j: nat)
    requires j < n <= |headers|
    requires IsDateColumn(headers[j], parseDate)
    ensures j in DateColumns(headers, parseDate, n)
  {
    if j < n - 1 {
      DateColumnsComplete(headers, parseDate, n - 1, j);
    }
  }

  /** The cell of `row` under the header `name`; a header the row lacks reads as a missing cell. */
  function Cell(row: map<string, Option<string>>, name: string): Option<string> {
    if name in row then row[name] else None
  }

  /** Python's `str` of a cell: a missing cell is the float NaN, whose text is "nan". */
  function Str(cell: Option<string>): string {
    match cell
    case Some(s) => s
    case None => "nan"
  }

  /** The record emitted for `row` and the date column headed `h`, which parsed as `day`. */
  function MakeRecord(row: map<string, Option<string>>, h: string, day: Date): Record {
    Record(
      code := Str(Cell(row, "Code")),
      agentName := Cell(row, "Agent Name"),
      email := Cell(row, "Email"),
      gender := Cell(row, "Gender"),
      batch := Cell(row, "Batch"),
      skill := Cell(row, "Skill"),
      seniority := Cell(row, "Seniority"),
      teamLeader := Cell(row, "Team Leader"),
      date := day,
      shift := Cell(row, h))
  }

  /** The first identity column, in reading order, that the headers lack. */
  function FirstMissing(headers: seq<string>, names: seq<string>): (r: Option<string>)
    ensures r.None? <==> forall c :: c in names ==> c in headers
    ensures r.Some? ==> r.value in names && r.value !in headers
  {
    if names == [] then None
    else if names[0] !in headers then Some(names[0])
    else FirstMissing(headers, names[1..])
  }

  /** The records of one row for the date columns among its first `n` cells. */
  function RowRecords(headers: seq<string>, row: map<string, Option<string>>, parseDate: string -> Option<Date>, n: nat): seq<Record>
    requires n <= |headers|
  {
    if n == 0 then []
    else
      RowRecords(headers, row, parseDate, n - 1)
      + (if IsDateColumn(headers[n - 1], parseDate)
         then [MakeRecord(row, headers[n - 1], parseDate(headers[n - 1]).value)]
         else [])
  }

  /** The records of the first `m` rows, row by row. */
  function Normalized(sheet: Sheet, parseDate: string -> Option<Date>, m: nat): seq<Record>
    requires m <= |sheet.rows|
  {
    if m == 0 then []
    else Normalized(sheet, parseDate, m - 1) + RowRecords(sheet.headers, sheet.rows[m - 1], parseDate, |sheet.headers|)
  }

  /**
   * What normalising a sheet yields: the records of all rows, or, when a
   * record has to be built but an identity column is absent, the failure to
   * look that column up.
   */
  function NormalizeOutcome(sheet: Sheet, parseDate: string -> Option<Date>): Result<seq<Record>, Error> {
    var missing := FirstMissing(sheet.headers, StaticColumns);
    if |sheet.rows| > 0 && DateColumns(sheet.headers, parseDate, |sheet.headers|) != [] && missing.Some?
    then Failure(MissingColumn(missing.value))
    else Success(Normalized(sheet, parseDate, |sheet.rows|))
  }

  /**
   * The records of one row, column by column; the first date column met
   * while an identity column is absent fails the lookup of that column.
   */
  method RowToRecords(headers: seq<string>, row: map<string, Option<string>>, parseDate: string -> Option<Date>, missing: Option<string>)
    returns (res: Result<seq<Record>, Error>)
    ensures res == if missing.Some? && DateColumns(headers, parseDate, |headers|) != []
                   then Failure(MissingColumn(missing.value))
                   else Success(RowRecords(headers, row, parseDate, |headers|))
  {
    var out: seq<Record> := [];
    var j := 0;
    while j < |headers|
      invariant 0 <= j <= |headers|
      invariant out == RowRecords(headers, row, parseDate, j)
      invariant missing.Some? ==> DateColumns(headers, parseDate, j) == [] && out == []
    {
      if headers[j] !in StaticColumns {
        var day := parseDate(headers[j]);
        if day.Some? {
          if missing.Some? {
            DateColumnsComplete(headers, parseDate, |headers|, j);
            return Failure(MissingColumn(missing.value));
          }
          out := out + [MakeRecord(row, headers[j], day.value)];
        }
      }
      j := j + 1;
    }
    if missing.Some? {
      RowRecordsShape(headers, row, parseDate, |headers|);
    }
    res := Success(out);
  }

  /** Flattens the sheet row by row and, within a row, column by column. */
  method NormalizeScheduleExcel(sheet: Sheet, parseDate: string -> Option<Date>) returns (res: Result<seq<Record>, Error>)
    ensures res == NormalizeOutcome(sheet, parseDate)
  {
    var missing := FirstMissing(sheet.headers, StaticColumns);
    var out: seq<Record> := [];
    var i := 0;
    while i < |sheet.rows|
      invariant 0 <= i <= |sheet.rows|
      invariant out == Normalized(sheet, parseDate, i)
      invariant i > 0 && missing.Some? ==> DateColumns(sheet.headers, parseDate, |sheet.headers|) == []
    {
      var recs := RowToRecords(sheet.headers, sheet.rows[i], parseDate, missing);
      if recs.Failure? {
        OutcomeOnFailure(sheet, parseDate);
        return recs;
      }
      out := out + recs.value;
      i := i + 1;
    }
    OutcomeOnSuccess(sheet, parseDate);
    res := Success(out);
  }

  /** The outcome when a row fails: some row exists, a date column exists and an identity column is absent. */
  lemma OutcomeOnFailure(sheet: Sheet, parseDate: string -> Option<Date>)
    requires |sheet.rows| > 0
    requires FirstMissing(sheet.headers, StaticColumns).Some?
    requires DateColumns(sheet.headers, parseDate, |sheet.headers|) != []
    ensures NormalizeOutcome(sheet, parseDate) == Failure(MissingColumn(FirstMissing(sheet.headers, StaticColumns).value))
  {
  }

  /** The outcome when every row succeeds. */
  lemma OutcomeOnSuccess(sheet: Sheet, parseDate: string -> Option<Date>)
    requires |sheet.rows| > 0 && FirstMissing(sheet.headers, StaticColumns).Some?
             ==> DateColumns(sheet.headers, parseDate, |sheet.headers|) == []
    ensures NormalizeOutcome(sheet, parseDate) == Success(Normalized(sheet, parseDate, |sheet.rows|))
  {
  }

  /** One row contributes one record per date column, in column order. */
  lemma {:induction false} RowRecordsShape(headers: seq<string>, row: map<string, Option<string>>, parseDate: string -> Option<Date>, n: nat)
    requires n <= |headers|
    ensures |RowRecords(headers, row, parseDate, n)| == |DateColumns(headers, parseDate, n)|
    ensures forall k :: 0 <= k < |DateColumns(headers, parseDate, n)| ==>
              RowRecords(headers, row, parseDate, n)[k]
              == MakeRecord(row, headers[DateColumns(headers, parseDate, n)[k]],
                            parseDate(headers[DateColumns(headers, parseDate, n)[k]]).value)
  {
    if n > 0 {
      RowRecordsShape(headers, row, parseDate, n - 1);
    }
  }

  /** One more row of `d` records. */
  lemma MulStep(a: nat, d: nat)
    ensures (a + 1) * d == a * d + d
  {
  }

  /** The first `m` rows yield exactly one record per (row, date column). */
  lemma {:induction false} NormalizedLength(sheet: Sheet, parseDate: string -> Option<Date>, m: nat)
    requires m <= |sheet.rows|
    ensures |Normalized(sheet, parseDate, m)| == m * |DateColumns(sheet.headers, parseDate, |sheet.headers|)|
  {
    if m > 0 {
      var d := |DateColumns(sheet.headers, parseDate, |sheet.headers|)|;
      NormalizedLength(sheet, parseDate, m - 1);
      RowRecordsShape(sheet.headers, sheet.rows[m - 1], parseDate, |sheet.headers|);
      MulStep(m - 1, d);
    }
  }

  /**
   * Records come row by row and, within a row, in column order: the record of
   * row `i` and the `k`-th date column sits at `i * D + k`, D being the number
   * of date columns.
   */
  lemma {:induction false} NormalizedAt(sheet: Sheet, parseDate: string -> Option<Date>, m: nat, i: nat, k: nat)
    requires i < m <= |sheet.rows|
    requires k < |DateColumns(sheet.headers, parseDate, |sheet.headers|)|
    ensures var cols := DateColumns(sheet.headers, parseDate, |sheet.headers|);
      && i * |cols| + k < |Normalized(sheet, parseDate, m)|
      && Normalized(sheet, parseDate, m)[i * |cols| + k]
         == MakeRecord(sheet.rows[i], sheet.headers[cols[k]], parseDate(sheet.headers[cols[k]]).value)
  {
    if i == m - 1 {
      NormalizedLastRow(sheet, parseDate, i, k);
    } else {
      NormalizedAt(sheet, parseDate, m - 1, i, k);
    }
  }

  /** Row `r` contributes the last D records of the first r + 1 rows. */
  lemma NormalizedLastRow(sheet: Sheet, parseDate: string -> Option<Date>, r: nat, k: nat)
    requires r < |sheet.rows|
    requires k < |DateColumns(sheet.headers, parseDate, |sheet.headers|)|
    ensures var cols := DateColumns(sheet.headers, parseDate, |sheet.headers|);
      && r * |cols| + k < |Normalized(sheet, parseDate, r + 1)|
      && Normalized(sheet, parseDate, r + 1)[r * |cols| + k]
         == MakeRecord(sheet.rows[r], sheet.headers[cols[k]], parseDate(sheet.headers[cols[k]]).value)
  {
    var prev := Normalized(sheet, parseDate, r);
    var last := RowRecords(sheet.headers, sheet.rows[r], parseDate, |sheet.headers|);
    RowRecordsShape(sheet.headers, sheet.rows[r], parseDate, |sheet.headers|);
    NormalizedLength(sheet, parseDate, r);
    assert Normalized(sheet, parseDate, r + 1) == prev + last;
  }

  /**
   * What each normalised record holds: the row's identity cells (the code
   * stringified), the date its column header parses to, and the cell under
   * that header as the shift, None exactly when the cell is missing.
   */
  lemma NormalizedRecord(sheet: Sheet, parseDate: string -> Option<Date>, i: nat, k: nat)
    requires i < |sheet.rows|
    requires k < |DateColumns(sheet.headers, parseDate, |sheet.headers|)|
    ensures var cols := DateColumns(sheet.headers, parseDate, |sheet.headers|);
      var j := cols[k];
      var row := sheet.rows[i];
      var out := Normalized(sheet, parseDate, |sheet.rows|);
      && i * |cols| + k < |out|
      && var r := out[i * |cols| + k];
      && r.code == Str(Cell(row, "Code"))
      && r.agentName == Cell(row, "Agent Name")
      && r.email == Cell(row, "Email")
      && r.gender == Cell(row, "Gender")
      && r.batch == Cell(row, "Batch")
      && r.skill == Cell(row, "Skill")
      && r.seniority == Cell(row, "Seniority")
      && r.teamLeader == Cell(row, "Team Leader")
      && Some(r.date) == parseDate(sheet.headers[j])
      && r.shift == Cell(row, sheet.headers[j])
  {
    NormalizedAt(sheet, parseDate, |sheet.rows|, i, k);
  }

  /** Identity columns are never date columns. */
  lemma NoDateColumnsAmongStatic(headers: seq<string>, parseDate: string -> Option<Date>, n: nat)
    requires n <= |headers|
    requires forall j :: 0 <= j < n ==> headers[j] in StaticColumns
    ensures DateColumns(headers, parseDate, n) == []
  {
  }

  /**
   * A header that does not parse as a date contributes nothing: with the
   * eight identity columns, one date column and one column such as "Notes"
   * that does not parse, every row yields exactly one record.
   */
  lemma NotesColumnSkipped(sheet: Sheet, parseDate: string -> Option<Date>, day: string, notes: string)
    requires sheet.headers == StaticColumns + [day, notes]
    requires IsDateColumn(day, parseDate) && parseDate(notes).None?
    ensures NormalizeOutcome(sheet, parseDate).Success?
    ensures |NormalizeOutcome(sheet, parseDate).value| == |sheet.rows|
  {
    var h := sheet.headers;
    assert FirstMissing(h, StaticColumns).None? by {
      forall c | c in StaticColumns ensures c in h {
        assert c in StaticColumns + [day, notes];
      }
    }
    assert DateColumns(h, parseDate, |h|) == [8] by {
      forall j | 0 <= j < 8 ensures h[j] in StaticColumns {
        assert h[j] == StaticColumns[j];
      }
      NoDateColumnsAmongStatic(h, parseDate, 8);
      assert |h| == 10;
    }
    NormalizedLength(sheet, parseDate, |sheet.rows|);
    assert |sheet.rows| * 1 == |sheet.rows|;
  }
}
