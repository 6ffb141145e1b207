# Schedule upload reconciliation, modelled in Dafny

The application keeps agents' shift schedules in two tables:

- `schedules` is the canonical table.
- `schedules_update` is a mirror that always holds the latest uploaded values.

A planner uploads a wide spreadsheet: one row per agent, eight identity columns (`Code`, `Agent Name`, `Email`, `Gender`, `Batch`, `Skill`, `Seniority`, `Team Leader`) and one column per date. The application processes it in these steps:

1. It checks the file name.
2. It flattens the sheet into one record per agent and day.
3. It applies the records, in order, to both tables:
   - In `schedules`, a record whose (email, date) is already stored overwrites that row only when overwriting is forced; otherwise it is skipped. A record with a new (email, date) is inserted.
   - In `schedules_update`, every matching row is overwritten, and unmatched records are inserted.
   - It counts what happened in each table.
4. It copies the batch's latest team leader per email onto every mirror row with that email.

Two more operations complete the core:

- A read-only duplicate check previews how many records of a sheet are already stored.
- A delete removes all of an agent's rows from the mirror.

The modules follow that structure:

- `Types`: records, dates, errors. The record's fields are the columns of `models.py`.
- `Tables`: the two tables as sequences of rows with ids, the (email, date) key, and the first-match lookup.
- `FileNames`: the extension check.
- `Normalizer`: the sheet flattening. It is written as a loop method proved against recursive specification functions.
- `Duplicates`: the duplicate preview.
- `Reconcile`: one step and the whole pass over each table, as functions, with their properties as lemmas.
- `Propagate`: the email-to-team-leader map and the mirror update.
- `Deletion`: the delete by agent name.
- `Store`: class `Database`, holding both tables and a flag saying whether the mirror exists. Its methods perform the operations above in place, and it holds the lemma relating the duplicate preview to an upload.

Modelling choices:

- A spreadsheet cell is `Option<string>`; a blank cell, which pandas reads as NaN, is `None`.
- `str()` of a blank `Code` cell is the text `"nan"`.
- In the team-leader map, a blank email or team-leader cell counts as present, because NaN is truthy in Python. Only an empty text is filtered out.
- Date parsing of a column header is a parameter `parseDate: string -> Option<Date>`. `None` means the parser raised an error.
- Two keys match when their email cells and dates are equal. A missing email matches another missing email.
- `Database.Valid()` is the invariant every method keeps: ids are distinct and below the next id in both tables, the mirror holds at most one row per (email, date), and a mirror not yet created is empty. The canonical table is not required to have unique keys, because it may hold rows written by other means; its passes are proved to keep uniqueness when it holds.

## Model

| member | source | states |
|---|---|---|
| FileNames.LastDot | app.py:19 | Returns the position of the last '.' in the name, or None when there is no '.'. |
| FileNames.AllowedFile | app.py:18-19 | True exactly when the name contains a '.' and the text after the last '.', lower-cased, is `xlsx` or `xls`. |
| Store.CheckFile | app.py:171-179 | Refuses a request with no file part (NoFileUploaded), then an empty file name (NoFileSelected), then a non-empty name without a spreadsheet extension (InvalidFileType), in that order. It accepts exactly the non-empty allowed names. |
| Normalizer.DateColumns | app.py:24-32 | Lists the date columns in increasing column order. Every listed column is a non-identity column whose header parses as a date. |
| Normalizer.DateColumnsComplete | app.py:24-32 | Every non-identity column whose header parses is listed, so no date column is missed. |
| Normalizer.FirstMissing | app.py:22-23 | Returns None exactly when every identity column is present. Otherwise it returns an identity column that is absent; the model's error names that column. |
| Normalizer.RowToRecords | app.py:28-44 | A row yields its records column by column. It fails with the missing column exactly when an identity column is absent and a date column exists. |
| Normalizer.NormalizeScheduleExcel | app.py:21-45 | The loop returns the row-by-row, column-by-column flattening. It fails only when a record must be built while an identity column is absent. NormalizeOutcome is the specification function it is proved equal to. |
| Normalizer.RowRecordsShape | app.py:28-44 | A row yields exactly one record per date column, in column order. |
| Normalizer.NormalizedLength | app.py:26-45 | The sheet yields exactly (rows × date columns) records. |
| Normalizer.NormalizedAt | app.py:26-45 | The record of row i and date column k sits at position i·D + k, where D is the number of date columns. Records come row by row, and in column order within a row. |
| Normalizer.NormalizedLastRow | app.py:27-44 | The last row processed contributes the last D records. |
| Normalizer.NormalizedRecord | app.py:33-44 | Each record copies the row's identity cells and stringifies the code. Its date is the parsed header. Its shift is the cell under that header: None exactly when the cell is missing. About MakeRecord (app.py:33-44). |
| Normalizer.NoDateColumnsAmongStatic | app.py:22-24 | Identity columns are never date columns. |
| Normalizer.NotesColumnSkipped | app.py:28-32 | With one date column plus a header that does not parse, normalisation succeeds with one record per row. The unparseable header adds nothing and raises nothing. |
| Tables.FirstMatch | app.py:68-71 | Finds a row with the key exactly when the key is stored, and returns the first such row. |
| Duplicates.DuplicateRecords | app.py:191 | Keeps exactly the batch records whose (email, date) is stored; order and multiplicity are pinned down by DuplicatesAppend and SplitOne. |
| Duplicates.DuplicatesAppend | app.py:191 | The duplicates of a concatenation are the duplicates of each part, concatenated: the list is the order-preserving subsequence of duplicate records. |
| Duplicates.FreshRecords | app.py:191-195 | Keeps exactly the batch records whose (email, date) is not stored; order and multiplicity are pinned down by FreshAppend and SplitOne. |
| Duplicates.FreshAppend | app.py:191-195 | The fresh records of a concatenation are the fresh records of each part, concatenated. |
| Duplicates.SplitOne | app.py:191 | A single record is listed as a duplicate exactly when its pair is stored, and as fresh otherwise. |
| Duplicates.SplitCounts | app.py:191-195 | Every record is a duplicate or fresh, once each: the counts add up to the batch size and the two lists together are the batch as a multiset. |
| Duplicates.DuplicatePairs | app.py:196 | The reported pairs are exactly the stored pairs that the batch contains. |
| Duplicates.Report | app.py:186-196 | The report's total is the batch size. Its duplicates count is the number of duplicate records, and new is the total less the duplicates, which is the number of unstored records. Its pairs are the duplicate records' pairs in their order, and they are exactly the stored pairs the batch contains. |
| Store.Database.CheckDuplicates | app.py:171-196 | Applies the file checks, normalises the sheet, then returns the report against the stored pairs. It modifies nothing. |
| Store.AddedAtMostFresh | app.py:66-91 | An upload adds at most the records the preview calls new, and exactly that many when no two batch records share a key. |
| Store.PreviewMatchesUpload | app.py:191-195 | An upload's `added` count is at most the preview's `new_records`. When no two batch records share a key, the two are equal, and without forcing `skipped` equals `duplicates`. |
| Reconcile.CanonicalCounts | app.py:61-91 | Each record moves exactly one of added, updated and skipped, so they sum to the batch size. Without forcing, updated is 0. Each add is one new row and one id used. About CanonicalStep and CanonicalPass (app.py:66-91). |
| Reconcile.CanonicalFrame | app.py:66-91 | Rows are never removed or reordered and keep their id and key. Rows with keys outside the batch are unchanged. Without forcing, no stored row changes. |
| Reconcile.CanonicalKeys | app.py:66-91 | Afterwards the stored keys are the old keys plus the batch's keys. |
| Reconcile.CanonicalUnique | app.py:66-91 | Preserves "at most one row per (email, date)". |
| Reconcile.CanonicalIds | app.py:89-91 | Preserves distinct ids below the next id. |
| Reconcile.CanonicalForceLastWins | app.py:73-86 | With forcing and unique keys, every row whose key is in the batch holds all fields of the last batch record with that key. |
| Reconcile.CanonicalFirstWins | app.py:66-89 | Without forcing, every row the pass inserts holds the first batch record with its key, and the inserted rows carry consecutive ids from the table's next id. |
| Reconcile.CanonicalAllStored | app.py:73-88 | Without forcing, a batch whose keys are all stored changes nothing and skips every record. |
| Reconcile.ReuploadSkipsAll | app.py:66-91 | Re-uploading a batch without forcing adds nothing, updates nothing and skips every record. |
| Reconcile.LastWith | app.py:94-115 | Finds a batch record with the key that no later record shares, i.e. the last one; it is absent exactly when the batch lacks the key. |
| Reconcile.FirstWith | app.py:66-89 | Finds a batch record with the key that no earlier record shares, i.e. the first one; it is absent exactly when the batch lacks the key. |
| Reconcile.MirrorCounts | app.py:94-115 | Mirror added plus updated equals the batch size, whatever the overwrite flag. Each add is one new row and one id used. About MirrorStep and MirrorPass (app.py:93-115). |
| Reconcile.MirrorFrame | app.py:94-115 | Mirror rows are never removed or reordered and keep their id and key. Rows with keys outside the batch are unchanged. |
| Reconcile.MirrorKeys | app.py:94-115 | Afterwards the mirrored keys are the old keys plus the batch's keys. |
| Reconcile.MirrorUnique | app.py:94-115 | Preserves "at most one mirror row per (email, date)". |
| Reconcile.MirrorIds | app.py:94-115 | Preserves distinct ids below the next id. |
| Reconcile.MirrorLastWins | app.py:94-115 | Every mirror row whose key is in the batch holds the last batch record with that key, even when keys repeat. |
| Reconcile.MirrorAllStored | app.py:101-110 | A batch whose keys are all mirrored updates every record and adds none. |
| Reconcile.MirrorReuploadUpdatesAll | app.py:94-115 | Re-uploading a batch updates every mirror record. |
| Store.Database.EnsureSchedulesUpdateTable | app.py:47-57 | Creates the mirror, empty, when it is absent. An existing mirror and `schedules` are untouched. |
| Store.Database.ProcessUpload | app.py:59-117 | Creates the mirror if needed. Both tables and counters become the canonical pass and the mirror pass over the batch, and the mirror's result does not depend on the overwrite flag. Valid ids are kept. |
| Store.Database.ApplyRecords | app.py:66-115 | The loop yields the canonical pass and the mirror pass with their counters. |
| Store.Database.ApplyToSchedules | app.py:67-91 | One record against `schedules`: overwrite the first match when forcing, skip it otherwise, or insert with the next id. |
| Store.Database.ApplyToSchedulesUpdate | app.py:93-115 | One record against the mirror: overwrite every matching row, or insert with the next id. |
| Propagate.LastQualifying | app.py:126-130 | Finds a batch record with a truthy email and team leader for a given email that no later such record follows, i.e. the last one; it is absent exactly when there is none. |
| Propagate.EmailToLeaderLastWins | app.py:126-130 | The map has an entry exactly for the emails of qualifying records, and each entry is the team leader of the last such record. About EmailToLeader, the dict comprehension at app.py:126-130. |
| Propagate.SetLeader | app.py:133-137 | One UPDATE keeps ids, keys and every column but the team leader; rows with the email take the given leader, and other rows are untouched. |
| Propagate.Propagated | app.py:132-137 | With all entries applied, ids, keys and every column but the team leader are kept; a row whose email has an entry takes that entry's leader, and other rows are untouched. |
| Propagate.SetLeaderStep | app.py:132-137 | The emails can be applied in any order: each UPDATE extends the set of emails done. |
| Propagate.PropagatedShape | app.py:132-137 | Propagation keeps ids and keys, so key uniqueness and valid ids are kept. |
| Propagate.TeamLeaderLastWins | app.py:126-137 | A row whose email is in the batch ends with the last qualifying team leader, on any date. Its other fields are unchanged, and rows of other emails are unchanged. |
| Propagate.PropagatedIdempotent | app.py:132-137 | Propagating the same map twice equals propagating it once. |
| Store.Database.ApplyLeaders | app.py:132-137 | The loop over the map's emails, in arbitrary order, yields the propagated rows. |
| Store.Database.UpdateTeamLeaderByEmail | app.py:119-137 | Does nothing when the mirror is absent. Otherwise the mirror's rows become the propagation of the batch's map, and `schedules` is unchanged. |
| Deletion.WithoutAgent | app.py:415-416 | Keeps exactly the rows whose agent name is not the given name. |
| Deletion.WithoutAgentAppend | app.py:415-416 | The delete keeps stored order: deleting from a concatenation deletes from each part and concatenates the survivors. |
| Deletion.DeleteCount | app.py:415-420 | The reported count equals the number of rows removed; it is 0 exactly when no row has that agent. About CountAgent, the `rowcount` at app.py:416-420. |
| Deletion.DeleteKeepsIds | app.py:415-416 | Deleting keeps ids distinct and below the next id. |
| Deletion.DistinctIdsKept | app.py:415-416 | Deleting keeps ids distinct. |
| Deletion.DeleteKeepsUnique | app.py:415-416 | Deleting keeps "at most one row per (email, date)". |
| Store.Database.DeleteSchedulesUpdate | app.py:407-420 | A missing mirror gives not-found, then a missing or empty agent gives agent-required, both with no change. Otherwise exactly the agent's rows are removed, their number is returned, and all other rows are kept. |
| Store.Database.Upload | app.py:202-223 | Applies the file checks, then normalisation; a failure of either returns the error and changes nothing. Otherwise it runs the two-table pass, forcing exactly when the `force` argument is the text "true", then team-leader propagation, and returns the counters. The mirror keeps at most one row per (email, date). The force rule is ForceFlag (app.py:204). |

## Left out

- Flask routing, form and query parsing, JSON bodies, messages and HTTP status codes. Only the decisions they report are modelled.
- `pd.read_excel`:
  - A sheet is given as its headers and rows of text cells.
  - Numeric and date cell values, and `str()` of them (for example a numeric code), are not modelled.
  - pandas renaming duplicate headers is not modelled.
- `pd.to_datetime` is the parameter `parseDate`. Header values that are not text are not modelled.
- SQLAlchemy sessions, flushing, commit and rollback:
  - The model applies a successful upload in full and leaves the state untouched on a refused file or a failed normalisation.
  - Database errors part-way through a pass, and the rollback that undoes them, are not modelled.
- After a failed normalisation, the upload route's error handler refers to a session that was never opened. The model returns the normalisation error and changes nothing.
- Schema reflection and copying the `schedules` columns into the new mirror (including `create_update_table.py`). Table existence is the flag `hasSchedulesUpdate`, and a new mirror is empty with ids starting at 1.
- Tables.FirstMatch: the `.first()` lookup at app.py:68-71 has no ORDER BY, so when several stored rows share a key the database may return any of them. The model resolves it to the earliest row in storage order, and a forced overwrite rewrites that row only.
- Store.Database.ApplyToSchedules: each lookup is assumed to see the rows that `session.add` inserted earlier in the same batch, as the session's autoflush makes them visible. The session's configuration is not part of this model. Without autoflush, two records with one new key would both be added. CanonicalFirstWins, CanonicalUnique and the counters of CanonicalCounts rely on this assumption.
- Ids come from a per-table counter. The database's autoincrement behaviour beyond "fresh and distinct" is not modelled.
- Store.Database.ApplyLeaders: Python iterates the map in insertion order, while the model picks emails in any order. SetLeaderStep proves that the order does not change the result.
- How the database compares a NaN parameter is not modelled: two missing emails count as equal keys, and a missing agent name never matches a delete.
- Duplicates.Report keeps duplicate pairs as (email, date) values rather than the text `str(date)`.
- The `/api/stats`, `/view-db`, `/view-schedules-update`, `/filter-options` and `/filtered-results` queries and their HTML, the templates, and `static/app.js`.
