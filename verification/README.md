# Smartsheet connector model

A Dafny model of `connector.py`, a Fivetran connector that copies Smartsheet sheets into
destination tables. Two entry points are modelled:

- **`schema`** declares one table per configured sheet id. Each table is named after the
  sheet, lower-cased with spaces turned into underscores. If the sheet cannot be fetched,
  the table is named `smartsheet_<id>`. Every table's primary key is `id`.
- **`update`** runs one sync, step by step:
  1. It reads the comma-separated sheet ids.
  2. It decides between a full sync and an incremental sync. A missing cursor forces a full
     sync. So does a cursor that cannot be parsed or one that is at least seven whole days old.
  3. It fetches each sheet and maps column ids to titles.
  4. It flattens each row into a record of five metadata fields plus one field per titled
     cell, and upserts it.
  5. In a full sync only, it deletes the row ids stored for the sheet that were not seen
     this time.
  6. It replaces the sheet's stored ids with the ids it saw.
  7. Finally it checkpoints the run-start time, truncated to whole seconds, together with
     the id map.

`update` is a Python generator. Here it is the method `Connector.Update`, which returns
the operations the generator yields and how the run ended:
- `Finished` when a checkpoint is written;
- `ConfigError` when the token or the sheet ids are missing;
- `Raised` when an exception escapes the generator.

`Update` is proved against `Connector.UpdatePlan`, a specification function. In that
function, the deletes of one sheet form a single `DeleteEach(table, ids)` step. Python's
set iteration order is unspecified, so the predicate `Realizes` accepts the deletes in any
order, provided each id is deleted exactly once. The loops of `update` are methods proved
against the matching specification functions:
- `SyncSheets` against `ProcessSheets`;
- `SyncSheet` against `ProcessSheet`;
- `SyncRows` against `ProcessRows`;
- `BuildRecord` against `ApplyCells`;
- `DeleteMissing` against `DeletesExactly`.

Three specification members carry no contract of their own and are described by the
lemmas about them: `Connector.ConfigValid` is the token and sheet-id check of line 91,
`Sheet.Metadata` is the five-field record of lines 140-146, and `Sheet.RowOutcomeOf` is the
row body's `try`/`except` of lines 137-164.

Inputs:
- The network is a function `fetch: string -> Option<SheetData>`. It gives `None` when the
  request, the status check or the JSON decoding raises. The same function serves for
  `schema`.
- The clock gives two integer instants in microseconds. `now` is used for the age check;
  `runStart` is used for `sync_start`.
- The stored `sync_cursor` arrives already classified as a `StoredCursor`: missing, blank,
  unparsable, or an instant.

Where the code and its own comments or log messages disagree, the model follows the code:
- **Incremental syncs replace the stored ids.** `current_ids = new_ids` (line 167) replaces
  the stored ids even in an incremental sync; the log message on line 170 speaks of merging.
  As a consequence, a row deleted upstream while it was not among the modified rows escapes
  the next full sync. `Scenarios.IncrementalThenFullMissesDelete` exhibits this.
- **A blank cursor gives an incremental sync without delete detection.** A blank stored
  cursor (present but falsy, such as `""`) skips the age check on line 75. Delete detection
  is decided by `sync_cursor is None` on line 173, so that run is incremental. Its request
  carries no `rowsModifiedSince` (line 104), and it detects no deletes.
- **Some errors escape the generator.** Two errors raise out of it, leaving the operations
  already yielded and no checkpoint:
  - a malformed column list, because the comprehension on line 126 is outside any `try`;
  - a row that is not an object, because `row.get` raises on line 138 and again inside the
    handler on line 163.

## Model

| member | source | states |
|---|---|---|
| Text.Strip | connector.py:70 | the stripped string is empty or starts and ends with a non-whitespace character |
| Text.StripParts | connector.py:70 | the string is whitespace, then its stripped form, then whitespace |
| Text.StripBlank | connector.py:70 | `s.strip()` is empty (falsy) exactly when `s` is all whitespace |
| Text.Split | connector.py:70 | `split(",")` yields at least one piece and no piece holds the separator |
| Text.JoinSplit | connector.py:70 | joining the pieces of `split` with the separator gives back the string |
| Text.SplitJoin | connector.py:70 | splitting a join of separator-free pieces gives back the pieces |
| Text.LowerAt | connector.py:27 | `lower()` changes each character independently and lands on a fixed point |
| Text.ReplaceCharAt | connector.py:27 | `replace(" ", "_")` changes exactly the matching characters |
| Connector.KeepStripped | connector.py:70 | every kept id is non-empty and has no surrounding whitespace |
| Connector.ParseSheetIds | connector.py:70 | parsed sheet ids are non-empty, stripped and free of commas |
| Connector.KeepStrippedOrder | connector.py:70 | the kept ids are the stripped non-blank pieces, in order, and every blank piece is dropped |
| Properties.ParseSheetIdsOrder | connector.py:36 | the ids are the comma-separated pieces of the raw setting, stripped, in order, with exactly the blank ones dropped |
| Connector.FormatTableName | connector.py:26-27 | a formatted table name has the same length as the sheet name and contains no space |
| Properties.FormatTableNameAt | connector.py:26-27 | each character is the lower-cased original, or `_` where there was a space |
| Properties.FormatTableNameIdempotent | connector.py:26-27 | formatting a formatted name changes nothing |
| Connector.TableFor | connector.py:114-123 | a table name exists exactly when the fetch succeeds and `name` is absent or a string; it contains no space |
| Connector.Schema | connector.py:29-60 | one table per sheet id, in order, key `["id"]`; a failed fetch gives the unformatted `smartsheet_<id>`, an absent name the formatted fallback, a string name its formatted form, any other name the unformatted fallback |
| Connector.DeclareTable | connector.py:42-57 | one iteration of the schema loop declares the named table, keyed by `id`, by the same four cases |
| Connector.ModeOf | connector.py:71-84 | a run is full exactly when the cursor is missing, unparsable, or at least seven days old |
| Connector.CheckpointCursor | connector.py:86-88 | the checkpoint cursor is a whole second, at most the run start and within a second of it |
| Properties.DroppedCursorActsAsMissing | connector.py:79-84 | a run whose cursor is dropped behaves exactly as a run without a cursor |
| Properties.CheckpointResumes | connector.py:184-187 | a finished run ends in a checkpoint that makes the next run incremental exactly while fewer than seven days have passed since the truncated run start |
| Sheet.ColumnMapping | connector.py:126 | the column map exists exactly when every column has an id and a title and the id is hashable; its keys are the column ids |
| Sheet.MappingLastWins | connector.py:126 | for a repeated column id the last column's title wins |
| Sheet.ApplyCells | connector.py:148-154 | the cell loop raises exactly when some cell is not an object, has an unhashable column id, or resolves to an unhashable title |
| Sheet.ApplyCellsContents | connector.py:148-154 | the record's keys are the start keys plus the resolved titles; each title holds its last cell's value; other keys keep their start values |
| Sheet.RecordContents | connector.py:140-154 | a normalised row holds the five metadata fields and the resolved titles; each metadata field keeps the row's value unless a column with that title overwrote it |
| Sheet.BuildRecord | connector.py:140-154 | the cell loop builds the record the cell specification describes |
| Connector.ProcessRows | connector.py:134-164 | only upserts into the sheet's table; the row loop raises exactly when some row is not an object; otherwise the observed ids are the hashable ids of the object rows |
| Connector.SyncRows | connector.py:134-164 | the row loop yields the upserts and observed ids of the row specification |
| Properties.ProcessRowsConcat | connector.py:134-164 | rows are processed in order: the upserts of `a + b` are those of `a` then those of `b`, and the observed ids are the union |
| Properties.FailedRowObserved | connector.py:137-139 | a row that fails after its id was added still counts as observed |
| Connector.DeleteMissing | connector.py:175-177 | one delete per missing id, each id exactly once, nothing else |
| Connector.DeletesExactlyMeaning | connector.py:175-177 | a delete block for a set has one operation per id; each deletes an id of the set from the sheet's table; no id is deleted twice and every id is deleted |
| Properties.FetchFailureIsolated | connector.py:114-123 | a sheet whose fetch fails yields nothing and changes no stored ids |
| Properties.SheetReconciled | connector.py:129-181 | a processed sheet yields its upserts, then in full mode deletes exactly the previous ids not seen; its stored ids become the seen ids; deleted and kept ids are disjoint and cover the previous ids; a first sync deletes nothing; a sheet with no rows deletes every previous id |
| Properties.RerunIdempotent | connector.py:129-181 | a second full sync of unchanged data re-upserts the same rows, deletes nothing and leaves the stored ids unchanged |
| Properties.IncrementalNeverDeletes | connector.py:173-178 | in incremental mode the sheet loop only upserts |
| Properties.IncrementalRunDeletesNothing | connector.py:173-178 | no operation of an incremental run is a delete |
| Properties.OtherEntriesUntouched | connector.py:181 | the stored ids of a sheet that is not configured pass through the run unchanged |
| Properties.SheetTouchesOwnEntry | connector.py:167-181 | processing one sheet leaves every other sheet's stored ids as they were |
| Properties.SheetEntries | connector.py:167-181 | processing one sheet drops no entry and adds at most the sheet's own |
| Properties.EntriesAfterLoop | connector.py:96-181 | no stored entry is dropped, and entries are added only for configured sheet ids |
| Properties.CheckpointLast | connector.py:183-187 | a finished run has exactly one checkpoint, the last step, carrying the truncated run start and the final id map |
| Properties.RealizedDeletes | connector.py:175-177 | operations that carry out a plan delete exactly the (table, id) pairs the plan deletes |
| Properties.NoDeletesRealized | connector.py:173-178 | operations that carry out a plan without deletes contain no delete |
| Properties.IncrementalPlanDeletesNothing | connector.py:173-178 | the plan of an incremental run deletes nothing |
| Connector.SyncSheet | connector.py:99-181 | one sheet's iteration yields the operations and the new id map of the sheet specification |
| Connector.SyncSheets | connector.py:99-181 | the sheet loop yields the operations of the loop specification and stops at the first sheet that raises |
| Connector.Update | connector.py:62-187 | the yielded operations carry out the run's plan; a missing token or no sheet ids raise before anything is yielded; a finished run ends with the checkpoint of the truncated run start |
| Scenarios.BudgetTableName | connector.py:26-27 | the sheet "Budget 2024" gives the table `budget_2024` |
| Scenarios.PaddedConfig | connector.py:70 | the setting `" 111 "` gives the single sheet id `111`, and the configuration is valid |
| Scenarios.BudgetFullSync | connector.py:129-181 | full sync with stored ids {1,2,3} and rows 2,3,4: three upserts, delete of row 1, stored ids {2,3,4} |
| Scenarios.BudgetIncrementalSync | connector.py:166-181 | incremental sync that sees only row 4: one upsert, no deletes, stored ids become {4} |
| Scenarios.IncrementalThenFullMissesDelete | connector.py:166-177 | after that incremental sync, a full sync no longer deletes row 1, which is gone from the sheet |
| Scenarios.FetchFailureStillCheckpoints | connector.py:113-187 | a run whose only sheet cannot be fetched yields just the checkpoint, with the stored ids unchanged |
| Scenarios.OnlySheetFails | connector.py:113-187 | for any valid configuration of one sheet id whose fetch fails, the run's plan is just the checkpoint of the unchanged id map |
| Scenarios.StalenessBoundary | connector.py:75-81 | a cursor a microsecond under seven days old keeps the run incremental; at seven days the run is full; a blank cursor never expires |

## Left out

- HTTP requests and URL building (lines 45-48, 104-117) are not modelled. A fetch is an input
  function of the sheet id, so the `rowsModifiedSince` query of an incremental request is not
  modelled either: the fetch returns whatever rows the API would.
- `datetime.now`, `pytz`, ISO-8601 parsing and formatting and time zones are left out.
  Instants are integer microseconds, and the stored cursor arrives already classified. The
  checkpoint cursor is an instant, not its ISO string.
- Logging, `print(current_ids)` and the `processed_rows` counter are left out; they affect
  no operation or state.
- Connector registration, the `__main__` block and loading `configuration.json` are not
  modelled. `Config` holds only the two settings read, as present or absent strings.
- The SDK's handling of the yielded operations is out of scope. So is its persistence of the
  state between runs, beyond the `Checkpoint` operation's payload.
- The order of deletes within one sheet is unspecified; `Realizes` allows any order.
- `lower()` is modelled for ASCII letters only. Python's full Unicode case mapping is not.
- JSON numbers are integers (`Num`); floating-point values are not modelled. Python's
  `True == 1` and `hash(True) == hash(1)` aliasing of keys is not modelled either: `Bool`
  and `Num` values are distinct keys.
- A `columns`, `rows` or `cells` value that is not a list is not represented as such. A
  value Python cannot iterate, or a non-empty string or object, is written as a list with one
  malformed entry, which fails at the same point as the source. An empty string or object
  iterates as nothing in Python and is written as an empty list. A response body that is not
  an object is a fetch failure.
- `Json.Value.Container` keeps only the element count of a JSON array or object. A cell value
  or metadata field that is an array or object is copied into the record without its
  contents, so `[1,2]` and `[3,4]` give the same record. No property depends on the contents.
- `fetch` is one function of the sheet id, so a sheet id listed twice (such as `"111,111"`)
  gets the same response both times. The source makes a new request for each occurrence
  (line 115), and the second response may differ or fail. No property depends on this.
- A present `smartsheet_sheet_ids` setting that is not a string would raise. Configuration
  values are strings, so the model reads the setting as absent or a string.
- Stored `all_ids` entries are sets of hashable values. The list-to-set conversion on line
  129 and the set-to-list conversion on line 181 are not modelled as separate steps.
