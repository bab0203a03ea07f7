# Customer ETL pipeline — a Dafny model of its transformation and load ordering

The repository is one linear script, `PipelineScript.py`. It reads a customer CSV from object
storage. It then transforms the table in memory:

- it keeps six columns;
- it recodes SeniorCitizen, Partner and Dependents to booleans;
- it adds a tenure-based `classification`;
- it keeps the first 100 rows.

Finally it replaces the warehouse table `final_data` with these rows, one INSERT and one commit
per row. This project models the two parts of the script that make decisions: the
transformation (lines 31-57) and the order of the statements sent to the warehouse
(lines 78-132).

Files and modules:

- `values.dfy` (`Values`): a cell is `VInt | VStr | VBool`. `PyEq` is Python's `==` on cells:
  False == 0 and True == 1, and a string equals only the same string.
- `recoding.dfy` (`Recoding`): pandas `Series.replace(dict)` on one cell. Also the two
  dictionaries the script uses, and idempotence of both recodings.
- `frames.dfy` (`Frames`): the decoded table. A `Frame` is a header plus rows, each row a
  `map<string, Value>` with exactly the header's keys. It also holds the projected row
  (`Customer`), the classified row (`Classified`), the INSERT parameters (`Tuple`), the error
  kinds, and the `Map`/`Head` sequence operations.
- `tiers.dfy` (`Tiers`): `classify_customers`, its bands, its boundaries and its monotonicity.
  The monotonicity proof goes through an order-independent reference: the number of upper
  bounds the tenure exceeds.
- `transform.dfy` (`Transformation`): each step works column by column over the whole table,
  as the script does. The end-to-end lemmas compare the result with `ExpectedTuple`, a
  row-by-row reference. There is one lemma per outcome: missing column, non-numeric tenure,
  success.
- `load.dfy` (`Loading`): the statements of a load as commands (`Drop | Create |
  Insert(params) | Commit`). `Trace` is the complete statement sequence and `Persisted` is what
  the table durably holds after a log. `Connection` is a class whose `log` field records the
  statements the warehouse accepted. `Load` is the per-row loop, proved against `Trace`.
- `pipeline.dfy` (`Pipeline`): `Run` composes transform, connect and load. `LoadedTable` states
  what a complete run leaves in `final_data`.

The warehouse's behaviour is a parameter (`Server`): whether it can be reached, and which
statement of the session it rejects, if any. The session stops at the rejected statement
because the script has no exception handling.

The script has no exception handling, so:

- The connection is closed only on the success path (lines 129-130 have no `try`/`finally`).
  After a rejected statement, `Load` leaves the connection open.
- A missing column fails once, for the whole table, with pandas' `KeyError` at line 31. The
  error lists the selected columns absent from the header.
- Values outside the recoding dictionaries pass through `replace` unchanged (lines 34-38).
- A tenure that Python cannot compare with an integer (a string) raises `TypeError` in
  `classify_customers`. Classification runs before `head(100)`, so a bad tenure in row 150
  still fails the whole run. A boolean tenure compares as 0 or 1.
- A failed run reports no count. The count printed at line 132 is the batch size, printed only
  after every row was loaded.

## Model

| member | source | states |
|---|---|---|
| `Values.PyEqEquivalence` | PipelineScript.py:34-38 | the equality `replace` uses to match keys is reflexive, symmetric and transitive |
| `Recoding.Replace` | PipelineScript.py:34 | a cell equal to no key is returned unchanged; otherwise it gets the replacement of the first equal key; the result is the cell or one of the replacements |
| `Recoding.ReplaceIdempotent` | PipelineScript.py:34-38 | if the dictionary leaves every replacement value alone, replacing twice equals replacing once |
| `Recoding.RecodeSeniorCitizen` | PipelineScript.py:34 | a cell equal to 0 becomes False, a cell equal to 1 becomes True, and every other cell passes through |
| `Recoding.RecodeYesNo` | PipelineScript.py:37-38 | "Yes" becomes True, "No" becomes False, and every other cell passes through |
| `Recoding.MappingKeysExclusive` | PipelineScript.py:34-38 | no cell equals both keys of either dictionary, so taking the first equal key is the dictionary lookup pandas does |
| `Recoding.MappingsFixTheirTargets` | PipelineScript.py:34-38 | neither dictionary changes the booleans it produces |
| `Recoding.SeniorCitizenIdempotent` | PipelineScript.py:34 | recoding SeniorCitizen a second time is a no-op |
| `Recoding.YesNoIdempotent` | PipelineScript.py:37-38 | recoding Partner/Dependents a second time is a no-op |
| `Frames.Head` | PipelineScript.py:57 | `head(n)` has length min(N, n) and is a prefix of its input |
| `Frames.TupleCells` | PipelineScript.py:119-125 | the INSERT column list is the classified table's columns in order (the six projected, then `classification`); INSERT parameter k is the row's cell of the k-th listed column, the last being the classification |
| `Tiers.Classify` | PipelineScript.py:41-51 | the result is always one of new, bronze, silver, gold, platinum |
| `Tiers.ClassifyBands` | PipelineScript.py:42-51 | each band is exactly its tenure interval (≤6, 7-12, 13-36, 37-60, >60), in both directions |
| `Tiers.ClassifyBoundaries` | PipelineScript.py:42-51 | 6→new, 7→bronze, 12→bronze, 13→silver, 36→silver, 37→gold, 60→gold, 61→platinum |
| `Tiers.ClassifyLowIsNew` | PipelineScript.py:42-43 | every tenure ≤ 6, negative ones included, is new |
| `Tiers.ClassifyCountsBounds` | PipelineScript.py:41-51 | the band's rank equals the number of upper bounds (6, 12, 36, 60) the tenure exceeds |
| `Tiers.ClassifyMonotone` | PipelineScript.py:41-51 | a larger tenure never gets a lower band |
| `Transformation.Absent` | PipelineScript.py:31 | exactly the wanted columns missing from the header are listed |
| `Transformation.ProjectRow` | PipelineScript.py:31 | the projected row's k-th cell is the raw row's cell of the k-th selected column |
| `Transformation.Project` | PipelineScript.py:31 | fails with KeyError listing the absent columns iff a selected column is missing from the header; otherwise keeps every row, in order, with exactly the six selected cells in the listed order |
| `Transformation.ProjectedRow` | PipelineScript.py:31 | projected row i holds exactly raw row i's customerID, gender, SeniorCitizen, Partner, Dependents and tenure |
| `Transformation.RecodeColumn` | PipelineScript.py:34-38 | the named cell of every row goes through the dictionary; every other cell, the row count and the order are unchanged |
| `Transformation.RecodeColumnIdempotent` | PipelineScript.py:34-38 | recoding a column twice equals recoding it once when the replacements are fixed points |
| `Transformation.RecodingIdempotent` | PipelineScript.py:34-38 | running each of lines 34, 37 and 38 a second time changes nothing |
| `Transformation.Recode` | PipelineScript.py:34-38 | after the three recodings only SeniorCitizen, Partner and Dependents have changed, each by its own dictionary |
| `Transformation.AddClassification` | PipelineScript.py:52 | on success adds exactly one field to every row, equal to the band of that row's tenure, with the other cells and the order unchanged; fails with TypeError at the first row whose tenure is not a number |
| `Transformation.Transform` | PipelineScript.py:31-57 | a successful transformation yields min(N, 100) rows |
| `Transformation.RecodedRow` | PipelineScript.py:31-38 | a projected, recoded row holds the raw row's cells with the three recodings applied |
| `Transformation.ClassifiedRow` | PipelineScript.py:52 | a classified row's seven INSERT values are the row-by-row reference values of its raw row |
| `Transformation.TransformMissingColumn` | PipelineScript.py:31 | a header missing a selected column fails with KeyError, whatever the rows hold |
| `Transformation.TransformTypeError` | PipelineScript.py:52-57 | with the columns present, the first row (among all rows, before the cap) whose tenure is not numeric fails the run with TypeError at that row |
| `Transformation.TransformOk` | PipelineScript.py:31-57 | with the columns present and numeric tenures, the result has min(N, 100) rows; row i carries exactly the row-by-row reference values of raw row i |
| `Loading.InsertSteps` | PipelineScript.py:119-126 | the per-row part of the load sends exactly two statements per row |
| `Loading.InsertStepsAt` | PipelineScript.py:119-126 | row i's INSERT, with row i's values, is at 2i and its commit right after |
| `Loading.Trace` | PipelineScript.py:96-126 | a complete load is Drop, Create, Commit, then for each row in order its Insert followed by a Commit |
| `Loading.TraceAt` | PipelineScript.py:119-126 | the two statements of row i are its INSERT and a commit |
| `Loading.TraceDropsAndCreatesOnce` | PipelineScript.py:96-126 | after the first three statements, every statement is an INSERT or a commit |
| `Loading.TraceStep` | PipelineScript.py:125-126 | each of row i's statements extends the log by exactly one statement |
| `Loading.DdlInsertsNothing` | PipelineScript.py:96-115 | the drop, create and commit of the table insert and persist no row |
| `Loading.LoadedBeforeRow` | PipelineScript.py:119-126 | before row i's INSERT, exactly rows 0..i-1 have been inserted and committed, in order |
| `Loading.LoadedAfterInsert` | PipelineScript.py:119-126 | right after row i's INSERT, rows 0..i are inserted but only rows 0..i-1 committed |
| `Loading.LoadReplacesTable` | PipelineScript.py:91-126 | a complete load leaves exactly the batch in the table and sends one INSERT per row |
| `Loading.RowFailureKeepsEarlierRows` | PipelineScript.py:119-126 | when row j's INSERT or its commit is rejected, exactly the j earlier rows stay in the table (row 50 failing leaves 49) |
| `Loading.InsertsCommittedBeforeFailure` | PipelineScript.py:119-126 | whichever statement is rejected, every accepted INSERT except possibly the last accepted statement is already followed by its own commit |
| `Loading.Connection.constructor` | PipelineScript.py:78-87 | a new session has an empty log and is open |
| `Loading.Connection.Execute` | PipelineScript.py:125-126 | a statement is appended to the log unless it is the one the warehouse rejects, in which case the log is unchanged |
| `Loading.Connection.Close` | PipelineScript.py:129-130 | closing ends the session |
| `Loading.Connect` | PipelineScript.py:78-87 | a fresh open session with an empty log exactly when the warehouse is reachable |
| `Loading.ReplaceTable` | PipelineScript.py:96-115 | the log is the first three statements of the trace when all three are accepted, otherwise the prefix up to the rejected one |
| `Loading.LoadRow` | PipelineScript.py:119-126 | row i's INSERT then its commit extend the log along the trace, stopping at the rejected statement; succeeds iff both are accepted |
| `Loading.Load` | PipelineScript.py:96-132 | the log is the trace up to the first rejected statement; success iff nothing is rejected; on success reports the batch size and closes; on failure reports the rejected position and leaves the session open |
| `Pipeline.Run` | PipelineScript.py:31-132 | a transformation failure sends nothing; an unreachable warehouse fails with ConnectionError before any statement; otherwise the log is the trace of the transformed batch up to the rejected statement, and success reports min(N, 100) |
| `Pipeline.LoadedTable` | PipelineScript.py:31-126 | a complete run leaves min(N, 100) rows in `final_data`, in order, row i holding raw row i's reference values |

## Left out

- Extraction from the object store (`boto3` `get_object`, `BytesIO`, lines 11-21) is network I/O. The model starts from an already decoded table.
- CSV decoding by `pd.read_csv` (line 25) is a foreign parser. Decoded tables are taken to be rectangular, with integer, string or boolean cells.
- Floating-point cells and NaN (what `read_csv` produces for empty fields) are not modelled. `Value` has no float kind.
- Parameter resolution (`getResolvedOptions`, `sys.argv`, lines 63-75) is environment plumbing. The warehouse is the `Server` parameter.
- The SQL text, the column types of `CREATE TABLE` (lines 99-109), and how `psycopg2` converts Python values to SQL are database behaviour. Statements are abstract commands.
- Why the warehouse rejects a statement is outside the model. `Server.rejectAt` names which statement is rejected.
- Transaction rollback when a run aborts is not modelled. `Persisted` describes the table only for a log that begins with the table's own drop, create and commit. If one of those three is rejected, the previous run's table stays in place, and the model does not track its contents.
- All `print` output, including the `df.head()` sample at line 54, is presentational. The final count is `Run`'s result.
- Loading.Connection.Execute: `cursor.execute` and `conn.commit` are one operation here. The cursor is not a separate object.
