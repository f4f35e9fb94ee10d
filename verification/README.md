# Health-vitals report: abnormal-reading filters and dataset acquisition

This Dafny project models the two pieces of logic in the health-vitals analysis
script that can be stated exactly.

1. **Abnormal-reading classification.** The script takes the loaded table of
   patient vitals and selects two subsets with fixed, strict thresholds:
   - the hypertension subset: systolic pressure above 140 or diastolic
     pressure above 90;
   - the high-cholesterol subset: total cholesterol above 200.

   It runs the report only when the loader returned a table. It draws the
   blood-pressure trend only when a column named exactly `date` exists.
2. **Dataset acquisition.** `load_dataset` creates the download directory,
   authenticates, downloads and unpacks the dataset, and keeps the directory
   entries whose names end in `.csv`. It gives up when there are none.
   Otherwise it parses the first one and returns the table, or returns None
   on failure.

Modules:

- `Sequences` (`sequences.dfy`): `Filter`, an order-preserving selection of
  the elements that satisfy a predicate. Lemmas say which positions it reads,
  that it returns a sub-sequence, that it is idempotent, and that two filters
  commute.
- `Vitals` (`vitals.dfy`): readings, rows, tables, the two threshold
  predicates and the two subset selections. A `KeyError` models a missing
  column.
- `Report` (`report.dfy`): the script. `Script` loads the dataset into the
  default directory "data" and hands the result on. `Run` is the
  `df is not None` gate. `Analyse` is the report: the mean's column lookup,
  the two filters, the CSV files, the optional trend plot and the
  unconditional plots.
- `Loader` (`loader.dfy`): `load_dataset` as a pure function of an
  environment `Env`. The environment gives the outcome of each external call
  (directory creation, authentication, download, directory listing, and
  parsing a given path). The result is a `Trace`: the outcome (`Loaded(path,
  table)`, `NoResult`, or `Uncaught(exception)`), the external calls made in
  order, and the messages printed.

Pandas evaluates a comparison with a missing value (NaN) as false. `Reading`
therefore has a `Missing` case, and it never exceeds a threshold.

The table is an immutable value, so filtering cannot change it. Both subsets
are pure functions of the same table. `Vitals.SubsetsAreIndependent` proves
that the two narrowings commute: narrowing the hypertension subset by
cholesterol gives the same table as narrowing the cholesterol subset by blood
pressure.

The docstring of `load_dataset` (data_loader.py:14-15) promises a table, or
None if an error occurred. The code does not keep that promise in every case,
and the model follows the code:

- `os.makedirs` (data_loader.py:18) runs outside any `try`. An exception it
  raises escapes to the caller.
- The first `try` (data_loader.py:22-26) catches only `ApiException`. Any
  other exception from `authenticate()` escapes too.
- `Loader.LoadDataset` returns `Uncaught` exactly in these two cases.
  `Report.Script` turns them into `Aborted`: the script ends before its
  `df is not None` check.

## Model

| member | source | states |
|---|---|---|
| Sequences.Filter | main.py:27-28 | the selection holds exactly the input elements that satisfy the predicate, and is never longer than the input |
| Sequences.Positions | main.py:27-28 | the positions of the boolean row mask: every listed position is in range and qualifies, positions increase strictly, and every qualifying position is listed |
| Sequences.FilterSelectsPositions | main.py:27-28 | the selection is the input read at its qualifying positions, in increasing order; a position qualifies if and only if its element satisfies the predicate |
| Sequences.FilterReadsPositions | main.py:27-28 | the k-th selected element is the input element at the k-th qualifying position |
| Sequences.FilterIsSubsequence | main.py:27-28 | every selection is a sub-sequence of its input |
| Sequences.FilterIdempotent | main.py:27-28 | selecting again with the same predicate returns the same sequence |
| Sequences.FilterCommutes | main.py:27-28 | two selections over one input give the same result in either order |
| Sequences.FilterSnoc | main.py:27-28 | appending an element to the input appends it to the selection exactly when it qualifies |
| Vitals.HypertensionSubset | main.py:22-27 | a key error exactly when the systolic or diastolic column is absent, systolic reported first; otherwise the same columns and exactly the rows with systolic > 140 or diastolic > 90 |
| Vitals.HighCholesterolSubset | main.py:25-28 | a key error exactly when the total-cholesterol column is absent; otherwise the same columns and exactly the rows with total cholesterol > 200 |
| Vitals.ThresholdsAreStrict | main.py:23-28 | 140/90 is not hypertensive but 140.5 systolic or 90.5 diastolic is; cholesterol 200 is not high but 200.5 is; missing readings are never abnormal |
| Vitals.SubsetsAreOrderedSelections | main.py:27-28 | each subset is a sub-sequence of the source rows, read at the increasing positions of exactly the qualifying rows |
| Vitals.SubsetsAreIdempotent | main.py:27-28 | applying either threshold filter to its own output gives the same subset |
| Vitals.SubsetsAreIndependent | main.py:27-28 | narrowing the hypertension subset by cholesterol equals narrowing the cholesterol subset by blood pressure |
| Vitals.WorkedExample | main.py:27-28 | of rows (30, 130/80, 190) and (50, 150/95, 210), only the second is in either subset |
| Report.Analyse | main.py:18-80 | assuming directory creation, CSV writing, date parsing and plot saving succeed: the report never reports a load failure or an abort; it completes exactly when the age, systolic, diastolic and cholesterol columns all exist; otherwise it crashes with the statistics columns that are absent (main.py:18), or with the diastolic column when only that one is absent (main.py:27); on completion the two tables are the Vitals subsets, holding exactly the qualifying rows in source order with the source's columns; the files are the two CSVs, then the trend plot if and only if a "date" column exists, then the systolic, cholesterol and correlation plots |
| Report.Run | main.py:12-84 | the only outcome without a table is the failure message, and a loaded table always goes through the report |
| Report.Script | main.py:8-12 | the script aborts exactly when directory creation raises or authentication raises something other than ApiException, carrying that exception; a load failure prints the failure message |
| Report.ScriptReportsOnFirstCandidate | main.py:8-12 | the report runs exactly when every loading stage succeeds and the download directory holds a candidate; it runs on the table parsed from "data/" followed by the first candidate |
| Report.DateColumnOnlyAddsTrend | main.py:42-67 | adding a "date" column changes neither the crash outcome nor the subsets' rows, and only inserts the trend plot into the written files |
| Loader.Join | data_loader.py:44 | POSIX `os.path.join` of the download directory and one entry name: an absolute name replaces the directory, and otherwise a "/" is inserted unless the directory is empty or already ends in one (its shape is stated by `Loader.JoinShape`) |
| Loader.DefaultDirectoryJoin | data_loader.py:6 | with the default download directory "data", a relative entry name is loaded from "data/" followed by the name |
| Loader.JoinShape | data_loader.py:44 | the joined path ends with the entry name, and a relative name keeps the directory as the path's prefix |
| Loader.JoinKeepsSuffix | data_loader.py:44 | joining keeps the name's suffix, so the chosen path still ends in ".csv" |
| Loader.CsvFiles | data_loader.py:34 | the candidates are exactly the listing entries whose names end in ".csv" |
| Loader.CandidatesKeepListingOrder | data_loader.py:34 | the candidates are the listing read at the increasing positions of exactly the entries ending in ".csv", so listing order and repeats are kept |
| Loader.FirstCandidateIsEarliest | data_loader.py:34-44 | the first candidate, the one that is loaded, is the earliest listing entry whose name ends in ".csv" |
| Loader.SuffixIsCaseSensitive | data_loader.py:34 | "heart.csv" and ".csv" are candidates; "X.CSV", "heart.csv.zip" and "csv" are not |
| Loader.CandidatesExample | data_loader.py:34 | of "X.CSV", "notes.txt" and "heart.csv" only "heart.csv" is a candidate |
| Loader.HandlerMessage | data_loader.py:52-57 | FileNotFoundError gets the file-not-found message, ApiException the API-error message, anything else the unexpected-error message, each carrying the exception |
| Loader.FetchAndRead | data_loader.py:28-50 | the handled block starts by announcing and calling the download; a returned table was parsed from a path that ends in ".csv" |
| Loader.Handle | data_loader.py:52-59 | no exception leaves the handlers: a raised one becomes None plus its handler message, with the calls unchanged, and anything else passes through untouched |
| Loader.LoadDataset | data_loader.py:17-59 | an exception escapes exactly when directory creation raises or authentication raises something other than ApiException; the download is attempted exactly when both succeeded; a loaded table comes from a ".csv" path that was parsed |
| Loader.AfterAuthentication | data_loader.py:22-59 | after successful authentication the loader's outcome and messages are those of the handled block |
| Loader.LoadsFirstCandidate | data_loader.py:28-50 | a table is returned exactly when every stage succeeds and at least one candidate exists; it is parsed from the download path joined with the first candidate, after exactly five external calls |
| Loader.FetchAndReadLoadsFirstCandidate | data_loader.py:28-50 | the handled block returns a table exactly when download, listing and parsing of the first candidate succeed |
| Loader.FetchAndReadWithCandidates | data_loader.py:34-50 | with candidates, the calls and result are fixed by the first candidate; more than one candidate only adds the two "multiple files" messages |
| Loader.ParsesOnlyFirstCandidate | data_loader.py:34-48 | the parser is only ever called on the download path joined with the first candidate, which ends in ".csv" |
| Loader.AuthenticationFailureShortCircuits | data_loader.py:22-26 | an ApiException from authentication gives None after only the directory and authentication calls, with no download, whatever the later stages would do |
| Loader.NoCandidateYieldsNone | data_loader.py:34-37 | with no candidate the result is None, the "no CSV files" message is printed, and nothing is parsed |
| Loader.HandledFailuresYieldNone | data_loader.py:28-59 | a raise from download, listing or parsing gives None, with that exception's handler message printed last |
| Loader.ExtraCandidatesOnlyAddMessages | data_loader.py:39-44 | a listing with several candidates gives the same result and calls as one holding only the first candidate, and its log differs only by the two "multiple files" messages after the download announcement |

## Left out

- Kaggle client, file system, and CSV parser: `KaggleApi().authenticate`, `dataset_download_files`, `os.makedirs`, `os.listdir` and `pd.read_csv` are external I/O. They appear only as outcomes in `Loader.Env`. Constructing `KaggleApi()` (data_loader.py:21) is assumed not to raise.
- Report.Analyse: directory creation and `to_csv` (main.py:37-39), `pd.to_datetime` on the "date" column (main.py:45) and `savefig` (main.py:51, 59, 66, 79) are assumed not to raise. In the source, a "date" column holding text that is not a date raises at main.py:45, after both CSV files are written and before any plot. The model reports that run as `Completed` with all six files.
- Loader.Join: only POSIX joining (`posixpath`) is modelled. Windows `ntpath` joining, with drive letters and backslash separators, is not.
- Exceptions that are not `Exception` subclasses (such as `KeyboardInterrupt`) get through the handlers at data_loader.py:52-57. The model has no such exception.
- Text of the messages: a `Message` records which message was printed and what it carries, not the formatted string.
- Means and correlation (main.py:18, main.py:72): these are pandas floating-point numerics. Only the column lookups they perform, and the key error when a column is missing, are modelled.
- Plotting, `set_index` and console output (main.py:13-14, 30-34, 46-80): these are library calls and side effects. The model records only which files are written, in order.
- `to_csv` persistence and its round trip: serialisation is a library call. The written subsets are the `Table` values in the outcome.
- Column types: a column that holds text cannot be compared with a number, and pandas raises `TypeError`. The model assumes the analysed columns are numeric or missing.
- Duplicate column names and any column the analysis does not read: a `Row` holds only the four analysed columns.
