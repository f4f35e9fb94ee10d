/**
 The analysis script: it runs the report only when the loader returned a table,
 computes the two abnormal-reading subsets, writes them, and writes the plots,
 the trend plot only when the table has a column named exactly "date".
 A required column that is missing ends the run with an uncaught key error.
 */
module Report {
  import opened Vitals
  import Loader

  const LoadFailureMessage := "Failed to load the dataset."

  /** The dataset the script asks the loader for. */
  const DatasetName := "shriyashjagtap/heart-attack-risk-assessment-dataset"

  const BloodPressureCsv := "analysis_results/abnormal_blood_pressure.csv"
  const CholesterolCsv := "analysis_results/high_cholesterol.csv"
  const TrendPlot := "analysis_results/blood_pressure_trend.png"
  const SystolicPlot := "analysis_results/systolic_bp_distribution.png"
  const CholesterolPlot := "analysis_results/total_cholesterol_distribution.png"
  const CorrelationPlot := "analysis_results/correlation_matrix.png"

  /** The columns whose means are computed before anything else. */
  const StatisticsColumns: set<string> := {AgeColumn, SystolicColumn, CholesterolColumn}

  /** The columns the correlation matrix is computed over; every other step reads a subset of them. */
  const RequiredColumns: set<string> := {AgeColumn, SystolicColumn, DiastolicColumn, CholesterolColumn}

  /** The table has every column the report reads. */
  predicate HasRequiredColumns(t: Table)
  {
    AgeColumn in t.columns && SystolicColumn in t.columns && DiastolicColumn in t.columns && CholesterolColumn in t.columns
  }

  /** What the loader hands the script: a table, or nothing. */
  datatype Option<T> = None | Some(value: T)

  /** How one run of the script ends. `Crashed` carries the columns whose absence raised the
      key error; the run writes no file before that point. `Aborted` is an exception that
      escaped the loader and ends the script before its first check. */
  datatype Outcome =
    | Aborted(error: Loader.Exception)
    | LoadFailed(message: string)
    | Crashed(missing: set<string>)
    | Completed(hypertension: Table, highCholesterol: Table, files: seq<string>)

  /** The report over a loaded table. */
  function Analyse(t: Table): (o: Outcome)
    ensures !o.LoadFailed? && !o.Aborted?
    ensures o.Completed? <==> HasRequiredColumns(t)
    ensures o.Crashed? ==> o.missing != {} && o.missing <= RequiredColumns && o.missing !! t.columns
    ensures o.Completed? ==>
      && o.hypertension.columns == t.columns
      && (forall row :: row in o.hypertension.rows <==> row in t.rows && IsHypertensive(row))
    ensures o.Completed? ==>
      && o.highCholesterol.columns == t.columns
      && (forall row :: row in o.highCholesterol.rows <==> row in t.rows && HasHighCholesterol(row))
    ensures o.Crashed? && !(StatisticsColumns <= t.columns) ==> o.missing == StatisticsColumns - t.columns
    ensures o.Crashed? && StatisticsColumns <= t.columns ==> o.missing == {DiastolicColumn}
    ensures o.Completed? ==>
      && o.hypertension == HypertensionSubset(t).table
      && o.highCholesterol == HighCholesterolSubset(t).table
    ensures o.Completed? ==> (TrendPlot in o.files <==> DateColumn in t.columns)
    ensures o.Completed? ==>
      && |o.files| == (if DateColumn in t.columns then 6 else 5)
      && o.files[..2] == [BloodPressureCsv, CholesterolCsv]
      && o.files[|o.files| - 3..] == [SystolicPlot, CholesterolPlot, CorrelationPlot]
  {
    var missing := StatisticsColumns - t.columns;
    if missing != {} then Crashed(missing)
    else
      match HypertensionSubset(t)
      case KeyError(c) => Crashed({c})
      case Selected(bp) =>
        match HighCholesterolSubset(t)
        case KeyError(c) => Crashed({c})
        case Selected(chol) =>
          assert AgeColumn !in missing && CholesterolColumn !in missing;
          var trend := if DateColumn in t.columns then [TrendPlot] else [];
          Completed(bp, chol, [BloodPressureCsv, CholesterolCsv] + trend + [SystolicPlot, CholesterolPlot, CorrelationPlot])
  }

  /** The whole script after loading: the report runs only on a table. */
  function Run(df: Option<Table>): (o: Outcome)
    ensures !o.Aborted?
    ensures o.LoadFailed? <==> df.None?
    ensures o.LoadFailed? ==> o.message == LoadFailureMessage
    ensures df.Some? ==> o == Analyse(df.value)
  {
    match df
    case None => LoadFailed(LoadFailureMessage)
    case Some(t) => Analyse(t)
  }

  /** The whole script: load the dataset into the default download directory, then run the
      report on whatever the loader returned. */
  function Script(env: Loader.Env<Table>): (o: Outcome)
    ensures o.Aborted? <==>
      env.makeDirs.Threw? || (env.authenticate.Threw? && !env.authenticate.error.ApiException?)
    ensures o.Aborted? ==> o.error == (if env.makeDirs.Threw? then env.makeDirs.error else env.authenticate.error)
    ensures o.LoadFailed? ==> o.message == LoadFailureMessage
  {
    match Loader.LoadDataset(DatasetName, Loader.DefaultDownloadPath, env).result
    case Uncaught(e) => Aborted(e)
    case NoResult => Run(None)
    case Loaded(_, t) => Run(Some(t))
  }

  /** The report runs exactly when every loading stage succeeds and the download directory holds
      a candidate, and it runs on the table parsed from "data/" followed by the first candidate. */
  lemma {:induction false} ScriptReportsOnFirstCandidate(env: Loader.Env<Table>)
    ensures
      var o := Script(env);
      (o.Completed? || o.Crashed?) <==>
        && env.makeDirs.Returned? && env.authenticate.Returned?
        && env.download.Returned? && env.listing.Returned?
        && |Loader.CsvFiles(env.listing.value)| > 0
        && env.readCsv(Loader.Join(Loader.DefaultDownloadPath, Loader.CsvFiles(env.listing.value)[0])).Returned?
    ensures
      var o := Script(env);
      (o.Completed? || o.Crashed?) ==>
        var first := Loader.CsvFiles(env.listing.value)[0];
        && (first == [] || first[0] != '/' ==> Loader.Join(Loader.DefaultDownloadPath, first) == "data/" + first)
        && o == Analyse(env.readCsv(Loader.Join(Loader.DefaultDownloadPath, first)).value)
  {
    Loader.LoadsFirstCandidate(DatasetName, Loader.DefaultDownloadPath, env);
    var tr := Loader.LoadDataset(DatasetName, Loader.DefaultDownloadPath, env);
    if tr.result.Loaded? {
      var first := Loader.CsvFiles(env.listing.value)[0];
      if first == [] || first[0] != '/' {
        Loader.DefaultDirectoryJoin(first);
      }
    }
  }

  /** A "date" column only adds the trend plot: the subsets keep the same rows and every other
      file is still written, in the same order. */
  lemma DateColumnOnlyAddsTrend(t: Table)
    requires DateColumn !in t.columns
    ensures
      var dated := Analyse(Table(t.columns + {DateColumn}, t.rows));
      var plain := Analyse(t);
      && dated.Completed? == plain.Completed?
      && (plain.Crashed? ==> dated == plain)
      && (plain.Completed? ==>
            && dated.hypertension.rows == plain.hypertension.rows
            && dated.highCholesterol.rows == plain.highCholesterol.rows
            && plain.files == dated.files[..2] + dated.files[3..]
            && dated.files[2] == TrendPlot
            && TrendPlot !in plain.files)
  {
  }
}
