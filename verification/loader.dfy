/**
 Dataset acquisition as a pure decision procedure. The file system, the remote
 dataset host and the CSV parser are replaced by their outcomes, supplied in an
 `Env`; the result records which external calls were made, the progress
 messages printed, and whether a table came back.
 */
module Loader {
  import opened Sequences

  const CsvSuffix := ".csv"
  const DefaultDownloadPath := "data"

  /** The exception classes the loader tells apart. */
  datatype Exception =
    | ApiException(message: string)
    | FileNotFoundError(message: string)
    | OtherException(message: string)

  /** The outcome of one external call: it returned a value or it raised. */
  datatype Attempt<T> = Returned(value: T) | Threw(error: Exception)

  /** The external world as seen by one run: what each collaborator does when called.
      `readCsv` answers for whichever path the loader chooses to parse. */
  datatype Env<T> = Env(
    makeDirs: Attempt<()>,
    authenticate: Attempt<()>,
    download: Attempt<()>,
    listing: Attempt<seq<string>>,
    readCsv: string -> Attempt<T>)

  /** External calls, in the order the loader makes them. */
  datatype Call =
    | MakeDirs(path: string)
    | Authenticate
    | Download(dataset: string, path: string)
    | ListDir(path: string)
    | ReadCsv(path: string)

  /** Progress and error messages. */
  datatype Message =
    | AuthenticationFailed(error: Exception)
    | Downloading(dataset: string, path: string)
    | NoCsvFiles
    | MultipleCsvFiles(candidates: seq<string>)
    | LoadingFirstByDefault
    | LoadingFile(path: string)
    | LoadedSuccessfully
    | FileNotFound(error: Exception)
    | KaggleApiError(error: Exception)
    | UnexpectedError(error: Exception)

  /** What the caller gets: a table read from `path`, None, or an exception that escaped. */
  datatype LoadResult<T> = Loaded(path: string, table: T) | NoResult | Uncaught(error: Exception)

  datatype Trace<T> = Trace(result: LoadResult<T>, calls: seq<Call>, log: seq<Message>)

  predicate EndsWith(s: string, suffix: string)
  {
    |suffix| <= |s| && s[|s| - |suffix|..] == suffix
  }

  predicate IsCsvName(name: string)
  {
    EndsWith(name, CsvSuffix)
  }

  /** POSIX path joining of a directory and one entry name of that directory. */
  function Join(dir: string, name: string): string
  {
    if |name| > 0 && name[0] == '/' then name
    else if dir == [] || dir[|dir| - 1] == '/' then dir + name
    else dir + "/" + name
  }

  /** The script's download directory: a relative entry name lands under "data/". */
  lemma DefaultDirectoryJoin(name: string)
    requires name == [] || name[0] != '/'
    ensures Join(DefaultDownloadPath, name) == "data/" + name
  {
  }

  /** A joined path ends with the entry name, and a relative name lands inside the directory. */
  lemma JoinShape(dir: string, name: string)
    ensures EndsWith(Join(dir, name), name)
    ensures (name == [] || name[0] != '/') ==> |dir| <= |Join(dir, name)| && Join(dir, name)[..|dir|] == dir
  {
    var path := Join(dir, name);
    if |name| > 0 && name[0] == '/' {
      assert path == name;
      assert path[|path| - |name|..] == name;
    } else if dir == [] || dir[|dir| - 1] == '/' {
      assert path == dir + name;
      assert path[..|dir|] == dir;
      assert path[|path| - |name|..] == name;
    } else {
      assert path == (dir + "/") + name;
      assert path[..|dir|] == dir;
      assert path[|path| - |name|..] == name;
    }
  }

  /** The candidate files: listing entries whose names end in ".csv", case-sensitively,
      in listing order. */
  function CsvFiles(listing: seq<string>): (csv: seq<string>)
    ensures forall name :: name in csv <==> name in listing && IsCsvName(name)
  {
    Filter(listing, IsCsvName)
  }

  /** The candidates keep listing order: they are the listing read at exactly the increasing
      positions of the entries whose names end in ".csv". */
  lemma CandidatesKeepListingOrder(listing: seq<string>)
    ensures SelectedAt(CsvFiles(listing), listing, Positions(listing, IsCsvName))
    ensures forall i :: 0 <= i < |listing| ==> (i in Positions(listing, IsCsvName) <==> IsCsvName(listing[i]))
  {
    FilterSelectsPositions(listing, IsCsvName);
  }

  /** The first candidate is the earliest listing entry whose name ends in ".csv". */
  lemma FirstCandidateIsEarliest(listing: seq<string>)
    requires |CsvFiles(listing)| > 0
    ensures |Positions(listing, IsCsvName)| == |CsvFiles(listing)|
    ensures
      var i := Positions(listing, IsCsvName)[0];
      && i < |listing|
      && CsvFiles(listing)[0] == listing[i]
      && IsCsvName(listing[i])
      && forall j :: 0 <= j < i ==> !IsCsvName(listing[j])
  {
    CandidatesKeepListingOrder(listing);
  }

  /** The message the handler of the second try block prints for an exception. */
  function HandlerMessage(e: Exception): (m: Message)
    ensures m.FileNotFound? || m.KaggleApiError? || m.UnexpectedError?
    ensures m.error == e
    ensures m.FileNotFound? <==> e.FileNotFoundError?
    ensures m.KaggleApiError? <==> e.ApiException?
  {
    match e
    case FileNotFoundError(_) => FileNotFound(e)
    case ApiException(_) => KaggleApiError(e)
    case OtherException(_) => UnexpectedError(e)
  }

  /** The body of the second try block: download, list, choose, parse.
      An exception raised here is still in flight (`Uncaught`). */
  function FetchAndRead<T>(dataset: string, downloadPath: string, env: Env<T>): (tr: Trace<T>)
    ensures |tr.calls| >= 1 && tr.calls[0] == Download(dataset, downloadPath)
    ensures |tr.log| >= 1 && tr.log[0] == Downloading(dataset, downloadPath)
    ensures tr.result.Loaded? ==> ReadCsv(tr.result.path) in tr.calls && IsCsvName(tr.result.path)
  {
    var calls0 := [Download(dataset, downloadPath)];
    var log0 := [Downloading(dataset, downloadPath)];
    match env.download
    case Threw(e) => Trace(Uncaught(e), calls0, log0)
    case Returned(_) =>
      var calls1 := calls0 + [ListDir(downloadPath)];
      match env.listing
      case Threw(e) => Trace(Uncaught(e), calls1, log0)
      case Returned(names) =>
        var csv := CsvFiles(names);
        if |csv| == 0 then Trace(NoResult, calls1, log0 + [NoCsvFiles])
        else
          var path := Join(downloadPath, csv[0]);
          assert csv[0] in csv;
          JoinKeepsSuffix(downloadPath, csv[0], CsvSuffix);
          var log1 := log0 + (if |csv| > 1 then [MultipleCsvFiles(csv), LoadingFirstByDefault] else []);
          var log2 := log1 + [LoadingFile(path)];
          var calls2 := calls1 + [ReadCsv(path)];
          match env.readCsv(path)
          case Threw(e) => Trace(Uncaught(e), calls2, log2)
          case Returned(df) => Trace(Loaded(path, df), calls2, log2 + [LoadedSuccessfully])
  }

  /** The handlers of the second try block: every exception becomes None plus a message. */
  function Handle<T>(body: Trace<T>): (tr: Trace<T>)
    ensures !tr.result.Uncaught?
    ensures tr.calls == body.calls
    ensures body.result.Uncaught? ==> tr.result.NoResult? && tr.log == body.log + [HandlerMessage(body.result.error)]
    ensures !body.result.Uncaught? ==> tr == body
  {
    match body.result
    case Uncaught(e) => Trace(NoResult, body.calls, body.log + [HandlerMessage(e)])
    case _ => body
  }

  /** The whole loader. Directory creation and authentication sit outside the handled block:
      an authentication ApiException yields None, anything else they raise escapes. */
  function LoadDataset<T>(dataset: string, downloadPath: string, env: Env<T>): (tr: Trace<T>)
    ensures tr.result.Uncaught? <==>
      env.makeDirs.Threw? || (env.authenticate.Threw? && !env.authenticate.error.ApiException?)
    ensures |tr.calls| >= 1 && tr.calls[0] == MakeDirs(downloadPath)
    ensures env.makeDirs.Returned? ==> |tr.calls| >= 2 && tr.calls[1] == Authenticate
    ensures Download(dataset, downloadPath) in tr.calls <==> env.makeDirs.Returned? && env.authenticate.Returned?
    ensures env.makeDirs.Returned? && env.authenticate.Returned? ==>
      |tr.log| >= 1 && tr.log[0] == Downloading(dataset, downloadPath)
    ensures tr.result.Loaded? ==> ReadCsv(tr.result.path) in tr.calls && IsCsvName(tr.result.path)
  {
    match env.makeDirs
    case Threw(e) => Trace(Uncaught(e), [MakeDirs(downloadPath)], [])
    case Returned(_) =>
      var calls0 := [MakeDirs(downloadPath), Authenticate];
      match env.authenticate
      case Threw(e) =>
        if e.ApiException? then Trace(NoResult, calls0, [AuthenticationFailed(e)])
        else Trace(Uncaught(e), calls0, [])
      case Returned(_) =>
        var tr := Handle(FetchAndRead(dataset, downloadPath, env));
        Trace(tr.result, calls0 + tr.calls, tr.log)
  }

  /** Appending a suffix-preserving name to a directory keeps the suffix. */
  lemma JoinKeepsSuffix(dir: string, name: string, suffix: string)
    requires EndsWith(name, suffix)
    ensures EndsWith(Join(dir, name), suffix)
  {
    var path := Join(dir, name);
    JoinShape(dir, name);
    assert path[|path| - |suffix|..] == path[|path| - |name|..][|name| - |suffix|..];
  }

  /** The candidate check is a case-sensitive suffix test. */
  lemma SuffixIsCaseSensitive()
    ensures IsCsvName("heart.csv") && IsCsvName(".csv")
    ensures !IsCsvName("X.CSV") && !IsCsvName("heart.csv.zip") && !IsCsvName("csv")
  {
    assert "X.CSV"[1..][1] != CsvSuffix[1];
    assert "heart.csv.zip"[9..][1] != CsvSuffix[1];
    assert "heart.csv"[5..] == CsvSuffix;
  }

  /** Only the exact lower-case suffix makes an entry a candidate, and listing order is kept. */
  lemma CandidatesExample()
    ensures CsvFiles(["X.CSV", "notes.txt", "heart.csv"]) == ["heart.csv"]
  {
    SuffixIsCaseSensitive();
    assert !IsCsvName("notes.txt") by { assert "notes.txt"[5..][1] != CsvSuffix[1]; }
    var listing := ["X.CSV", "notes.txt", "heart.csv"];
    assert listing[..2] == ["X.CSV", "notes.txt"];
    assert listing[..2][..1] == ["X.CSV"];
    assert listing[..2][..1][..0] == [];
    assert Filter(listing[..2][..1], IsCsvName) == [];
    assert Filter(listing[..2], IsCsvName) == [];
  }

  /** A table comes back exactly when every stage succeeds and at least one candidate exists;
      it is the one parsed from the download directory joined with the first candidate,
      however many candidates there are. */
  lemma {:induction false} LoadsFirstCandidate<T>(dataset: string, downloadPath: string, env: Env<T>)
    ensures
      var tr := LoadDataset(dataset, downloadPath, env);
      tr.result.Loaded? <==>
        && env.makeDirs.Returned? && env.authenticate.Returned?
        && env.download.Returned? && env.listing.Returned?
        && |CsvFiles(env.listing.value)| > 0
        && env.readCsv(Join(downloadPath, CsvFiles(env.listing.value)[0])).Returned?
    ensures
      var tr := LoadDataset(dataset, downloadPath, env);
      tr.result.Loaded? ==>
        && tr.result.path == Join(downloadPath, CsvFiles(env.listing.value)[0])
        && env.readCsv(tr.result.path) == Returned(tr.result.table)
        && tr.calls == [MakeDirs(downloadPath), Authenticate, Download(dataset, downloadPath), ListDir(downloadPath), ReadCsv(tr.result.path)]
  {
    if env.makeDirs.Returned? && env.authenticate.Returned? {
      FetchAndReadLoadsFirstCandidate(dataset, downloadPath, env);
      AfterAuthentication(dataset, downloadPath, env);
      var body := FetchAndRead(dataset, downloadPath, env);
      if body.result.Loaded? {
        var path := body.result.path;
        assert [MakeDirs(downloadPath), Authenticate] + body.calls
            == [MakeDirs(downloadPath), Authenticate, Download(dataset, downloadPath), ListDir(downloadPath), ReadCsv(path)];
      }
    }
  }

  /** Once authentication succeeds the loader's outcome is that of the handled block. */
  lemma AfterAuthentication<T>(dataset: string, downloadPath: string, env: Env<T>)
    requires env.makeDirs.Returned? && env.authenticate.Returned?
    ensures
      var body := Handle(FetchAndRead(dataset, downloadPath, env));
      LoadDataset(dataset, downloadPath, env) == Trace(body.result, [MakeDirs(downloadPath), Authenticate] + body.calls, body.log)
  {
  }

  /** The handled block returns a table exactly when download, listing and parsing succeed. */
  lemma FetchAndReadLoadsFirstCandidate<T>(dataset: string, downloadPath: string, env: Env<T>)
    ensures
      var tr := FetchAndRead(dataset, downloadPath, env);
      && (tr.result.Loaded? <==>
        && env.download.Returned? && env.listing.Returned?
        && |CsvFiles(env.listing.value)| > 0
        && env.readCsv(Join(downloadPath, CsvFiles(env.listing.value)[0])).Returned?)
      && (tr.result.Loaded? ==>
        && tr.result.path == Join(downloadPath, CsvFiles(env.listing.value)[0])
        && env.readCsv(tr.result.path) == Returned(tr.result.table)
        && tr.calls == [Download(dataset, downloadPath), ListDir(downloadPath), ReadCsv(tr.result.path)])
  {
    var tr := FetchAndRead(dataset, downloadPath, env);
    if env.download.Threw? {
      assert tr.result.Uncaught?;
    } else if env.listing.Threw? {
      assert tr.result.Uncaught?;
    } else {
      var csv := CsvFiles(env.listing.value);
      if |csv| == 0 {
        assert tr.result.NoResult?;
      } else {
        var path := Join(downloadPath, csv[0]);
        assert tr.calls == [Download(dataset, downloadPath), ListDir(downloadPath), ReadCsv(path)];
        assert tr.result.Loaded? <==> env.readCsv(path).Returned?;
      }
    }
  }

  /** The only file ever handed to the parser is the first candidate inside the download directory. */
  lemma ParsesOnlyFirstCandidate<T>(dataset: string, downloadPath: string, env: Env<T>)
    ensures
      var tr := LoadDataset(dataset, downloadPath, env);
      forall c :: c in tr.calls && c.ReadCsv? ==>
        && env.listing.Returned? && |CsvFiles(env.listing.value)| > 0
        && c.path == Join(downloadPath, CsvFiles(env.listing.value)[0])
        && IsCsvName(c.path)
  {
    var tr := LoadDataset(dataset, downloadPath, env);
    if env.makeDirs.Returned? && env.authenticate.Returned? {
      AfterAuthentication(dataset, downloadPath, env);
      var body := FetchAndRead(dataset, downloadPath, env);
      if env.download.Returned? && env.listing.Returned? && |CsvFiles(env.listing.value)| > 0 {
        FetchAndReadWithCandidates(dataset, downloadPath, env);
        var csv := CsvFiles(env.listing.value);
        assert csv[0] in csv;
        JoinKeepsSuffix(downloadPath, csv[0], CsvSuffix);
      } else if env.download.Returned? && env.listing.Returned? {
        assert body.calls == [Download(dataset, downloadPath), ListDir(downloadPath)];
      }
    }
  }

  /** When authentication raises an ApiException the loader returns None having called only
      the directory creation and authentication; nothing downstream can influence the run. */
  lemma AuthenticationFailureShortCircuits<T>(dataset: string, downloadPath: string, env: Env<T>, other: Env<T>)
    requires env.makeDirs.Returned? && env.authenticate.Threw? && env.authenticate.error.ApiException?
    requires other.makeDirs == env.makeDirs && other.authenticate == env.authenticate
    ensures
      var tr := LoadDataset(dataset, downloadPath, env);
      && tr.result.NoResult?
      && tr.calls == [MakeDirs(downloadPath), Authenticate]
      && tr.log == [AuthenticationFailed(env.authenticate.error)]
      && tr == LoadDataset(dataset, downloadPath, other)
  {
  }

  /** With no candidate the loader returns None after listing, reports it, and parses nothing. */
  lemma NoCandidateYieldsNone<T>(dataset: string, downloadPath: string, env: Env<T>)
    requires env.makeDirs.Returned? && env.authenticate.Returned? && env.download.Returned?
    requires env.listing.Returned? && CsvFiles(env.listing.value) == []
    ensures
      var tr := LoadDataset(dataset, downloadPath, env);
      && tr.result.NoResult?
      && NoCsvFiles in tr.log
      && forall c :: c in tr.calls ==> !c.ReadCsv?
  {
  }

  /** Failures inside the handled block (download, listing, parsing) all end as None, with the
      handler's message for the exception that was raised as the last message. */
  lemma HandledFailuresYieldNone<T>(dataset: string, downloadPath: string, env: Env<T>)
    requires env.makeDirs.Returned? && env.authenticate.Returned?
    requires
      || env.download.Threw?
      || (env.download.Returned? && env.listing.Threw?)
      || (&& env.download.Returned? && env.listing.Returned? && |CsvFiles(env.listing.value)| > 0
          && env.readCsv(Join(downloadPath, CsvFiles(env.listing.value)[0])).Threw?)
    ensures
      var tr := LoadDataset(dataset, downloadPath, env);
      var e := if env.download.Threw? then env.download.error
               else if env.listing.Threw? then env.listing.error
               else env.readCsv(Join(downloadPath, CsvFiles(env.listing.value)[0])).error;
      && tr.result.NoResult?
      && |tr.log| >= 2
      && tr.log[|tr.log| - 1] == HandlerMessage(e)
  {
  }

  /** Further candidates after the first only add the "multiple files" messages: the same file
      is parsed, with the same calls and the same result, as when the first is the only one. */
  lemma ExtraCandidatesOnlyAddMessages<T>(dataset: string, downloadPath: string, env: Env<T>, single: Env<T>)
    requires env.makeDirs.Returned? && env.authenticate.Returned? && env.download.Returned?
    requires env.listing.Returned? && |CsvFiles(env.listing.value)| > 1
    requires single.makeDirs == env.makeDirs && single.authenticate == env.authenticate
    requires single.download == env.download && single.readCsv == env.readCsv
    requires single.listing == Returned([CsvFiles(env.listing.value)[0]])
    ensures
      var many := LoadDataset(dataset, downloadPath, env);
      var one := LoadDataset(dataset, downloadPath, single);
      && many.result == one.result
      && many.calls == one.calls
      && many.log == one.log[..1] + [MultipleCsvFiles(CsvFiles(env.listing.value)), LoadingFirstByDefault] + one.log[1..]
  {
    var candidates := CsvFiles(env.listing.value);
    var path := Join(downloadPath, candidates[0]);
    var first := [Downloading(dataset, downloadPath)];
    var extra := [MultipleCsvFiles(candidates), LoadingFirstByDefault];
    var rest := [LoadingFile(path)] + (if env.readCsv(path).Returned? then [LoadedSuccessfully] else []);
    assert
      var bodyMany := FetchAndRead(dataset, downloadPath, env);
      var bodyOne := FetchAndRead(dataset, downloadPath, single);
      && bodyMany.result == bodyOne.result && bodyMany.calls == bodyOne.calls
      && bodyMany.log == first + extra + rest && bodyOne.log == first + rest
    by {
      assert CsvFiles([candidates[0]]) == [candidates[0]] by {
        assert [candidates[0]][..0] == [];
      }
      FetchAndReadWithCandidates(dataset, downloadPath, env);
      FetchAndReadWithCandidates(dataset, downloadPath, single);
    }
    InsertionSurvivesLoader(dataset, downloadPath, env, single, first, extra, rest);
  }

  /** The handled block once at least one candidate exists: the calls, messages and result are
      fixed by the first candidate alone, apart from the "multiple files" messages. */
  lemma FetchAndReadWithCandidates<T>(dataset: string, downloadPath: string, env: Env<T>)
    requires env.download.Returned? && env.listing.Returned? && |CsvFiles(env.listing.value)| > 0
    ensures
      var csv := CsvFiles(env.listing.value);
      var path := Join(downloadPath, csv[0]);
      var tr := FetchAndRead(dataset, downloadPath, env);
      var tail := [LoadingFile(path)] + (if env.readCsv(path).Returned? then [LoadedSuccessfully] else []);
      && tr.calls == [Download(dataset, downloadPath), ListDir(downloadPath), ReadCsv(path)]
      && tr.result == (match env.readCsv(path) case Threw(e) => Uncaught(e) case Returned(df) => Loaded(path, df))
      && (|csv| == 1 ==> tr.log == [Downloading(dataset, downloadPath)] + tail)
      && (|csv| > 1 ==> tr.log == [Downloading(dataset, downloadPath)] + [MultipleCsvFiles(csv), LoadingFirstByDefault] + tail)
  {
  }

  /** Messages inserted into the handled block's log, with the block's result and calls unchanged,
      survive to the loader's log. */
  lemma InsertionSurvivesLoader<T>(dataset: string, downloadPath: string, env: Env<T>, single: Env<T>,
                                   first: seq<Message>, extra: seq<Message>, rest: seq<Message>)
    requires env.makeDirs.Returned? && env.authenticate.Returned?
    requires single.makeDirs == env.makeDirs && single.authenticate == env.authenticate
    requires |first| == 1
    requires
      var bodyMany := FetchAndRead(dataset, downloadPath, env);
      var bodyOne := FetchAndRead(dataset, downloadPath, single);
      && bodyMany.result == bodyOne.result && bodyMany.calls == bodyOne.calls
      && bodyMany.log == first + extra + rest && bodyOne.log == first + rest
    ensures
      var many := LoadDataset(dataset, downloadPath, env);
      var one := LoadDataset(dataset, downloadPath, single);
      && many.result == one.result
      && many.calls == one.calls
      && many.log == one.log[..1] + extra + one.log[1..]
  {
    HandleKeepsInsertion(FetchAndRead(dataset, downloadPath, env), FetchAndRead(dataset, downloadPath, single), first, extra, rest);
    AfterAuthentication(dataset, downloadPath, env);
    AfterAuthentication(dataset, downloadPath, single);
  }

  /** Messages inserted into the handled block's log survive the handlers unchanged. */
  lemma HandleKeepsInsertion<T>(many: Trace<T>, one: Trace<T>, first: seq<Message>, extra: seq<Message>, rest: seq<Message>)
    requires |first| == 1 && many.result == one.result
    requires many.log == first + extra + rest && one.log == first + rest
    ensures Handle(many).log == Handle(one).log[..1] + extra + Handle(one).log[1..]
  {
    var handler := if one.result.Uncaught? then [HandlerMessage(one.result.error)] else [];
    assert Handle(one).log == one.log + handler;
    assert Handle(many).log == many.log + handler;
    ConcatAssociates(first, rest, handler);
    ConcatAssociates(first + extra, rest, handler);
  }
}
