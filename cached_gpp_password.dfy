/** The check itself (CachedGPPPassword.cs): its constructor builds the
    cache folder path, walks the XML files found there, and for each
    interesting one sets the vulnerable flag and appends a detail line.
    Every exception is caught once, around the whole scan, so the first
    one ends it. */
module CachedGppPasswordCheck {
  import opened Outcomes
  import opened Strings
  import opened SchemaRegistry
  import opened CipherDecoder
  import opened ExtractionEngine
  import opened ResultAggregator

  const CheckName: string := "Cached GPP Password"
  const ProgramData: string := "ProgramData"
  const ApplicationData: string := "\\Application Data"
  const HistoryFolder: string := "\\Microsoft\\Group Policy\\History"

  /** The folder searched: before Vista the all-users profile had no
      `ProgramData` in it and kept application data one level down. */
  function ScanRoot(allUsers: string): (r: string)
    ensures EndsWith(r, HistoryFolder)
    ensures |allUsers| < |r| && r[..|allUsers|] == allUsers
    ensures Contains(allUsers, ProgramData) ==> r == allUsers + HistoryFolder
    ensures !Contains(allUsers, ProgramData) ==> r[|allUsers|..] == ApplicationData + HistoryFolder
  {
    var base := if !Contains(allUsers, ProgramData) then allUsers + ApplicationData else allUsers;
    base + HistoryFolder
  }

  /** Neither suffix can create or destroy an occurrence of `ProgramData`
      (both start with `\` and neither holds a `g`), so the root names
      `ProgramData` exactly when the profile does. */
  lemma {:induction false} ScanRootKeepsProgramData(allUsers: string)
    ensures Contains(ScanRoot(allUsers), ProgramData) <==> Contains(allUsers, ProgramData)
  {
    AbsentCharNotContained(HistoryFolder, ProgramData, 3, 'g');
    AbsentCharNotContained(ApplicationData + HistoryFolder, ProgramData, 3, 'g');
    if Contains(allUsers, ProgramData) {
      ContainsAcrossSeparator(allUsers, HistoryFolder, ProgramData);
    } else {
      assert ScanRoot(allUsers) == allUsers + (ApplicationData + HistoryFolder);
      ContainsAcrossSeparator(allUsers, ApplicationData + HistoryFolder, ProgramData);
    }
  }

  /** What the scan reaches outside itself: `XmlDocument.Load` (a `None`
      is a load exception) and the crypto routines. */
  datatype Env = Env(load: string -> Option<XmlDoc>, crypto: CryptoLib)

  /** What one file does to the scan, independent of the files before it:
      nothing, one detail line, or an exception raised before
      (`flagged == false`) or after (`flagged == true`) the flag is set. */
  datatype FileOutcome = Skipped | Emitted(line: string) | Failed(flagged: bool)

  function ProcessFile(path: string, env: Env): (r: FileOutcome)
    ensures !IsCandidate(path) ==> r == Skipped
    ensures IsCandidate(path) && env.load(path).None? ==> r == Failed(false)
    ensures !r.Skipped? ==> IsCandidate(path)
    ensures r.Emitted? || r == Failed(true) ==>
      env.load(path).Some? && Contains(env.load(path).value.innerXml, Marker)
    ensures IsCandidate(path) && env.load(path).Some? && Contains(env.load(path).value.innerXml, Marker) ==>
      var rec := ExtractRecord(Classify(path).value, env.load(path).value, env.crypto);
      (r.Emitted? || r == Failed(true))
      && (r.Emitted? <==> rec.Ok?)
      && (r.Emitted? ==> r.line == FormatLine(rec.value))
    ensures IsCandidate(path) && env.load(path).Some? && !Contains(env.load(path).value.innerXml, Marker)
      ==> r == Skipped
  {
    match Classify(path)
    case None => Skipped
    case Some(kind) =>
      match env.load(path)
      case None => Failed(false)
      case Some(doc) =>
        if !Contains(doc.innerXml, Marker) then Skipped
        else
          match ExtractRecord(kind, doc, env.crypto)
          case Err(_) => Failed(true)
          case Ok(r) => Emitted(FormatLine(r))
  }

  /** The loop state: the two fields, and whether an exception has ended the scan. */
  datatype ScanState = ScanState(vulnerable: bool, details: seq<string>, aborted: bool)

  const Initial: ScanState := ScanState(false, [], false)

  /** How each file is processed; the check uses `Processor(env)`. */
  type Processor = string -> FileOutcome

  function ProcessorOf(env: Env): Processor {
    path => ProcessFile(path, env)
  }

  /** One iteration of the `foreach`. */
  function Step(s: ScanState, path: string, process: Processor): (r: ScanState)
    ensures s.aborted ==> r == s
    ensures s.vulnerable ==> r.vulnerable
    ensures |s.details| <= |r.details| <= |s.details| + 1 && r.details[..|s.details|] == s.details
  {
    if s.aborted then s
    else
      match process(path)
      case Skipped => s
      case Emitted(line) => ScanState(true, s.details + [line], false)
      case Failed(flagged) => ScanState(s.vulnerable || flagged, s.details, true)
  }

  /** The loop from state `s` over `files`. It only ever appends lines,
      never lowers the flag, and adds at most one line per file. */
  function Run(s: ScanState, files: seq<string>, process: Processor): (r: ScanState)
    ensures s.vulnerable ==> r.vulnerable
    ensures |s.details| <= |r.details| <= |s.details| + |files|
    ensures r.details[..|s.details|] == s.details
    decreases |files|
  {
    if files == [] then s else Run(Step(s, files[0], process), files[1..], process)
  }

  /** What the check reports: its flag and its detail lines. */
  datatype Report = Report(vulnerable: bool, details: seq<string>)

  /** The reference reading of the scan, file by file from the front: a
      skipped file contributes nothing, an emitting file its line, and the
      first failing file ends the report. */
  function Scan(files: seq<string>, process: Processor): (r: Report)
    ensures |r.details| <= |files|
    ensures r.details != [] ==> r.vulnerable
  {
    if files == [] then Report(false, [])
    else
      match process(files[0])
      case Skipped => Scan(files[1..], process)
      case Emitted(line) => Report(true, [line] + Scan(files[1..], process).details)
      case Failed(flagged) => Report(flagged, [])
  }

  /** The whole constructor: an unset profile throws at once; otherwise the
      files `findFiles` lists under the root are scanned. */
  function Check(allUsers: Option<string>, findFiles: (string, string) -> seq<string>, env: Env): (r: Report)
    ensures allUsers.None? ==> r == Report(false, [])
    ensures allUsers.Some? ==> r == Scan(findFiles(ScanRoot(allUsers.value), "*.xml"), ProcessorOf(env))
    ensures r.details != [] ==> r.vulnerable
  {
    match allUsers
    case None => Report(false, [])
    case Some(profile) => Scan(findFiles(ScanRoot(profile), "*.xml"), ProcessorOf(env))
  }

  /** Once an exception has ended the scan, later files change nothing. */
  lemma {:induction false} AbortedRunIsFinal(s: ScanState, files: seq<string>, process: Processor)
    requires s.aborted
    ensures Run(s, files, process) == s
  {
    if files != [] {
      AbortedRunIsFinal(s, files[1..], process);
    }
  }

  /** Running over a prefix and then the rest is running over the whole. */
  lemma {:induction false} RunSplit(s: ScanState, files: seq<string>, i: nat, process: Processor)
    requires i <= |files|
    ensures Run(s, files, process) == Run(Run(s, files[..i], process), files[i..], process)
    decreases i
  {
    if i > 0 {
      assert files[..i][0] == files[0] && files[..i][1..] == files[1..][..i - 1];
      assert files[i..] == files[1..][i - 1..];
      RunSplit(Step(s, files[0], process), files[1..], i - 1, process);
    }
  }

  /** The loop invariant's step: one more file is one more `Step`. */
  lemma RunExtend(s: ScanState, files: seq<string>, i: nat, process: Processor)
    requires i < |files|
    ensures Run(s, files[..i + 1], process) == Step(Run(s, files[..i], process), files[i], process)
  {
    RunSplit(s, files[..i + 1], i, process);
    assert files[..i + 1][..i] == files[..i];
    assert files[..i + 1][i..] == [files[i]];
  }

  /** If the scan stopped at file `i`, the files after it do not matter. */
  lemma RunStopsAtAbort(s: ScanState, files: seq<string>, i: nat, process: Processor)
    requires i <= |files| && Run(s, files[..i], process).aborted
    ensures Run(s, files, process) == Run(s, files[..i], process)
  {
    RunSplit(s, files, i, process);
    AbortedRunIsFinal(Run(s, files[..i], process), files[i..], process);
  }

  /** The loop and the reference agree: from a live state, the flag is
      raised iff it was or the reference raises it, and the lines are the
      old ones followed by the reference's. */
  lemma {:induction false} RunMatchesScan(s: ScanState, files: seq<string>, process: Processor)
    requires !s.aborted
    ensures Run(s, files, process).vulnerable == (s.vulnerable || Scan(files, process).vulnerable)
    ensures Run(s, files, process).details == s.details + Scan(files, process).details
    decreases |files|
  {
    if files != [] {
      var t := Step(s, files[0], process);
      match process(files[0])
      case Skipped =>
        RunMatchesScan(t, files[1..], process);
      case Emitted(line) =>
        RunMatchesScan(t, files[1..], process);
        assert s.details + [line] + Scan(files[1..], process).details
            == s.details + ([line] + Scan(files[1..], process).details);
      case Failed(flagged) =>
        AbortedRunIsFinal(t, files[1..], process);
    }
  }

  /** Lines come in file order: when no file of `a` fails, the report on
      `a + b` lists `a`'s lines and then `b`'s. */
  lemma {:induction false} ScanConcat(a: seq<string>, b: seq<string>, process: Processor)
    requires forall i :: 0 <= i < |a| ==> !process(a[i]).Failed?
    ensures Scan(a + b, process).details == Scan(a, process).details + Scan(b, process).details
    ensures Scan(a + b, process).vulnerable == (Scan(a, process).vulnerable || Scan(b, process).vulnerable)
  {
    if a == [] {
      assert a + b == b;
    } else {
      assert (a + b)[0] == a[0] && (a + b)[1..] == a[1..] + b;
      ScanConcat(a[1..], b, process);
      if process(a[0]).Emitted? {
        var line := process(a[0]).line;
        assert [line] + (Scan(a[1..], process).details + Scan(b, process).details)
            == [line] + Scan(a[1..], process).details + Scan(b, process).details;
      }
    }
  }

  /** A failing file keeps the lines before it and drops everything after;
      the flag it leaves is raised iff an earlier file emitted or the
      failure came after the flag was set. */
  lemma {:induction false} ScanFailureTruncates(files: seq<string>, i: nat, process: Processor)
    requires i < |files| && process(files[i]).Failed?
    requires forall j :: 0 <= j < i ==> !process(files[j]).Failed?
    ensures Scan(files, process).details == Scan(files[..i], process).details
    ensures Scan(files, process).vulnerable ==
      (Scan(files[..i], process).vulnerable || process(files[i]).flagged)
  {
    assert files == files[..i] + files[i..];
    ScanConcat(files[..i], files[i..], process);
  }

  /** A file that raises the flag, with no failure before it, leaves the
      flag raised; if it emits, its line is in the report. */
  lemma {:induction false} RaisingFileIsReported(files: seq<string>, i: nat, process: Processor)
    requires i < |files| && (process(files[i]).Emitted? || process(files[i]) == Failed(true))
    requires forall j :: 0 <= j < i ==> !process(files[j]).Failed?
    ensures Scan(files, process).vulnerable
    ensures process(files[i]).Emitted? ==> process(files[i]).line in Scan(files, process).details
  {
    assert files == files[..i] + files[i..];
    assert files[i..][0] == files[i];
    ScanConcat(files[..i], files[i..], process);
    var tail := Scan(files[i..], process);
    if process(files[i]).Emitted? {
      assert tail.details[0] == process(files[i]).line;
      assert Scan(files, process).details[|Scan(files[..i], process).details|] == process(files[i]).line;
    }
  }

  /** In the check: a file that passes both filters, with no failure before
      it, raises the flag; if its record is extracted, its line is in the report. */
  lemma ReachedFileIsReported(files: seq<string>, i: nat, env: Env)
    requires i < |files| && IsCandidate(files[i]) && env.load(files[i]).Some?
    requires Contains(env.load(files[i]).value.innerXml, Marker)
    requires forall j :: 0 <= j < i ==> !ProcessFile(files[j], env).Failed?
    ensures Scan(files, ProcessorOf(env)).vulnerable
    ensures ProcessFile(files[i], env).Emitted? ==>
      ProcessFile(files[i], env).line in Scan(files, ProcessorOf(env)).details
  {
    var process := ProcessorOf(env);
    assert forall j :: 0 <= j < i ==> !process(files[j]).Failed?;
    assert process(files[i]) == ProcessFile(files[i], env);
    RaisingFileIsReported(files, i, process);
  }

  /** Every detail line is a formatted record whose user name, new name
      and timestamp are not empty. */
  ghost predicate IsDetailLine(line: string) {
    exists r :: NormalisedRecord(r) && FormatLine(r) == line
  }

  ghost predicate AllDetailLines(lines: seq<string>) {
    forall i :: 0 <= i < |lines| ==> IsDetailLine(lines[i])
  }

  /** A line a file emits is a formatted, normalised record. */
  lemma EmittedLineIsRecord(path: string, env: Env)
    requires ProcessFile(path, env).Emitted?
    ensures IsDetailLine(ProcessFile(path, env).line)
  {
    var rec := ExtractRecord(Classify(path).value, env.load(path).value, env.crypto);
    assert NormalisedRecord(rec.value) && FormatLine(rec.value) == ProcessFile(path, env).line;
  }

  /** The report holds only lines the processor emitted. */
  lemma {:induction false} ScanLinesAreEmitted(files: seq<string>, process: Processor)
    requires forall p :: process(p).Emitted? ==> IsDetailLine(process(p).line)
    ensures AllDetailLines(Scan(files, process).details)
  {
    if files != [] {
      ScanLinesAreEmitted(files[1..], process);
      var rest := Scan(files[1..], process).details;
      var lines := Scan(files, process).details;
      match process(files[0])
      case Skipped =>
        assert lines == rest;
      case Failed(_) =>
      case Emitted(line) =>
        assert lines == [line] + rest;
        assert IsDetailLine(process(files[0]).line);
        forall i | 0 <= i < |lines|
          ensures IsDetailLine(lines[i])
        {
          if i > 0 {
            assert lines[i] == rest[i - 1];
          } else {
            assert lines[0] == line;
          }
        }
    }
  }

  /** Every detail line of the check is a formatted, normalised record. */
  lemma ScanLinesAreRecords(files: seq<string>, env: Env)
    ensures AllDetailLines(Scan(files, ProcessorOf(env)).details)
  {
    forall p | ProcessorOf(env)(p).Emitted?
      ensures IsDetailLine(ProcessorOf(env)(p).line)
    {
      EmittedLineIsRecord(p, env);
    }
    ScanLinesAreEmitted(files, ProcessorOf(env));
  }

  /** Every line of the report was emitted by some file of the list. */
  lemma {:induction false} ScanLinesComeFromFiles(files: seq<string>, process: Processor)
    ensures forall i :: 0 <= i < |Scan(files, process).details| ==>
      exists j :: 0 <= j < |files| && process(files[j]) == Emitted(Scan(files, process).details[i])
  {
    if files != [] {
      ScanLinesComeFromFiles(files[1..], process);
      var rest := Scan(files[1..], process).details;
      var lines := Scan(files, process).details;
      if process(files[0]).Emitted? {
        assert lines == [process(files[0]).line] + rest;
        forall i | 0 <= i < |lines|
          ensures exists j :: 0 <= j < |files| && process(files[j]) == Emitted(lines[i])
        {
          if i == 0 {
            assert process(files[0]) == Emitted(lines[0]);
          } else {
            assert lines[i] == rest[i - 1];
            var j :| 0 <= j < |files[1..]| && process(files[1..][j]) == Emitted(rest[i - 1]);
            assert files[1..][j] == files[j + 1];
          }
        }
      } else if process(files[0]).Skipped? {
        assert lines == rest;
        forall i | 0 <= i < |lines|
          ensures exists j :: 0 <= j < |files| && process(files[j]) == Emitted(lines[i])
        {
          var j :| 0 <= j < |files[1..]| && process(files[1..][j]) == Emitted(rest[i]);
          assert files[1..][j] == files[j + 1];
        }
      } else {
        assert lines == [];
      }
    } else {
      assert Scan(files, process).details == [];
    }
  }

  /** Hence a line of the check comes from a file that passed the name
      filter, loaded, and holds `cpassword` in its text. */
  lemma ScanLinesPassedFilters(files: seq<string>, env: Env)
    ensures var lines := Scan(files, ProcessorOf(env)).details;
      forall i :: 0 <= i < |lines| ==>
        exists j :: 0 <= j < |files| && IsCandidate(files[j]) && env.load(files[j]).Some?
          && Contains(env.load(files[j]).value.innerXml, Marker)
          && ProcessFile(files[j], env) == Emitted(lines[i])
  {
    ScanLinesComeFromFiles(files, ProcessorOf(env));
  }

  /** The flag is raised only by a file that got past the marker test:
      one that emitted a line or failed after setting the flag. */
  lemma {:induction false} ScanFlagHasCause(files: seq<string>, process: Processor)
    ensures Scan(files, process).vulnerable ==>
      exists j :: 0 <= j < |files| && (process(files[j]).Emitted? || process(files[j]) == Failed(true))
  {
    if files != [] && process(files[0]).Skipped? && Scan(files, process).vulnerable {
      ScanFlagHasCause(files[1..], process);
      var j :| 0 <= j < |files[1..]|
        && (process(files[1..][j]).Emitted? || process(files[1..][j]) == Failed(true));
      assert files[1..][j] == files[j + 1];
    }
  }

  /** A file the name filter rejects is never loaded and changes nothing. */
  lemma SkippedFileChangesNothing(s: ScanState, path: string, env: Env)
    requires !IsCandidate(path)
    ensures Step(s, path, ProcessorOf(env)) == s && ProcessFile(path, env) == Skipped
  {
  }

  /** A named file that loads but whose text lacks `cpassword` is passed
      over: it neither raises the flag nor ends the scan. */
  lemma UnmarkedFileChangesNothing(s: ScanState, path: string, env: Env)
    requires IsCandidate(path) && env.load(path).Some?
    requires !Contains(env.load(path).value.innerXml, Marker)
    ensures Step(s, path, ProcessorOf(env)) == s
  {
  }

  /** Files that yield nothing leave the check clean. */
  lemma {:induction false} NothingFoundIsClean(files: seq<string>, process: Processor)
    requires forall i :: 0 <= i < |files| ==> process(files[i]) == Skipped
    ensures Scan(files, process) == Report(false, [])
  {
    if files != [] {
      NothingFoundIsClean(files[1..], process);
    }
  }

  /** A file emits a line only if it passed the name filter, loaded, and
      holds the marker; a file that fails after the flag was set leaves
      the flag raised and the lines as they were. */
  lemma FileOutcomeConditions(s: ScanState, path: string, env: Env)
    requires !s.aborted
    ensures ProcessFile(path, env).Emitted? ==>
      IsCandidate(path) && env.load(path).Some? && Contains(env.load(path).value.innerXml, Marker)
    ensures ProcessFile(path, env) == Failed(true) ==>
      env.load(path).Some? && Contains(env.load(path).value.innerXml, Marker)
      && Step(s, path, ProcessorOf(env)) == ScanState(true, s.details, true)
  {
  }

  /** A named first file that cannot be loaded ends the scan: whatever the
      later files hold, the check reports nothing. */
  lemma LoadFailureHidesLaterFiles(first: string, rest: seq<string>, env: Env)
    requires IsCandidate(first) && env.load(first).None?
    ensures Scan([first] + rest, ProcessorOf(env)) == Report(false, [])
  {
    assert ([first] + rest)[0] == first;
  }

  /** In particular, a folder with no file of the six names is clean. */
  lemma UnrelatedFilesAreClean(files: seq<string>, env: Env)
    requires forall i :: 0 <= i < |files| ==> !IsCandidate(files[i])
    ensures Scan(files, ProcessorOf(env)) == Report(false, [])
  {
    NothingFoundIsClean(files, ProcessorOf(env));
  }

  /** Where the loop stops (all files done, or an exception), its state
      is the reference's report. */
  lemma LoopExitMatchesScan(files: seq<string>, i: nat, process: Processor)
    requires i <= |files| && (i == |files| || Run(Initial, files[..i], process).aborted)
    ensures Run(Initial, files[..i], process).vulnerable == Scan(files, process).vulnerable
    ensures Run(Initial, files[..i], process).details == Scan(files, process).details
  {
    if i < |files| {
      RunStopsAtAbort(Initial, files, i, process);
    } else {
      assert files[..i] == files;
    }
    RunMatchesScan(Initial, files, process);
  }

  /** The check object: the framework's name, flag and detail list. */
  class CachedGppPassword {
    var name: string
    var isVulnerable: bool
    var details: seq<string>

    /** The constructor runs the whole scan. `allUsers` is the value of
        ALLUSERSPROFILE (`None` when unset), `findFiles` lists the files
        under a root that match a pattern. */
    constructor (allUsers: Option<string>, findFiles: (string, string) -> seq<string>, env: Env)
      ensures name == CheckName
      ensures isVulnerable == Check(allUsers, findFiles, env).vulnerable
      ensures details == Check(allUsers, findFiles, env).details
    {
      name := CheckName;
      isVulnerable := false;
      details := [];
      new;
      if allUsers.None? {
        return;
      }
      var root := ScanRoot(allUsers.value);
      var files := findFiles(root, "*.xml");
      var i := 0;
      var aborted := false;
      while i < |files| && !aborted
        invariant 0 <= i <= |files|
        invariant name == CheckName
        invariant Run(Initial, files[..i], ProcessorOf(env)) == ScanState(isVulnerable, details, aborted)
      {
        RunExtend(Initial, files, i, ProcessorOf(env));
        aborted := ScanFile(files[i], env);
        i := i + 1;
      }
      LoopExitMatchesScan(files, i, ProcessorOf(env));
    }

    /** One pass of the `foreach` body; `failed` says an exception was raised. */
    method ScanFile(file: string, env: Env) returns (failed: bool)
      modifies this
      ensures ScanState(isVulnerable, details, failed)
        == Step(ScanState(old(isVulnerable), old(details), false), file, ProcessorOf(env))
      ensures name == old(name)
    {
      var kind := Classify(file);
      if kind.None? {
        return false;
      }
      var loaded := env.load(file);
      if loaded.None? {
        return true;
      }
      if !Contains(loaded.value.innerXml, Marker) {
        return false;
      }
      isVulnerable := true;
      var record := ReadRecord(kind.value, loaded.value, env.crypto);
      if record.Err? {
        return true;
      }
      details := details + [FormatLine(record.value)];
      failed := false;
    }
  }
}
