/** The run controller of main.py's `__main__` block (main.py:162-212): count the Python files
    of the cloned tree, then walk it again and push each Python file, up to the analysis
    limit, through the quality, security and refactor stages, writing the result of every
    fully successful run into the output directory. */
module Pipeline {
  import opened Wrappers
  import opened PyStr
  import opened Stages

  /** What `os.walk` yields, one entry per directory in walk order: the directory's path and
      the names of the files listed in it (the subdirectory list is not used). */
  type Walk = seq<(string, seq<string>)>

  /** A file met during the walk: its directory and its name. */
  type Candidate = (string, string)

  /** `file.endswith('.py')` (main.py:173, 191). */
  predicate IsPy(name: string) {
    EndsWith(name, ".py")
  }

  function Min(a: nat, b: nat): nat {
    if a <= b then a else b
  }

  /** The Python files of one directory, in listing order. */
  function PyIn(dir: string, files: seq<string>): (r: seq<Candidate>)
    ensures |r| <= |files|
    ensures forall i :: 0 <= i < |r| ==> r[i].0 == dir && IsPy(r[i].1) && r[i].1 in files
  {
    if files == [] then []
    else
      var n := |files| - 1;
      PyIn(dir, files[..n]) + (if IsPy(files[n]) then [(dir, files[n])] else [])
  }

  /** The Python files of the whole walk, in walk order. */
  function PyFiles(walk: Walk): (r: seq<Candidate>)
    ensures forall i :: 0 <= i < |r| ==> IsPy(r[i].1)
  {
    if walk == [] then []
    else
      var n := |walk| - 1;
      PyFiles(walk[..n]) + PyIn(walk[n].0, walk[n].1)
  }

  /** The first `limit` elements of `xs`, or all of them when there are fewer. */
  function Take<T>(xs: seq<T>, limit: nat): (r: seq<T>)
    ensures |r| == Min(limit, |xs|) && r <= xs
  {
    xs[..Min(limit, |xs|)]
  }

  /** `analysis_limit` as main.py:179 sets it; the controller takes the limit as a parameter. */
  const AnalysisLimit: nat := 1

  /** The files charged against the analysis limit. */
  function Charged(walk: Walk, limit: nat): (r: seq<Candidate>)
    ensures |r| == Min(limit, |PyFiles(walk)|) <= limit
    ensures r <= PyFiles(walk)
  {
    Take(PyFiles(walk), limit)
  }

  /** With the limit main.py sets, only the first Python file of the walk is charged, and
      nothing is when there is none. */
  lemma FirstFileOnly(walk: Walk)
    ensures Charged(walk, AnalysisLimit) == if PyFiles(walk) == [] then [] else [PyFiles(walk)[0]]
  {
  }

  /** A file is in the Python files of a directory exactly when its name ends in `.py` and
      the directory lists it. */
  lemma {:induction false} PyInMembers(dir: string, files: seq<string>, c: Candidate)
    ensures c in PyIn(dir, files) <==> c.0 == dir && IsPy(c.1) && c.1 in files
  {
    if files != [] {
      var n := |files| - 1;
      PyInMembers(dir, files[..n], c);
      assert files == files[..n] + [files[n]];
    }
  }

  /** `total_py_files` counts exactly these: a file is among the Python files of the walk
      exactly when its name ends in `.py` and some directory of the walk lists it. */
  lemma {:induction false} PyFilesMembers(walk: Walk, c: Candidate)
    ensures c in PyFiles(walk) <==>
      IsPy(c.1) && exists i :: 0 <= i < |walk| && walk[i].0 == c.0 && c.1 in walk[i].1
  {
    if walk != [] {
      var n := |walk| - 1;
      PyFilesMembers(walk[..n], c);
      PyInMembers(walk[n].0, walk[n].1, c);
      assert forall i :: 0 <= i < n ==> walk[..n][i] == walk[i];
      if IsPy(c.1) && c !in PyFiles(walk[..n]) && c in PyFiles(walk) {
        assert walk[n].0 == c.0 && c.1 in walk[n].1;
      }
    }
  }

  /** Walking fewer directories finds a prefix of the Python files. */
  lemma {:induction false} PyFilesPrefix(walk: Walk, i: nat)
    requires i <= |walk|
    ensures PyFiles(walk[..i]) <= PyFiles(walk)
  {
    if i < |walk| {
      var n := |walk| - 1;
      assert walk[..n][..i] == walk[..i];
      PyFilesPrefix(walk[..n], i);
    } else {
      assert walk[..i] == walk;
    }
  }

  /** Listing fewer names of a directory finds a prefix of its Python files. */
  lemma {:induction false} PyInPrefix(dir: string, files: seq<string>, j: nat)
    requires j <= |files|
    ensures PyIn(dir, files[..j]) <= PyIn(dir, files)
  {
    if j < |files| {
      var n := |files| - 1;
      assert files[..n][..j] == files[..j];
      PyInPrefix(dir, files[..n], j);
    } else {
      assert files[..j] == files;
    }
  }

  /** The count loop of main.py:170-174. */
  method CountPyFiles(walk: Walk) returns (total: nat)
    ensures total == |PyFiles(walk)|
  {
    total := 0;
    var i := 0;
    while i < |walk|
      invariant 0 <= i <= |walk|
      invariant total == |PyFiles(walk[..i])|
    {
      var (dir, files) := walk[i];
      var j := 0;
      while j < |files|
        invariant 0 <= j <= |files|
        invariant total == |PyFiles(walk[..i])| + |PyIn(dir, files[..j])|
      {
        assert files[..j + 1][..j] == files[..j];
        if IsPy(files[j]) {
          total := total + 1;
        }
        j := j + 1;
      }
      assert files[..j] == files;
      assert walk[..i + 1][..i] == walk[..i];
      i := i + 1;
    }
    assert walk[..i] == walk;
  }

  /** `os.path.join(root, file)` for a candidate. */
  function PathOf(c: Candidate): string {
    Join(c.0, c.1)
  }

  /** `f"refactored_{os.path.basename(file_path)}"` (main.py:203). */
  function ArtifactName(path: string): string {
    "refactored_" + AfterLast(path, '/')
  }

  /** An artifact name is `refactored_` followed by the final component of the path: a
      suffix of it without `/`, preceded by `/` whenever it is not the whole path. */
  lemma ArtifactNameShape(path: string)
    ensures var r := ArtifactName(path);
      |r| >= 11 && r[..11] == "refactored_"
      && '/' !in r[11..] && |r| - 11 <= |path| && path[|path| - (|r| - 11)..] == r[11..]
      && (|r| - 11 < |path| ==> path[|path| - (|r| - 11) - 1] == '/')
  {
    var base := AfterLast(path, '/');
    assert ArtifactName(path)[11..] == base;
  }

  /** The artifact of a listed file is named after the file itself. */
  lemma ArtifactOfListedFile(c: Candidate)
    requires '/' !in c.1
    ensures ArtifactName(PathOf(c)) == "refactored_" + c.1
  {
    BasenameOfJoin(c.0, c.1);
  }

  /** A stage invocation, with the arguments it was given. */
  datatype StageCall =
    | Quality(path: string)
    | Security(path: string, code: string)
    | Refactor(code: string, qualityReport: string, securityReport: string)

  /** What happens to one Python file: the stages invoked, in order, and the text written
      for it, if any. */
  datatype FileRun = FileRun(calls: seq<StageCall>, written: Option<string>)

  /** The per-file body of the loop (main.py:194-205): the quality stage always runs first,
      at most three stages run, and a write happens only after all three, of a non-empty
      text. */
  function RunFile(path: string, read: Reader, service: Service): (r: FileRun)
    ensures 1 <= |r.calls| <= 3 && r.calls[0] == Quality(path)
    ensures r.written.Some? ==> |r.calls| == 3 && Truthy(r.written)
  {
    var q := QualityAnalyst(path, read, service);
    if !(Truthy(q.code) && Truthy(q.report)) then FileRun([Quality(path)], None)
    else
      var s := SecurityAnalyst(path, q.code.value, service);
      if !Truthy(s) then FileRun([Quality(path), Security(path, q.code.value)], None)
      else
        var w := ChiefRefactorer(q.code.value, q.report.value, s.value, service);
        var calls := [Quality(path), Security(path, q.code.value),
                      Refactor(q.code.value, q.report.value, s.value)];
        if Truthy(w) then FileRun(calls, w) else FileRun(calls, None)
  }

  /** The stages of one file run strictly in order and stop at the first absence: security
      only after a quality report AND code that are both non-empty, refactoring only after a
      non-empty security report and with exactly the code and both reports, and a write only
      of a non-empty refactored text, verbatim. */
  lemma RunFileStages(path: string, read: Reader, service: Service)
    ensures var r := RunFile(path, read, service);
      var q := QualityAnalyst(path, read, service);
      (|r.calls| >= 2 <==> Truthy(q.code) && Truthy(q.report))
      && (|r.calls| >= 2 ==>
            var s := SecurityAnalyst(path, q.code.value, service);
            r.calls[1] == Security(path, q.code.value)
            && (|r.calls| == 3 <==> Truthy(s))
            && (|r.calls| == 3 ==>
                  r.calls[2] == Refactor(q.code.value, q.report.value, s.value)
                  && (r.written.Some? <==>
                        Truthy(ChiefRefactorer(q.code.value, q.report.value, s.value, service)))
                  && (r.written.Some? ==>
                        r.written == ChiefRefactorer(q.code.value, q.report.value, s.value, service))))
      && (|r.calls| < 3 ==> r.written.None?)
  {
  }

  /** The text written for a candidate, if its run succeeds. */
  function WrittenFor(c: Candidate, read: Reader, service: Service): Option<string> {
    RunFile(PathOf(c), read, service).written
  }

  /** The output directory after the runs of `done`, in order, starting from `out`. */
  function Output(done: seq<Candidate>, out: map<string, string>, read: Reader, service: Service)
    : (r: map<string, string>)
    ensures out.Keys <= r.Keys
  {
    if done == [] then out
    else
      var n := |done| - 1;
      var prev := Output(done[..n], out, read, service);
      match WrittenFor(done[n], read, service)
      case None => prev
      case Some(text) => prev[ArtifactName(PathOf(done[n])) := text]
  }

  /** The stage invocations of the runs of `done`, in order. */
  function Trace(done: seq<Candidate>, read: Reader, service: Service): (r: seq<StageCall>)
    ensures |done| <= |r| <= 3 * |done|
  {
    if done == [] then []
    else
      var n := |done| - 1;
      Trace(done[..n], read, service) + RunFile(PathOf(done[n]), read, service).calls
  }

  /** The writes the runs of `done` attempt, in order: each artifact name with the text
      written under it, if any. */
  function Writes(done: seq<Candidate>, read: Reader, service: Service)
    : (r: seq<(string, Option<string>)>)
    ensures |r| == |done|
    ensures forall j :: 0 <= j < |done| ==>
      r[j] == (ArtifactName(PathOf(done[j])), WrittenFor(done[j], read, service))
  {
    seq(|done|, j requires 0 <= j < |done| =>
      (ArtifactName(PathOf(done[j])), WrittenFor(done[j], read, service)))
  }

  /** A map after a sequence of writes, in order; an absent text writes nothing. */
  function Store(m: map<string, string>, ws: seq<(string, Option<string>)>): map<string, string> {
    if ws == [] then m
    else
      var n := |ws| - 1;
      var prev := Store(m, ws[..n]);
      if ws[n].1.Some? then prev[ws[n].0 := ws[n].1.value] else prev
  }

  /** The output directory is the store of the runs' writes. */
  lemma {:induction false} OutputIsStore(done: seq<Candidate>, out: map<string, string>,
                                         read: Reader, service: Service)
    ensures Output(done, out, read, service) == Store(out, Writes(done, read, service))
  {
    if done != [] {
      var n := |done| - 1;
      OutputIsStore(done[..n], out, read, service);
      assert Writes(done, read, service)[..n] == Writes(done[..n], read, service);
    }
  }

  /** In a store, the entry for a name holds the last text written under it. */
  lemma {:induction false} StoreLastWins(m: map<string, string>, ws: seq<(string, Option<string>)>,
                                         i: nat)
    requires i < |ws| && ws[i].1.Some?
    requires forall j :: i < j < |ws| ==> !(ws[j].1.Some? && ws[j].0 == ws[i].0)
    ensures ws[i].0 in Store(m, ws) && Store(m, ws)[ws[i].0] == ws[i].1.value
  {
    var n := |ws| - 1;
    if i < n {
      assert forall j :: i < j < n ==> ws[..n][j] == ws[j];
      StoreLastWins(m, ws[..n], i);
    }
  }

  /** A later success overwrites an earlier artifact of the same name: the entry for a name
      holds the text of the last successful run that writes that name. */
  lemma LastWriteWins(done: seq<Candidate>, out: map<string, string>,
                      read: Reader, service: Service, i: nat)
    requires i < |done| && WrittenFor(done[i], read, service).Some?
    requires forall j :: i < j < |done| ==>
      !(WrittenFor(done[j], read, service).Some?
        && ArtifactName(PathOf(done[j])) == ArtifactName(PathOf(done[i])))
    ensures ArtifactName(PathOf(done[i])) in Output(done, out, read, service)
    ensures Output(done, out, read, service)[ArtifactName(PathOf(done[i]))]
            == WrittenFor(done[i], read, service).value
  {
    OutputIsStore(done, out, read, service);
    StoreLastWins(out, Writes(done, read, service), i);
  }

  /** Nothing else changes: an entry that no successful run writes keeps what it held before
      (or stays absent). */
  lemma {:induction false} UnwrittenEntryKept(done: seq<Candidate>, out: map<string, string>,
                                              read: Reader, service: Service, name: string)
    requires forall j :: 0 <= j < |done| ==>
      !(WrittenFor(done[j], read, service).Some? && ArtifactName(PathOf(done[j])) == name)
    ensures name in Output(done, out, read, service) <==> name in out
    ensures name in out ==> Output(done, out, read, service)[name] == out[name]
  {
    if done != [] {
      var n := |done| - 1;
      assert forall j :: 0 <= j < n ==> done[..n][j] == done[j];
      UnwrittenEntryKept(done[..n], out, read, service, name);
    }
  }

  /** The ordering a stage trace keeps at position `k`: a security call directly follows the
      quality call of the same file, whose report and code were both non-empty and whose code
      it received; a refactor call directly follows a security call on the same code, whose
      report was non-empty, and receives exactly that code and both reports. */
  ghost predicate OrderedAt(t: seq<StageCall>, k: nat, read: Reader, service: Service)
    requires k < |t|
  {
    (t[k].Security? ==>
      var q := QualityAnalyst(t[k].path, read, service);
      k >= 1 && t[k - 1] == Quality(t[k].path)
      && Truthy(q.report) && Truthy(q.code) && q.code.value == t[k].code)
    && (t[k].Refactor? ==>
      k >= 2 && t[k - 1].Security? && t[k - 1].code == t[k].code
      && t[k - 2] == Quality(t[k - 1].path)
      && QualityAnalyst(t[k - 1].path, read, service).report == Some(t[k].qualityReport)
      && SecurityAnalyst(t[k - 1].path, t[k].code, service) == Some(t[k].securityReport)
      && t[k].securityReport != "")
  }

  /** Every position of the trace keeps the stage ordering. */
  ghost predicate WellOrdered(t: seq<StageCall>, read: Reader, service: Service) {
    forall k :: 0 <= k < |t| ==> OrderedAt(t, k, read, service)
  }

  /** Appending the calls of one more file keeps the trace well ordered. */
  lemma AppendRun(t: seq<StageCall>, path: string, read: Reader, service: Service)
    requires WellOrdered(t, read, service)
    ensures WellOrdered(t + RunFile(path, read, service).calls, read, service)
  {
    var calls := RunFile(path, read, service).calls;
    RunFileStages(path, read, service);
    var u := t + calls;
    forall k | 0 <= k < |u|
      ensures OrderedAt(u, k, read, service)
    {
      if k < |t| {
        assert OrderedAt(t, k, read, service);
        assert u[k] == t[k];
        assert k >= 1 ==> u[k - 1] == t[k - 1];
        assert k >= 2 ==> u[k - 2] == t[k - 2];
      } else {
        assert u[k] == calls[k - |t|];
        assert k - |t| >= 1 ==> u[k - 1] == calls[k - |t| - 1];
        assert k - |t| >= 2 ==> u[k - 2] == calls[k - |t| - 2];
      }
    }
  }

  /** Across the whole run, the stage calls are well ordered. */
  lemma {:induction false} TraceWellOrdered(done: seq<Candidate>, read: Reader, service: Service)
    ensures WellOrdered(Trace(done, read, service), read, service)
  {
    if done != [] {
      var n := |done| - 1;
      TraceWellOrdered(done[..n], read, service);
      AppendRun(Trace(done[..n], read, service), PathOf(done[n]), read, service);
    }
  }

  /** The paths given to the quality stage, in call order. */
  function QualityPaths(t: seq<StageCall>): seq<string> {
    if t == [] then []
    else
      var n := |t| - 1;
      QualityPaths(t[..n]) + (if t[n].Quality? then [t[n].path] else [])
  }

  lemma {:induction false} QualityPathsAppend(a: seq<StageCall>, b: seq<StageCall>)
    ensures QualityPaths(a + b) == QualityPaths(a) + QualityPaths(b)
  {
    if b != [] {
      var n := |b| - 1;
      assert (a + b)[..|a| + n] == a + b[..n];
      QualityPathsAppend(a, b[..n]);
    } else {
      assert a + b == a;
    }
  }

  /** The path of every candidate, in order. */
  function Paths(done: seq<Candidate>): (r: seq<string>)
    ensures |r| == |done| && forall i :: 0 <= i < |done| ==> r[i] == PathOf(done[i])
  {
    seq(|done|, i requires 0 <= i < |done| => PathOf(done[i]))
  }

  /** Each file's run calls the quality stage exactly once, on that file's path. */
  lemma QualityPathsOfRun(path: string, read: Reader, service: Service)
    ensures QualityPaths(RunFile(path, read, service).calls) == [path]
  {
    var calls := RunFile(path, read, service).calls;
    RunFileStages(path, read, service);
    assert QualityPaths(calls[..1]) == [path] by {
      assert calls[..1][..0] == [];
    }
    if |calls| >= 2 {
      assert calls[..2][..1] == calls[..1];
      assert QualityPaths(calls[..2]) == [path];
    }
    if |calls| == 3 {
      assert calls[..3][..2] == calls[..2];
      assert calls[..3] == calls;
    } else if |calls| == 2 {
      assert calls[..2] == calls;
    } else {
      assert calls[..1] == calls;
    }
  }

  /** Every charged file reaches the quality stage exactly once, in walk order, whatever
      becomes of it afterwards. */
  lemma {:induction false} EachChargedFileAnalysedOnce(done: seq<Candidate>, read: Reader, service: Service)
    ensures QualityPaths(Trace(done, read, service)) == Paths(done)
  {
    if done != [] {
      var n := |done| - 1;
      EachChargedFileAnalysedOnce(done[..n], read, service);
      QualityPathsOfOneMore(done, read, service);
      PathsOfOneMore(done);
    }
  }

  /** The last file's run adds its own path, once, to the quality paths of the trace. */
  lemma QualityPathsOfOneMore(done: seq<Candidate>, read: Reader, service: Service)
    requires done != []
    ensures QualityPaths(Trace(done, read, service))
            == QualityPaths(Trace(done[..|done| - 1], read, service)) + [PathOf(done[|done| - 1])]
  {
    var n := |done| - 1;
    QualityPathsAppend(Trace(done[..n], read, service), RunFile(PathOf(done[n]), read, service).calls);
    QualityPathsOfRun(PathOf(done[n]), read, service);
  }

  lemma PathsOfOneMore(done: seq<Candidate>)
    requires done != []
    ensures Paths(done) == Paths(done[..|done| - 1]) + [PathOf(done[|done| - 1])]
  {
  }

  /** Taking up to a limit from a longer sequence: one more element is taken while the
      limit is not reached, and nothing more once it is. */
  lemma TakeStep<T>(xs: seq<T>, ys: seq<T>, x: T, limit: nat)
    ensures |Take(xs, limit)| < limit ==> Take(xs + [x], limit) == Take(xs, limit) + [x]
    ensures |Take(xs, limit)| >= limit && xs <= ys ==> Take(ys, limit) == Take(xs, limit)
  {
    if |Take(xs, limit)| >= limit && xs <= ys {
      assert ys[..limit] == xs[..limit];
    }
  }

  /** Running one more file extends the output and the trace by that file's run. */
  lemma RunOneMore(done: seq<Candidate>, c: Candidate, out: map<string, string>,
                   read: Reader, service: Service)
    ensures Trace(done + [c], read, service)
            == Trace(done, read, service) + RunFile(PathOf(c), read, service).calls
    ensures Output(done + [c], out, read, service)
            == match WrittenFor(c, read, service)
               case None => Output(done, out, read, service)
               case Some(text) => Output(done, out, read, service)[ArtifactName(PathOf(c)) := text]
  {
    assert (done + [c])[..|done|] == done;
  }

  /** One more name of a directory, while the limit is not reached: a Python file is charged
      next, and any other name changes nothing. */
  lemma DirectoryStep(before: seq<Candidate>, root: string, files: seq<string>, j: nat, limit: nat)
    requires j < |files| && |Take(before + PyIn(root, files[..j]), limit)| < limit
    ensures Take(before + PyIn(root, files[..j + 1]), limit)
            == Take(before + PyIn(root, files[..j]), limit)
               + (if IsPy(files[j]) then [(root, files[j])] else [])
  {
    var found := before + PyIn(root, files[..j]);
    assert files[..j + 1][..j] == files[..j];
    if IsPy(files[j]) {
      assert before + PyIn(root, files[..j + 1]) == found + [(root, files[j])];
      TakeStep(found, found, (root, files[j]), limit);
    } else {
      assert before + PyIn(root, files[..j + 1]) == found;
    }
  }

  /** Once the limit is reached, the rest of the directory changes nothing. */
  lemma DirectoryStop(before: seq<Candidate>, root: string, files: seq<string>, j: nat, limit: nat)
    requires j <= |files| && |Take(before + PyIn(root, files[..j]), limit)| >= limit
    ensures Take(before + PyIn(root, files), limit) == Take(before + PyIn(root, files[..j]), limit)
  {
    PyInPrefix(root, files, j);
    var found := before + PyIn(root, files[..j]);
    assert found <= before + PyIn(root, files);
    TakeStep(found, before + PyIn(root, files), ("", ""), limit);
  }

  /** The state of one run of the controller: the output directory (file name to content),
      the counter `files_analyzed_count`, and the history of stage invocations. */
  class Controller {
    var outputDir: map<string, string>
    var filesAnalyzedCount: nat
    ghost var trace: seq<StageCall>

    /** A controller that finds `existing` in the output directory. */
    constructor (existing: map<string, string>)
      ensures outputDir == existing && filesAnalyzedCount == 0 && trace == []
    {
      outputDir := existing;
      filesAnalyzedCount := 0;
      trace := [];
    }

    /** One Python file (main.py:192-208): run the stages in order, write the artifact on
        full success, and charge the file against the limit whatever happened. */
    method AnalyzeFile(c: Candidate, read: Reader, service: Service)
      modifies this
      ensures filesAnalyzedCount == old(filesAnalyzedCount) + 1
      ensures trace == old(trace) + RunFile(PathOf(c), read, service).calls
      ensures outputDir == match WrittenFor(c, read, service)
                           case None => old(outputDir)
                           case Some(text) => old(outputDir)[ArtifactName(PathOf(c)) := text]
    {
      var filePath := Join(c.0, c.1);
      trace := trace + [Quality(filePath)];
      var quality := QualityAnalyst(filePath, read, service);
      if Truthy(quality.code) && Truthy(quality.report) {
        var code, qualityReport := quality.code.value, quality.report.value;
        trace := trace + [Security(filePath, code)];
        var securityReport := SecurityAnalyst(filePath, code, service);
        if Truthy(securityReport) {
          trace := trace + [Refactor(code, qualityReport, securityReport.value)];
          var refactored := ChiefRefactorer(code, qualityReport, securityReport.value, service);
          if Truthy(refactored) {
            outputDir := outputDir[ArtifactName(filePath) := refactored.value];
          }
        }
      }
      filesAnalyzedCount := filesAnalyzedCount + 1;
    }

    /** `AnalyzeFile` seen from the loops: the state that was the result of the runs of
        `done` becomes the result of the runs of `done + [c]`. */
    method ChargeFile(c: Candidate, read: Reader, service: Service,
                      ghost done: seq<Candidate>, ghost out0: map<string, string>, ghost trace0: seq<StageCall>)
      requires filesAnalyzedCount == |done|
      requires outputDir == Output(done, out0, read, service)
      requires trace == trace0 + Trace(done, read, service)
      modifies this
      ensures filesAnalyzedCount == |done + [c]|
      ensures outputDir == Output(done + [c], out0, read, service)
      ensures trace == trace0 + Trace(done + [c], read, service)
    {
      AnalyzeFile(c, read, service);
      RunOneMore(done, c, out0, read, service);
    }

    /** The loop over the names of one directory (main.py:188-208). The counter is tested
        before every name, and reaching the limit leaves the directory. `done` (ghost) is
        the list of files charged so far, of which the state is the result. */
    method AnalyzeDirectory(root: string, files: seq<string>, limit: nat, read: Reader, service: Service,
                            ghost before: seq<Candidate>, ghost done: seq<Candidate>,
                            ghost out0: map<string, string>, ghost trace0: seq<StageCall>)
      returns (ghost doneAfter: seq<Candidate>)
      requires done == Take(before, limit) && filesAnalyzedCount == |done|
      requires outputDir == Output(done, out0, read, service)
      requires trace == trace0 + Trace(done, read, service)
      modifies this
      ensures doneAfter == Take(before + PyIn(root, files), limit)
      ensures filesAnalyzedCount == |doneAfter|
      ensures outputDir == Output(doneAfter, out0, read, service)
      ensures trace == trace0 + Trace(doneAfter, read, service)
    {
      doneAfter := done;
      var j := 0;
      while j < |files|
        invariant 0 <= j <= |files|
        invariant doneAfter == Take(before + PyIn(root, files[..j]), limit)
        invariant filesAnalyzedCount == |doneAfter|
        invariant outputDir == Output(doneAfter, out0, read, service)
        invariant trace == trace0 + Trace(doneAfter, read, service)
      {
        if filesAnalyzedCount >= limit {
          DirectoryStop(before, root, files, j, limit);
          return;
        }
        DirectoryStep(before, root, files, j, limit);
        if IsPy(files[j]) {
          var c := (root, files[j]);
          ChargeFile(c, read, service, doneAfter, out0, trace0);
          doneAfter := doneAfter + [c];
        }
        j := j + 1;
      }
      assert files[..j] == files;
    }

    /** The limited walk of main.py:184-208. The counter is tested before every directory
        and before every file, and reaching the limit ends the walk. */
    method AnalyzeWalk(walk: Walk, limit: nat, read: Reader, service: Service)
      modifies this
      ensures filesAnalyzedCount == Min(limit, |PyFiles(walk)|)
      ensures outputDir == Output(Charged(walk, limit), old(outputDir), read, service)
      ensures trace == old(trace) + Trace(Charged(walk, limit), read, service)
    {
      filesAnalyzedCount := 0;
      ghost var done: seq<Candidate> := [];
      ghost var out0, trace0 := outputDir, trace;
      var i := 0;
      while i < |walk|
        invariant 0 <= i <= |walk|
        invariant done == Take(PyFiles(walk[..i]), limit)
        invariant filesAnalyzedCount == |done|
        invariant outputDir == Output(done, out0, read, service)
        invariant trace == trace0 + Trace(done, read, service)
      {
        if filesAnalyzedCount >= limit {
          break;
        }
        var (root, files) := walk[i];
        assert PyFiles(walk[..i + 1]) == PyFiles(walk[..i]) + PyIn(root, files) by {
          assert walk[..i + 1][..i] == walk[..i];
        }
        done := AnalyzeDirectory(root, files, limit, read, service, PyFiles(walk[..i]), done, out0, trace0);
        i := i + 1;
      }
      PyFilesPrefix(walk, i);
      assert i == |walk| ==> walk[..i] == walk;
      TakeStep(PyFiles(walk[..i]), PyFiles(walk), ([], []), limit);
    }

    /** The whole controller (main.py:162-208). `cloned` is what `clone_repo` returned and
        `walk` what `os.walk` lists under it; both walks are taken to list the same tree.
        Without a clone nothing happens; otherwise the output directory is emptied first,
        the Python files are counted, and the limited walk runs. The test `if cloned_path:`
        is also false for an empty path, but `clone_repo` returns either `None` or
        `os.path.join(os.getcwd(), repo_name)`, which is never empty since the path of the
        working directory is not; so `Some` always means a clone. */
    method Run(cloned: Option<string>, walk: Walk, limit: nat, read: Reader, service: Service)
      returns (totalPyFiles: Option<nat>)
      modifies this
      ensures cloned.None? ==>
        totalPyFiles.None? && outputDir == old(outputDir) && trace == old(trace)
        && filesAnalyzedCount == old(filesAnalyzedCount)
      ensures cloned.Some? ==>
        totalPyFiles == Some(|PyFiles(walk)|)
        && filesAnalyzedCount == Min(limit, |PyFiles(walk)|)
        && outputDir == Output(Charged(walk, limit), map[], read, service)
        && trace == old(trace) + Trace(Charged(walk, limit), read, service)
    {
      if cloned.None? {
        return None;
      }
      outputDir := map[];
      var total := CountPyFiles(walk);
      AnalyzeWalk(walk, limit, read, service);
      totalPyFiles := Some(total);
    }
  }
}
