/**
 * The scan-references tasks of the Android build
 * (android/hooks/tasks/scan-references-task.js and
 * android/plugins/hyperloop/hooks/android/tasks/scan-references-task.js):
 * the extraction loops over one file, and the task object that keeps the
 * references map (`references.json`) across full, incremental and skipped
 * runs.  The file system is the task's `disk`; what the Babel traversal or
 * the require regular expression find in a file is part of that file.
 */
module ScanTasks {
  import opened Wrappers
  import opened FileStates
  import opened ScanReferences
  import opened IncrementalTasks

  // ---------------------------------------------------------------------
  // Extraction from one file
  // ---------------------------------------------------------------------

  /** The require names found by the plugin scan are all ones the model turns into patterns. */
  predicate PlainCalls(calls: seq<RequireMatch>)
  {
    forall i :: 0 <= i < |calls| ==> Plain(calls[i].className)
  }

  /** The names the hooks scan takes from the literals are all ones the model turns into patterns. */
  predicate PlainRuns(literals: seq<string>)
  {
    forall l :: l in literals && FirstRun(l).Some? ==> Plain(FirstRun(l).value)
  }

  /** A source file both scans can handle. */
  predicate WellFormed(file: SourceFile)
  {
    PlainCalls(file.calls) && PlainRuns(file.literals)
  }

  lemma PlainCallsNames(calls: seq<RequireMatch>)
    requires PlainCalls(calls)
    ensures AllPlain(NamesOf(calls))
  {
  }

  lemma PlainRunsNames(literals: seq<string>)
    requires PlainRuns(literals)
    ensures AllPlain(RunsOf(literals))
  {
    forall i | 0 <= i < |RunsOf(literals)|
      ensures Plain(RunsOf(literals)[i])
    {
      var c := RunsOf(literals)[i];
      assert c in RunsOf(literals);
      var l :| l in literals && FirstRun(l) == Some(c);
    }
  }

  /** The classes a package require or a single-type require adds to a file's list. */
  lemma UsedInStep(classNames: seq<string>, names: seq<string>, name: string)
    requires AllPlain(names) && Plain(name)
    ensures AllPlain(names + [name])
    ensures UsedIn(classNames, names + [name]) == UsedIn(classNames, names) + Resolve(classNames, name).usedClasses
  {
    assert (names + [name])[..|names|] == names;
  }

  /**
   * The body of both extraction loops for one required name: a wildcard
   * name contributes the classes its package pattern matches and, when there
   * are any, the package wrapper's require; any other name contributes its
   * validated class and that class's wrapper require, or nothing.
   */
  method ResolveRequire(classNames: seq<string>, className: string) returns (used: seq<string>, rewrite: Option<string>)
    requires Plain(className)
    ensures Resolution(used, rewrite) == Resolve(classNames, className)
  {
    used := [];
    rewrite := None;
    if IsWildcard(className) {
      var matched := DetectUsedClasses(classNames, className);
      if |matched| > 0 {
        used := matched;
        rewrite := Some(WrapperRequire(SliceTo(className, |className| - 2)));
      }
    } else {
      var validated := ValidateTypeName(classNames, className);
      if validated.Some? {
        used := [validated.value];
        rewrite := Some(WrapperRequire(validated.value));
      }
    }
  }

  /**
   * `extractAndReplaceHyperloopRequires` of the plugin task: for a file
   * that exists, the classes its requires name, in order, and its text with
   * each resolved require rewritten to the wrapper's; null for a missing
   * file.  A replacement that does not finish within one round per
   * character leaves no text.
   */
  method ExtractAndReplace(classNames: seq<string>, file: Option<SourceFile>) returns (r: Option<Extraction>)
    requires file.Some? ==> PlainCalls(file.value.calls)
    ensures r.None? <==> file.None?
    ensures r.Some? ==> PlainCalls(file.value.calls) && AllPlain(NamesOf(file.value.calls))
    ensures r.Some? ==> r.value.usedClasses == UsedIn(classNames, NamesOf(file.value.calls))
    ensures r.Some? ==> r.value.replacedContent == Rewritten(classNames, file.value.content, file.value.calls)
  {
    if file.None? {
      return None;
    }
    var calls := file.value.calls;
    PlainCallsNames(calls);
    var names := NamesOf(calls);
    var modified: Option<string> := Some(file.value.content);
    var usedClasses: seq<string> := [];
    for i := 0 to |calls|
      invariant AllPlain(names[..i])
      invariant usedClasses == UsedIn(classNames, names[..i])
      invariant modified.Some? ==> Rewritten(classNames, file.value.content, calls) == Rewritten(classNames, modified.value, calls[i..])
      invariant modified.None? ==> Rewritten(classNames, file.value.content, calls) == None
    {
      var className := calls[i].className;
      CallsStep(classNames, calls, i);
      var used, rewrite := ResolveRequire(classNames, className);
      usedClasses := usedClasses + used;
      if rewrite.Some? && modified.Some? {
        modified := ReplaceAll(modified.value, calls[i].statement, rewrite.value, |modified.value| + 1);
      }
    }
    assert names[..|calls|] == names;
    return Some(Extraction(usedClasses, modified));
  }

  /**
   * `extractAndReplaceHyperloopRequires` of the hooks task: for a file
   * that exists, the classes named by the first name-character run of each
   * require or import literal, in order; null for a missing file.  The
   * hooks task rewrites nothing.
   */
  method ExtractUsedClasses(classNames: seq<string>, file: Option<SourceFile>) returns (r: Option<Extraction>)
    requires file.Some? ==> PlainRuns(file.value.literals)
    ensures r.None? <==> file.None?
    ensures r.Some? ==> AllPlain(RunsOf(file.value.literals))
    ensures r.Some? ==> r.value == Extraction(UsedIn(classNames, RunsOf(file.value.literals)), None)
  {
    if file.None? {
      return None;
    }
    var literals := file.value.literals;
    PlainRunsNames(literals);
    var usedClasses: seq<string> := [];
    for i := 0 to |literals|
      invariant AllPlain(RunsOf(literals[..i]))
      invariant usedClasses == UsedIn(classNames, RunsOf(literals[..i]))
    {
      var requireMatch := FirstRun(literals[i]);
      LiteralsStep(classNames, literals, i);
      if requireMatch.Some? {
        var className := requireMatch.value;
        var used, _ := ResolveRequire(classNames, className);
        usedClasses := usedClasses + used;
      }
    }
    assert literals[..|literals|] == literals;
    return Some(Extraction(usedClasses, None));
  }

  /** One more require call of the plugin scan: its name is plain and joins the names scanned. */
  lemma CallsStep(classNames: seq<string>, calls: seq<RequireMatch>, i: nat)
    requires i < |calls| && PlainCalls(calls)
    ensures Plain(calls[i].className) && AllPlain(NamesOf(calls)[..i])
    ensures AllPlain(NamesOf(calls)[..i + 1])
    ensures UsedIn(classNames, NamesOf(calls)[..i + 1]) ==
      UsedIn(classNames, NamesOf(calls)[..i]) + Resolve(classNames, calls[i].className).usedClasses
    ensures AllPlain(NamesOf(calls[i..])) && calls[i..][1..] == calls[i + 1..]
  {
    var names := NamesOf(calls);
    assert names[..i + 1] == names[..i] + [calls[i].className];
    UsedInStep(classNames, names[..i], calls[i].className);
    assert forall k :: 0 <= k < |calls| - i ==> NamesOf(calls[i..])[k] == names[i + k];
  }

  /** One more literal of the hooks scan: its first run, if any, is plain and joins the names scanned. */
  lemma LiteralsStep(classNames: seq<string>, literals: seq<string>, i: nat)
    requires i < |literals| && PlainRuns(literals) && AllPlain(RunsOf(literals[..i]))
    ensures AllPlain(RunsOf(literals[..i + 1]))
    ensures FirstRun(literals[i]).None? ==> RunsOf(literals[..i + 1]) == RunsOf(literals[..i])
    ensures FirstRun(literals[i]).Some? ==>
      Plain(FirstRun(literals[i]).value) &&
      UsedIn(classNames, RunsOf(literals[..i + 1])) ==
        UsedIn(classNames, RunsOf(literals[..i])) + Resolve(classNames, FirstRun(literals[i]).value).usedClasses
  {
    assert literals[..i + 1][..i] == literals[..i];
    assert literals[i] in literals;
    if FirstRun(literals[i]).Some? {
      var className := FirstRun(literals[i]).value;
      assert RunsOf(literals[..i + 1]) == RunsOf(literals[..i]) + [className];
      UsedInStep(classNames, RunsOf(literals[..i]), className);
    }
  }

  // ---------------------------------------------------------------------
  // The references map
  // ---------------------------------------------------------------------

  /** What `references.json` records for a file: its classes and, in the plugin task, its rewritten text. */
  datatype FileInfo = FileInfo(usedClasses: seq<string>, replacedContent: Option<string>)

  /**
   * What a scan sees: the metabase's class names, which of the two tasks
   * scans (`plugin` rewrites, the hooks task does not) and the files on disk.
   */
  datatype Sources = Sources(classNames: seq<string>, plugin: bool, disk: map<string, SourceFile>)
  {
    predicate Valid()
    {
      forall p :: p in disk ==> WellFormed(disk[p])
    }

    function FileAt(path: string): (r: Option<SourceFile>)
      ensures r.Some? <==> path in disk
      ensures r.Some? ==> r.value == disk[path]
    {
      if path in disk then Some(disk[path]) else None
    }
  }

  /**
   * `scanFileForHyperloopRequires`: the entry a file gets, present exactly
   * when the file exists and names at least one metabase class.
   */
  function Scan(src: Sources, path: string): (r: Option<FileInfo>)
    requires src.Valid()
    ensures r.Some? ==> path in src.disk && r.value.usedClasses != []
    ensures r.Some? ==> forall x :: x in r.value.usedClasses ==> x in src.classNames
    ensures r.Some? && !src.plugin ==> r.value.replacedContent.None?
  {
    if path !in src.disk then None
    else
      var file := src.disk[path];
      PlainCallsNames(file.calls);
      PlainRunsNames(file.literals);
      var used := if src.plugin then UsedIn(src.classNames, NamesOf(file.calls))
                  else UsedIn(src.classNames, RunsOf(file.literals));
      if used == [] then None
      else Some(FileInfo(used, if src.plugin then Rewritten(src.classNames, file.content, file.calls) else None))
  }

  /** The entry `m` holds for `p`, if any. */
  function Lookup(m: map<string, FileInfo>, p: string): (r: Option<FileInfo>)
    ensures r.Some? <==> p in m
    ensures r.Some? ==> r.value == m[p]
  {
    if p in m then Some(m[p]) else None
  }

  /** Maps are equal when every lookup agrees. */
  lemma LookupsDetermine(a: map<string, FileInfo>, b: map<string, FileInfo>)
    requires forall p :: Lookup(a, p) == Lookup(b, p)
    ensures a == b
  {
    assert a.Keys == b.Keys by {
      forall p | p in a ensures p in b { assert Lookup(a, p).Some?; }
      forall p | p in b ensures p in a { assert Lookup(b, p).Some?; }
    }
    forall p | p in a ensures a[p] == b[p] { assert Lookup(a, p) == Lookup(b, p); }
  }

  /**
   * The references after scanning `inputs` in order on top of `refs`, as
   * `doFullTaskRun` does: a file with classes gets its entry; a file without
   * keeps whatever `refs` had for it.
   */
  function ScanAll(src: Sources, refs: map<string, FileInfo>, inputs: seq<string>): (r: map<string, FileInfo>)
    requires src.Valid()
    ensures forall p :: Lookup(r, p) == if p in inputs && Scan(src, p).Some? then Scan(src, p) else Lookup(refs, p)
  {
    if inputs == [] then refs
    else
      var last := inputs[|inputs| - 1];
      var prev := ScanAll(src, refs, inputs[..|inputs| - 1]);
      assert forall p :: p in inputs <==> p in inputs[..|inputs| - 1] || p == last;
      match Scan(src, last)
      case None => prev
      case Some(info) => prev[last := info]
  }

  /** The references of a full scan from nothing: an entry for each input file with classes, and nothing else. */
  function FullScan(src: Sources, inputs: seq<string>): (r: map<string, FileInfo>)
    requires src.Valid()
    ensures forall p :: p in r <==> p in inputs && Scan(src, p).Some?
    ensures forall p :: p in r ==> Some(r[p]) == Scan(src, p)
  {
    var r := ScanAll(src, map[], inputs);
    assert forall p :: Lookup(r, p) == if p in inputs && Scan(src, p).Some? then Scan(src, p) else None;
    r
  }

  /**
   * What an incremental run leaves for `p`: a created or changed file is
   * rescanned (and dropped when it names no class), a deleted one dropped,
   * any other keeps its loaded entry.
   */
  function Outcome(src: Sources, refs: map<string, FileInfo>, changed: map<string, Change>, p: string): Option<FileInfo>
    requires src.Valid()
  {
    if p in changed then (if changed[p] == Removed then None else Scan(src, p))
    else Lookup(refs, p)
  }

  /** The references after an incremental run over `changed`. */
  function ApplyChanges(src: Sources, refs: map<string, FileInfo>, changed: map<string, Change>): (r: map<string, FileInfo>)
    requires src.Valid()
    ensures forall p :: Lookup(r, p) == Outcome(src, refs, changed, p)
  {
    map p | p in refs.Keys + changed.Keys && Outcome(src, refs, changed, p).Some? :: Outcome(src, refs, changed, p).value
  }

  /**
   * The change set describes how the inputs moved from `before` to `after`:
   * created and changed files are inputs now, deleted ones are not, and any
   * file not listed is an input in both or neither, with the same scan.
   */
  ghost predicate Describes(before: Sources, after: Sources, oldInputs: seq<string>, newInputs: seq<string>,
                      changed: map<string, Change>)
    requires before.Valid() && after.Valid()
  {
    (forall p :: p in changed && changed[p] != Removed ==> p in newInputs) &&
    (forall p :: p in changed && changed[p] == Removed ==> p !in newInputs) &&
    (forall p :: p !in changed ==> (p in oldInputs <==> p in newInputs)) &&
    (forall p :: p !in changed && p in newInputs ==> Scan(before, p) == Scan(after, p))
  }

  /**
   * The point of the incremental run: applied to the references of a full
   * scan of the old inputs, a change set that describes the move gives the
   * references of a full scan of the new inputs.
   */
  lemma IncrementalMatchesFull(before: Sources, after: Sources, oldInputs: seq<string>, newInputs: seq<string>,
                               changed: map<string, Change>)
    requires before.Valid() && after.Valid()
    requires Describes(before, after, oldInputs, newInputs, changed)
    ensures ApplyChanges(after, FullScan(before, oldInputs), changed) == FullScan(after, newInputs)
  {
    var loaded := FullScan(before, oldInputs);
    var full := FullScan(after, newInputs);
    forall p
      ensures Lookup(ApplyChanges(after, loaded, changed), p) == Lookup(full, p)
    {
      if p in changed {
        if changed[p] == Removed {
          assert p !in newInputs;
        } else {
          assert p in newInputs;
        }
      } else if p in newInputs {
        assert p in oldInputs;
        assert Scan(before, p) == Scan(after, p);
      } else {
        assert p !in oldInputs;
      }
    }
    LookupsDetermine(ApplyChanges(after, loaded, changed), full);
  }

  /**
   * The scan-references task (both variants): its inputs, the references
   * map it builds, and `references.json` in its output directory, `None`
   * when missing or unreadable.
   */
  class ScanReferencesTask {
    const src: Sources
    const inputFiles: seq<string>
    var references: map<string, FileInfo>
    var referencesFile: Option<map<string, FileInfo>>

    /** A new task starts with an empty references map. */
    constructor (src: Sources, inputFiles: seq<string>, referencesFile: Option<map<string, FileInfo>>)
      requires src.Valid()
      ensures this.src == src && this.inputFiles == inputFiles
      ensures references == map[] && this.referencesFile == referencesFile
    {
      this.src := src;
      this.inputFiles := inputFiles;
      references := map[];
      this.referencesFile := referencesFile;
    }

    /** `scanFileForHyperloopRequires`: records the file's entry when it names a class, and says whether it did. */
    method ScanFileForHyperloopRequires(pathAndFilename: string) returns (hyperloopUsed: bool)
      requires src.Valid()
      modifies this
      ensures hyperloopUsed <==> Scan(src, pathAndFilename).Some?
      ensures references == if hyperloopUsed then old(references)[pathAndFilename := Scan(src, pathAndFilename).value]
                            else old(references)
      ensures referencesFile == old(referencesFile)
    {
      var file := src.FileAt(pathAndFilename);
      assert file.Some? ==> WellFormed(file.value);
      var result;
      if src.plugin {
        result := ExtractAndReplace(src.classNames, file);
      } else {
        result := ExtractUsedClasses(src.classNames, file);
      }
      if result.Some? && |result.value.usedClasses| > 0 {
        references := references[pathAndFilename := FileInfo(result.value.usedClasses, result.value.replacedContent)];
        return true;
      }
      return false;
    }

    /** `loadReferences`: the stored map replaces the current one when it can be read. */
    method LoadReferences() returns (loaded: bool)
      modifies this
      ensures loaded <==> referencesFile.Some?
      ensures references == if loaded then referencesFile.value else old(references)
      ensures referencesFile == old(referencesFile)
    {
      if referencesFile.None? {
        return false;
      }
      references := referencesFile.value;
      return true;
    }

    /** `writeReferences`: the current map becomes the stored one. */
    method WriteReferences()
      modifies this
      ensures referencesFile == Some(references) && references == old(references)
    {
      referencesFile := Some(references);
    }

    /** `doFullTaskRun`: empties the output directory, scans every input file in order and stores the result. */
    method DoFullTaskRun()
      requires src.Valid()
      modifies this
      ensures references == ScanAll(src, old(references), inputFiles)
      ensures referencesFile == Some(references)
    {
      referencesFile := None;
      for i := 0 to |inputFiles|
        invariant references == ScanAll(src, old(references), inputFiles[..i])
      {
        assert inputFiles[..i + 1][..i] == inputFiles[..i];
        var _ := ScanFileForHyperloopRequires(inputFiles[i]);
      }
      assert inputFiles[..|inputFiles|] == inputFiles;
      WriteReferences();
    }

    /**
     * `doIncrementalTaskRun`: a full run when the stored references cannot
     * be loaded; otherwise each changed file is rescanned or dropped, and
     * the result stored.
     */
    method DoIncrementalTaskRun(changedFiles: map<string, Change>)
      requires src.Valid()
      modifies this
      ensures old(referencesFile).None? ==> references == ScanAll(src, old(references), inputFiles)
      ensures old(referencesFile).Some? ==> references == ApplyChanges(src, old(referencesFile).value, changedFiles)
      ensures referencesFile == Some(references)
    {
      var loadedOk := LoadReferences();
      if !loadedOk {
        DoFullTaskRun();
        return;
      }
      ghost var loaded := references;
      var remaining := changedFiles.Keys;
      while remaining != {}
        invariant remaining <= changedFiles.Keys
        invariant referencesFile == old(referencesFile) && loaded == referencesFile.value
        invariant forall q :: Lookup(references, q) ==
                               (if q in changedFiles && q !in remaining then Outcome(src, loaded, changedFiles, q)
                                else Lookup(loaded, q))
        decreases remaining
      {
        var p :| p in remaining;
        var state := changedFiles[p];
        if state == New || state == Changed {
          var hyperloopUsed := ScanFileForHyperloopRequires(p);
          if !hyperloopUsed {
            references := references - {p};
          }
        } else {
          references := references - {p};
        }
        remaining := remaining - {p};
      }
      LookupsDetermine(references, ApplyChanges(src, loaded, changedFiles));
      WriteReferences();
    }

    /** `loadResultAndSkip`: the stored references when they load, a full run otherwise. */
    method LoadResultAndSkip()
      requires src.Valid()
      modifies this
      ensures old(referencesFile).Some? ==> references == old(referencesFile).value && referencesFile == old(referencesFile)
      ensures old(referencesFile).None? ==> references == ScanAll(src, old(references), inputFiles) &&
                                            referencesFile == Some(references)
    {
      var loaded := LoadReferences();
      if !loaded {
        DoFullTaskRun();
      }
    }
  
    /**
     * The action `runTaskAction` starts for this task: the run kind picks
     * `doFullTaskRun`, `doIncrementalTaskRun` or `loadResultAndSkip`.
     * Whatever the kind, the stored references end up equal to the
     * task's own.
     */
    method Run(run: TaskRun)
      requires src.Valid()
      modifies this
      ensures run.FullTaskRun? ==> references == ScanAll(src, old(references), inputFiles)
      ensures run.IncrementalTaskRun? && old(referencesFile).Some? ==>
                references == ApplyChanges(src, old(referencesFile).value, run.changedInputFiles)
      ensures run.SkipTaskRun? && old(referencesFile).Some? ==> references == old(referencesFile).value
      ensures !run.FullTaskRun? && old(referencesFile).None? ==> references == ScanAll(src, old(references), inputFiles)
      ensures referencesFile == Some(references)
    {
      match run
      case FullTaskRun => DoFullTaskRun();
      case IncrementalTaskRun(changedInputFiles) => DoIncrementalTaskRun(changedInputFiles);
      case SkipTaskRun => LoadResultAndSkip();
    }
  }
}
