/**
 * The base of the Android build's file-based tasks
 * (android/plugins/hyperloop/hooks/android/internal/tasks/incremental-task.js):
 * from the stored change data and the files found changed, a task either
 * runs in full, runs incrementally on the changed inputs, or is skipped;
 * a successful run stores fresh change data, a failed one deletes it.
 *
 * The change manager that wraps the two file-state monitors is not part of
 * this model: what it loads, finds changed and writes are parameters.
 */
module IncrementalTasks {
  import opened Wrappers
  import opened FileStates

  /** What the change manager keeps in the incremental directory: the input and output file states. */
  datatype ChangeData = ChangeData(inputs: map<string, Entry>, outputs: map<string, Entry>)

  /** The kind of run `runTaskAction` starts. */
  datatype TaskRun =
    | FullTaskRun
    | IncrementalTaskRun(changedInputFiles: map<string, Change>)
    | SkipTaskRun

  /**
   * The rules of `runTaskAction`: no incremental data or changed outputs
   * mean a full run; otherwise changed inputs mean an incremental run on
   * them; otherwise the run is skipped.
   */
  function ChooseRun(fullBuild: bool, changedInputFiles: map<string, Change>,
                     changedOutputFiles: map<string, Change>): (r: TaskRun)
    ensures r.FullTaskRun? <==> fullBuild || |changedOutputFiles| > 0
    ensures r.IncrementalTaskRun? <==> !fullBuild && |changedOutputFiles| == 0 && |changedInputFiles| > 0
    ensures r.IncrementalTaskRun? ==> r.changedInputFiles == changedInputFiles
    ensures r.SkipTaskRun? <==> !fullBuild && changedOutputFiles == map[] && changedInputFiles == map[]
  {
    if fullBuild then FullTaskRun
    else if |changedOutputFiles| > 0 then FullTaskRun
    else if |changedInputFiles| > 0 then IncrementalTaskRun(changedInputFiles)
    else SkipTaskRun
  }

  /** A task needs an incremental directory: a missing or empty one is refused. */
  function IncrementalDirectoryOf(incrementalDirectory: Option<string>): (r: Result<string>)
    ensures r.Err? <==> incrementalDirectory.None? || incrementalDirectory.value == ""
    ensures r.Ok? ==> incrementalDirectory == Some(r.value)
  {
    if incrementalDirectory.None? || incrementalDirectory.value == "" then
      Err("Incremental tasks need an incrementalDirectory specified")
    else
      Ok(incrementalDirectory.value)
  }

  class IncrementalTask {
    const incrementalDirectory: string
    /** the change data in the incremental directory; `None` when absent or unreadable */
    var changeData: Option<ChangeData>

    /** A task over an existing incremental directory and whatever change data it holds. */
    constructor (incrementalDirectory: string, changeData: Option<ChangeData>)
      requires incrementalDirectory != ""
      ensures this.incrementalDirectory == incrementalDirectory && this.changeData == changeData
    {
      this.incrementalDirectory := incrementalDirectory;
      this.changeData := changeData;
    }

    /**
     * `runTaskAction`: the run chosen from whether change data could be
     * loaded and from the changed files; `action` stands for the subclass's
     * `doFullTaskRun`, `doIncrementalTaskRun` and `loadResultAndSkip`, and
     * `after` for the file states the change manager records once it is
     * done.  Success stores `after` and passes the result on; failure
     * deletes the change data and fails too.
     */
    method RunTaskAction<T>(changedInputFiles: map<string, Change>, changedOutputFiles: map<string, Change>,
                            action: TaskRun -> Result<T>, after: ChangeData)
      returns (run: TaskRun, r: Result<T>)
      modifies this
      ensures run == ChooseRun(old(changeData).None?, changedInputFiles, changedOutputFiles)
      ensures r.Ok? <==> action(run).Ok?
      ensures r.Ok? ==> r == action(run) && changeData == Some(after)
      ensures r.Err? ==> changeData == None
    {
      var fullBuild := changeData.None?;
      run := ChooseRun(fullBuild, changedInputFiles, changedOutputFiles);
      var taskResult := action(run);
      if taskResult.Ok? {
        changeData := Some(after);
        r := taskResult;
      } else {
        changeData := None;
        r := Err(taskResult.error);
      }
    }
  }

  /**
   * After a failed run the next run of the same task is a full one,
   * whichever files changed in between.
   */
  method FailureForcesFullRun<T>(task: IncrementalTask, changed1: map<string, Change>, outputs1: map<string, Change>,
                                 action: TaskRun -> Result<T>, after: ChangeData,
                                 changed2: map<string, Change>, outputs2: map<string, Change>)
    returns (first: Result<T>, second: TaskRun)
    modifies task
    ensures first.Err? ==> second == FullTaskRun
  {
    var run1;
    run1, first := task.RunTaskAction(changed1, outputs1, action, after);
    var r2;
    second, r2 := task.RunTaskAction(changed2, outputs2, action, after);
  }
}
