/** The run loop: every task in order is validated, classified as needing no
    change, or executed, and its name lands in one of three buckets. A failure
    of a task marked `abortOnFail` stops the run. */
module TaskRunner {
  import opened Wrappers
  import opened AbstractFs
  import opened TaskRules
  import Strings

  /** The decoded tasks and the names recorded in each bucket. */
  datatype TasksList = TasksList(
    tasks: seq<Task>,
    successful: seq<string>,
    unsuccessful: seq<string>,
    unChanged: seq<string>)

  /** The error that ends a run early. */
  datatype RunError = Aborted(name: string, cause: Error)

  const AbortPrefix := "Aborted due to Task: "

  /** The error text of an aborted run: the fixed prefix, then the task's
      name, then " with error:" and its error's text. Given the name's length,
      the name and the error's text can both be read back from it. */
  function AbortMessage(e: RunError): (m: string)
    ensures AbortPrefix <= m && |AbortPrefix| + |e.name| <= |m|
    ensures m[|AbortPrefix|..][..|e.name|] == e.name
    ensures m[|AbortPrefix| + |e.name|..] == " with error:" + Message(e.cause)
  {
    AbortPrefix + e.name + " with error:" + Message(e.cause)
  }

  /** The buckets, the filesystem and the returned error after a run. */
  datatype RunResult = RunResult(list: TasksList, fs: FileSystem, err: Option<RunError>)

  /** What happens to a single task on a given filesystem. */
  datatype Disposition = Rejected(err: Error) | Skipped | Applied(after: FileSystem) | Failed(err: Error)

  predicate IsFailure(d: Disposition)
  {
    d.Rejected? || d.Failed?
  }

  /** The filesystem once a task with disposition `d` is done with it. */
  function After(fs: FileSystem, d: Disposition): FileSystem
  {
    if d.Applied? then d.after else fs
  }

  /** A per-task step of the loop: how a task is disposed of on a filesystem. */
  type Step = (Task, FileSystem) -> Disposition

  /** The step `validateAndRunTasks` takes for each task: build the validator
      and run it (`ValidateTask`), ask whether execution is required, and
      execute. */
  function Dispose(t: Task, fs: FileSystem, required: (Task, FileSystem) -> bool): (d: Disposition)
    ensures d.Rejected? <==> ValidateTask(t, fs).Fail?
    ensures d.Rejected? ==> d.err == ValidateTask(t, fs).error
    ensures d.Skipped? <==> ValidateTask(t, fs).Pass? && !required(t, fs)
    ensures d.Applied? ==> PerformTask(t, fs) == Success(d.after)
    ensures d.Failed? ==> PerformTask(t, fs) == Failure(d.err)
    ensures ValidateTask(t, fs).Pass? && required(t, fs) ==> (d.Applied? <==> PerformTask(t, fs).Success?)
  {
    match ValidateTask(t, fs)
    case Fail(e) => Rejected(e)
    case Pass =>
      if !required(t, fs) then Skipped
      else match PerformTask(t, fs)
        case Failure(e) => Failed(e)
        case Success(fs') => Applied(fs')
  }

  function StepOf(required: (Task, FileSystem) -> bool): Step
  {
    (t, fs) => Dispose(t, fs, required)
  }

  /** Which bucket a disposition is recorded in. */
  datatype Bucket = SuccessfulBucket | UnsuccessfulBucket | UnchangedBucket

  function BucketOf(d: Disposition): Bucket
  {
    match d
    case Applied(_) => SuccessfulBucket
    case Skipped => UnchangedBucket
    case _ => UnsuccessfulBucket
  }

  /** The names recorded in bucket `b`. */
  function BucketNames(tl: TasksList, b: Bucket): seq<string>
  {
    match b
    case SuccessfulBucket => tl.successful
    case UnsuccessfulBucket => tl.unsuccessful
    case UnchangedBucket => tl.unChanged
  }

  /** The lists once `name` is appended to the bucket of `d`: that bucket
      gains exactly `name` at its end and every other bucket is unchanged. */
  function Record(tl: TasksList, name: string, d: Disposition): (r: TasksList)
    ensures r.tasks == tl.tasks
    ensures forall b :: BucketNames(r, b) == BucketNames(tl, b) + (if BucketOf(d) == b then [name] else [])
  {
    match BucketOf(d)
    case SuccessfulBucket => tl.(successful := tl.successful + [name])
    case UnsuccessfulBucket => tl.(unsuccessful := tl.unsuccessful + [name])
    case UnchangedBucket => tl.(unChanged := tl.unChanged + [name])
  }

  /** The failure of `t` stops the run. */
  predicate Aborts(t: Task, d: Disposition)
  {
    IsFailure(d) && HandleAbortOnFail(t, d.err)
  }

  /** The total number of names recorded across the three buckets. */
  function Recorded(tl: TasksList): nat
  {
    |tl.successful| + |tl.unsuccessful| + |tl.unChanged|
  }

  /** `b` is `a` with names appended to its buckets and nothing else changed. */
  ghost predicate Extends(a: TasksList, b: TasksList)
  {
    && b.tasks == a.tasks
    && a.successful <= b.successful
    && a.unsuccessful <= b.unsuccessful
    && a.unChanged <= b.unChanged
  }

  /** The loop over the remaining `tasks`, threading the filesystem and the
      buckets: each task reached is recorded in one bucket, and an aborting
      failure ends the run with its error. */
  function RunTasks(tasks: seq<Task>, fs: FileSystem, tl: TasksList, step: Step): (r: RunResult)
    ensures Extends(tl, r.list)
    ensures r.err.None? ==> Recorded(r.list) == Recorded(tl) + |tasks|
    ensures r.err.Some? ==> Recorded(tl) < Recorded(r.list) <= Recorded(tl) + |tasks|
    ensures r.err.Some? ==> exists i :: 0 <= i < |tasks| && tasks[i].abortOnFail && r.err.value.name == tasks[i].name
    ensures r.err.Some? ==>
      |r.list.unsuccessful| > |tl.unsuccessful| && r.list.unsuccessful[|r.list.unsuccessful| - 1] == r.err.value.name
    ensures (forall i :: 0 <= i < |tasks| ==> !tasks[i].abortOnFail) ==> r.err.None?
    decreases |tasks|
  {
    if |tasks| == 0 then RunResult(tl, fs, None)
    else
      var t := tasks[0];
      var d := step(t, fs);
      var tl' := Record(tl, t.name, d);
      if Aborts(t, d) then RunResult(tl', fs, Some(Aborted(t.name, d.err)))
      else RunTasks(tasks[1..], After(fs, d), tl', step)
  }

  /** Reference account of a run: the disposition of each task reached, in
      order, ending with the first failure of an aborting task. */
  function Trace(tasks: seq<Task>, fs: FileSystem, step: Step): (tr: seq<Disposition>)
    ensures |tr| <= |tasks|
    decreases |tasks|
  {
    if |tasks| == 0 then []
    else
      var d := step(tasks[0], fs);
      if IsFailure(d) && tasks[0].abortOnFail then [d]
      else [d] + Trace(tasks[1..], After(fs, d), step)
  }

  /** The names of the tasks whose disposition falls in bucket `b`, in order. */
  function NamesIn(tasks: seq<Task>, tr: seq<Disposition>, b: Bucket): seq<string>
    requires |tr| <= |tasks|
    decreases |tr|
  {
    if |tr| == 0 then []
    else (if BucketOf(tr[0]) == b then [tasks[0].name] else []) + NamesIn(tasks[1..], tr[1..], b)
  }

  /** Every disposition is counted in exactly one bucket. */
  lemma {:induction false} BucketsPartition(tasks: seq<Task>, tr: seq<Disposition>)
    requires |tr| <= |tasks|
    ensures |NamesIn(tasks, tr, SuccessfulBucket)| + |NamesIn(tasks, tr, UnsuccessfulBucket)|
          + |NamesIn(tasks, tr, UnchangedBucket)| == |tr|
    decreases |tr|
  {
    if |tr| > 0 {
      BucketsPartition(tasks[1..], tr[1..]);
    }
  }

  /** The loop agrees with the reference account on the buckets: each one
      grows by the names of the tasks recorded there, in task order. */
  lemma {:induction false} RunMatchesTraceBuckets(tasks: seq<Task>, fs: FileSystem, tl: TasksList, step: Step, b: Bucket)
    ensures BucketNames(RunTasks(tasks, fs, tl, step).list, b) == BucketNames(tl, b) + NamesIn(tasks, Trace(tasks, fs, step), b)
    decreases |tasks|
  {
    if |tasks| > 0 {
      var t := tasks[0];
      var d := step(t, fs);
      var tl' := Record(tl, t.name, d);
      var mine: seq<string> := if BucketOf(d) == b then [t.name] else [];
      assert BucketNames(tl', b) == BucketNames(tl, b) + mine;
      if !Aborts(t, d) {
        var tr' := Trace(tasks[1..], After(fs, d), step);
        assert RunTasks(tasks, fs, tl, step) == RunTasks(tasks[1..], After(fs, d), tl', step);
        assert NamesIn(tasks, Trace(tasks, fs, step), b) == mine + NamesIn(tasks[1..], tr', b) by {
          NamesInCons(tasks, d, tr', b);
        }
        RunMatchesTraceBuckets(tasks[1..], After(fs, d), tl', step, b);
      } else {
        NamesInCons(tasks, d, [], b);
      }
    }
  }

  lemma NamesInCons(tasks: seq<Task>, d: Disposition, tr: seq<Disposition>, b: Bucket)
    requires 0 < |tasks| && |tr| < |tasks|
    ensures NamesIn(tasks, [d] + tr, b) == (if BucketOf(d) == b then [tasks[0].name] else []) + NamesIn(tasks[1..], tr, b)
  {
    assert ([d] + tr)[1..] == tr;
  }

  /** The loop agrees with the reference account on how it ends: the run is
      cut short exactly when the last task reached failed and carries
      `abortOnFail`, with that task's error; otherwise every task is reached. */
  lemma {:induction false} RunMatchesTraceEnd(tasks: seq<Task>, fs: FileSystem, tl: TasksList, step: Step)
    ensures var r := RunTasks(tasks, fs, tl, step);
      var tr := Trace(tasks, fs, step);
      && (r.err.Some? <==> |tr| > 0 && IsFailure(tr[|tr| - 1]) && tasks[|tr| - 1].abortOnFail)
      && (r.err.None? ==> |tr| == |tasks|)
      && (r.err.Some? ==> r.err.value == Aborted(tasks[|tr| - 1].name, tr[|tr| - 1].err))
    decreases |tasks|
  {
    if |tasks| > 0 {
      var t := tasks[0];
      var d := step(t, fs);
      var tr := Trace(tasks, fs, step);
      if !Aborts(t, d) {
        var tl' := Record(tl, t.name, d);
        assert RunTasks(tasks, fs, tl, step) == RunTasks(tasks[1..], After(fs, d), tl', step);
        RunMatchesTraceEnd(tasks[1..], After(fs, d), tl', step);
        var tr' := Trace(tasks[1..], After(fs, d), step);
        assert tr == [d] + tr';
        if |tr'| > 0 {
          assert tr[|tr| - 1] == tr'[|tr'| - 1];
          assert tasks[|tr| - 1] == tasks[1..][|tr'| - 1];
        }
      } else {
        assert tr == [d];
      }
    }
  }

  /** Running two task lists back to back is running their concatenation:
      after an abort the later tasks touch neither a bucket nor the
      filesystem, and without one the second list starts where the first
      left off. */
  lemma {:induction false} RunAppend(a: seq<Task>, b: seq<Task>, fs: FileSystem, tl: TasksList, step: Step)
    ensures var ra := RunTasks(a, fs, tl, step);
      RunTasks(a + b, fs, tl, step) == if ra.err.Some? then ra else RunTasks(b, ra.fs, ra.list, step)
    decreases |a|
  {
    if |a| == 0 {
      assert a + b == b;
    } else {
      assert (a + b)[0] == a[0];
      assert (a + b)[1..] == a[1..] + b;
      var d := step(a[0], fs);
      if !Aborts(a[0], d) {
        RunAppend(a[1..], b, After(fs, d), Record(tl, a[0].name, d), step);
      }
    }
  }

  /** One turn of the loop on the first task. */
  lemma FirstStep(t: Task, rest: seq<Task>, fs: FileSystem, tl: TasksList, step: Step)
    ensures var d := step(t, fs);
      RunTasks([t] + rest, fs, tl, step) ==
        if Aborts(t, d) then RunResult(Record(tl, t.name, d), fs, Some(Aborted(t.name, d.err)))
        else RunTasks(rest, After(fs, d), Record(tl, t.name, d), step)
  {
    assert ([t] + rest)[0] == t && ([t] + rest)[1..] == rest;
  }

  /** A task that fails validation is recorded as unsuccessful and never
      executed; the filesystem is untouched and the run stops exactly when
      the task carries `abortOnFail`. */
  lemma RejectedTask(t: Task, rest: seq<Task>, fs: FileSystem, tl: TasksList, required: (Task, FileSystem) -> bool)
    requires ValidateTask(t, fs).Fail?
    ensures var r := RunTasks([t] + rest, fs, tl, StepOf(required));
      var tl' := tl.(unsuccessful := tl.unsuccessful + [t.name]);
      && (t.abortOnFail ==> r == RunResult(tl', fs, Some(Aborted(t.name, ValidateTask(t, fs).error))))
      && (!t.abortOnFail ==> r == RunTasks(rest, fs, tl', StepOf(required)))
  {
    FirstStep(t, rest, fs, tl, StepOf(required));
  }

  /** A validated task that needs no execution is recorded as unchanged and
      the filesystem is untouched. */
  lemma SkippedTask(t: Task, rest: seq<Task>, fs: FileSystem, tl: TasksList, required: (Task, FileSystem) -> bool)
    requires ValidateTask(t, fs).Pass? && !required(t, fs)
    ensures RunTasks([t] + rest, fs, tl, StepOf(required))
         == RunTasks(rest, fs, tl.(unChanged := tl.unChanged + [t.name]), StepOf(required))
  {
    var d := StepOf(required)(t, fs);
    assert d == Dispose(t, fs, required);
    assert d == Skipped;
    assert Record(tl, t.name, d) == tl.(unChanged := tl.unChanged + [t.name]);
    FirstStep(t, rest, fs, tl, StepOf(required));
  }

  /** A validated task that needs execution is recorded as successful with the
      filesystem it produced, or as unsuccessful with the filesystem untouched,
      stopping the run exactly when it carries `abortOnFail`. */
  lemma ExecutedTask(t: Task, rest: seq<Task>, fs: FileSystem, tl: TasksList, required: (Task, FileSystem) -> bool)
    requires ValidateTask(t, fs).Pass? && required(t, fs)
    ensures var r := RunTasks([t] + rest, fs, tl, StepOf(required));
      var p := PerformTask(t, fs);
      var tl' := tl.(unsuccessful := tl.unsuccessful + [t.name]);
      && (p.Success? ==> r == RunTasks(rest, p.value, tl.(successful := tl.successful + [t.name]), StepOf(required)))
      && (p.Failure? && t.abortOnFail ==> r == RunResult(tl', fs, Some(Aborted(t.name, p.error))))
      && (p.Failure? && !t.abortOnFail ==> r == RunTasks(rest, fs, tl', StepOf(required)))
  {
    var d := StepOf(required)(t, fs);
    assert d == Dispose(t, fs, required);
    var p := PerformTask(t, fs);
    if p.Success? {
      assert d == Applied(p.value);
      assert Record(tl, t.name, d) == tl.(successful := tl.successful + [t.name]);
    } else {
      assert d == Failed(p.error);
      assert Record(tl, t.name, d) == tl.(unsuccessful := tl.unsuccessful + [t.name]);
    }
    FirstStep(t, rest, fs, tl, StepOf(required));
  }

  /** A run keeps the filesystem a well-formed tree when each step does. */
  lemma {:induction false} RunPreservesWellFormed(tasks: seq<Task>, fs: FileSystem, tl: TasksList, step: Step)
    requires WellFormed(fs)
    requires forall t, fs' :: WellFormed(fs') && step(t, fs').Applied? ==> WellFormed(step(t, fs').after)
    ensures WellFormed(RunTasks(tasks, fs, tl, step).fs)
    decreases |tasks|
  {
    if |tasks| > 0 {
      var d := step(tasks[0], fs);
      if !Aborts(tasks[0], d) {
        RunPreservesWellFormed(tasks[1..], After(fs, d), Record(tl, tasks[0].name, d), step);
      }
    }
  }

  /** The step of `validateAndRunTasks` keeps the filesystem well formed. */
  lemma DisposePreservesWellFormed(t: Task, fs: FileSystem, required: (Task, FileSystem) -> bool)
    requires WellFormed(fs)
    requires Dispose(t, fs, required).Applied?
    ensures WellFormed(Dispose(t, fs, required).after)
  {
    PerformTaskPreservesWellFormed(t, fs);
  }

  /** Every step of the run keeps the filesystem a well-formed tree. */
  lemma StepPreservesWellFormed(required: (Task, FileSystem) -> bool)
    ensures forall t, fs' :: WellFormed(fs') && StepOf(required)(t, fs').Applied? ==>
      WellFormed(StepOf(required)(t, fs').after)
  {
    forall t, fs' | WellFormed(fs') && StepOf(required)(t, fs').Applied?
      ensures WellFormed(StepOf(required)(t, fs').after)
    {
      DisposePreservesWellFormed(t, fs', required);
    }
  }

  /** A run records nothing as unchanged when no step it reaches skips, as
      long as steps keep the filesystem well formed. */
  lemma {:induction false} NoSkipNoUnchanged(tasks: seq<Task>, fs: FileSystem, tl: TasksList, step: Step)
    requires WellFormed(fs)
    requires forall t, fs' :: WellFormed(fs') && step(t, fs').Applied? ==> WellFormed(step(t, fs').after)
    requires forall i, fs' :: 0 <= i < |tasks| && WellFormed(fs') ==> !step(tasks[i], fs').Skipped?
    ensures RunTasks(tasks, fs, tl, step).list.unChanged == tl.unChanged
    decreases |tasks|
  {
    if |tasks| > 0 {
      var d := step(tasks[0], fs);
      if !Aborts(tasks[0], d) {
        assert forall i :: 1 <= i < |tasks| ==> tasks[1..][i - 1] == tasks[i];
        NoSkipNoUnchanged(tasks[1..], After(fs, d), Record(tl, tasks[0].name, d), step);
      }
    }
  }

  /** With the execution-required predicate the tests pin down, the step
      never skips a task on a well-formed tree unless it is a directory
      removal given no arguments: validation has already rejected every create
      whose target exists and every removal whose target is missing. */
  lemma DisposeSkipsOnlyBareRmDir(t: Task, fs: FileSystem)
    requires WellFormed(fs)
    requires Dispose(t, fs, IsExecutionRequired).Skipped?
    ensures t.taskType == "rm_dir" && |t.args| == 0
  {
    IsExecutionRequiredAgrees();
    if t.taskType in {"create_dir", "create_file", "rm_dir"} {
      ValidatedTaskIsRequired(t, fs, IsExecutionRequired);
    }
  }

  /** With the chosen execution-required predicate, on a well-formed tree and
      with no directory removal lacking arguments, the unchanged bucket stays
      as it was. */
  lemma UnchangedOnlyForBareRmDir(tasks: seq<Task>, fs: FileSystem, tl: TasksList)
    requires WellFormed(fs)
    requires forall i :: 0 <= i < |tasks| ==> !(tasks[i].taskType == "rm_dir" && |tasks[i].args| == 0)
    ensures ValidateAndRunTasks(tl.(tasks := tasks), fs, IsExecutionRequired).list.unChanged == tl.unChanged
  {
    var step := StepOf(IsExecutionRequired);
    forall t, fs' | WellFormed(fs') && step(t, fs').Applied?
      ensures WellFormed(step(t, fs').after)
    {
      DisposePreservesWellFormed(t, fs', IsExecutionRequired);
    }
    forall i, fs' | 0 <= i < |tasks| && WellFormed(fs')
      ensures !step(tasks[i], fs').Skipped?
    {
      if step(tasks[i], fs').Skipped? {
        DisposeSkipsOnlyBareRmDir(tasks[i], fs');
      }
    }
    NoSkipNoUnchanged(tasks, fs, tl.(tasks := tasks), step);
  }

  /** What a run over the list's own tasks records, for any step. */
  lemma RunFacts(tl: TasksList, fs: FileSystem, step: Step)
    ensures var r := RunTasks(tl.tasks, fs, tl, step);
      var tr := Trace(tl.tasks, fs, step);
      && r.list.tasks == tl.tasks
      && r.list.successful == tl.successful + NamesIn(tl.tasks, tr, SuccessfulBucket)
      && r.list.unsuccessful == tl.unsuccessful + NamesIn(tl.tasks, tr, UnsuccessfulBucket)
      && r.list.unChanged == tl.unChanged + NamesIn(tl.tasks, tr, UnchangedBucket)
      && (r.err.None? ==> Recorded(r.list) == Recorded(tl) + |tl.tasks|)
      && (r.err.Some? <==> |tr| > 0 && IsFailure(tr[|tr| - 1]) && tl.tasks[|tr| - 1].abortOnFail)
  {
    RunMatchesTraceBuckets(tl.tasks, fs, tl, step, SuccessfulBucket);
    RunMatchesTraceBuckets(tl.tasks, fs, tl, step, UnsuccessfulBucket);
    RunMatchesTraceBuckets(tl.tasks, fs, tl, step, UnchangedBucket);
    RunMatchesTraceEnd(tl.tasks, fs, tl, step);
  }

  /** `validateAndRunTasks`: runs the list's own tasks, recording into its
      buckets. */
  function ValidateAndRunTasks(tl: TasksList, fs: FileSystem, required: (Task, FileSystem) -> bool): (r: RunResult)
    ensures var tr := Trace(tl.tasks, fs, StepOf(required));
      && r.list.tasks == tl.tasks
      && r.list.successful == tl.successful + NamesIn(tl.tasks, tr, SuccessfulBucket)
      && r.list.unsuccessful == tl.unsuccessful + NamesIn(tl.tasks, tr, UnsuccessfulBucket)
      && r.list.unChanged == tl.unChanged + NamesIn(tl.tasks, tr, UnchangedBucket)
      && (r.err.None? ==> Recorded(r.list) == Recorded(tl) + |tl.tasks|)
      && (r.err.Some? <==> |tr| > 0 && IsFailure(tr[|tr| - 1]) && tl.tasks[|tr| - 1].abortOnFail)
      && (WellFormed(fs) ==> WellFormed(r.fs))
  {
    var step := StepOf(required);
    RunFacts(tl, fs, step);
    assert WellFormed(fs) ==> WellFormed(RunTasks(tl.tasks, fs, tl, step).fs) by {
      if WellFormed(fs) {
        StepPreservesWellFormed(required);
        RunPreservesWellFormed(tl.tasks, fs, tl, step);
      }
    }
    RunTasks(tl.tasks, fs, tl, step)
  }

  /** No name in `names` holds the character `c`. */
  predicate Avoids(names: seq<string>, c: char)
  {
    forall i :: 0 <= i < |names| ==> c !in names[i]
  }

  /** The summary built from the three buckets: one line per bucket, each its
      label followed by the bucket's names joined with ",". */
  function Summary(tl: TasksList): (s: string)
    ensures Avoids(tl.successful, '\n') && Avoids(tl.unsuccessful, '\n') && Avoids(tl.unChanged, '\n') ==>
      Strings.Split(s, '\n') == [
        "Successful tasks: " + Strings.Join(tl.successful, ",") + " ",
        "Unsuccessful tasks: " + Strings.Join(tl.unsuccessful, ",") + " ",
        "UnChanged tasks: " + Strings.Join(tl.unChanged, ",")]
  {
    var a := "Successful tasks: " + Strings.Join(tl.successful, ",") + " ";
    var b := "Unsuccessful tasks: " + Strings.Join(tl.unsuccessful, ",") + " ";
    var c := "UnChanged tasks: " + Strings.Join(tl.unChanged, ",");
    SummaryLines(tl, a, b, c);
    a + "\n" + b + "\n" + c
  }

  lemma SummaryLines(tl: TasksList, a: string, b: string, c: string)
    requires a == "Successful tasks: " + Strings.Join(tl.successful, ",") + " "
    requires b == "Unsuccessful tasks: " + Strings.Join(tl.unsuccessful, ",") + " "
    requires c == "UnChanged tasks: " + Strings.Join(tl.unChanged, ",")
    ensures Avoids(tl.successful, '\n') && Avoids(tl.unsuccessful, '\n') && Avoids(tl.unChanged, '\n') ==>
      Strings.Split(a + "\n" + b + "\n" + c, '\n') == [a, b, c]
  {
    if Avoids(tl.successful, '\n') && Avoids(tl.unsuccessful, '\n') && Avoids(tl.unChanged, '\n') {
      Strings.JoinAvoids(tl.successful, ",", '\n');
      Strings.JoinAvoids(tl.unsuccessful, ",", '\n');
      Strings.JoinAvoids(tl.unChanged, ",", '\n');
      assert '\n' !in a && '\n' !in b && '\n' !in c;
      assert a + "\n" + b + "\n" + c == a + ['\n'] + (b + ['\n'] + c);
      Strings.SplitAfterFirst(a, b + ['\n'] + c, '\n');
      Strings.SplitAfterFirst(b, c, '\n');
    }
  }

  /** Reading the summary back: when no name holds a line break, each
      non-empty bucket whose names hold no "," is recovered by splitting its
      line, label and trailing space removed, at ",". */
  lemma SummaryRecoversBuckets(tl: TasksList)
    requires Avoids(tl.successful, '\n') && Avoids(tl.unsuccessful, '\n') && Avoids(tl.unChanged, '\n')
    ensures var lines := Strings.Split(Summary(tl), '\n');
      && |lines| == 3
      && (|tl.successful| > 0 && Avoids(tl.successful, ',') ==>
            Strings.Split(lines[0][|"Successful tasks: "|..|lines[0]| - 1], ',') == tl.successful)
      && (|tl.unsuccessful| > 0 && Avoids(tl.unsuccessful, ',') ==>
            Strings.Split(lines[1][|"Unsuccessful tasks: "|..|lines[1]| - 1], ',') == tl.unsuccessful)
      && (|tl.unChanged| > 0 && Avoids(tl.unChanged, ',') ==>
            Strings.Split(lines[2][|"UnChanged tasks: "|..], ',') == tl.unChanged)
  {
    var lines := Strings.Split(Summary(tl), '\n');
    if |tl.successful| > 0 && Avoids(tl.successful, ',') {
      assert lines[0][|"Successful tasks: "|..|lines[0]| - 1] == Strings.Join(tl.successful, ",");
      Strings.SplitJoin(tl.successful, ',');
    }
    if |tl.unsuccessful| > 0 && Avoids(tl.unsuccessful, ',') {
      assert lines[1][|"Unsuccessful tasks: "|..|lines[1]| - 1] == Strings.Join(tl.unsuccessful, ",");
      Strings.SplitJoin(tl.unsuccessful, ',');
    }
    if |tl.unChanged| > 0 && Avoids(tl.unChanged, ',') {
      assert lines[2][|"UnChanged tasks: "|..] == Strings.Join(tl.unChanged, ",");
      Strings.SplitJoin(tl.unChanged, ',');
    }
  }

  /** `Run` after decoding: the summary on success; on an abort, the summary
      of what was recorded so far followed by the abort message. */
  function Run(tasks: seq<Task>, fs: FileSystem, required: (Task, FileSystem) -> bool): (out: (Result<string, string>, FileSystem))
    ensures var r := ValidateAndRunTasks(TasksList(tasks, [], [], []), fs, required);
      && out.1 == r.fs
      && (r.err.None? <==> out.0.Success?)
      && (out.0.Success? ==> out.0.value == Summary(r.list))
      && (out.0.Failure? ==> Summary(r.list) <= out.0.error)
      && (out.0.Failure? ==> out.0.error == Summary(r.list) + " \n" + AbortMessage(r.err.value))
  {
    var r := ValidateAndRunTasks(TasksList(tasks, [], [], []), fs, required);
    match r.err
    case None => (Success(Summary(r.list)), r.fs)
    case Some(e) => (Failure(Summary(r.list) + " \n" + AbortMessage(e)), r.fs)
  }
}
