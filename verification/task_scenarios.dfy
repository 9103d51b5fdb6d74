/** The cases the repository's tests exercise, stated as facts about the
    model on a small tree holding the directory "/tmp". */
module TaskScenarios {
  import opened Wrappers
  import opened AbstractFs
  import opened TaskRules
  import opened TaskRunner
  import Validation

  /** A tree with one directory, "/tmp", under the root. */
  const Tmp: FileSystem := map["/tmp" := Dir]

  /** Two passing checks yield no error; a failing first check decides. */
  lemma ValidatorTwoChecks()
    ensures Validation.RunValidateFns(Validation.GetNewValidator<int, string>(0, [() => Pass, () => Pass])) == Pass
    ensures Validation.RunValidateFns(Validation.GetNewValidator<int, string>(0, [() => Fail("invalid type"), () => Pass])) == Fail("invalid type")
  {
    var ok: seq<Validation.Check<string>> := [() => Pass, () => Pass];
    assert ok[0]() == Pass && ok[1]() == Pass;
    var bad: seq<Validation.Check<string>> := [() => Fail("invalid type"), () => Pass];
    assert Validation.FirstFailureAt(bad, 0);
    Validation.FirstFailureDecides(bad, 0);
  }

  /** A valid type, a misspelt type, and the empty type. */
  lemma TaskTypeCases()
    ensures ValidateTaskType(Task("", "create_dir", false, map[])) == Pass
    ensures ValidateTaskType(Task("", "create_directory", false, map[])).Fail?
    ensures Message(ValidateTaskType(Task("", "", false, map[])).error) == "type cannot be empty"
  {
  }

  /** A non-empty directory can be removed only with a `recursive` argument. */
  lemma RmDirNeedsRecursive()
    ensures var fs := Tmp["/tmp/test.file" := File("")];
      && ValidateArguments(Task("", "rm_dir", true, map["path" := "/tmp"]), fs) == Fail(RecursiveRequired)
      && Message(RecursiveRequired) == "Directory contains entries, recursive delete is required"
      && ValidateArguments(Task("", "rm_dir", true, map["path" := "/tmp", "recursive" := "true"]), fs) == Pass
  {
    var fs := Tmp["/tmp/test.file" := File("")];
    ParentOfChild("/tmp", "test.file");
    assert "/tmp" + "/" + "test.file" == "/tmp/test.file";
    assert "/tmp/test.file" in fs;
    assert HasEntries(fs, "/tmp");
  }

  /** Appending to "initial msg " gives "initial msg testing"; with `append`
      "false" the file is overwritten. */
  lemma PutContentCases()
    ensures var fs := Tmp["/tmp/test.file" := File("initial msg ")];
      && PerformTask(Task("put content", "put_content", false,
           map["path" := "/tmp/test.file", "content" := "testing", "append" := "true"]), fs)
         == Success(fs["/tmp/test.file" := File("initial msg testing")])
      && PerformTask(Task("put content", "put_content", false,
           map["path" := "/tmp/test.file", "content" := "testing", "append" := "false"]), fs)
         == Success(fs["/tmp/test.file" := File("testing")])
  {
    ParentOfChild("/tmp", "test.file");
    assert "/tmp" + "/" + "test.file" == "/tmp/test.file";
    assert "initial msg " + "testing" == "initial msg testing";
  }

  /** Creating an absent file under a directory records it as a new empty file. */
  lemma CreateAbsentFile(t: Task, fs: FileSystem, p: Path, b: Path)
    requires p == "/tmp/" + b && t.taskType == "create_file" && t.args == map["path" := p]
    requires '/' !in b && "/tmp" in fs && fs["/tmp"].Dir? && p !in fs
    ensures StepOf(IsExecutionRequired)(t, fs) == Applied(fs[p := File("")])
  {
    ParentOfChild("/tmp", b);
    assert "/tmp" + "/" + b == p;
    assert p != "";
    assert "path" in SupportedArguments;
    assert ValidateTask(t, fs) == Pass;
    assert IsExecutionRequired(t, fs);
    var r := PerformTask(t, fs);
    assert r.Success? && r.value == fs[p := File("")];
  }

  /** Creating a path that already exists fails validation. */
  lemma CreateExistingFile(t: Task, fs: FileSystem)
    requires t.taskType == "create_file" && "path" in t.args && t.args.Keys == {"path"}
    requires t.args["path"] in fs
    ensures StepOf(IsExecutionRequired)(t, fs) == Rejected(PathExists)
  {
    assert "path" in SupportedArguments;
    assert ValidateTask(t, fs) == Fail(PathExists);
  }

  const Task1: Task := Task("create tmp file", "create_file", false, map["path" := "/tmp/tmp1"])
  const Task3: Task := Task("create tmp file3", "create_file", false, map["path" := "/tmp/tmp3"])

  function Task2(abort: bool): Task
  {
    Task("create tmp file2", "create_file", abort, map["path" := "/tmp/tmp1"])
  }

  const Tmp1: FileSystem := Tmp["/tmp/tmp1" := File("")]
  const Tmp3: FileSystem := Tmp1["/tmp/tmp3" := File("")]

  /** The error an abort on an existing path returns. */
  lemma AbortOnExistingPath()
    ensures AbortMessage(Aborted("create tmp file2", PathExists))
         == "Aborted due to Task: create tmp file2 with error:path already exists"
  {
    assert Message(PathExists) == "path already exists";
    assert "Aborted due to Task: " + "create tmp file2" == "Aborted due to Task: create tmp file2";
    assert "Aborted due to Task: create tmp file2" + " with error:" == "Aborted due to Task: create tmp file2 with error:";
  }

  /** The three-task run with `abortOnFail` on the second, for any step that
      creates the first file and rejects the second task. */
  lemma AbortingRunWith(step: Step)
    requires step(Task1, Tmp) == Applied(Tmp1) && step(Task2(true), Tmp1) == Rejected(PathExists)
    ensures var tl0 := TasksList([Task1, Task2(true), Task3], [], [], []);
      RunTasks(tl0.tasks, Tmp, tl0, step)
      == RunResult(tl0.(successful := ["create tmp file"], unsuccessful := ["create tmp file2"]),
                   Tmp1, Some(Aborted("create tmp file2", PathExists)))
  {
    var tl0 := TasksList([Task1, Task2(true), Task3], [], [], []);
    assert tl0.tasks == [Task1] + [Task2(true), Task3];
    FirstStep(Task1, [Task2(true), Task3], Tmp, tl0, step);
    assert [Task2(true), Task3] == [Task2(true)] + [Task3];
    FirstStep(Task2(true), [Task3], Tmp1, tl0.(successful := ["create tmp file"]), step);
  }

  /** The three-task run without `abortOnFail`, for any step that creates the
      first and third files and rejects the second task. */
  lemma ContinuingRunWith(step: Step)
    requires step(Task1, Tmp) == Applied(Tmp1) && step(Task2(false), Tmp1) == Rejected(PathExists)
    requires step(Task3, Tmp1) == Applied(Tmp3)
    ensures var tl0 := TasksList([Task1, Task2(false), Task3], [], [], []);
      RunTasks(tl0.tasks, Tmp, tl0, step)
      == RunResult(tl0.(successful := ["create tmp file", "create tmp file3"], unsuccessful := ["create tmp file2"]),
                   Tmp3, None)
  {
    var tl0 := TasksList([Task1, Task2(false), Task3], [], [], []);
    var tl1 := tl0.(successful := ["create tmp file"]);
    assert tl0.tasks == [Task1] + [Task2(false), Task3];
    FirstStep(Task1, [Task2(false), Task3], Tmp, tl0, step);
    assert Record(tl0, Task1.name, Applied(Tmp1)) == tl1;
    assert [Task2(false), Task3] == [Task2(false)] + [Task3];
    FirstStep(Task2(false), [Task3], Tmp1, tl1, step);
    assert Record(tl1, Task2(false).name, Rejected(PathExists)) == tl1.(unsuccessful := ["create tmp file2"]);
    assert [Task3] == [Task3] + [];
    var tl2 := tl1.(unsuccessful := ["create tmp file2"]);
    FirstStep(Task3, [], Tmp1, tl2, step);
    assert ["create tmp file"] + ["create tmp file3"] == ["create tmp file", "create tmp file3"];
    assert Record(tl2, Task3.name, Applied(Tmp3)) == tl2.(successful := ["create tmp file", "create tmp file3"]);
  }

  /** Three creates of "/tmp/tmp1", "/tmp/tmp1" and "/tmp/tmp3" with
      `abortOnFail` on the second: the run stops at the second. */
  lemma AbortingRun()
    ensures var r := ValidateAndRunTasks(TasksList([Task1, Task2(true), Task3], [], [], []), Tmp, IsExecutionRequired);
      && r.list.successful == ["create tmp file"]
      && r.list.unsuccessful == ["create tmp file2"]
      && r.list.unChanged == []
      && r.err == Some(Aborted("create tmp file2", PathExists))
      && AbortMessage(r.err.value) == "Aborted due to Task: create tmp file2 with error:path already exists"
  {
    assert "/tmp/tmp1" == "/tmp/" + "tmp1";
    CreateAbsentFile(Task1, Tmp, "/tmp/tmp1", "tmp1");
    CreateExistingFile(Task2(true), Tmp1);
    AbortingRunWith(StepOf(IsExecutionRequired));
    AbortOnExistingPath();
  }

  /** The same three creates without `abortOnFail`: the second is recorded as
      unsuccessful and the third still runs. */
  lemma ContinuingRun()
    ensures var r := ValidateAndRunTasks(TasksList([Task1, Task2(false), Task3], [], [], []), Tmp, IsExecutionRequired);
      && r.list.successful == ["create tmp file", "create tmp file3"]
      && r.list.unsuccessful == ["create tmp file2"]
      && r.list.unChanged == []
      && r.err == None
  {
    assert "/tmp/tmp1" == "/tmp/" + "tmp1";
    CreateAbsentFile(Task1, Tmp, "/tmp/tmp1", "tmp1");
    CreateExistingFile(Task2(false), Tmp1);
    assert "/tmp/tmp3"[8] != "/tmp/tmp1"[8];
    assert "/tmp/tmp3" == "/tmp/" + "tmp3";
    CreateAbsentFile(Task3, Tmp1, "/tmp/tmp3", "tmp3");
    ContinuingRunWith(StepOf(IsExecutionRequired));
  }
}
