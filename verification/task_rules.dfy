/** The per-task rules of the runner: the task record, its type and argument
    validation, argument lookup, the abort decision and the effect of each task
    type on the filesystem. */
module TaskRules {
  import opened Wrappers
  import opened AbstractFs
  import Validation

  /** One decoded entry of the task file. */
  datatype Task = Task(name: string, taskType: string, abortOnFail: bool, args: map<string, string>)

  /** The argument keys a task may carry. */
  const SupportedArguments: set<string> := {"path", "content", "append", "recursive"}

  /** The five task types, spelled as in the task file. */
  const TypeNames: set<string> := {"create_dir", "create_file", "put_content", "rm_dir", "rm_file"}

  datatype TaskType = CreateDir | CreateFile | PutContent | RmDir | RmFile

  function TypeName(k: TaskType): string
  {
    match k
    case CreateDir => "create_dir"
    case CreateFile => "create_file"
    case PutContent => "put_content"
    case RmDir => "rm_dir"
    case RmFile => "rm_file"
  }

  /** Recognises a type string; exactly the names of the five types parse, and
      each parses back to the type it names. */
  function ParseType(s: string): (r: Option<TaskType>)
    ensures forall k :: TypeName(k) == s <==> r == Some(k)
    ensures r.Some? <==> s in TypeNames
  {
    match s
    case "create_dir" => Some(CreateDir)
    case "create_file" => Some(CreateFile)
    case "put_content" => Some(PutContent)
    case "rm_dir" => Some(RmDir)
    case "rm_file" => Some(RmFile)
    case _ => None
  }

  /** The errors the task rules can produce. */
  datatype Error =
    | EmptyType
    | InvalidType
    | UnsupportedArgument
    | EmptyPath
    | PathExists
    | PathMissing
    | RecursiveRequired
    | Fs(cause: PathError)

  /** The text of each error. */
  function Message(e: Error): string
  {
    match e
    case EmptyType => "type cannot be empty"
    case InvalidType => "invalid type"
    case UnsupportedArgument => "unsupported argument"
    case EmptyPath => "path cannot be empty"
    case PathExists => "path already exists"
    case PathMissing => "path doesn't exist"
    case RecursiveRequired => "Directory contains entries, recursive delete is required"
    case Fs(cause) => PathErrorText(cause)
  }

  /** Each validation error has a text of its own, and a filesystem error's
      text always holds the ':' of its `*PathError` form. */
  lemma MessageKinds(e1: Error, e2: Error)
    ensures !e1.Fs? && !e2.Fs? && Message(e1) == Message(e2) ==> e1 == e2
    ensures e1.Fs? ==> ':' in Message(e1)
  {
    if !e1.Fs? && !e2.Fs? && e1 != e2 {
      assert |Message(e1)| != |Message(e2)| || Message(e1)[0] != Message(e2)[0];
    }
  }

  /** Looks up an argument: present exactly when the key is given. */
  function GetArgument(t: Task, arg: string): (r: Option<string>)
    ensures r.Some? <==> arg in t.args
    ensures r.Some? ==> r.value == t.args[arg]
  {
    if arg in t.args then Some(t.args[arg]) else None
  }

  /** The `content` argument, or the empty string when it is absent. */
  function GetContent(t: Task): (r: string)
    ensures "content" in t.args ==> r == t.args["content"]
    ensures "content" !in t.args ==> r == ""
  {
    match GetArgument(t, "content")
    case Some(c) => c
    case None => ""
  }

  /** The `path` argument as `performTask` reads it: Go's zero value when absent. */
  function PathOf(t: Task): Path
  {
    if "path" in t.args then t.args["path"] else ""
  }

  /** Accepts exactly the five type strings; the empty type and any other
      string are refused with different messages. */
  function ValidateTaskType(t: Task): (r: Outcome<Error>)
    ensures r.Pass? <==> t.taskType in TypeNames
    ensures t.taskType == "" ==> r == Fail(EmptyType)
    ensures t.taskType != "" && t.taskType !in TypeNames ==> r == Fail(InvalidType)
  {
    match ParseType(t.taskType)
    case Some(_) => Pass
    case None => if t.taskType == "" then Fail(EmptyType) else Fail(InvalidType)
  }

  /** The checks made for each argument key once the key itself is accepted:
      `path` must be given, and the target must be in the state the task type
      expects. They do not depend on the key being visited. */
  function PathChecks(t: Task, fs: FileSystem): (r: Outcome<Error>)
    ensures "path" !in t.args ==> r == Fail(EmptyPath)
    ensures "path" in t.args ==>
      var path := t.args["path"];
      && (t.taskType in {"create_dir", "create_file"} ==> (r.Pass? <==> path !in fs))
      && (t.taskType in {"create_dir", "create_file"} && path in fs ==> r == Fail(PathExists))
      && (t.taskType in {"put_content", "rm_file", "rm_dir"} && Stat(fs, path) == Some(NotExist) ==> r == Fail(PathMissing))
      && (t.taskType in {"put_content", "rm_file"} ==> (r.Pass? <==> Stat(fs, path) != Some(NotExist)))
      && (t.taskType == "rm_dir" && Stat(fs, path) == Some(NotDir) ==> r == Fail(Fs(PathError("open", path, NotDir))))
      && (t.taskType == "rm_dir" && path in fs && fs[path].File? ==> r == Fail(Fs(PathError("readdirent", path, NotDir))))
      && (t.taskType == "rm_dir" && r.Pass? ==> path in fs && fs[path].Dir?)
      && (t.taskType == "rm_dir" && path in fs && fs[path].Dir? ==>
            (r.Pass? <==> (!HasEntries(fs, path) || "recursive" in t.args)))
      && (t.taskType == "rm_dir" && path in fs && fs[path].Dir? && HasEntries(fs, path) && "recursive" !in t.args ==>
            r == Fail(RecursiveRequired))
      && (t.taskType !in TypeNames ==> r.Pass?)
  {
    match GetArgument(t, "path")
    case None => Fail(EmptyPath)
    case Some(path) =>
      var stat := Stat(fs, path);
      match ParseType(t.taskType)
      case Some(CreateDir) => if stat.None? then Fail(PathExists) else Pass
      case Some(CreateFile) => if stat.None? then Fail(PathExists) else Pass
      case Some(PutContent) => if stat == Some(NotExist) then Fail(PathMissing) else Pass
      case Some(RmFile) => if stat == Some(NotExist) then Fail(PathMissing) else Pass
      case Some(RmDir) =>
        // `os.ReadDir`: opening fails below a file; listing a file fails.
        if stat == Some(NotExist) then Fail(PathMissing)
        else if path !in fs then Fail(Fs(PathError("open", path, NotDir)))
        else if fs[path].File? then Fail(Fs(PathError("readdirent", path, NotDir)))
        else if HasEntries(fs, path) && GetArgument(t, "recursive").None? then Fail(RecursiveRequired)
        else Pass
      case None => Pass
  }

  /** The argument loop visiting the keys in the order `keys`: each key must be
      supported, and after each accepted key the path checks run again. */
  function ValidateArgumentsInOrder(t: Task, fs: FileSystem, keys: seq<string>): (r: Outcome<Error>)
    ensures (exists i :: 0 <= i < |keys| && keys[i] !in SupportedArguments) ==> r.Fail?
    ensures r.Fail? ==> r == Fail(UnsupportedArgument) || r == PathChecks(t, fs)
    decreases |keys|
  {
    if |keys| == 0 then Pass
    else if keys[0] !in SupportedArguments then Fail(UnsupportedArgument)
    else match PathChecks(t, fs)
      case Fail(e) => Fail(e)
      case Pass =>
        assert forall i :: 1 <= i < |keys| ==> keys[i] == keys[1..][i - 1];
        ValidateArgumentsInOrder(t, fs, keys[1..])
  }

  /** Argument validation in the iteration order that visits an unsupported key
      first when there is one. With no arguments at all nothing is checked. */
  function ValidateArguments(t: Task, fs: FileSystem): (r: Outcome<Error>)
    ensures |t.args| == 0 ==> r == Pass
    ensures (exists k :: k in t.args && k !in SupportedArguments) ==> r == Fail(UnsupportedArgument)
    ensures |t.args| > 0 && t.args.Keys <= SupportedArguments && "path" !in t.args ==> r == Fail(EmptyPath)
    ensures |t.args| > 0 && t.args.Keys <= SupportedArguments && "path" in t.args ==>
      var path := t.args["path"];
      && (t.taskType in {"create_dir", "create_file"} ==> (r.Pass? <==> path !in fs))
      && (t.taskType in {"create_dir", "create_file"} && path in fs ==> r == Fail(PathExists))
      && (t.taskType in {"put_content", "rm_file", "rm_dir"} && Stat(fs, path) == Some(NotExist) ==> r == Fail(PathMissing))
      && (t.taskType in {"put_content", "rm_file"} ==> (r.Pass? <==> Stat(fs, path) != Some(NotExist)))
      && (t.taskType == "rm_dir" && Stat(fs, path) == Some(NotDir) ==> r == Fail(Fs(PathError("open", path, NotDir))))
      && (t.taskType == "rm_dir" && path in fs && fs[path].File? ==> r == Fail(Fs(PathError("readdirent", path, NotDir))))
      && (t.taskType == "rm_dir" && r.Pass? ==> path in fs && fs[path].Dir?)
      && (t.taskType == "rm_dir" && path in fs && fs[path].Dir? ==>
            (r.Pass? <==> (!HasEntries(fs, path) || "recursive" in t.args)))
      && (t.taskType == "rm_dir" && path in fs && fs[path].Dir? && HasEntries(fs, path) && "recursive" !in t.args ==>
            r == Fail(RecursiveRequired))
      && (t.taskType !in TypeNames ==> r.Pass?)
  {
    if |t.args| == 0 then Pass
    else if !(t.args.Keys <= SupportedArguments) then Fail(UnsupportedArgument)
    else PathChecks(t, fs)
  }

  /** The loop over `keys` passes exactly when every key is supported and, if
      there is any key, the path checks pass. */
  lemma {:induction false} InOrderPasses(t: Task, fs: FileSystem, keys: seq<string>)
    ensures ValidateArgumentsInOrder(t, fs, keys).Pass? <==>
      (forall i :: 0 <= i < |keys| ==> keys[i] in SupportedArguments) && (|keys| == 0 || PathChecks(t, fs).Pass?)
    ensures ValidateArgumentsInOrder(t, fs, keys).Fail? ==>
      ValidateArgumentsInOrder(t, fs, keys) == Fail(UnsupportedArgument) || ValidateArgumentsInOrder(t, fs, keys) == PathChecks(t, fs)
    ensures (forall i :: 0 <= i < |keys| ==> keys[i] in SupportedArguments) && |keys| > 0 ==>
      ValidateArgumentsInOrder(t, fs, keys) == PathChecks(t, fs)
    decreases |keys|
  {
    if |keys| > 0 && keys[0] in SupportedArguments && PathChecks(t, fs).Pass? {
      InOrderPasses(t, fs, keys[1..]);
      assert forall i :: 1 <= i < |keys| ==> keys[i] == keys[1..][i - 1];
    }
  }

  /** Go visits map keys in an unspecified order. Whatever the order, the same
      tasks pass; the error is the same one whenever every key is supported,
      and otherwise is either "unsupported argument" or the path-check error.
      Visiting an unsupported key first gives exactly `ValidateArguments`. */
  lemma IterationOrderIrrelevant(t: Task, fs: FileSystem, keys: seq<string>)
    requires (set k | k in keys) == t.args.Keys
    ensures ValidateArgumentsInOrder(t, fs, keys).Pass? <==> ValidateArguments(t, fs).Pass?
    ensures t.args.Keys <= SupportedArguments ==> ValidateArgumentsInOrder(t, fs, keys) == ValidateArguments(t, fs)
    ensures ValidateArgumentsInOrder(t, fs, keys).Fail? ==>
      ValidateArgumentsInOrder(t, fs, keys) in {Fail(UnsupportedArgument), PathChecks(t, fs)}
    ensures |keys| > 0 && keys[0] !in SupportedArguments ==> ValidateArgumentsInOrder(t, fs, keys) == ValidateArguments(t, fs)
  {
    InOrderPasses(t, fs, keys);
    if |keys| == 0 {
      assert t.args.Keys == {};
    } else {
      assert keys[0] in t.args.Keys;
    }
    if !(t.args.Keys <= SupportedArguments) {
      var k :| k in t.args.Keys && k !in SupportedArguments;
      assert k in (set k | k in keys);
    }
  }

  /** The two checks of a task, type first. */
  function GetValidatorFns(t: Task, fs: FileSystem): (r: seq<Validation.Check<Error>>)
    ensures |r| == 2 && r[0]() == ValidateTaskType(t) && r[1]() == ValidateArguments(t, fs)
    ensures Validation.RunChecks(r) == if ValidateTaskType(t).Fail? then ValidateTaskType(t) else ValidateArguments(t, fs)
  {
    [() => ValidateTaskType(t), () => ValidateArguments(t, fs)]
  }

  /** Building the validator for a task and running it: the type check
      decides when it fails, otherwise the argument check does. */
  function ValidateTask(t: Task, fs: FileSystem): (r: Outcome<Error>)
    ensures ValidateTaskType(t).Fail? ==> r == ValidateTaskType(t)
    ensures ValidateTaskType(t).Pass? ==> r == ValidateArguments(t, fs)
    ensures r.Pass? <==> ValidateTaskType(t).Pass? && ValidateArguments(t, fs).Pass?
  {
    var fns := GetValidatorFns(t, fs);
    Validation.RunValidateFns(Validation.GetNewValidator(t, fns))
  }

  /** Whether a failure of `t` stops the run; the log line written otherwise is
      not modelled. */
  function HandleAbortOnFail(t: Task, err: Error): (abort: bool)
    ensures abort <==> t.abortOnFail
  {
    t.abortOnFail
  }

  function LiftFs(r: Result<FileSystem, PathError>): Result<FileSystem, Error>
  {
    match r
    case Success(fs) => Success(fs)
    case Failure(e) => Failure(Fs(e))
  }

  /** The filesystem effect of a task. */
  function PerformTask(t: Task, fs: FileSystem): (r: Result<FileSystem, Error>)
    ensures r.Failure? ==> r.error.Fs?
    ensures t.taskType !in TypeNames ==> r == Success(fs)
    ensures t.taskType == "create_dir" ==>
      (r.Success? <==> PathOf(t) != "" && ParentIsDir(fs, PathOf(t)) && PathOf(t) !in fs)
    ensures t.taskType == "create_dir" && r.Success? ==>
      r.value.Keys == fs.Keys + {PathOf(t)} && r.value[PathOf(t)] == Dir && SameOutside(fs, r.value, PathOf(t))
    ensures t.taskType == "create_file" ==>
      (r.Success? <==> PathOf(t) != "" && ParentIsDir(fs, PathOf(t)) && !(PathOf(t) in fs && fs[PathOf(t)].Dir?))
    ensures t.taskType == "create_file" && r.Success? && PathOf(t) in fs ==> r.value == fs
    ensures t.taskType == "create_file" && r.Success? ==>
      PathOf(t) in r.value && r.value[PathOf(t)].File? && SameOutside(fs, r.value, PathOf(t))
    ensures t.taskType == "create_file" && r.Success? && PathOf(t) !in fs ==> r.value[PathOf(t)] == File("")
    ensures t.taskType == "put_content" ==>
      (r.Success? <==> PathOf(t) != "" && ParentIsDir(fs, PathOf(t)) && !(PathOf(t) in fs && fs[PathOf(t)].Dir?))
    ensures t.taskType == "put_content" && r.Success? ==>
      && PathOf(t) in r.value
      && r.value.Keys == fs.Keys + {PathOf(t)}
      && SameOutside(fs, r.value, PathOf(t))
      && (GetArgument(t, "append") == Some("true") ==> r.value[PathOf(t)] == File(ContentOf(fs, PathOf(t)) + GetContent(t)))
      && (GetArgument(t, "append") != Some("true") ==> r.value[PathOf(t)] == File(GetContent(t)))
    ensures t.taskType == "rm_dir" && GetArgument(t, "recursive") == Some("true") ==>
      && (r.Success? <==> Stat(fs, PathOf(t)) != Some(NotDir))
      && (PathOf(t) != "" && PathOf(t) in fs ==> forall q :: q in r.value <==> q in fs && q != PathOf(t) && !IsUnder(q, PathOf(t)))
      && (PathOf(t) !in fs && r.Success? ==> r.value == fs)
      && (r.Success? ==> forall q :: q in r.value ==> q in fs && r.value[q] == fs[q])
    ensures (t.taskType == "rm_dir" && GetArgument(t, "recursive") != Some("true")) || t.taskType == "rm_file" ==>
      && (r.Success? <==> PathOf(t) in fs && !(fs[PathOf(t)].Dir? && HasEntries(fs, PathOf(t))))
      && (r.Success? ==> r.value.Keys == fs.Keys - {PathOf(t)} && SameOutside(fs, r.value, PathOf(t)))
  {
    var path := PathOf(t);
    match ParseType(t.taskType)
    case Some(CreateDir) => LiftFs(Mkdir(fs, path))
    case Some(CreateFile) => LiftFs(OpenCreate(fs, path))
    case Some(PutContent) =>
      var append := GetArgument(t, "append") == Some("true");
      LiftFs(OpenWrite(fs, path, append, GetContent(t)))
    case Some(RmDir) =>
      if GetArgument(t, "recursive") == Some("true") then LiftFs(RemoveAll(fs, path))
      else LiftFs(Remove(fs, path))
    case Some(RmFile) => LiftFs(Remove(fs, path))
    case None => Success(fs)
  }

  /** Executing a task keeps the filesystem a well-formed tree. */
  lemma PerformTaskPreservesWellFormed(t: Task, fs: FileSystem)
    requires WellFormed(fs)
    requires PerformTask(t, fs).Success?
    ensures WellFormed(PerformTask(t, fs).value)
  {
    var path := PathOf(t);
    match ParseType(t.taskType)
    case Some(CreateDir) => MkdirPreservesWellFormed(fs, path);
    case Some(CreateFile) => OpenCreatePreservesWellFormed(fs, path);
    case Some(PutContent) =>
      OpenWritePreservesWellFormed(fs, path, GetArgument(t, "append") == Some("true"), GetContent(t));
    case Some(RmDir) =>
      if GetArgument(t, "recursive") == Some("true") {
        RemoveAllPreservesWellFormed(fs, path);
      } else {
        RemovePreservesWellFormed(fs, path);
      }
    case Some(RmFile) => RemovePreservesWellFormed(fs, path);
    case None =>
  }

  /** `recursive: "false"` satisfies validation on a non-empty directory (only
      the key's presence is checked) but execution then refuses to delete it. */
  lemma RecursiveFalseFailsAtExecution(t: Task, fs: FileSystem)
    requires t.taskType == "rm_dir" && t.args.Keys <= SupportedArguments
    requires "path" in t.args && t.args["path"] in fs && fs[t.args["path"]].Dir? && HasEntries(fs, t.args["path"])
    requires "recursive" in t.args && t.args["recursive"] != "true"
    ensures ValidateTask(t, fs).Pass?
    ensures PerformTask(t, fs) == Failure(Fs(PathError("remove", t.args["path"], NotEmpty)))
  {
  }

  /** A path below a regular file is not "missing" to `os.Stat`, which reports
      "not a directory" instead: writing or removing such a path passes
      validation and then fails at execution. */
  lemma BelowFileFailsAtExecution(t: Task, fs: FileSystem)
    requires WellFormed(fs)
    requires t.taskType in {"put_content", "rm_file"} && t.args.Keys <= SupportedArguments
    requires "path" in t.args && UnderFile(fs, t.args["path"])
    ensures ValidateTask(t, fs).Pass?
    ensures t.taskType == "put_content" ==> PerformTask(t, fs) == Failure(Fs(PathError("open", t.args["path"], NotDir)))
    ensures t.taskType == "rm_file" ==> PerformTask(t, fs) == Failure(Fs(PathError("remove", t.args["path"], NotDir)))
  {
    var path := t.args["path"];
    var q :| q in fs && fs[q].File? && IsUnder(path, q);
    if path in fs {
      AncestorIsDir(fs, path, q);
    }
    StatMeaning(fs, path);
    WalkFindsFile(fs, path);
  }

  /** A task without arguments passes validation whatever its type's
      preconditions, and then acts on the empty path. */
  lemma EmptyArgsSkipChecks(t: Task, fs: FileSystem)
    requires t.taskType in TypeNames && |t.args| == 0
    ensures ValidateTask(t, fs).Pass?
    ensures PathOf(t) == ""
    ensures t.taskType in {"create_dir", "create_file", "put_content", "rm_file"} ==>
      PerformTask(t, fs).Failure? || "" in fs
  {
  }

  /** The execution-required predicate as pinned by the six cases the tests
      exercise: a create is needed when the path is absent, a directory removal
      when it is present. Other types are unconstrained. */
  ghost predicate AgreesWithTests(required: (Task, FileSystem) -> bool)
  {
    forall t: Task, fs: FileSystem ::
      && (t.taskType in {"create_dir", "create_file"} ==> (required(t, fs) <==> PathOf(t) !in fs))
      && (t.taskType == "rm_dir" ==> (required(t, fs) <==> PathOf(t) in fs))
  }

  /** One definition meeting the pinned cases, treating every other type as
      always needing execution. */
  function IsExecutionRequired(t: Task, fs: FileSystem): bool
  {
    match ParseType(t.taskType)
    case Some(CreateDir) => PathOf(t) !in fs
    case Some(CreateFile) => PathOf(t) !in fs
    case Some(RmDir) => PathOf(t) in fs
    case _ => true
  }

  lemma IsExecutionRequiredAgrees()
    ensures AgreesWithTests(IsExecutionRequired)
  {
  }

  /** Validation already settles what the idempotence check asks for creates
      and directory removals: once such a task validates on a well-formed tree,
      any predicate agreeing with the tests says it must run. The one exception
      is a directory removal with no arguments, which validates without a path
      and is then found to have nothing to remove. */
  lemma ValidatedTaskIsRequired(t: Task, fs: FileSystem, required: (Task, FileSystem) -> bool)
    requires WellFormed(fs) && AgreesWithTests(required)
    requires t.taskType in {"create_dir", "create_file", "rm_dir"}
    requires ValidateTask(t, fs).Pass?
    ensures required(t, fs) <==> !(t.taskType == "rm_dir" && |t.args| == 0)
  {
    if |t.args| == 0 {
      assert PathOf(t) == "" && "" !in fs;
    }
  }
}
