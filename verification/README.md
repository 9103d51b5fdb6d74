# task-parser, modelled in Dafny

task-parser reads a list of filesystem tasks and runs them in order. A task
has a name, a type (`create_dir`, `create_file`, `put_content`, `rm_dir` or
`rm_file`), an `abortOnFail` flag and string arguments (`path`, `content`,
`append`, `recursive`). Each task goes through four stages:

1. A generic validator runs the task's two checks in order and stops at the
   first error. The checks are "the type is known" and "the arguments suit
   the type and the current filesystem".
2. The task is skipped as unchanged when no execution is required.
3. Otherwise the filesystem operation runs.
4. The task's name is added to one of three buckets: successful,
   unsuccessful or unchanged.

When a task that carries `abortOnFail` fails, the run stops with an error
naming that task. The run returns a summary of the three buckets, followed by
the abort message if the run stopped early.

The modules follow the program's structure:

- `Wrappers`: `Option`, `Outcome` (the `error`-or-nil of a check) and `Result`.
- `Strings`: `strings.Join`, which formats the summary, and the splitting that
  undoes it.
- `AbstractFs`: the filesystem as a map from path strings to entries (file
  with contents, or directory). It also has the `os` calls the program makes
  (`Stat`, `Mkdir`, `OpenFile` with `O_CREATE` and with append or truncate,
  `Remove`, `RemoveAll`). Their failures use Go's `*PathError` shape: op,
  path, errno. As in the kernel's path walk, a path below a regular file gives
  "not a directory" rather than "no such file".
  `WellFormed` says every entry's parent is a directory, and every operation
  preserves it.
- `Validation`: `validator/validator.go`.
- `TaskRules`: `cmd/task.go`, covering type and argument validation, argument
  lookup and `performTask`.
- `TaskRunner`: `validateAndRunTasks` and the summary formatting in `Run`
  (`cmd/taskslist.go`).
- `TaskScenarios`: the situations the repository's tests exercise, stated as
  lemmas about the model.

Two facts about the code shape the model:

- Argument validation runs before the execution-required check, so creating a
  path that already exists is recorded as unsuccessful, not unchanged.
- The buckets live in the `TasksList` value, and `validateAndRunTasks`
  returns only the error.

Go iterates a map in an unspecified order. `ValidateArguments` reruns the path
checks after every accepted key, and can stop at an unsupported key. The loop
is modelled literally over any key order (`ValidateArgumentsInOrder`). The
canonical `ValidateArguments` is the order that meets an unsupported key first.
`IterationOrderIrrelevant` proves that every order accepts the same tasks, and
that every order gives the same error when all keys are supported.

The body of `Task.IsExecutionRequired` is not part of this model. The run loop
takes the predicate as a parameter, and the lemmas that need it assume only
`AgreesWithTests`: the behaviour the tests pin down for creates and directory
removals. `IsExecutionRequired` is one definition that meets those cases. It
treats every other type as needing execution.

## Model

| member | source | states |
|---|---|---|
| Validation.GetNewValidator | validator/validator.go:16-18 | the validator holds the given object and exactly the given checks, in the given order |
| Validation.RunChecks | validator/validator.go:20-27 | the checks pass exactly when every check passes; on failure, the error is the one returned by the first failing check |
| Validation.RunValidateFns | validator/validator.go:20-27 | running a validator passes exactly when each of its checks passes, and otherwise returns the error of the first failing check |
| Validation.FirstFailureDecides | validator/validator.go:21-24 | if check i is the first to fail, running the validator returns check i's error |
| Validation.LaterChecksIgnored | validator/validator.go:21-24 | checks after the first failing one are never consulted: replacing them with any other checks gives the same result |
| Validation.RunChecksAppend | validator/validator.go:20-27 | running a + b means running a; if all of a passes, the result is that of running b |
| Strings.Join | cmd/taskslist.go:34 | joining no names gives the empty string, and joining one name gives that name |
| Strings.SplitJoin | cmd/taskslist.go:34 | splitting the joined bucket at the separator recovers the names, if no name contains the separator |
| Strings.JoinAvoids | cmd/taskslist.go:34 | a character in neither the names nor the separator does not occur in the joined names |
| AbstractFs.PathErrorText | cmd/task.go:127-129 | the text of a `*PathError` is its op, a space, its path, ": " and the errno's text, in that order |
| AbstractFs.ParentOf | cmd/task.go:29 | the parent is the prefix before the last separator; a path with no separator after its first character has no parent entry to check |
| AbstractFs.ParentOfChild | cmd/task.go:29 | the parent of a + "/" + b is a, when b holds no separator |
| AbstractFs.Walk | cmd/task.go:113 | the walk to a path's directory succeeds exactly when the parent is a directory, and otherwise reports "no such file" or "not a directory" |
| AbstractFs.Stat | cmd/task.go:113 | stat succeeds exactly on an entry; otherwise it fails with "no such file" or "not a directory" |
| AbstractFs.AncestorIsDir | cmd/task.go:113 | in a well-formed tree, every proper ancestor of an entry is a directory |
| AbstractFs.WalkFindsFile | cmd/task.go:113 | on a well-formed tree, the walk reports "not a directory" exactly when the path lies below a regular file |
| AbstractFs.StatMeaning | cmd/task.go:113-140 | on a well-formed tree, stat reports "not a directory" exactly for an absent path below a regular file, and "no such file" exactly for every other absent path; so `os.IsNotExist` holds only for the latter |
| AbstractFs.ResolveForCreate | cmd/task.go:29 | a path can be created exactly when it is non-empty and its parent is a directory |
| AbstractFs.Mkdir | cmd/task.go:29-31 | mkdir succeeds exactly when the path is new and its parent is a directory; it adds only that directory; an existing path fails with "exists" |
| AbstractFs.OpenCreate | cmd/task.go:33-37 | O_CREATE succeeds unless the parent is missing or the path is a directory; it adds an empty file only when the path is absent, and otherwise leaves the tree as it was |
| AbstractFs.OpenWrite | cmd/task.go:41-58 | opening for writing fails on a directory or a missing parent; append mode yields old contents + data, truncate mode yields data; nothing else changes |
| AbstractFs.Remove | cmd/task.go:68-74 | remove succeeds exactly on an existing file or empty directory and deletes only that entry; a missing path fails with stat's errno, a non-empty directory with "directory not empty" |
| AbstractFs.RemoveAll | cmd/task.go:61-67 | fails exactly for a path below a regular file (errno "not a directory"); otherwise deletes the path and everything below it, keeps every other entry unchanged, and leaves the tree alone for the empty or an absent path |
| AbstractFs.ChildOfUnder | cmd/task.go:61-67 | a child of a removed path, or of anything below it, is itself below that path |
| AbstractFs.MkdirPreservesWellFormed | cmd/task.go:29-31 | a successful mkdir keeps every entry's parent a directory |
| AbstractFs.OpenCreatePreservesWellFormed | cmd/task.go:33-37 | a successful create keeps the tree well formed |
| AbstractFs.OpenWritePreservesWellFormed | cmd/task.go:41-52 | a successful write keeps the tree well formed |
| AbstractFs.RemovePreservesWellFormed | cmd/task.go:68-74 | removing a file or an empty directory leaves no orphan |
| AbstractFs.RemoveAllPreservesWellFormed | cmd/task.go:61-67 | a successful recursive removal leaves no orphan |
| TaskRules.ParseType | cmd/task.go:93-94 | exactly the five type strings are recognised, each as its own type |
| TaskRules.GetArgument | cmd/task.go:154-159 | a value is returned exactly when the key is given, and it is that key's value |
| TaskRules.GetContent | cmd/task.go:80-85 | the content argument, or "" when it is absent |
| TaskRules.MessageKinds | cmd/task.go:97-134 | of the error texts `Message` gives, each validation error has a fixed text no other validation error shares, and a filesystem error shows as its `*PathError` text, which always holds a ":" |
| TaskRules.ValidateTaskType | cmd/task.go:91-102 | passes exactly for the five types; the empty type gives "type cannot be empty", any other unknown type gives "invalid type" |
| TaskRules.PathChecks | cmd/task.go:109-140 | the checks run for each accepted key: a missing path argument fails; creates pass exactly when the path is absent; put_content and rm_file fail only when stat says "no such file"; rm_dir refuses a missing path, reports ReadDir's error below a file or on a file, and needs a `recursive` key on a non-empty directory |
| TaskRules.ValidateArguments | cmd/task.go:104-144 | no arguments pass; an unsupported key fails; a missing path argument fails; creates need stat to fail; put_content and rm_file are refused only when stat says "no such file", so a path below a file passes; rm_dir refuses a missing path, then reports ReadDir's error for a path below a file or for a file, and needs a `recursive` key, whatever its value, on a non-empty directory |
| TaskRules.ValidateArgumentsInOrder | cmd/task.go:105-142 | in any key order, an unsupported key anywhere makes the loop fail, and the loop fails only with "unsupported argument" or the path-check error |
| TaskRules.InOrderPasses | cmd/task.go:105-142 | the loop over any key order passes exactly when every key is supported and the path checks pass, and it fails only with "unsupported argument" or the path-check error |
| TaskRules.IterationOrderIrrelevant | cmd/task.go:105-142 | every key order accepts the same tasks; with only supported keys every order gives the same error |
| TaskRules.GetValidatorFns | cmd/task.go:87-89 | exactly two checks, the type check then the argument check; running them gives the type check's error if it fails and the argument check's outcome otherwise |
| TaskRules.ValidateTask | cmd/task.go:87-89 | the type check decides when it fails, and otherwise the argument check decides; the task validates exactly when both pass |
| TaskRules.HandleAbortOnFail | cmd/task.go:146-152 | a failure stops the run exactly when the task carries abortOnFail, whatever the error; `RejectedTask` and `ExecutedTask` show the run stopping on that answer |
| TaskRules.PerformTask | cmd/task.go:25-78 | per type: the success condition, the resulting tree and what stays unchanged; rm_file and non-recursive rm_dir delete exactly the path; recursive rm_dir fails only below a regular file; unknown types leave the tree alone; every failure is a filesystem error |
| TaskRules.PerformTaskPreservesWellFormed | cmd/task.go:25-78 | executing any task keeps the tree well formed |
| TaskRules.RecursiveFalseFailsAtExecution | cmd/task.go:60-70 | `recursive: "false"` on a non-empty directory passes validation, because only the key's presence is checked, and then fails at remove with "directory not empty" |
| TaskRules.BelowFileFailsAtExecution | cmd/task.go:119-140 | put_content or rm_file on a path below a regular file passes validation, because stat's error is not "does not exist", and then fails at execution with "not a directory" |
| TaskRules.EmptyArgsSkipChecks | cmd/task.go:104-144 | a task of a known type with no arguments passes validation (the loop body never runs) and then acts on the empty path |
| TaskRules.IsExecutionRequiredAgrees | cmd/task_test.go:9-66 | the chosen execution-required predicate meets the six cases exercised by the repository's tests |
| TaskRules.ValidatedTaskIsRequired | cmd/taskslist.go:53-65 | after a create or directory removal validates on a well-formed tree, any predicate meeting those six cases requires execution, except a directory removal with no arguments |
| TaskRunner.Record | cmd/taskslist.go:56-75 | recording a disposition appends the name to exactly its bucket and leaves the other buckets and the tasks unchanged |
| TaskRunner.Dispose | cmd/taskslist.go:52-75 | a task is rejected exactly when validation fails, with validation's error; skipped exactly when it validates and needs no execution; otherwise applied with the tree execution produced or failed with execution's error |
| TaskRunner.RunTasks | cmd/taskslist.go:50-79 | buckets only grow; with no abort every task is recorded once; an abort records between one task and all of them, names a task that carries abortOnFail, and that name is the last unsuccessful one; without abortOnFail flags there is no abort |
| TaskRunner.BucketsPartition | cmd/taskslist.go:50-79 | every task reached is counted in exactly one bucket |
| TaskRunner.RunMatchesTraceBuckets | cmd/taskslist.go:50-79 | each bucket grows by exactly the names, in task order, of the tasks whose disposition in the reference trace falls in that bucket |
| TaskRunner.NamesInCons | cmd/taskslist.go:50-79 | the names from a trace that starts with d are d's own name, if in the bucket, followed by the names from the rest |
| TaskRunner.RunMatchesTraceEnd | cmd/taskslist.go:54-58 | the run stops exactly when the last task reached failed and carries abortOnFail, with that task's name and error; otherwise every task is reached |
| TaskRunner.RunAppend | cmd/taskslist.go:50-79 | running a + b is running a and, if a did not abort, continuing with b from the tree and buckets a left |
| TaskRunner.FirstStep | cmd/taskslist.go:51-76 | one iteration: record the first task's disposition, then stop on an abort or continue from the tree it left |
| TaskRunner.RejectedTask | cmd/taskslist.go:53-61 | a task that fails validation is recorded unsuccessful, is never executed, leaves the tree untouched, and stops the run exactly when it carries abortOnFail |
| TaskRunner.SkippedTask | cmd/taskslist.go:62-65 | a validated task that needs no execution is recorded unchanged and the tree is untouched |
| TaskRunner.ExecutedTask | cmd/taskslist.go:66-75 | a validated task that needs execution is recorded successful with the tree it produced, or unsuccessful with the tree untouched, stopping exactly when it carries abortOnFail |
| TaskRunner.RunPreservesWellFormed | cmd/taskslist.go:50-79 | a run keeps the tree well formed when each step does |
| TaskRunner.DisposePreservesWellFormed | cmd/taskslist.go:66-75 | a task's step keeps the tree well formed |
| TaskRunner.StepPreservesWellFormed | cmd/taskslist.go:66-75 | every step of the run keeps the tree well formed |
| TaskRunner.NoSkipNoUnchanged | cmd/taskslist.go:62-65 | if no step reached ever skips, the unchanged bucket stays as it was |
| TaskRunner.DisposeSkipsOnlyBareRmDir | cmd/taskslist.go:53-65 | with the chosen predicate on a well-formed tree, only a directory removal with no arguments is skipped as unchanged |
| TaskRunner.UnchangedOnlyForBareRmDir | cmd/taskslist.go:50-79 | with the chosen execution-required predicate, on a well-formed tree and with no argument-less directory removal, a run never adds to the unchanged bucket |
| TaskRunner.RunFacts | cmd/taskslist.go:50-79 | for any step, the run over a list's own tasks leaves the buckets and the abort as the reference trace predicts |
| TaskRunner.ValidateAndRunTasks | cmd/taskslist.go:50-79 | the buckets become the old buckets plus the trace's names; with no error every task is recorded; the error occurs exactly when the trace ends in a failure of an aborting task; a well-formed tree stays well formed |
| TaskRunner.AbortMessage | cmd/taskslist.go:57 | the abort text is exactly "Aborted due to Task: ", then the task's name, then " with error:" and the error's text; given the name's length, both can be read back |
| TaskRunner.Summary | cmd/taskslist.go:32-34 | when no name holds a line break, the summary splits into exactly three lines: each bucket's label followed by its names joined with "," |
| TaskRunner.SummaryRecoversBuckets | cmd/taskslist.go:32-34 | when no name holds a line break, splitting a bucket's line of the summary at "," gives back that bucket's names, provided the bucket is not empty and none of its names holds a "," |
| TaskRunner.Run | cmd/taskslist.go:30-35 | success carries the summary of the three buckets; an abort gives the summary followed by " \n" and the abort message |
| TaskScenarios.ValidatorTwoChecks | validator/validator_test.go:31-41 | two passing checks give no error, and a failing type check gives its own error |
| TaskScenarios.TaskTypeCases | cmd/task_test.go:93-114 | create_dir passes, create_directory fails, and the empty type gives "type cannot be empty" |
| TaskScenarios.RmDirNeedsRecursive | cmd/task_test.go:68-90 | a directory holding a file is refused without `recursive` and accepted with it |
| TaskScenarios.PutContentCases | cmd/tasklist_test.go:94-141 | appending "testing" to "initial msg " gives "initial msg testing"; with append "false" the file holds "testing" |
| TaskScenarios.CreateAbsentFile | cmd/tasklist_test.go:28-47 | creating an absent file under a directory is applied as a new empty file |
| TaskScenarios.CreateExistingFile | cmd/tasklist_test.go:49-69 | creating an existing path is rejected with "path already exists" |
| TaskScenarios.AbortOnExistingPath | cmd/tasklist_test.go:194 | the abort message for that rejection is "Aborted due to Task: create tmp file2 with error:path already exists" |
| TaskScenarios.AbortingRunWith | cmd/tasklist_test.go:165-199 | for any step that creates the first file and rejects the second task, the run stops at the second task |
| TaskScenarios.ContinuingRunWith | cmd/tasklist_test.go:201-234 | for any step that creates the first and third files and rejects the second task, the run records two successes and one failure |
| TaskScenarios.AbortingRun | cmd/tasklist_test.go:165-199 | with abortOnFail on the duplicate create, the buckets are ["create tmp file"] and ["create tmp file2"], with the expected abort message |
| TaskScenarios.ContinuingRun | cmd/tasklist_test.go:201-234 | without abortOnFail, "create tmp file" and "create tmp file3" succeed, "create tmp file2" fails, and no error is returned |

## Left out

- `main.go`, opening the task file and the YAML decoding in `Run` and `decode`. The model starts from the decoded task list, and the two error paths for a file that cannot be opened or decoded are not modelled.
- The log line that `HandleAbortOnFail` writes when it returns false, and the `fmt.Println` calls of the tests. These are output only.
- Permissions, symbolic links, errno values other than "no such file", "file exists", "not a directory", "is a directory" and "directory not empty", `Close` errors and ordering, and any write error. The filesystem is an ideal in-memory tree.
- The check-then-act race between validation and execution, because the model has no concurrency.
- Path normalisation: ".", "..", repeated or trailing "/" are taken literally. The root "/" and the working directory "." are not entries of the map, so stat reports them absent with "no such file", while Go finds both. As a result a create_dir task for "/" or "." validates and is recorded successful with a new entry at that path (Go rejects it with "path already exists"), and an rm_dir task for "/" or "." is rejected with "path doesn't exist" (Go goes on to list the directory). Go's refusal of `RemoveAll` on a path ending in "." is not modelled.
- TaskRunner.Summary: the three-line shape is stated only when no name holds a line break, because such a name adds lines of its own and the text alone no longer shows where a bucket's line ends.
- TaskRunner.SummaryRecoversBuckets: a bucket with no names prints like one holding the single empty name, and a name holding "," splits into several, so only non-empty buckets whose names hold no "," are recovered.
- TaskRules.ValidateArguments: this is one fixed iteration order. In other orders the task is accepted or rejected identically, but a task that has both an unsupported key and a failing path check can report either error (see `IterationOrderIrrelevant`).
- The body of `Task.IsExecutionRequired` is not part of this model. It is taken as a parameter, and the lemmas assume only the behaviour the repository's tests pin down (`AgreesWithTests`).
- The `validatableObject` interface: the validator is generic over the object and the error type, and the object is stored but never consulted.
- `performTask` skips its `WriteString` call when the content is empty, while `AbstractFs.OpenWrite` writes "" instead. Both leave the same file.
