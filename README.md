# ci: job bookkeeping, registry and client views, in Dafny

This project models the core of `ci`, a small continuous-integration daemon
written in Go, together with its command-line client.

The daemon keeps a registry of jobs. A job is a git repository with a name, a
remote and a branch. Each job holds two execution records, one for its refresh
(clone or pull the repository and its dependencies, then compute a content
version) and one for its build (`make ci`). A record's fields are start, end,
error code, captured output and version. A record is running exactly when its
end lies before its start.

A commit notification (a heartbeat) schedules a run of every job after a
debounce delay. A run is a refresh followed by a build. The registry can be
listed, persisted as a list of job snapshots and restored from one. It is laid
out in rows of three for the dashboard.

The client derives a job's status label from the two records. It prints a full
log screen for one job. In follow mode it prints only what changed between
successive snapshots.

Modules, one per file:

- `wrappers.dfy`: `Option` and `Result`.
- `text.dfy`: the Go string primitives the views use: newline indentation, `TrimPrefix`, `%x`, `%v` of integers and of whole-second durations.
- `byname.dfy`: Go's string order and the `byName` sort, modelled as an insertion sort with its proved properties.
- `format.dfy`: the records exchanged with clients and persisted: job identity, execution snapshot, job snapshot.
- `executions.dfy`: the execution record, its snapshot and the inverse conversion.
- `refresh.dfy`: `dorefresh` as a specification function over the answers of git, the filesystem and SHA-1, with its properties.
- `jobs.dfy`: the `job` object as a class. Its methods `Refresh`, `Build`, `dorefresh`, `dobuild` and `doRun` are proved against step functions; `RunWithDelay` states the timer outcome directly.
- `daemon.dfy`: the `ci` registry as a class over a map of jobs.
- `status.dfy`: the six-label status switch.
- `exec_view.dfy`: the client's execution view (`RemoteExecution`, duplicated as `exec` in ci/logCmd.go).
- `log_cmd.dfy`: the `log` command: first screen, closing summaries and follow loop.
- `list_cmd.dfy`: the `list` command.
- `cli.dfy`: the client entry point: dispatch and argument counts, the `log` screen and the `list` table.

The outside world comes in as parameters:

- Clock readings are parameters `now`, `t0`, `t1` and so on, in whole seconds.
- The working directory, `os.Stat`, git clone, pull and rev-parse, dependency patching, `make` and the SHA-1 digest are fields of the oracle records `Env` and `BuildEnv`.
- `os.RemoveAll`'s answer is the parameter `RemoveOutcome`.
- The server's answers to the client are given snapshots.

## Model

| member | source | states |
|---|---|---|
| Text.Indent | cmd/RemoteExecution.go:76 | Each newline becomes a newline plus four spaces, so the length grows by four per newline. |
| Text.UnindentIndent | cmd/RemoteExecution.go:76 | Indentation loses nothing: undoing it gives the original text back. |
| Text.IndentConcat | cmd/RemoteExecution.go:96 | Indenting distributes over concatenation, so output indented in pieces equals the whole output indented. |
| Text.IndentedNewlines | cmd/RemoteExecution.go:76 | In an indented text, every newline is followed by four spaces. |
| Text.TrimPrefix | cmd/RemoteExecution.go:95 | When the prefix starts the text, the prefix plus the result is the text. Otherwise the text comes back unchanged. |
| Text.Hex | job.go:293 | `%x` gives two lower-case hex digits per byte. |
| Text.UnhexHex | job.go:293 | `%x` loses nothing: reading two hex digits per byte gives the bytes back. |
| Text.DurationText | cmd/RemoteExecution.go:107 | A duration's text ends in `s` and starts with `-` exactly for negative durations. |
| Text.DurationFields | cmd/RemoteExecution.go:107 | For any hours, minutes under 60 and seconds under 60 that add up to the duration, the text is the sign, then the hours if any, the minutes if there are hours or minutes, then the seconds. |
| Text.DecimalRoundTrip | ci/listCmd.go:21 | The decimal text of a number reads back as that number. |
| ByName.LessIrreflexive | job.go:311 | No string is below itself. |
| ByName.LessTransitive | job.go:311 | The string order is transitive. |
| ByName.LessTotal | job.go:311 | Of two different strings, one is below the other. |
| ByName.LessAsymmetric | job.go:311 | Two strings are never below each other. |
| ByName.SortSorted | job.go:273 | The sort leaves its input in ascending key order. |
| ByName.SortPermutes | job.go:273 | The sort result is a permutation of its input. |
| ByName.SortedUnique | job.go:273 | Two sorted permutations of one collection with distinct keys are equal. |
| ByName.SortIgnoresOrder | job.go:273 | With distinct keys, the sort result does not depend on the input order. |
| ByName.SortUnique | daemon.go:211 | Sorting elements whose keys all differ gives strictly ascending keys, still all different. |
| Executions.FromMsg | job.go:57-71 | The record restored from a snapshot gives that same snapshot back when its full snapshot is taken. |
| Executions.SnapshotRoundTrip | job.go:51-71 | Restoring from the full snapshot rebuilds the record exactly. |
| Executions.SnapshotFields | job.go:51-52 | The snapshot keeps start, end, error code and version, so it is running exactly when the record is; the output is included only on request. |
| Executions.ShortSnapshot | job.go:51-52 | A snapshot without output restores to the record with an empty output and nothing else changed. |
| Status.StatusOf | ci/listCmd.go:43-58 | Each of the six labels holds exactly under its own condition, by priority: Pulling, Building, Need Build, Pulling Failed, Building Failed, Success. |
| Status.Text | ci/listCmd.go:43-58 | Every label has a non-empty text. |
| Status.TextInjective | ci/listCmd.go:43-58 | No two labels print the same text. |
| Refresh.Join | job.go:250-254 | The aggregated error is absent iff both parts are absent. Otherwise it is the one present, or the two joined by the separator. |
| Refresh.PatchError | job.go:226-235 | The clone and prune step fails iff either part failed. A single failure is returned as is, and two failures are named in one message. |
| Refresh.ReportShape | job.go:178-304 | A getwd failure returns at once with an empty log. A refresh that fails nowhere has a version. A version is only computed after the clone or pull, the patching and every dependency pull succeeded, and it is the digest over the dependencies. |
| Refresh.CloneOrPull | job.go:192-215 | A missing job directory is cloned and never pulled. An existing one is pulled and never cloned. |
| Refresh.TopFailureStopsEarly | job.go:198-214 | A clone or top-level pull error is returned before any dependency is touched. |
| Refresh.PullFailsIff | job.go:241-263 | The dependency pulls fail iff at least one of them failed. |
| Refresh.PullErrorMentionsEach | job.go:249-254 | Every failing pull's message occurs in the aggregated error. |
| Refresh.VersionIffNoFailure | job.go:186-263 | A version is computed iff getwd, the clone or pull, the patching and every dependency pull succeeded. |
| Refresh.RevErrIff | job.go:278-290 | The revision lookups report an error iff some lookup failed. |
| Refresh.FedConcat | job.go:278-289 | The bytes fed to the hash over two consecutive path lists are the concatenation of each list's bytes. |
| Refresh.FailedRevisionSkipped | job.go:280-289 | A path whose revision cannot be read contributes nothing to the hash. |
| Refresh.PullOutcomeIgnoresOrder | job.go:241-263 | Whether the pulls fail does not depend on the order of the paths. |
| Refresh.VersionIgnoresOrder | job.go:268-294 | The version depends only on which dependency paths there are and how often each occurs, not on their enumeration order. |
| Refresh.VersionBranch | job.go:265-297 | Once a version is computed, it is the digest of the readable revisions in sorted path order, and the error left is that of the lookups. |
| Refresh.RevisionFailureIgnoresOrder | job.go:278-290 | A failing lookup among the paths stays failing in any other order of the same paths. |
| Refresh.RevisionFailureStillStoresVersion | job.go:292-297 | Unreadable revisions fail the refresh, yet the version over the readable ones is stored. |
| Jobs.Timer.AfterFunc | job.go:81 | A new timer is armed `delay` after `now`. |
| Jobs.Timer.Reset | job.go:83 | The same timer is re-armed `delay` after `now`. |
| Jobs.Job.constructor | daemon.go:148-151 | A new job carries the given name, remote and branch. It has no timer and two zero records. |
| Jobs.Job.FromMsg | job.go:57-71 | A job restored from a snapshot gives that exact snapshot back and has no timer. |
| Jobs.Job.Status | job.go:39-54 | The snapshot carries the job's identity. Each record restores from it exactly when its output was asked for, and otherwise without its output. |
| Jobs.Job.Marshal | job.go:36-37 | The full snapshot carries the identity and restores both records exactly. |
| Jobs.Job.RunWithDelay | job.go:78-90 | The first call arms a new timer and later calls re-arm the same one, so a job never has two timers. The deadline is `now + delay`. |
| Jobs.Job.Run | job.go:74-76 | A run is scheduled after the fixed 10-second delay, with the same single-timer guarantee. |
| Jobs.Job.WriteRefresh | job.go:122 | Writing to the refresh buffer appends to its result and changes nothing else. |
| Jobs.Job.WriteBuild | job.go:160 | Writing to the build buffer appends to its result and changes nothing else. |
| Jobs.Job.DoRefresh | job.go:178-304 | `dorefresh` appends exactly the specified log, returns the specified error, and stores the version exactly when one was computed. |
| Jobs.Job.PullDependencies | job.go:238-263 | Each dependency is pulled in turn: the entries are appended in order and the errors are joined. |
| Jobs.HashDependencies | job.go:265-297 | The paths are copied and sorted, and the readable revisions are fed to the digest in that order. The failed lookups' errors are joined. |
| Jobs.Job.Refresh | job.go:103-125 | A running record is left unchanged. Otherwise the record is restarted, with error code -1 and the error line iff `dorefresh` failed. While the refresh runs, the record reads as running. |
| Jobs.Job.EndRefresh | job.go:116-123 | The end of a refresh records a failure as error code -1 plus its message line, then sets the end time. Nothing else changes. |
| Jobs.RefreshStepShape | job.go:103-125 | A running record is left alone. Otherwise the record spans the given times, its error code is 0 iff `dorefresh` succeeded and -1 otherwise, and a success stores the computed version. |
| Jobs.BuildStep | job.go:128-164 | A running record is left alone. Otherwise the record spans the given times and carries the refresh version; its error code is -1 or unchanged, and -1 after a failure. |
| Jobs.Job.DoBuild | job.go:165-175 | `dobuild` appends the working-directory line and `make ci` output, and returns the getwd or make error. |
| Jobs.Job.Build | job.go:128-164 | A running record is left unchanged. Otherwise, with no version gate, the refresh version is copied and the build runs. A failure sets error code -1, and a success leaves the code as it was. |
| Jobs.Job.DoRun | job.go:93-98 | A run is a refresh, then a build of whatever version the refresh left. |
| Jobs.RefreshForgetsPrevious | job.go:113-123 | A refresh keeps nothing of the previous settled record except, when no version was computed, its version. |
| Jobs.RefreshOutcome | job.go:113-123 | With a monotone clock a finished refresh is settled. Its error code is 0 iff `dorefresh` succeeded and is otherwise -1. The output holds the log, then the error line. |
| Jobs.RunningIsStuck | job.go:108-110 | A record found running is never changed by either phase. |
| Jobs.BuildErrcodeSticky | job.go:150-161 | Over any sequence of builds, the build error code keeps its value or becomes -1. |
| Jobs.BuildFailureNeverClears | job.go:158-160 | Once a build of a settled record has failed, the error code stays -1 through every later build. |
| Jobs.RunSettles | job.go:93-98 | After a run of a settled job, the status is Pulling Failed iff the refresh failed. It is Building Failed iff the refresh succeeded and this or an earlier build failed, and Success iff all succeeded. |
| Daemon.RestoredNames | daemon.go:190-196 | The restored registry holds a job exactly for each name in the list. |
| Daemon.RestoredLastWins | daemon.go:190-196 | A name is restored with the last snapshot carrying it. |
| Daemon.RestoredDistinct | daemon.go:190-196 | A list with distinct names is restored with every snapshot kept. |
| Daemon.RestoredSize | daemon.go:190-196 | A list with distinct names restores as many jobs as it holds. |
| Daemon.Restored | daemon.go:190-196 | Every restored job is stored under its own name, and the last snapshot of the list is always restored as is. |
| Daemon.Ci.constructor | daemon.go:34 | A new daemon has no jobs and no heartbeats. |
| Daemon.Ci.AddJob | daemon.go:144-153 | A name in use gives the duplicate error and nothing changes. Otherwise exactly one key is added, holding a never-run job with the given identity, and every other entry is unchanged. |
| Daemon.Ci.RemoveJob | daemon.go:155-173 | The name is gone afterwards, even when the directory could not be deleted. Only that failure is reported, with its message. An absent name changes nothing and is no error. |
| Daemon.Ci.Entries | daemon.go:127 | Ranging over the map yields every entry exactly once. |
| Daemon.Ci.ListJobs | daemon.go:124-134 | There is one snapshot per job, with the requested outputs, and no name twice. |
| Daemon.Ci.JobDetails | daemon.go:110-115 | A present name gives exactly the job's full snapshot, outputs included. An absent one gives nothing, where Go panics. |
| Daemon.Ci.Marshal | daemon.go:177-183 | The state list holds every job's full snapshot once, so restoring it gives the registry back. |
| Daemon.Ci.Restore | daemon.go:192-194 | One loaded snapshot becomes a new, unscheduled job stored under its name, replacing any earlier one of that name; no other name changes. |
| Daemon.Ci.Unmarshal | daemon.go:185-198 | The previous registry is discarded. Each name holds a new, unscheduled job with the last snapshot of that name, and the call never fails. |
| Daemon.PersistAndReload | daemon.go:177-198 | Restoring what was persisted gives every job's snapshot back under its name. |
| Daemon.RemoveThenAdd | daemon.go:144-173 | After a removal the name is free again, so adding it succeeds whatever the directory removal answered. The new job is unscheduled with two zero records, and every other job is the same object as before. |
| Daemon.Ci.HeartBeats | daemon.go:137-142 | The counter grows by exactly one and every job's timer is armed for `now` plus the debounce delay: a job that had a timer keeps the same timer, re-armed, and one without gets a new timer. |
| Daemon.RunAll | daemon.go:139-141 | Running every job in turn leaves each with a timer due `now` plus the debounce delay, never a second timer for a job that already had one. |
| Daemon.Ci.SortedJobs | daemon.go:205-211 | Every job appears exactly once, in strictly ascending name order. |
| Daemon.Rows | daemon.go:217-227 | The rows read in order give the list back. Every row but the last has three jobs, and the last has one to three. |
| Daemon.Ci.JobMatrix | daemon.go:200-229 | No jobs gives no rows. Otherwise the rows read in order are the jobs sorted by name, three per row, with one to three in the last. |
| ExecView.NewExec | cmd/RemoteExecution.go:35-51 | The duration is end minus start. The age is measured from the start while running and from the end otherwise. |
| ExecView.Done | cmd/RemoteExecution.go:57-58 | A snapshot is done exactly when it is not active and its start and end differ. |
| ExecView.StartAfter | cmd/RemoteExecution.go:53-55 | When one execution started after another that is not active ended, it also started after the other started; if it is done, it also ended later. |
| ExecView.StartAfterOneWay | cmd/RemoteExecution.go:53-58 | Of two finished executions, at most one started after the other ended. |
| ExecView.ThreeStates | cmd/RemoteExecution.go:58-65 | A snapshot is never both active and done. It is neither exactly when start and end coincide. |
| ExecView.Header | cmd/RemoteExecution.go:63-73 | The first line says the run started while it is active and leads with the coloured verdict otherwise, and ends with a newline. |
| ExecView.Print | cmd/RemoteExecution.go:61-79 | A running snapshot says it started, and a finished one leads with its verdict. Either way the display ends with the whole output, indented. |
| ExecView.Summary | cmd/RemoteExecution.go:105-111 | The summary leads with the name and the coloured verdict. |
| ExecView.PrintShowsResult | cmd/RemoteExecution.go:75-76 | The captured output can be read back from the display. |
| ExecView.PrintAgreesWithSummary | cmd/RemoteExecution.go:105-111 | Display and summary give the same verdict, which is success iff the error code is 0. |
| ExecView.Tail | cmd/RemoteExecution.go:81-102 | Two finished snapshots show nothing, and a new run after a finished one is shown in full. |
| ExecView.TailCases | cmd/RemoteExecution.go:82-102 | Two finished snapshots show nothing. A new run is shown in full, its output readable back. An output that does not extend the old one is shown whole. |
| ExecView.TailStreams | cmd/RemoteExecution.go:93-100 | For an unfinished previous snapshot, exactly the new output is shown, plus the summary iff the new snapshot finished. |
| ExecView.FollowShowsOutputOnce | ci/logCmd.go:50-58 | Following an unfinished run shows its new output exactly once, in order. |
| LogCmd.Run | ci/logCmd.go:23-66 | A wrong argument count is refused. Otherwise the first screen is followed by the closing summaries, or in follow mode by the changes of each later fetch. |
| LogCmd.Screen | ci/logCmd.go:39-48 | The first screen starts with the refresh display. It stops there while the refresh is unfinished, and otherwise goes on with the refresh summary and the build display. |
| LogCmd.PolledGrows | ci/logCmd.go:50-58 | Following only appends: the text printed after one more fetch extends what was printed before. |
| LogCmd.Poll | ci/logCmd.go:50-58 | The follow loop prints, for each new fetch, the refresh changes and then the build changes. |
| LogCmd.QuietBuildShowsRefresh | ci/logCmd.go:50-58 | While the build stays finished, following shows exactly the refresh's own changes. |
| LogCmd.FollowRefresh | ci/logCmd.go:50-58 | Following a running refresh with a finished build shows the refresh's new output exactly once. |
| LogCmd.Closing | ci/logCmd.go:59-65 | The closing text holds both summaries once each, in one order or the other. |
| LogCmd.ClosingChronological | ci/logCmd.go:59-65 | For any snapshot, the refresh summary comes first exactly when the build started in a later whole second than the refresh ended in. |
| LogCmd.ClosingSameSecond | ci/logCmd.go:60-64 | A build that started in the very second the refresh ended is summarised first. |
| ListCmd.Run | ci/listCmd.go:16-63 | Any argument is refused. Otherwise there is one row per job, in order, with its status label, identity and version. |
| ListCmd.StatusIgnoresOutputs | ci/listCmd.go:43-58 | The label does not depend on which outputs the server sent. It is Pulling iff the refresh runs, and Building iff only the build runs. |
| Cli.Dispatch | ci/main.go:25-199 | `add` takes 3 arguments, `remove` and `log` take 1, and `list` takes none. A wrong count gives the usage message, a right one sends the request built from the arguments, and an unknown command does nothing. |
| Cli.AddReply | ci/main.go:55-59 | A server error is printed as is on its own line; otherwise the reply says `added` and names the job. |
| Cli.RemoveReply | ci/main.go:79-83 | A server error is printed as is on its own line; otherwise the reply says `removed` and names the job. |
| Cli.RefreshState | ci/main.go:114-121 | The refresh state line ends with a blank line. |
| Cli.BuildState | ci/main.go:127-134 | The build state line ends with a blank line. |
| Cli.RefreshStateWords | ci/main.go:114-121 | The refresh line says REFRESHING iff running, else FAILED iff the error code is nonzero, else SUCCESS. |
| Cli.BuildStateWords | ci/main.go:127-134 | The build line says BUILDING iff running, else FAILED iff the error code is nonzero, else SUCCESS. |
| Cli.LogScreenWaitsForRefresh | ci/main.go:125 | Until the refresh has finished, nothing about the build is shown. |
| Cli.SummaryLine | ci/main.go:139-148 | A summary line is green exactly when the error code is 0 and red exactly when it is not, and ends with a newline. |
| Cli.LogTop | ci/main.go:104-124 | The screen starts with the job's name. |
| Cli.LogScreen | ci/main.go:104-149 | The `log` screen starts with the job's name and the refresh part, and is only that part while the refresh is unfinished. |
| Cli.LogScreenEnds | ci/main.go:125-149 | Once the refresh has finished, the screen ends with the build output, or with the build summary line once the build has finished. |
| Cli.ListTable | ci/main.go:167-198 | There is one row per job, in order, with the six-label status, identity, both end times and the version. |

## Left out

- Goroutines and locks: the dependency pulls (job.go:240-258) run one after another here. Their racy writes to the aggregated error are not modelled, and neither is `execLock`.
- Timer firing: only the timer's deadline state is kept. `DoRun` is the callback with its clock readings as parameters.
- All I/O as such: git, make, the filesystem, getwd, SHA-1, protobuf encoding, the state file, HTTP and the client's network calls are oracle inputs or are not modelled. `NewDaemon`'s file loading and signal handling (daemon.go:31-100) are left out.
- The dashboard template, `ServeHTTP` and HookServer.go are left out, and the process mains and the thin add/remove wrappers are not part of this model.
- Output layout: `tabwriter` columns and `time.Time.String` of the list dates are not modelled. A list row is its cells, and a date is its Unix seconds. The fixed title line each list table prints first (ci/listCmd.go:35, ci/main.go:169) is not modelled either: a table is its rows. The dependency clone and prune reports (job.go:222-225) go through one shared `tabwriter`, whose column padding is taken to be part of those reports' text as the git answers give it.
- Executions.Zero: a fresh record's start and end are 0 here. Go's zero `time.Time` marshals to Unix second -62135596800 instead. Every modelled operation depends only on the two being equal (the record is neither running nor done), but an age computed from a never-run record differs by that offset.
- ExecView.NewExec: durations and ages are unbounded integers. Go's `time.Duration` saturates at about 292 years, which no pair of real timestamps reaches.
- Go's `sort.Sort` is a library routine. It is modelled as an insertion sort with the same specification (sorted permutation). With distinct keys, that is the only result any correct sort can give.
- The `execution` type's Go declaration is not part of this model. It is modelled as the five fields the code reads and writes, and its `Status`/`Unmarshal` as copying them, with the output included on request.
- The commented-out version gate in `Build` (job.go:139-145) is not modelled. The code always builds.
- HashDependencies: the workspace's dependency paths are taken to be the same list for the pulls and for the hash, although Go enumerates them twice.
- Times and durations are whole seconds. `time.Duration` text is modelled for whole seconds only.
- LogCmd.Poll: the endless follow loop of ci/logCmd.go runs over a given finite sequence of fetches.
- Cli.Dispatch: `%q` is modelled as plain quotes, which is exact for the four command words. An unknown word never reaches it.
- Daemon.Ci.JobDetails: the nil-pointer panic for an unknown name is modelled as `None`.
- `log.Printf` diagnostics of the daemon are not modelled.

The `exec` type in ci/logCmd.go:82-162 repeats `RemoteExecution` line for line, except that it has no `StartAfter`: ci/logCmd.go:60 writes that comparison inline, and `LogCmd.Closing` models it through `ExecView.StartAfter`. Both are modelled by the single ExecView module.
