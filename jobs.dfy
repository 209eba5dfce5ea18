/**
 * A job of the daemon (job.go): its identity, its pending run timer and its
 * two execution records, refreshed and built in place.
 *
 * The wall clock is read twice per phase (start and end); each reading is a
 * parameter. The execution lock only serialises calls, so each method here is
 * one uninterrupted call. Timers are modelled by their deadline; their firing
 * (which calls `DoRun`) is not.
 */
module Jobs {
  import opened Wrappers
  import opened Format
  import opened Executions
  import opened Refresh
  import Status

  /** The debounce delay of `Run`, in seconds. */
  const RunDelay: int := 10

  /** A pending `time.AfterFunc` timer, known by the time at which it fires. */
  class Timer {
    var deadline: int

    /** `time.AfterFunc(delay, ...)` called at time `now`. */
    constructor AfterFunc(now: int, delay: int)
      ensures deadline == now + delay
    {
      deadline := now + delay;
    }

    /** `Timer.Reset(delay)` called at time `now`: a pending run is postponed, a spent timer re-armed. */
    method Reset(now: int, delay: int)
      modifies this
      ensures deadline == now + delay
    {
      deadline := now + delay;
    }
  }

  /** The answers of the outside world to one build. */
  datatype BuildEnv = BuildEnv(
    wd: Result<string, string>,  // os.Getwd
    make: GitResult)             // mrepo.Make of the "ci" target: what it printed and its error

  /** The text `dobuild` writes. */
  function BuildLog(benv: BuildEnv): string
  {
    if benv.wd.Failure? then "" else Head(benv.wd.value) + "make ci\n" + benv.make.report
  }

  /** The error `dobuild` returns: the working directory's, else the make target's. */
  function BuildErr(benv: BuildEnv): Option<string>
  {
    if benv.wd.Failure? then Some(benv.wd.error) else benv.make.err
  }

  /** What `fmt.Fprintln(w, err.Error())` appends for an optional error. */
  function ErrLine(err: Option<string>): string
  {
    if err.Some? then err.value + "\n" else ""
  }

  /**
   * The refresh record after `Refresh`: a running record is left alone;
   * otherwise it is restarted from scratch with the log, the error status and
   * (when one was computed) the version of one `dorefresh`.
   */
  function RefreshStep(e: Execution, name: string, t0: int, t1: int, env: Env): Execution
  {
    if Running(e) then e
    else
      var rep := RefreshRun(name, env);
      Execution(t0, t1, if rep.err.Some? then -1 else 0, rep.log + ErrLine(rep.err),
                if rep.version.Some? then rep.version.value else e.version)
  }

  /**
   * The build record after `Build`: a running record is left alone; otherwise
   * it records the given refresh version, the build log and, on failure, the
   * error code -1. A success does not reset the error code.
   */
  function BuildStep(e: Execution, version: Version, t0: int, t1: int, benv: BuildEnv): (r: Execution)
    ensures Running(e) ==> r == e
    ensures !Running(e) ==> r.start == t0 && r.end == t1 && r.version == version
    ensures !Running(e) ==> (r.errcode == -1 || r.errcode == e.errcode)
    ensures !Running(e) && BuildErr(benv).Some? ==> r.errcode == -1
  {
    if Running(e) then e
    else
      var err := BuildErr(benv);
      Execution(t0, t1, if err.Some? then -1 else e.errcode, BuildLog(benv) + ErrLine(err), version)
  }

  class Job {
    var name: string
    var remote: string
    var branch: string
    var at: Timer?
    var refresh: Execution
    var build: Execution

    /** The job `AddJob` creates: never scheduled, both records zero. */
    constructor (name: string, remote: string, branch: string)
      ensures this.name == name && this.remote == remote && this.branch == branch
      ensures at == null && refresh == Zero && build == Zero
    {
      this.name, this.remote, this.branch := name, remote, branch;
      at := null;
      refresh, build := Zero, Zero;
    }

    /** `Unmarshal` into a fresh job: restores exactly what `Marshal` would give back. */
    constructor FromMsg(f: JobMsg)
      ensures Marshal() == f && at == null
    {
      name, remote, branch := f.id.name, f.id.remote, f.id.branch;
      at := null;
      refresh := Executions.FromMsg(f.refresh);
      build := Executions.FromMsg(f.build);
    }

    /** The snapshot of the job, with each captured output included only on request. */
    function Status(withRefresh: bool, withBuild: bool): (r: JobMsg)
      reads this
      ensures r.id == Jobid(name, remote, branch)
      ensures Executions.FromMsg(r.refresh) == if withRefresh then refresh else refresh.(result := "")
      ensures Executions.FromMsg(r.build) == if withBuild then build else build.(result := "")
    {
      JobMsg(Jobid(name, remote, branch), ToMsg(refresh, withRefresh), ToMsg(build, withBuild))
    }

    /** The full snapshot, persisted in the state file. */
    function Marshal(): (r: JobMsg)
      reads this
      ensures r.id == Jobid(name, remote, branch)
      ensures Executions.FromMsg(r.refresh) == refresh && Executions.FromMsg(r.build) == build
    {
      Status(true, true)
    }

    /**
     * Schedules a run `delay` seconds after `now`: the first call arms a new
     * timer, later calls re-arm the same one, so runs asked for in quick
     * succession collapse into one.
     */
    method RunWithDelay(now: int, delay: int)
      modifies this`at, at
      ensures at != null && at.deadline == now + delay
      ensures old(at) != null ==> at == old(at)
      ensures old(at) == null ==> fresh(at)
    {
      if at == null {
        at := new Timer.AfterFunc(now, delay);
      } else {
        at.Reset(now, delay);
      }
    }

    /** Schedules a run after the fixed debounce delay. */
    method Run(now: int)
      modifies this`at, at
      ensures at != null && at.deadline == now + RunDelay
      ensures old(at) != null ==> at == old(at)
      ensures old(at) == null ==> fresh(at)
    {
      RunWithDelay(now, RunDelay);
    }

    /** Appends to the refresh record's result buffer. */
    method WriteRefresh(s: string)
      modifies this`refresh
      ensures refresh == old(refresh).(result := old(refresh.result) + s)
    {
      refresh := refresh.(result := refresh.result + s);
    }

    /** Appends to the build record's result buffer. */
    method WriteBuild(s: string)
      modifies this`build
      ensures build == old(build).(result := old(build.result) + s)
    {
      build := build.(result := build.result + s);
    }

    /**
     * One `dorefresh`: it writes exactly the log of `RefreshRun` after what
     * the buffer already held, returns its error, and stores its version when
     * one was computed.
     */
    method DoRefresh(env: Env) returns (err: Option<string>)
      modifies this`refresh
      ensures err == RefreshRun(name, env).err
      ensures refresh == old(refresh).(
        result := old(refresh.result) + RefreshRun(name, env).log,
        version := if RefreshRun(name, env).version.Some? then RefreshRun(name, env).version.value
                   else old(refresh.version))
    {
      if env.wd.Failure? {
        return Some(env.wd.error);
      }
      var wd := env.wd.value;
      ghost var r0 := refresh.result;
      WriteRefresh("working dir: " + wd + "\n");

      var pullNeeded := true;
      if env.dirMissing {
        WriteRefresh("job dir does not exists. Will create one: " + name + "\n");
        pullNeeded := false;
        WriteRefresh(env.clone.report + "\n");
        assert refresh.result == r0 + (Head(wd) + TopLog(name, env)) by {
          Concat3(r0, Head(wd), "job dir does not exists. Will create one: " + name + "\n", env.clone.report + "\n");
        }
        if env.clone.err.Some? {
          return env.clone.err;
        }
      }
      if pullNeeded {
        WriteRefresh("updating job's directory: " + name + "\n");
        WriteRefresh(env.pullTop.report + "\n");
        assert refresh.result == r0 + (Head(wd) + TopLog(name, env)) by {
          Concat3(r0, Head(wd), "updating job's directory: " + name + "\n", env.pullTop.report + "\n");
        }
        if env.pullTop.err.Some? {
          return env.pullTop.err;
        }
      }

      WriteRefresh("updating job's dependencies.\n");
      WriteRefresh(env.cloneDeps.report);
      WriteRefresh(env.pruneDeps.report);
      assert refresh.result == r0 + PatchLog(name, env) by {
        Concat4(r0, Head(wd) + TopLog(name, env), "updating job's dependencies.\n", env.cloneDeps.report, env.pruneDeps.report);
      }
      var cloneError, pruneError := env.cloneDeps.err, env.pruneDeps.err;
      if cloneError.Some? || pruneError.Some? {
        if cloneError.None? {
          return pruneError;
        }
        if pruneError.None? {
          return cloneError;
        }
        return Some("clone error: " + cloneError.value + "\nprune error: " + pruneError.value);
      }

      WriteRefresh("updating all dependencies themselves.\n");
      var pullAllError := PullDependencies(env.pull, env.subpaths);
      WriteRefresh("dependencies updated.\n");
      assert refresh.result == r0 + PulledLog(name, env) by {
        Concat4(r0, PatchLog(name, env), "updating all dependencies themselves.\n", PullLog(env.pull, env.subpaths), "dependencies updated.\n");
      }
      if pullAllError.Some? {
        return pullAllError;
      }

      WriteRefresh("computing the current version.\n");
      var v, sha1Error := HashDependencies(env.revision, env.digest, env.subpaths);
      WriteRefresh("version is " + Text.Hex(v) + "\n");
      assert refresh.result == r0 + RefreshRun(name, env).log by {
        Concat3(r0, PulledLog(name, env), "computing the current version.\n", VersionLine(v));
      }
      refresh := refresh.(version := v);
      return sha1Error;
    }

    /** The dependency pulls, one after another: their entries are appended and their errors joined. */
    method PullDependencies(pull: string -> GitResult, subpaths: seq<string>) returns (pullAllError: Option<string>)
      modifies this`refresh
      ensures pullAllError == PullErr(pull, subpaths)
      ensures refresh == old(refresh).(result := old(refresh.result) + PullLog(pull, subpaths))
    {
      pullAllError := None;
      for i := 0 to |subpaths|
        invariant refresh == old(refresh).(result := old(refresh.result) + PullLog(pull, subpaths[..i]))
        invariant pullAllError == PullErr(pull, subpaths[..i])
      {
        var prj := subpaths[i];
        var res := PullOne(pull, prj);
        ghost var errBefore := pullAllError;
        if res.err.Some? {
          if pullAllError.None? {
            pullAllError := res.err;
          } else {
            pullAllError := Some(pullAllError.value + PullSep + res.err.value);
          }
        }
        assert pullAllError == Join(errBefore, res.err, PullSep);
        assert PullLog(pull, subpaths[..i + 1]) == PullLog(pull, subpaths[..i]) + PullEntry(pull, prj)
            && PullErr(pull, subpaths[..i + 1]) == Join(PullErr(pull, subpaths[..i]), res.err, PullSep) by {
          assert subpaths[..i + 1][..i] == subpaths[..i] && subpaths[..i + 1][i] == prj;
        }
      }
      assert subpaths[..|subpaths|] == subpaths;
    }

    /** One dependency pull: its entry is appended to the refresh buffer. */
    method PullOne(pull: string -> GitResult, prj: string) returns (res: GitResult)
      modifies this`refresh
      ensures res == pull(prj)
      ensures refresh == old(refresh).(result := old(refresh.result) + PullEntry(pull, prj))
    {
      ghost var before := refresh.result;
      WriteRefresh("updating " + prj + "\n");
      res := pull(prj);
      WriteRefresh(res.report + "\n");
      Concat2(before, "updating " + prj + "\n", res.report + "\n");
    }

    /**
     * `Refresh`, started at `t0` and finished at `t1`: the record becomes
     * `RefreshStep` of what it was. While it runs (`inFlight`), a record that
     * ended before `t0` reads as running.
     */
    method Refresh(t0: int, t1: int, env: Env) returns (ghost inFlight: Execution)
      modifies this`refresh
      ensures refresh == RefreshStep(old(refresh), name, t0, t1, env)
      ensures !Running(old(refresh)) && old(refresh).end < t0 ==> Running(inFlight)
    {
      inFlight := refresh;
      if Running(refresh) {
        return;
      }
      refresh := refresh.(result := "", start := t0, errcode := 0);
      inFlight := refresh;
      var err := DoRefresh(env);
      EndRefresh(err, t1);
    }

    /** The end of `Refresh`: a failure is recorded with error code -1 and its message, then the end time is set. */
    method EndRefresh(err: Option<string>, t1: int)
      modifies this`refresh
      ensures refresh == old(refresh).(errcode := if err.Some? then -1 else old(refresh.errcode),
                                       result := old(refresh.result) + ErrLine(err), end := t1)
    {
      if err.Some? {
        refresh := refresh.(errcode := -1);
        WriteRefresh(err.value + "\n");
      }
      refresh := refresh.(end := t1);
    }

    /** One `dobuild`: it writes `BuildLog` after what the buffer held and returns `BuildErr`. */
    method DoBuild(benv: BuildEnv) returns (err: Option<string>)
      modifies this`build
      ensures err == BuildErr(benv)
      ensures build == old(build).(result := old(build.result) + BuildLog(benv))
    {
      if benv.wd.Failure? {
        return Some(benv.wd.error);
      }
      WriteBuild("working dir: " + benv.wd.value + "\n");
      WriteBuild("make ci\n");
      WriteBuild(benv.make.report);
      return benv.make.err;
    }

    /** `Build`, started at `t0` and finished at `t1`: the record becomes `BuildStep` of what it was. */
    method Build(t0: int, t1: int, benv: BuildEnv)
      modifies this`build
      ensures build == BuildStep(old(build), refresh.version, t0, t1, benv)
    {
      if Running(build) {
        return;
      }
      build := build.(result := "", version := refresh.version, start := t0);
      var err := DoBuild(benv);
      if err.Some? {
        build := build.(errcode := -1);
        WriteBuild(err.value + "\n");
      }
      build := build.(end := t1);
    }

    /** A fired timer: a refresh, then a build of whatever version the refresh left. */
    method DoRun(t0: int, t1: int, t2: int, t3: int, env: Env, benv: BuildEnv)
      modifies this`refresh, this`build
      ensures refresh == RefreshStep(old(refresh), name, t0, t1, env)
      ensures build == BuildStep(old(build), refresh.version, t2, t3, benv)
    {
      var _ := Refresh(t0, t1, env);
      Build(t2, t3, benv);
    }
  }

  /** Appending two pieces one after another appends their concatenation. */
  lemma Concat2(r: string, a: string, b: string)
    ensures r + a + b == r + (a + b)
  {
  }

  /** Appending three pieces one after another appends their concatenation. */
  lemma Concat3(r: string, a: string, b: string, c: string)
    ensures r + a + b + c == r + (a + b + c)
  {
  }

  lemma Concat4(r: string, a: string, b: string, c: string, d: string)
    ensures r + a + b + c + d == r + (a + b + c + d)
  {
  }

  /**
   * The version computation of `dorefresh`: the dependency paths are copied,
   * sorted, and the revision of each is fed to the hash in that order; the
   * lookups that fail are skipped and their errors joined.
   */
  method HashDependencies(revision: string -> Result<string, string>, digest: string -> Version, subpaths: seq<string>)
    returns (v: Version, sha1Error: Option<string>)
    ensures v == digest(Fed(revision, SortedPaths(subpaths)))
    ensures sha1Error == RevErr(revision, SortedPaths(subpaths))
  {
    var all: seq<string> := [];
    for i := 0 to |subpaths|
      invariant all == subpaths[..i]
    {
      all := all + [subpaths[i]];
    }
    assert subpaths[..|subpaths|] == subpaths;
    all := SortedPaths(all);

    sha1Error := None;
    var fed: string := "";
    for i := 0 to |all|
      invariant fed == Fed(revision, all[..i])
      invariant sha1Error == RevErr(revision, all[..i])
    {
      var x := all[i];
      var version := revision(x);
      if version.Failure? {
        if sha1Error.None? {
          sha1Error := Some(version.error);
        } else {
          sha1Error := Some(sha1Error.value + Sha1Sep + version.error);
        }
      } else {
        fed := fed + version.value;
      }
      assert all[..i + 1][..i] == all[..i];
    }
    assert all[..|all|] == all;
    v := digest(fed);
  }

  // ---------------------------------------------------------------------------
  // Properties of the two phases

  /** A refresh keeps nothing of the previous record but, when it computes none, its version. */
  lemma RefreshForgetsPrevious(e1: Execution, e2: Execution, name: string, t0: int, t1: int, env: Env)
    requires !Running(e1) && !Running(e2)
    requires e1.version == e2.version || RefreshRun(name, env).version.Some?
    ensures RefreshStep(e1, name, t0, t1, env) == RefreshStep(e2, name, t0, t1, env)
  {
  }

  /**
   * A finished refresh that ran forward in time is settled; its error code is
   * 0 exactly when `dorefresh` succeeded, and its text ends with the error.
   */
  lemma RefreshOutcome(e: Execution, name: string, t0: int, t1: int, env: Env)
    requires !Running(e) && t0 <= t1
    ensures var r := RefreshStep(e, name, t0, t1, env);
      !Running(r) && (r.errcode == 0 <==> RefreshRun(name, env).err.None?)
      && (r.errcode == 0 || r.errcode == -1)
      && RefreshRun(name, env).log <= r.result
      && (RefreshRun(name, env).err.Some? ==> r.result[|r.result| - |ErrLine(RefreshRun(name, env).err)|..] == RefreshRun(name, env).err.value + "\n")
  {
  }

  /**
   * A refresh leaves a running record alone; otherwise it spans `t0`..`t1`,
   * its error code is 0 exactly when `dorefresh` succeeded (and -1 when it
   * failed), and a successful one stores the digest over the dependencies.
   */
  lemma RefreshStepShape(e: Execution, name: string, t0: int, t1: int, env: Env)
    ensures var r := RefreshStep(e, name, t0, t1, env);
      && (Running(e) ==> r == e)
      && (!Running(e) ==> r.start == t0 && r.end == t1)
      && (!Running(e) ==> (r.errcode == 0 <==> RefreshRun(name, env).err.None?) && r.errcode in {0, -1})
      && (!Running(e) && r.errcode == 0 ==> r.version == VersionOf(env, env.subpaths))
  {
    ReportShape(name, env);
  }

  /** A record found running is never touched again by either phase. */
  lemma RunningIsStuck(e: Execution, name: string, version: Version, t0: int, t1: int, env: Env, benv: BuildEnv)
    requires Running(e)
    ensures RefreshStep(e, name, t0, t1, env) == e
    ensures BuildStep(e, version, t0, t1, benv) == e
  {
  }

  /** The arguments of successive builds of one job. */
  datatype BuildCall = BuildCall(version: Version, t0: int, t1: int, benv: BuildEnv)

  /** The build record after a sequence of builds. */
  function Builds(e: Execution, calls: seq<BuildCall>): Execution
  {
    if calls == [] then e
    else
      var c := calls[|calls| - 1];
      BuildStep(Builds(e, calls[..|calls| - 1]), c.version, c.t0, c.t1, c.benv)
  }

  /** The build error code only ever keeps its value or becomes -1: no build resets it. */
  lemma {:induction false} BuildErrcodeSticky(e: Execution, calls: seq<BuildCall>)
    ensures Builds(e, calls).errcode == e.errcode || Builds(e, calls).errcode == -1
  {
    if calls != [] {
      BuildErrcodeSticky(e, calls[..|calls| - 1]);
    }
  }

  /** So once any build applied to a settled record has failed, every later status shows a failure. */
  lemma {:induction false} BuildFailureNeverClears(e: Execution, calls: seq<BuildCall>, k: nat)
    requires k < |calls|
    requires !Running(Builds(e, calls[..k])) && BuildErr(calls[k].benv).Some?
    ensures Builds(e, calls).errcode == -1
  {
    if k == |calls| - 1 {
      assert calls[..|calls| - 1] == calls[..k];
    } else {
      var init := calls[..|calls| - 1];
      assert init[..k] == calls[..k] && init[k] == calls[k];
      BuildFailureNeverClears(e, init, k);
      var b := Builds(e, init);
      assert b.errcode == -1;
    }
  }

  /**
   * A run on a settled job settles it: the status is never Pulling, Building
   * or Need Build afterwards, because the build records the version the
   * refresh left. It is Pulling Failed exactly when `dorefresh` failed, and
   * Success exactly when refresh and build succeeded and no earlier build had
   * failed.
   */
  lemma RunSettles(r: Execution, b: Execution, name: string, t0: int, t1: int, t2: int, t3: int,
                   env: Env, benv: BuildEnv, withRefresh: bool, withBuild: bool)
    requires !Running(r) && !Running(b) && t0 <= t1 && t2 <= t3
    ensures var r' := RefreshStep(r, name, t0, t1, env);
      var b' := BuildStep(b, r'.version, t2, t3, benv);
      var l := Status.StatusOf(ToMsg(r', withRefresh), ToMsg(b', withBuild));
      (l == Status.PullingFailed <==> RefreshRun(name, env).err.Some?)
      && (l == Status.BuildingFailed <==> RefreshRun(name, env).err.None? && (BuildErr(benv).Some? || b.errcode != 0))
      && (l == Status.Success <==> RefreshRun(name, env).err.None? && BuildErr(benv).None? && b.errcode == 0)
  {
  }
}
