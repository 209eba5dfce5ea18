/**
 * What one call of `dorefresh` (job.go:178-304) produces: the text it writes
 * into the refresh record's result buffer, the error it returns, and the
 * content version it stores, as a function of what the outside world answers.
 *
 * Every call the refresh makes into the working directory, git or the hash
 * is an answer recorded in an `Env`: the model fixes no behaviour for them.
 * `Jobs.Job.DoRefresh` is the step-by-step method; its postcondition says it
 * produces exactly `RefreshRun`.
 */
module Refresh {
  import opened Wrappers
  import opened Format
  import opened Text
  import opened ByName

  /** The captured output and the error of one git operation. */
  datatype GitResult = GitResult(report: string, err: Option<string>)

  /** The answers of the outside world to one refresh of a job. */
  datatype Env = Env(
    wd: Result<string, string>,                  // os.Getwd
    dirMissing: bool,                            // os.Stat of the job directory says it does not exist
    clone: GitResult,                            // mrepo.GitClone of the job's remote and branch
    pullTop: GitResult,                          // mrepo.GitPull of the job directory
    cloneDeps: GitResult,                        // cloning the declared but missing dependencies
    pruneDeps: GitResult,                        // pruning the present but undeclared dependencies
    subpaths: seq<string>,                       // wk.WorkingDirSubpath(), in enumeration order
    pull: string -> GitResult,                   // mrepo.GitPull of one dependency
    revision: string -> Result<string, string>,  // mrepo.GitRevParseHead of one dependency
    digest: string -> Version)                   // SHA-1 of everything fed to the hash

  /** What a refresh leaves behind: its log, its error, and the version it stored, if any. */
  datatype Report = Report(log: string, err: Option<string>, version: Option<Version>)

  /** The separators Go's `fmt.Errorf` puts between aggregated errors. */
  const PullSep: string := "\npull error: "
  const Sha1Sep: string := "\n sha1 error: "

  /** Folds one more outcome into an aggregated error: the first error as is, later ones appended after `sep`. */
  function Join(acc: Option<string>, e: Option<string>, sep: string): (r: Option<string>)
    ensures r.None? <==> acc.None? && e.None?
    ensures acc.None? ==> r == e
    ensures e.None? ==> r == acc
    ensures acc.Some? && e.Some? ==> r == Some(acc.value + sep + e.value)
  {
    match e
    case None => acc
    case Some(m) => if acc.None? then e else Some(acc.value + sep + m)
  }

  /** The error of the dependency clone-and-prune step: the single failure, or one message naming both. */
  function PatchError(cloneErr: Option<string>, pruneErr: Option<string>): (r: Option<string>)
    ensures r.None? <==> cloneErr.None? && pruneErr.None?
    ensures cloneErr.None? ==> r == pruneErr
    ensures pruneErr.None? ==> r == cloneErr
    ensures cloneErr.Some? && pruneErr.Some? ==>
      r == Some("clone error: " + cloneErr.value + "\nprune error: " + pruneErr.value)
  {
    if cloneErr.None? then pruneErr
    else if pruneErr.None? then cloneErr
    else Some("clone error: " + cloneErr.value + "\nprune error: " + pruneErr.value)
  }

  /** The text written while bringing the job directory itself up to date. */
  function TopLog(name: string, env: Env): string
  {
    if env.dirMissing then
      "job dir does not exists. Will create one: " + name + "\n" + env.clone.report + "\n"
    else
      "updating job's directory: " + name + "\n" + env.pullTop.report + "\n"
  }

  /** A missing directory is cloned and not pulled; an existing one is pulled. */
  function TopErr(env: Env): Option<string>
  {
    if env.dirMissing then env.clone.err else env.pullTop.err
  }

  function PullEntry(pull: string -> GitResult, p: string): string
  {
    "updating " + p + "\n" + pull(p).report + "\n"
  }

  /** The text the dependency pulls write, taken one after another in enumeration order. */
  function PullLog(pull: string -> GitResult, ps: seq<string>): string
  {
    if ps == [] then "" else PullLog(pull, ps[..|ps| - 1]) + PullEntry(pull, ps[|ps| - 1])
  }

  /** `pullallerror` after every dependency has been pulled. */
  function PullErr(pull: string -> GitResult, ps: seq<string>): Option<string>
  {
    if ps == [] then None else Join(PullErr(pull, ps[..|ps| - 1]), pull(ps[|ps| - 1]).err, PullSep)
  }

  function RevisionText(revision: string -> Result<string, string>, p: string): string
  {
    if revision(p).Success? then revision(p).value else ""
  }

  function RevisionErr(revision: string -> Result<string, string>, p: string): Option<string>
  {
    if revision(p).Failure? then Some(revision(p).error) else None
  }

  /** Everything fed to the hash: the revisions that could be read, in the given order. */
  function Fed(revision: string -> Result<string, string>, ps: seq<string>): string
  {
    if ps == [] then "" else Fed(revision, ps[..|ps| - 1]) + RevisionText(revision, ps[|ps| - 1])
  }

  /** `sha1error` after every revision lookup. */
  function RevErr(revision: string -> Result<string, string>, ps: seq<string>): Option<string>
  {
    if ps == [] then None else Join(RevErr(revision, ps[..|ps| - 1]), RevisionErr(revision, ps[|ps| - 1]), Sha1Sep)
  }

  /** The dependency paths in `byName` order. */
  function SortedPaths(ps: seq<string>): seq<string>
  {
    SortBy(ps, PathKey)
  }

  /** The content version: the digest of the revisions of the dependencies, taken in sorted path order. */
  function VersionOf(env: Env, ps: seq<string>): Version
  {
    env.digest(Fed(env.revision, SortedPaths(ps)))
  }

  /** The text written before the top-level repository is touched. */
  function Head(wd: string): string
  {
    "working dir: " + wd + "\n"
  }

  /** The text written up to the end of the clone-and-prune step. */
  function PatchLog(name: string, env: Env): string
    requires env.wd.Success?
  {
    Head(env.wd.value) + TopLog(name, env) + "updating job's dependencies.\n"
      + env.cloneDeps.report + env.pruneDeps.report
  }

  /** The text written up to the end of the dependency pulls. */
  function PulledLog(name: string, env: Env): string
    requires env.wd.Success?
  {
    PatchLog(name, env) + "updating all dependencies themselves.\n"
      + PullLog(env.pull, env.subpaths) + "dependencies updated.\n"
  }

  /** The line announcing the computed version, as `%x`. */
  function VersionLine(v: Version): string
  {
    "version is " + Hex(v) + "\n"
  }

  /** The specification of `dorefresh`: each step either returns an error or goes on. */
  function RefreshRun(name: string, env: Env): Report
  {
    if env.wd.Failure? then Report("", Some(env.wd.error), None)
    else if TopErr(env).Some? then Report(Head(env.wd.value) + TopLog(name, env), TopErr(env), None)
    else if PatchError(env.cloneDeps.err, env.pruneDeps.err).Some? then
      Report(PatchLog(name, env), PatchError(env.cloneDeps.err, env.pruneDeps.err), None)
    else if PullErr(env.pull, env.subpaths).Some? then
      Report(PulledLog(name, env), PullErr(env.pull, env.subpaths), None)
    else
      var v := VersionOf(env, env.subpaths);
      Report(PulledLog(name, env) + "computing the current version.\n" + VersionLine(v),
             RevErr(env.revision, SortedPaths(env.subpaths)), Some(v))
  }

  // ---------------------------------------------------------------------------
  // Properties of a refresh

  /**
   * The shape of a refresh report: a getwd failure returns at once with an
   * empty log; a refresh that fails nowhere has a version; and a version is
   * only computed once every earlier step succeeded, as the digest over the
   * dependencies.
   */
  lemma ReportShape(name: string, env: Env)
    ensures var r := RefreshRun(name, env);
      && (env.wd.Failure? ==> r == Report("", Some(env.wd.error), None))
      && (r.err.None? ==> r.version.Some?)
      && (r.version.Some? ==>
            r.version.value == VersionOf(env, env.subpaths)
            && TopErr(env).None? && PullErr(env.pull, env.subpaths).None?
            && PatchError(env.cloneDeps.err, env.pruneDeps.err).None?)
  {
  }

  /** A freshly cloned job directory is not pulled; an existing one is not cloned. */
  lemma CloneOrPull(name: string, env: Env, other: GitResult)
    ensures env.dirMissing ==> RefreshRun(name, env) == RefreshRun(name, env.(pullTop := other))
    ensures !env.dirMissing ==> RefreshRun(name, env) == RefreshRun(name, env.(clone := other))
  {
  }

  /** A failing clone or top-level pull returns before any dependency is touched. */
  lemma TopFailureStopsEarly(name: string, env: Env, deps: Env)
    requires env.wd.Success? && TopErr(env).Some?
    requires deps == env.(cloneDeps := deps.cloneDeps, pruneDeps := deps.pruneDeps, subpaths := deps.subpaths)
    ensures RefreshRun(name, env).err == TopErr(env) && RefreshRun(name, env).version.None?
    ensures RefreshRun(name, deps) == RefreshRun(name, env)
  {
  }

  /** The pulls fail exactly when one of the dependency pulls fails. */
  lemma {:induction false} PullFailsIff(pull: string -> GitResult, ps: seq<string>)
    ensures PullErr(pull, ps).Some? <==> exists i :: 0 <= i < |ps| && pull(ps[i]).err.Some?
  {
    if ps != [] {
      var init := ps[..|ps| - 1];
      PullFailsIff(pull, init);
      if PullErr(pull, init).Some? {
        var i :| 0 <= i < |init| && pull(init[i]).err.Some?;
        assert ps[i] == init[i];
      }
      forall i | 0 <= i < |ps| - 1
        ensures ps[i] == init[i]
      {
      }
    }
  }

  /** `m` occurs in `s` at position `k`. */
  ghost predicate MentionsAt(s: string, m: string, k: int)
  {
    0 <= k && k + |m| <= |s| && s[k..k + |m|] == m
  }

  /** `m` occurs somewhere in `s`. */
  ghost predicate Mentions(s: string, m: string)
  {
    exists k :: MentionsAt(s, m, k)
  }

  /** Every failing pull keeps its own message in the aggregated error. */
  lemma {:induction false} PullErrorMentionsEach(pull: string -> GitResult, ps: seq<string>, i: nat)
    requires i < |ps| && pull(ps[i]).err.Some?
    ensures PullErr(pull, ps).Some? && Mentions(PullErr(pull, ps).value, pull(ps[i]).err.value)
  {
    var init := ps[..|ps| - 1];
    var acc := PullErr(pull, init);
    var last := pull(ps[|ps| - 1]).err;
    var m := pull(ps[i]).err.value;
    var r := PullErr(pull, ps);
    assert r == Join(acc, last, PullSep);
    if i == |ps| - 1 {
      if acc.None? {
        assert MentionsAt(r.value, m, 0);
      } else {
        var k := |acc.value| + |PullSep|;
        assert r.value == acc.value + PullSep + m;
        assert MentionsAt(r.value, m, k);
      }
    } else {
      assert ps[i] == init[i];
      PullErrorMentionsEach(pull, init, i);
      var k :| MentionsAt(acc.value, m, k);
      if last.Some? {
        assert r.value == acc.value + (PullSep + last.value);
        assert r.value[k..k + |m|] == acc.value[k..k + |m|];
      }
      assert MentionsAt(r.value, m, k);
    }
  }

  /** A version is stored exactly when no clone, pull, or dependency patch failed. */
  lemma VersionIffNoFailure(name: string, env: Env)
    ensures RefreshRun(name, env).version.Some? <==>
      && env.wd.Success?
      && TopErr(env).None?
      && env.cloneDeps.err.None? && env.pruneDeps.err.None?
      && forall i :: 0 <= i < |env.subpaths| ==> env.pull(env.subpaths[i]).err.None?
  {
    PullFailsIff(env.pull, env.subpaths);
  }

  /** The revision lookups fail exactly when one of them fails. */
  lemma {:induction false} RevErrIff(revision: string -> Result<string, string>, ps: seq<string>)
    ensures RevErr(revision, ps).None? <==> forall i :: 0 <= i < |ps| ==> revision(ps[i]).Success?
  {
    if ps != [] {
      var init := ps[..|ps| - 1];
      RevErrIff(revision, init);
      forall i | 0 <= i < |ps| - 1
        ensures ps[i] == init[i]
      {
      }
    }
  }

  /** The fed bytes of consecutive parts of the path list are concatenated. */
  lemma {:induction false} FedConcat(revision: string -> Result<string, string>, a: seq<string>, b: seq<string>)
    ensures Fed(revision, a + b) == Fed(revision, a) + Fed(revision, b)
  {
    if b == [] {
      assert a + b == a;
    } else {
      var b' := b[..|b| - 1];
      assert (a + b)[..|a + b| - 1] == a + b';
      assert (a + b)[|a + b| - 1] == b[|b| - 1];
      FedConcat(revision, a, b');
    }
  }

  /** A dependency whose revision cannot be read contributes nothing to the version. */
  lemma FailedRevisionSkipped(revision: string -> Result<string, string>, ps: seq<string>, i: nat)
    requires i < |ps| && revision(ps[i]).Failure?
    ensures Fed(revision, ps) == Fed(revision, ps[..i] + ps[i + 1..])
  {
    var a, b := ps[..i], ps[i + 1..];
    var ax := ps[..i + 1];
    assert ps == ax + b;
    assert ax[..i] == a;
    assert Fed(revision, ax) == Fed(revision, a);
    FedConcat(revision, ax, b);
    FedConcat(revision, a, b);
  }

  /** Pulls of the same dependencies fail together, whatever their order. */
  lemma PullOutcomeIgnoresOrder(pull: string -> GitResult, a: seq<string>, b: seq<string>)
    requires multiset(a) == multiset(b)
    ensures PullErr(pull, a).Some? <==> PullErr(pull, b).Some?
  {
    PullFailsIff(pull, a);
    PullFailsIff(pull, b);
    if PullErr(pull, a).Some? {
      var i :| 0 <= i < |a| && pull(a[i]).err.Some?;
      assert a[i] in multiset(b);
      var j :| 0 <= j < |b| && b[j] == a[i];
    }
    if PullErr(pull, b).Some? {
      var i :| 0 <= i < |b| && pull(b[i]).err.Some?;
      assert b[i] in multiset(a);
      var j :| 0 <= j < |a| && a[j] == b[i];
    }
  }

  /**
   * The version depends only on which dependencies are present, not on the
   * order in which the workspace enumerates them.
   */
  lemma VersionIgnoresOrder(name: string, env: Env, ps: seq<string>)
    requires multiset(ps) == multiset(env.subpaths)
    ensures RefreshRun(name, env.(subpaths := ps)).version == RefreshRun(name, env).version
  {
    PathKeysDistinct(ps);
    SortIgnoresOrder(ps, env.subpaths, PathKey);
    PullOutcomeIgnoresOrder(env.pull, ps, env.subpaths);
  }

  /** Once a version is stored, the error left is that of the revision lookups in sorted order. */
  lemma VersionBranch(name: string, env: Env)
    requires RefreshRun(name, env).version.Some?
    ensures RefreshRun(name, env).err == RevErr(env.revision, SortedPaths(env.subpaths))
    ensures RefreshRun(name, env).version == Some(VersionOf(env, env.subpaths))
  {
  }

  /** Some element of `ps` has a revision that cannot be read. */
  ghost predicate SomeRevisionFails(revision: string -> Result<string, string>, ps: seq<string>)
  {
    exists i :: 0 <= i < |ps| && revision(ps[i]).Failure?
  }

  lemma RevisionFailureIgnoresOrder(revision: string -> Result<string, string>, a: seq<string>, b: seq<string>)
    requires multiset(a) == multiset(b)
    ensures SomeRevisionFails(revision, a) ==> SomeRevisionFails(revision, b)
  {
    if SomeRevisionFails(revision, a) {
      var i :| 0 <= i < |a| && revision(a[i]).Failure?;
      assert a[i] in multiset(b);
      var j :| 0 <= j < |b| && b[j] == a[i];
    }
  }

  /**
   * When revisions cannot be read the refresh fails, but the version over the
   * readable ones is stored all the same.
   */
  lemma RevisionFailureStillStoresVersion(name: string, env: Env)
    requires RefreshRun(name, env).version.Some?
    ensures RefreshRun(name, env).err.Some? <==> SomeRevisionFails(env.revision, env.subpaths)
    ensures RefreshRun(name, env).version == Some(VersionOf(env, env.subpaths))
  {
    VersionBranch(name, env);
    var sorted := SortedPaths(env.subpaths);
    RevErrIff(env.revision, sorted);
    SortPermutes(env.subpaths, PathKey);
    RevisionFailureIgnoresOrder(env.revision, sorted, env.subpaths);
    RevisionFailureIgnoresOrder(env.revision, env.subpaths, sorted);
  }
}
