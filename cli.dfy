/**
 * The command-line client's entry point (ci/main.go): the first argument
 * names a command, each command takes a fixed number of arguments, and a
 * well-formed command becomes one request to the server. An unknown or
 * missing command does nothing. The `log` screen and the `list` table are
 * rendered from the server's answer.
 *
 * Sending the request, printing and exiting are not modelled: the dispatch
 * returns what would be sent or the usage message that precedes the exit.
 */
module Cli {
  import opened Wrappers
  import opened Format
  import opened Text
  import opened ExecView
  import Status

  datatype Request = AddRequest(id: Jobid) | RemoveRequest(jobname: string) | LogRequest(jobname: string) | ListRequest

  /** What the client does with its arguments. */
  datatype Action = Send(req: Request) | Usage(message: string) | Nothing

  /** `flag.Arg(i)`: the i-th argument, or "" past the end. */
  function Arg(args: seq<string>, i: nat): string
  {
    if i < |args| then args[i] else ""
  }

  /** The number of arguments each command takes; other words are not commands. */
  function Arity(cmd: string): Option<nat>
  {
    if cmd == "add" then Some(3)
    else if cmd == "remove" || cmd == "log" then Some(1)
    else if cmd == "list" then Some(0)
    else None
  }

  /** `%q command requires ... Got %v`; the command is one of four plain words, so `%q` only adds quotes. */
  function UsageMessage(cmd: string, required: nat, got: nat): string
  {
    "\"" + cmd + "\" command requires "
      + (if required == 0 then "no arguments" else Decimal(required) + " arguments")
      + ". Got " + Decimal(got) + "\n"
  }

  /** The `switch cmd` of `main`. */
  function Dispatch(args: seq<string>): (a: Action)
    ensures a.Nothing? <==> Arity(Arg(args, 0)).None?
    ensures a.Usage? <==> Arity(Arg(args, 0)).Some? && |args| != Arity(Arg(args, 0)).value + 1
    ensures a.Usage? ==> a.message == UsageMessage(args[0], Arity(args[0]).value, |args| - 1)
    ensures a.Send? ==> |args| == Arity(args[0]).value + 1
    ensures a.Send? ==> (a.req.AddRequest? <==> args[0] == "add") && (a.req.RemoveRequest? <==> args[0] == "remove")
                        && (a.req.LogRequest? <==> args[0] == "log") && (a.req.ListRequest? <==> args[0] == "list")
    ensures a.Send? && a.req.AddRequest? ==> a.req.id == Jobid(args[1], args[2], args[3])
    ensures a.Send? && (a.req.RemoveRequest? || a.req.LogRequest?) ==> a.req.jobname == args[1]
  {
    var cmd := Arg(args, 0);
    if cmd == "add" then
      if |args| != 4 then Usage(UsageMessage(cmd, 3, |args| - 1))
      else Send(AddRequest(Jobid(args[1], args[2], args[3])))
    else if cmd == "remove" then
      if |args| != 2 then Usage(UsageMessage(cmd, 1, |args| - 1)) else Send(RemoveRequest(args[1]))
    else if cmd == "log" then
      if |args| != 2 then Usage(UsageMessage(cmd, 1, |args| - 1)) else Send(LogRequest(args[1]))
    else if cmd == "list" then
      if |args| != 1 then Usage(UsageMessage(cmd, 0, |args| - 1)) else Send(ListRequest)
    else Nothing
  }

  /** What `add` prints for the server's answer. */
  function AddReply(id: Jobid, respErr: Option<string>): (r: string)
    ensures respErr.Some? ==> r == respErr.value + "\n"
    ensures respErr.None? ==> "added " + id.name <= r
    ensures |r| > 0 && r[|r| - 1] == '\n'
  {
    if respErr.Some? then respErr.value + "\n"
    else
      var rest := " " + id.remote + " " + id.branch + "\n";
      PrefixOfAppend("added " + id.name, rest);
      "added " + id.name + rest
  }

  /** What `remove` prints for the server's answer. */
  function RemoveReply(jobname: string, respErr: Option<string>): (r: string)
    ensures respErr.Some? ==> r == respErr.value + "\n"
    ensures respErr.None? ==> "removed " + jobname <= r
    ensures |r| > 0 && r[|r| - 1] == '\n'
  {
    if respErr.Some? then respErr.value + "\n"
    else
      PrefixOfAppend("removed " + jobname, "\n");
      "removed " + jobname + "\n"
  }

  // ---------------------------------------------------------------------------
  // The `log` screen

  /** The refresh state line: running, else failed, else succeeded. */
  function RefreshState(r: ExecMsg, now: int): (s: string)
    ensures |s| >= 2 && s[|s| - 2..] == "\n\n"
  {
    if r.end < r.start then "REFRESHING for " + DurationText(now - r.start) + "\n\n"
    else if r.errcode != 0 then "REFRESH FAILED " + DurationText(now - r.end) + " ago\n\n"
    else "REFRESH SUCCESS " + DurationText(now - r.end) + " ago\n\n"
  }

  /** The build state line: running, else failed, else succeeded. */
  function BuildState(b: ExecMsg, now: int): (s: string)
    ensures |s| >= 2 && s[|s| - 2..] == "\n\n"
  {
    if b.end < b.start then "BUILDING for " + DurationText(now - b.start) + "\n\n"
    else if b.errcode != 0 then "BUILD FAILED " + DurationText(now - b.end) + " ago\n\n"
    else "BUILD SUCCESS " + DurationText(now - b.end) + " ago\n\n"
  }

  /** A text that starts with `w` does not start with a word differing from `w` at `k1`, nor at `k2`. */
  lemma OneWord(w: string, mid: string, end: string, o1: string, k1: nat, o2: string, k2: nat)
    requires k1 < |w| && k1 < |o1| && w[k1] != o1[k1]
    requires k2 < |w| && k2 < |o2| && w[k2] != o2[k2]
    ensures w <= w + mid + end && !(o1 <= w + mid + end) && !(o2 <= w + mid + end)
  {
    assert (w + mid + end)[..|w|] == w;
    assert (w + mid + end)[k1] == w[k1] && (w + mid + end)[k2] == w[k2];
  }

  /** Where the three refresh words part ways. */
  lemma RefreshWordsDiffer()
    ensures "REFRESHING for "[7] == 'I' && "REFRESH FAILED "[7] == ' ' && "REFRESH SUCCESS "[7] == ' '
    ensures "REFRESH FAILED "[8] == 'F' && "REFRESH SUCCESS "[8] == 'S'
  {
  }

  /** Where the three build words part ways. */
  lemma BuildWordsDiffer()
    ensures "BUILDING for "[5] == 'I' && "BUILD FAILED "[5] == ' ' && "BUILD SUCCESS "[5] == ' '
    ensures "BUILD FAILED "[6] == 'F' && "BUILD SUCCESS "[6] == 'S'
  {
  }

  /** The refresh line names exactly one of the three states, in the order running, failed, succeeded. */
  lemma RefreshStateWords(r: ExecMsg, now: int)
    ensures "REFRESHING for " <= RefreshState(r, now) <==> r.end < r.start
    ensures "REFRESH FAILED " <= RefreshState(r, now) <==> !(r.end < r.start) && r.errcode != 0
    ensures "REFRESH SUCCESS " <= RefreshState(r, now) <==> !(r.end < r.start) && r.errcode == 0
  {
    var running, failed, success := "REFRESHING for ", "REFRESH FAILED ", "REFRESH SUCCESS ";
    RefreshWordsDiffer();
    if r.end < r.start {
      OneWord(running, DurationText(now - r.start), "\n\n", failed, 7, success, 7);
    } else if r.errcode != 0 {
      OneWord(failed, DurationText(now - r.end), " ago\n\n", running, 7, success, 8);
    } else {
      OneWord(success, DurationText(now - r.end), " ago\n\n", running, 7, failed, 8);
    }
  }

  /** The build line names exactly one of the three states, in the order running, failed, succeeded. */
  lemma BuildStateWords(b: ExecMsg, now: int)
    ensures "BUILDING for " <= BuildState(b, now) <==> b.end < b.start
    ensures "BUILD FAILED " <= BuildState(b, now) <==> !(b.end < b.start) && b.errcode != 0
    ensures "BUILD SUCCESS " <= BuildState(b, now) <==> !(b.end < b.start) && b.errcode == 0
  {
    var running, failed, success := "BUILDING for ", "BUILD FAILED ", "BUILD SUCCESS ";
    BuildWordsDiffer();
    if b.end < b.start {
      OneWord(running, DurationText(now - b.start), "\n\n", failed, 5, success, 5);
    } else if b.errcode != 0 {
      OneWord(failed, DurationText(now - b.end), " ago\n\n", running, 5, success, 6);
    } else {
      OneWord(success, DurationText(now - b.end), " ago\n\n", running, 5, failed, 6);
    }
  }

  /** A captured output, indented, between blank lines. */
  function Section(e: ExecMsg): string
  {
    "\n" + Indent(e.result) + "\n"
  }

  /** One coloured summary line: verdict, age and duration. */
  function SummaryLine(phase: string, e: ExecMsg, now: int): (s: string)
    ensures Green <= s <==> e.errcode == 0
    ensures Red <= s <==> e.errcode != 0
    ensures s[|s| - 1] == '\n'
  {
    var colour := if e.errcode == 0 then Green else Red;
    var other := if e.errcode == 0 then Red else Green;
    var rest := phase + (if e.errcode == 0 then "success  " else "failed   ")
      + DurationText(now - e.end) + " ago" + Reset + " (" + DurationText(e.end - e.start) + ")\n";
    assert Green[6] == '2' && Red[6] == '1';
    OneWord(colour, rest, "", other, 6, other, 6);
    assert colour + rest + "" == colour + rest;
    colour + rest
  }

  /** The job's identity, then the refresh state and output. */
  function LogTop(job: JobMsg, now: int): (t: string)
    ensures "LOG: " + job.id.name <= t
  {
    var title := "LOG: " + job.id.name;
    var rest := "  " + job.id.remote + " " + job.id.branch + " \n\n"
      + RefreshState(job.refresh, now) + Section(job.refresh) + "\n\n";
    PrefixOfAppend(title, rest);
    title + rest
  }

  /** The build state and output, then both summary lines once the build has finished. */
  function BuildPart(r: ExecMsg, b: ExecMsg, now: int): string
  {
    BuildState(b, now) + Section(b)
      + (if b.start < b.end then SummaryLine("refresh ", r, now) + SummaryLine("build   ", b, now) else "")
  }

  /** The `log` screen: the build part only once the refresh has finished. */
  function LogScreen(job: JobMsg, now: int): (s: string)
    ensures LogTop(job, now) <= s && "LOG: " + job.id.name <= s
    ensures !(job.refresh.start < job.refresh.end) ==> s == LogTop(job, now)
  {
    var build := if job.refresh.start < job.refresh.end then BuildPart(job.refresh, job.build, now) else "";
    PrefixOfAppend(LogTop(job, now), build);
    LogTop(job, now) + build
  }


  /** Until the refresh has finished, nothing about the build is shown. */
  lemma LogScreenWaitsForRefresh(job: JobMsg, other: ExecMsg, now: int)
    requires !(job.refresh.start < job.refresh.end)
    ensures LogScreen(job, now) == LogScreen(job.(build := other), now)
  {
  }

  /** `t` is a suffix of `s`. */
  predicate EndsWith(s: string, t: string)
  {
    |t| <= |s| && s[|s| - |t|..] == t
  }

  lemma AppendEndsWith(a: string, b: string)
    ensures EndsWith(a + b, b)
  {
    assert (a + b)[|a|..] == b;
  }

  lemma EndsWithTransitive(s: string, t: string, u: string)
    requires EndsWith(s, t) && EndsWith(t, u)
    ensures EndsWith(s, u)
  {
    assert s[|s| - |u|..] == s[|s| - |t|..][|t| - |u|..];
  }

  /**
   * Once the refresh has finished, the screen ends with the build output
   * while the build has not finished, and with the build's summary line once
   * it has.
   */
  lemma LogScreenEnds(job: JobMsg, now: int)
    requires job.refresh.start < job.refresh.end
    ensures !(job.build.start < job.build.end) ==> EndsWith(LogScreen(job, now), Section(job.build))
    ensures job.build.start < job.build.end ==> EndsWith(LogScreen(job, now), SummaryLine("build   ", job.build, now))
  {
    var r, b := job.refresh, job.build;
    var part := BuildPart(r, b, now);
    AppendEndsWith(LogTop(job, now), part);
    if b.start < b.end {
      var s1, s2 := SummaryLine("refresh ", r, now), SummaryLine("build   ", b, now);
      AppendEndsWith(BuildState(b, now) + Section(b), s1 + s2);
      AppendEndsWith(s1, s2);
      EndsWithTransitive(part, s1 + s2, s2);
      EndsWithTransitive(LogScreen(job, now), part, s2);
    } else {
      assert part == BuildState(b, now) + Section(b);
      AppendEndsWith(BuildState(b, now), Section(b));
      EndsWithTransitive(LogScreen(job, now), part, Section(b));
    }
  }

  // ---------------------------------------------------------------------------
  // The `list` table

  /** One printed row; the two dates are the Unix seconds of the last refresh and build ends. */
  datatype Row = Row(status: Status.Label, name: string, remote: string, branch: string,
                     refreshed: int, built: int, commit: Version)

  /** One row per job of the server's answer, in the order received. */
  method ListTable(jobs: seq<JobMsg>) returns (rows: seq<Row>)
    ensures |rows| == |jobs|
    ensures forall i :: 0 <= i < |jobs| ==>
      rows[i].status == Status.StatusOf(jobs[i].refresh, jobs[i].build)
      && rows[i].name == jobs[i].id.name && rows[i].remote == jobs[i].id.remote && rows[i].branch == jobs[i].id.branch
      && rows[i].refreshed == jobs[i].refresh.end && rows[i].built == jobs[i].build.end
      && rows[i].commit == jobs[i].refresh.version
  {
    rows := [];
    for i := 0 to |jobs|
      invariant |rows| == i
      invariant forall n :: 0 <= n < i ==>
        rows[n] == Row(Status.StatusOf(jobs[n].refresh, jobs[n].build), jobs[n].id.name, jobs[n].id.remote,
                       jobs[n].id.branch, jobs[n].refresh.end, jobs[n].build.end, jobs[n].refresh.version)
    {
      var s := jobs[i];
      rows := rows + [Row(Status.StatusOf(s.refresh, s.build), s.id.name, s.id.remote, s.id.branch,
                          s.refresh.end, s.build.end, s.refresh.version)];
    }
  }
}
