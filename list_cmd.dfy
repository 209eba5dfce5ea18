/**
 * The `list` command of the command-line client (ci/listCmd.go): it takes
 * no arguments, asks the server for every job and prints one row per job:
 * its status, identity and current content version.
 *
 * The column layout (`tabwriter`) is not modelled; a row is its cells.
 */
module ListCmd {
  import opened Wrappers
  import opened Format
  import opened Text
  import opened Executions
  import Status

  /** One printed row. */
  datatype Row = Row(status: Status.Label, name: string, remote: string, branch: string, version: Version)

  /** The message printed before the usage when arguments are given. */
  function ArgError(got: nat): string
  {
    "list command requires no arguments. Got " + Decimal(got) + "\n"
  }

  /**
   * `listCmd.Run`: any argument is refused; otherwise one row per job of the
   * server's answer, in the order received, whose status is the label of
   * the job's two records.
   */
  method Run(args: seq<string>, jobs: seq<JobMsg>) returns (out: Result<seq<Row>, string>)
    ensures |args| != 0 ==> out == Failure(ArgError(|args|))
    ensures |args| == 0 ==> out.Success? && |out.value| == |jobs|
    ensures |args| == 0 ==> forall i :: 0 <= i < |jobs| ==>
      out.value[i].status == Status.StatusOf(jobs[i].refresh, jobs[i].build)
      && out.value[i].name == jobs[i].id.name && out.value[i].remote == jobs[i].id.remote
      && out.value[i].branch == jobs[i].id.branch && out.value[i].version == jobs[i].refresh.version
  {
    if |args| != 0 {
      return Failure(ArgError(|args|));
    }
    var rows: seq<Row> := [];
    for i := 0 to |jobs|
      invariant |rows| == i
      invariant forall n :: 0 <= n < i ==>
        rows[n] == Row(Status.StatusOf(jobs[n].refresh, jobs[n].build), jobs[n].id.name,
                       jobs[n].id.remote, jobs[n].id.branch, jobs[n].refresh.version)
    {
      var s := jobs[i];
      var status := Status.StatusOf(s.refresh, s.build);
      rows := rows + [Row(status, s.id.name, s.id.remote, s.id.branch, s.refresh.version)];
    }
    return Success(rows);
  }

  /**
   * The status of a job does not depend on which outputs the server
   * included, so the list, which asks for none, shows the same status as a
   * full snapshot; and it reads Pulling exactly while the refresh runs.
   */
  lemma StatusIgnoresOutputs(r: Execution, b: Execution, wr: bool, wb: bool)
    ensures Status.StatusOf(ToMsg(r, wr), ToMsg(b, wb)) == Status.StatusOf(ToMsg(r, true), ToMsg(b, true))
    ensures Status.StatusOf(ToMsg(r, wr), ToMsg(b, wb)) == Status.Pulling <==> Running(r)
    ensures Status.StatusOf(ToMsg(r, wr), ToMsg(b, wb)) == Status.Building <==> !Running(r) && Running(b)
  {
  }
}
