/**
 * The status a client shows for a job, derived from its two execution
 * snapshots by the same priority switch in ci/listCmd.go and ci/main.go.
 * The status is never stored: it is recomputed from the records.
 */
module Status {
  import opened Format

  datatype Label = Pulling | Building | NeedBuild | PullingFailed | BuildingFailed | Success

  /** The text printed in the status column. */
  function Text(l: Label): (t: string)
    ensures |t| > 0
  {
    match l
    case Pulling => "Pulling"
    case Building => "Building"
    case NeedBuild => "Need Build"
    case PullingFailed => "Pulling Failed"
    case BuildingFailed => "Building Failed"
    case Success => "Success"
  }

  /** No two labels read the same. */
  lemma TextInjective(a: Label, b: Label)
    ensures Text(a) == Text(b) ==> a == b
  {
    if Text(a) == Text(b) {
      assert Text(a)[0] == Text(b)[0] && |Text(a)| == |Text(b)|;
    }
  }

  /**
   * The six labels by priority: a running refresh, then a running build, then
   * versions that differ, then a failed refresh, then a failed build.
   */
  function StatusOf(refresh: ExecMsg, build: ExecMsg): (l: Label)
    ensures l == Pulling <==> refresh.end < refresh.start
    ensures l == Building <==> !(refresh.end < refresh.start) && build.end < build.start
    ensures l == NeedBuild <==>
      !(refresh.end < refresh.start) && !(build.end < build.start) && refresh.version != build.version
    ensures l == PullingFailed <==>
      !(refresh.end < refresh.start) && !(build.end < build.start) && refresh.version == build.version
      && refresh.errcode != 0
    ensures l == BuildingFailed <==>
      !(refresh.end < refresh.start) && !(build.end < build.start) && refresh.version == build.version
      && refresh.errcode == 0 && build.errcode != 0
    ensures l == Success <==>
      !(refresh.end < refresh.start) && !(build.end < build.start) && refresh.version == build.version
      && refresh.errcode == 0 && build.errcode == 0
  {
    if refresh.end < refresh.start then Pulling
    else if build.end < build.start then Building
    else if refresh.version != build.version then NeedBuild
    else if refresh.errcode != 0 then PullingFailed
    else if build.errcode != 0 then BuildingFailed
    else Success
  }
}
