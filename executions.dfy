/**
 * The `execution` record each job keeps twice, once for its refresh phase and
 * once for its build phase. Its Go declaration is not part of this model; it
 * is modelled as the five fields the rest of the code reads and writes, with
 * timestamps as whole seconds.
 */
module Executions {
  import opened Format

  datatype Execution = Execution(start: int, end: int, errcode: int, result: string, version: Version)

  /** The zero value a freshly added job starts with. */
  const Zero: Execution := Execution(0, 0, 0, "", ZeroVersion)

  /** The sentinel encoding: an execution is in progress exactly when it ended before it started. */
  predicate Running(e: Execution)
  {
    e.end < e.start
  }

  /** The snapshot sent to clients; the captured text is included only on request. */
  function ToMsg(e: Execution, withResult: bool): ExecMsg
  {
    ExecMsg(e.start, e.end, e.errcode, if withResult then e.result else "", e.version)
  }

  /**
   * A snapshot keeps the times, the error code and the version, so a client
   * sees it running exactly when the record is; the output only on request.
   */
  lemma SnapshotFields(e: Execution, withResult: bool)
    ensures var m := ToMsg(e, withResult);
      (m.end < m.start <==> Running(e))
      && m.start == e.start && m.end == e.end && m.errcode == e.errcode && m.version == e.version
      && m.result == (if withResult then e.result else "")
  {
  }

  /** Rebuilds an execution from its full snapshot. */
  function FromMsg(m: ExecMsg): (e: Execution)
    ensures ToMsg(e, true) == m
  {
    Execution(m.start, m.end, m.errcode, m.result, m.version)
  }

  /** The full snapshot loses nothing: the record is rebuilt from it exactly. */
  lemma SnapshotRoundTrip(e: Execution)
    ensures FromMsg(ToMsg(e, true)) == e
  {
  }

  /** A snapshot without the captured text loses that text and nothing else. */
  lemma ShortSnapshot(e: Execution)
    ensures FromMsg(ToMsg(e, false)) == e.(result := "")
    ensures ToMsg(e, false) == ToMsg(e, true).(result := "")
  {
  }

}
