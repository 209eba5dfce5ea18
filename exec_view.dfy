/**
 * The client's view of one execution snapshot (cmd/RemoteExecution.go; the
 * `exec` type of ci/logCmd.go is a line-for-line copy and is modelled by the
 * same definitions): when it ran, whether it is done, a full display, an
 * incremental display between two successive snapshots, and a one-line
 * summary.
 *
 * `time.Since` is the parameter `now`; times and durations are whole seconds.
 */
module ExecView {
  import opened Format
  import opened Text

  /** Terminal colour codes around the verdict word. */
  const Red: string := "\U{1b}[00;31m"
  const Green: string := "\U{1b}[00;32m"
  const Reset: string := "\U{1b}[00m"

  /** A snapshot as the client holds it: the message, its times, its duration and how long ago it last moved. */
  datatype Exec = Exec(x: ExecMsg, start: int, end: int, duration: int, since: int, name: string)

  function Max(a: int, b: int): int
  {
    if a < b then b else a
  }

  /**
   * `newExec`: the age of a snapshot is measured from its last event, its
   * start while it runs and its end once it has ended.
   */
  function NewExec(px: ExecMsg, name: string, now: int): (e: Exec)
    ensures e.x == px && e.name == name && e.start == px.start && e.end == px.end
    ensures e.duration == px.end - px.start
    ensures e.since == now - Max(px.start, px.end)
  {
    var since := if px.end < px.start then now - px.start else now - px.end;
    Exec(px, px.start, px.end, px.end - px.start, since, name)
  }

  /** The execution has finished: it ended strictly after it started. */
  predicate Done(e: Exec): (d: bool)
    ensures d <==> !Active(e) && e.start != e.end
  {
    e.end > e.start
  }

  /** The execution is in progress (the daemon's sentinel). */
  predicate Active(e: Exec)
  {
    e.end < e.start
  }

  /** `x` started strictly after `z` ended. */
  predicate StartAfter(x: Exec, z: Exec): (a: bool)
    ensures a && !Active(z) ==> x.start > z.start
    ensures a && Done(x) ==> x.end > z.end
  {
    x.start > z.end
  }

  /** Of two finished executions, at most one started after the other ended. */
  lemma StartAfterOneWay(x: Exec, z: Exec)
    requires Done(x) && Done(z)
    ensures !(StartAfter(x, z) && StartAfter(z, x))
  {
  }

  /**
   * A snapshot is active, done, or (start and end in the same second, as for
   * a never-run record) neither; never both.
   */
  lemma ThreeStates(e: Exec)
    ensures !(Active(e) && Done(e))
    ensures !Active(e) && !Done(e) <==> e.start == e.end
  {
  }

  /** The verdict word of a finished execution, coloured. */
  function Verdict(errcode: int): string
  {
    if errcode == 0 then Green + "success" + Reset else Red + "failed" + Reset
  }

  /** The first line(s) of `Print`: started, failed or succeeded, in that priority. */
  function Header(e: Exec): (h: string)
    ensures Active(e) ==> e.name + " started " <= h
    ensures !Active(e) ==> e.name + " " + Verdict(e.x.errcode) <= h
    ensures h[|h| - 1] == '\n'
  {
    if Active(e) then e.name + " started " + DurationText(e.since) + " ago.\n"
    else e.name + " " + Verdict(e.x.errcode) + " " + DurationText(e.since) + " ago\n\n"
  }

  /**
   * The full display: the header, then the whole captured output indented by
   * four spaces. A running snapshot says it started, a finished one gives its
   * verdict.
   */
  function Print(e: Exec): (r: string)
    ensures Active(e) ==> e.name + " started " <= r
    ensures !Active(e) ==> e.name + " " + Verdict(e.x.errcode) <= r
    ensures |r| >= |Indent(e.x.result)|
    ensures r[|r| - |Indent(e.x.result)|..] == Indent(e.x.result)
    ensures e.name <= r
  {
    Header(e) + "\n" + Indent(e.x.result)
  }

  /** The one-line summary: verdict, duration, and how long ago. */
  function Summary(e: Exec): (r: string)
    ensures e.name + " " + Verdict(e.x.errcode) <= r
  {
    e.name + " " + Verdict(e.x.errcode) + " in " + DurationText(e.duration) + ", " + DurationText(e.since) + " ago"
  }

  /** The captured output can be read back from the display of a snapshot. */
  lemma PrintShowsResult(e: Exec)
    ensures Unindent(Print(e)[|Print(e)| - |Indent(e.x.result)|..]) == e.x.result
  {
    UnindentIndent(e.x.result);
  }

  /** Display and summary of a snapshot that is not running give the same verdict. */
  lemma PrintAgreesWithSummary(e: Exec)
    requires !Active(e)
    ensures e.name + " " + Verdict(e.x.errcode) <= Print(e)
    ensures e.name + " " + Verdict(e.x.errcode) <= Summary(e)
    ensures Verdict(e.x.errcode) == Green + "success" + Reset <==> e.x.errcode == 0
  {
    assert (Green + "success" + Reset)[6] != (Red + "failed" + Reset)[6];
  }

  /**
   * What changed from the previous snapshot `x` to the new one `n`: a new
   * run is shown in full, nothing is shown between two finished ones, and
   * otherwise the new output (what follows the old output) is shown, with a
   * summary once the new snapshot has finished.
   */
  function Tail(x: Exec, n: Exec): (t: string)
    ensures Done(x) && Done(n) ==> t == ""
    ensures Done(x) && !Done(n) ==> t == Print(n)
  {
    if Done(x) && !Done(n) then Print(n)
    else if Done(x) && Done(n) then ""
    else
      var tail := Indent(TrimPrefix(n.x.result, x.x.result));
      if !Done(x) && Done(n) then tail + "\n" + Summary(n) + "\n" else tail
  }

  /** Following an unfinished run shows exactly its new output, then its summary once it is done. */
  lemma TailStreams(x: Exec, n: Exec, d: string)
    requires !Done(x) && n.x.result == x.x.result + d
    ensures Tail(x, n) == Indent(d) + (if Done(n) then "\n" + Summary(n) + "\n" else "")
  {
    assert x.x.result <= n.x.result;
    assert TrimPrefix(n.x.result, x.x.result) == d;
  }

  /**
   * The three cases of `Tail`: nothing between two finished snapshots; a new
   * run in full, its output readable back; otherwise the whole new output
   * when the old one is not a prefix of it.
   */
  lemma TailCases(x: Exec, n: Exec)
    ensures Done(x) && Done(n) ==> Tail(x, n) == ""
    ensures Done(x) && !Done(n) ==> Unindent(Tail(x, n)[|Tail(x, n)| - |Indent(n.x.result)|..]) == n.x.result
    ensures !Done(x) && !(x.x.result <= n.x.result) ==>
      Tail(x, n) == Indent(n.x.result) + (if Done(n) then "\n" + Summary(n) + "\n" else "")
  {
    if Done(x) && !Done(n) {
      PrintShowsResult(n);
    }
  }

  /** The text shown while following a sequence of successive snapshots. */
  function Follow(snaps: seq<Exec>): string
  {
    if |snaps| < 2 then "" else Follow(snaps[..|snaps| - 1]) + Tail(snaps[|snaps| - 2], snaps[|snaps| - 1])
  }

  /** Each snapshot's output extends the previous one's, and only the last may be finished. */
  ghost predicate Growing(snaps: seq<Exec>)
  {
    (forall i :: 0 <= i < |snaps| - 1 ==> !Done(snaps[i]))
    && (forall i :: 0 <= i < |snaps| - 1 ==> snaps[i].x.result <= snaps[i + 1].x.result)
  }

  /**
   * Following a run from its first snapshot to an unfinished last one shows
   * its new output exactly once, in order, with nothing repeated or lost.
   */
  lemma {:induction false} FollowShowsOutputOnce(snaps: seq<Exec>)
    requires |snaps| >= 1 && Growing(snaps) && !Done(snaps[|snaps| - 1])
    ensures snaps[0].x.result <= snaps[|snaps| - 1].x.result
    ensures Follow(snaps) == Indent(snaps[|snaps| - 1].x.result[|snaps[0].x.result|..])
  {
    var first, last := snaps[0].x.result, snaps[|snaps| - 1];
    if |snaps| == 1 {
      assert last.x.result[|first|..] == [];
    } else {
      var init := snaps[..|snaps| - 1];
      var prev := snaps[|snaps| - 2];
      assert init[0] == snaps[0] && init[|init| - 1] == prev;
      assert Growing(init) by {
        forall i | 0 <= i < |init| - 1
          ensures !Done(init[i]) && init[i].x.result <= init[i + 1].x.result
        {
          assert init[i] == snaps[i] && init[i + 1] == snaps[i + 1];
        }
      }
      FollowShowsOutputOnce(init);
      assert Follow(snaps) == Follow(init) + Tail(prev, last);
      assert !Done(prev) && prev.x.result <= last.x.result;
      var d := last.x.result[|prev.x.result|..];
      assert last.x.result == prev.x.result + d;
      TailStreams(prev, last, d);
      PrefixSplit(first, prev.x.result, last.x.result);
      IndentConcat(prev.x.result[|first|..], d);
    }
  }

  /** Slicing a prefix chain. */
  lemma PrefixSplit(a: string, b: string, c: string)
    requires a <= b && b <= c
    ensures a <= c && c[|a|..] == b[|a|..] + c[|b|..]
  {
    assert c == b + c[|b|..];
  }
}
