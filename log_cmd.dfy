/**
 * The `log` command of the command-line client (ci/logCmd.go): it fetches
 * one job, shows its refresh and, once the refresh has finished, its build;
 * then it either prints both summaries (the refresh first only when the
 * build started strictly after the refresh ended), or keeps polling and
 * prints only what changed.
 *
 * Each fetch is an input: the job snapshot the server answered and the time
 * it was read. The polling never stops in the client; here it runs over a
 * given finite sequence of fetches.
 */
module LogCmd {
  import opened Wrappers
  import opened Format
  import opened Text
  import opened ExecView

  /** One answer of the server, read at time `now`. */
  datatype Fetch = Fetch(job: JobMsg, now: int)

  /** The message printed before the usage when the argument count is wrong. */
  function ArgError(got: nat): string
  {
    "log command requires 1 arguments. Got " + Decimal(got) + "\n"
  }

  function RefreshView(f: Fetch): Exec
  {
    NewExec(f.job.refresh, "refresh", f.now)
  }

  function BuildView(f: Fetch): Exec
  {
    NewExec(f.job.build, "build", f.now)
  }

  /**
   * The first screen: the refresh in full; once the refresh is done, its
   * summary and the build in full; once the build is done too, its summary.
   * (`fmt.Println(x, "\n")` prints x, a space and two newlines.)
   */
  function Screen(r: Exec, b: Exec): (s: string)
    ensures Print(r) + " \n\n" <= s
    ensures !Done(r) ==> s == Print(r) + " \n\n"
    ensures Done(r) ==> Print(r) + " \n\n" + Summary(r) + "\n" + Print(b) <= s
  {
    var closing := " \n\n" + (if Done(b) then Summary(b) + "\n" else "");
    LeadingParts(Print(r), " \n\n", Summary(r), "\n", Print(b), closing);
    if Done(r) then Print(r) + " \n\n" + Summary(r) + "\n" + Print(b) + closing else Print(r) + " \n\n"
  }

  /**
   * The closing summaries when not following, each shown once: the refresh
   * first exactly when the build started strictly after the refresh ended
   * (Go's `After` over whole-second stamps).
   */
  function Closing(r: Exec, b: Exec): (c: string)
    ensures c == "\n\n " + Summary(r) + " \n " + Summary(b) + "\n"
         || c == "\n\n " + Summary(b) + " \n " + Summary(r) + "\n"
  {
    if StartAfter(b, r) then "\n\n " + Summary(r) + " \n " + Summary(b) + "\n"
    else "\n\n " + Summary(b) + " \n " + Summary(r) + "\n"
  }

  /** The text printed while following: for each new fetch, what changed in the refresh, then in the build. */
  function Polled(fs: seq<Fetch>): string
  {
    if |fs| < 2 then ""
    else
      var n := |fs|;
      Polled(fs[..n - 1]) + Changes(fs[n - 2], fs[n - 1])
  }

  /** What one poll prints: the changes of the refresh, then those of the build. */
  function Changes(prev: Fetch, next: Fetch): string
  {
    Tail(RefreshView(prev), RefreshView(next)) + Tail(BuildView(prev), BuildView(next))
  }

  /** A further fetch only appends to what following has printed so far. */
  lemma PolledGrows(fs: seq<Fetch>)
    requires |fs| >= 2
    ensures Polled(fs[..|fs| - 1]) <= Polled(fs)
  {
    var n := |fs|;
    PrefixOfAppend(Polled(fs[..n - 1]), Changes(fs[n - 2], fs[n - 1]));
  }

  /** The refresh views of successive fetches. */
  function RefreshViews(fs: seq<Fetch>): (rs: seq<Exec>)
    ensures |rs| == |fs|
    ensures forall i :: 0 <= i < |fs| ==> rs[i] == RefreshView(fs[i])
  {
    if fs == [] then [] else RefreshViews(fs[..|fs| - 1]) + [RefreshView(fs[|fs| - 1])]
  }

  /**
   * `logCmd.Run`: a wrong argument count is refused; otherwise the first
   * screen, then either the closing summaries or the changes seen by each
   * later fetch.
   */
  method Run(args: seq<string>, tail: bool, first: Fetch, later: seq<Fetch>) returns (out: Result<string, string>)
    ensures |args| != 1 ==> out == Failure(ArgError(|args|))
    ensures |args| == 1 && !tail ==>
      out == Success(Screen(RefreshView(first), BuildView(first)) + Closing(RefreshView(first), BuildView(first)))
    ensures |args| == 1 && tail ==>
      out == Success(Screen(RefreshView(first), BuildView(first)) + Polled([first] + later))
  {
    if |args| != 1 {
      return Failure(ArgError(|args|));
    }
    var b, r := BuildView(first), RefreshView(first);
    var text := Screen(r, b);
    if tail {
      var changes := Poll(first, later);
      text := text + changes;
    } else {
      text := text + Closing(r, b);
    }
    return Success(text);
  }

  /** The polling loop: after each fetch, the changes of both phases since the previous one. */
  method Poll(first: Fetch, later: seq<Fetch>) returns (text: string)
    ensures text == Polled([first] + later)
  {
    var fetches := [first] + later;
    var b, r := BuildView(first), RefreshView(first);
    text := "";
    for i := 1 to |fetches|
      invariant r == RefreshView(fetches[i - 1]) && b == BuildView(fetches[i - 1])
      invariant text == Polled(fetches[..i])
    {
      var newb, newr := BuildView(fetches[i]), RefreshView(fetches[i]);
      assert Changes(fetches[i - 1], fetches[i]) == Tail(r, newr) + Tail(b, newb);
      text := text + Tail(r, newr) + Tail(b, newb);
      b, r := newb, newr;
      assert fetches[..i + 1][..i] == fetches[..i];
    }
    assert fetches[..|fetches|] == fetches;
  }

  /** While the build stays finished, following shows exactly the refresh's own changes. */
  lemma {:induction false} QuietBuildShowsRefresh(fs: seq<Fetch>)
    requires forall i :: 0 <= i < |fs| ==> Done(BuildView(fs[i]))
    ensures Polled(fs) == Follow(RefreshViews(fs))
  {
    if |fs| >= 2 {
      var n := |fs|;
      var init := fs[..n - 1];
      QuietBuildShowsRefresh(init);
      assert Tail(BuildView(fs[n - 2]), BuildView(fs[n - 1])) == "";
      assert Changes(fs[n - 2], fs[n - 1]) == Tail(RefreshView(fs[n - 2]), RefreshView(fs[n - 1]));
      assert RefreshViews(fs)[..n - 1] == RefreshViews(init);
    }
  }

  /**
   * Following a refresh that has not finished by the last fetch, with a
   * finished build, shows the refresh's new output exactly once.
   */
  lemma {:induction false} FollowRefresh(fs: seq<Fetch>)
    requires |fs| >= 1
    requires forall i :: 0 <= i < |fs| ==> Done(BuildView(fs[i]))
    requires forall i :: 0 <= i < |fs| - 1 ==>
      !Done(RefreshView(fs[i])) && fs[i].job.refresh.result <= fs[i + 1].job.refresh.result
    requires !Done(RefreshView(fs[|fs| - 1]))
    ensures fs[0].job.refresh.result <= fs[|fs| - 1].job.refresh.result
    ensures Polled(fs) == Indent(fs[|fs| - 1].job.refresh.result[|fs[0].job.refresh.result|..])
  {
    QuietBuildShowsRefresh(fs);
    var rs := RefreshViews(fs);
    assert Growing(rs);
    FollowShowsOutputOnce(rs);
  }

  /** The closing text that lists the refresh summary first. */
  function RefreshFirst(f: Fetch): string
  {
    "\n\n " + Summary(RefreshView(f)) + " \n " + Summary(BuildView(f)) + "\n"
  }

  /**
   * The closing summaries of one fetch list the refresh first exactly when
   * the build started in a later second than the one the refresh ended in.
   */
  lemma ClosingChronological(f: Fetch)
    ensures Closing(RefreshView(f), BuildView(f)) == RefreshFirst(f) <==> f.job.build.start > f.job.refresh.end
  {
    var r, b := RefreshView(f), BuildView(f);
    if !StartAfter(b, r) {
      assert "build"[0] == 'b' && "refresh"[0] == 'r';
      LeadingChar("\n\n ", Summary(b), " \n ", Summary(r), "\n", b.name);
      LeadingChar("\n\n ", Summary(r), " \n ", Summary(b), "\n", r.name);
    }
  }

  /** The character right after a fixed opening is the first of the summary that follows it. */
  lemma LeadingChar(open: string, s: string, mid: string, s2: string, end: string, name: string)
    requires name != [] && name <= s
    ensures (open + s + mid + s2 + end)[|open|] == name[0]
  {
    assert (open + s + mid + s2 + end)[|open|] == s[0];
  }

  /**
   * A build that starts in the very second its refresh ended, as the build
   * of a run usually does, is summarised first.
   */
  lemma ClosingSameSecond(f: Fetch)
    requires f.job.build.start == f.job.refresh.end
    ensures Closing(RefreshView(f), BuildView(f)) == "\n\n " + Summary(BuildView(f)) + " \n " + Summary(RefreshView(f)) + "\n"
    ensures Closing(RefreshView(f), BuildView(f)) != RefreshFirst(f)
  {
    ClosingChronological(f);
  }
}
