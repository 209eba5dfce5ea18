/**
 * The daemon's registry of jobs (daemon.go): a map from job name to job,
 * the daemon's working directory and a count of the commit notifications
 * received. Jobs are added and removed by name, listed, persisted as a list
 * of job snapshots and restored from one, and laid out in rows of three for
 * the dashboard.
 *
 * Go ranges over a map in an unspecified order; the loops here pick the next
 * entry with `:|`, so every contract holds whatever the order.
 */
module Daemon {
  import opened Wrappers
  import opened Format
  import opened Executions
  import opened ByName
  import opened Jobs

  /** What `os.RemoveAll` of a job directory answers. */
  datatype RemoveOutcome = Removed | NotExist | RemoveFailed(msg: string)

  /** The message `AddJob` returns for a name already in use. */
  const DuplicateJob: string := "a job with this name already exists."

  /** The number of jobs per row of the dashboard matrix. */
  const RowLength: nat := 3

  /** A map entry: a job under its name. */
  type Entry = (string, Job)

  /** The `byName` key of the daemon: the job's name, which is the entry's name in a valid registry. */
  function EntryKey(e: Entry): string
  {
    e.0
  }

  /** The rows of a matrix, read one after another. */
  function Flatten<T>(rows: seq<seq<T>>): seq<T>
  {
    if rows == [] then [] else Flatten(rows[..|rows| - 1]) + rows[|rows| - 1]
  }

  /** Counting positions in rows of three: a position divisible by three opens a new row. */
  lemma RowCount(i: nat)
    requires i > 0
    ensures i % RowLength == 0 ==> (i - 1) % RowLength + 1 == RowLength
    ensures i % RowLength != 0 ==> i % RowLength == (i - 1) % RowLength + 1
  {
  }

  /** Closing one more row appends its elements. */
  lemma FlattenPush<T>(rows: seq<seq<T>>, row: seq<T>)
    ensures Flatten(rows + [row]) == Flatten(rows) + row
  {
    assert (rows + [row])[..|rows|] == rows;
  }

  /**
   * The registry restored from a list of job snapshots: each snapshot is
   * stored under its own name, and a later one replaces an earlier one with
   * the same name.
   */
  function Restored(f: seq<JobMsg>): (m: map<string, JobMsg>)
    ensures forall k :: k in m ==> m[k].id.name == k
    ensures |f| > 0 ==> f[|f| - 1].id.name in m && m[f[|f| - 1].id.name] == f[|f| - 1]
  {
    if f == [] then map[]
    else Restored(f[..|f| - 1])[f[|f| - 1].id.name := f[|f| - 1]]
  }

  /** No two snapshots of the list carry the same name. */
  ghost predicate NamesDistinct(f: seq<JobMsg>)
  {
    forall i, j :: 0 <= i < j < |f| ==> f[i].id.name != f[j].id.name
  }

  /** The restored registry holds a job exactly for each name in the list. */
  lemma {:induction false} RestoredNames(f: seq<JobMsg>)
    ensures forall k :: k in Restored(f) <==> exists i :: 0 <= i < |f| && f[i].id.name == k
  {
    if f != [] {
      var init := f[..|f| - 1];
      RestoredNames(init);
      forall k | k in Restored(f)
        ensures exists i :: 0 <= i < |f| && f[i].id.name == k
      {
        if k != f[|f| - 1].id.name {
          assert k in Restored(init);
          var i :| 0 <= i < |init| && init[i].id.name == k;
          assert f[i] == init[i];
        }
      }
      forall k, i | 0 <= i < |f| && f[i].id.name == k
        ensures k in Restored(f)
      {
        if i < |init| {
          assert init[i] == f[i];
        }
      }
    }
  }

  /** The snapshot restored under a name is the last one in the list with that name. */
  lemma {:induction false} RestoredLastWins(f: seq<JobMsg>, i: nat)
    requires i < |f|
    requires forall j :: i < j < |f| ==> f[j].id.name != f[i].id.name
    ensures f[i].id.name in Restored(f) && Restored(f)[f[i].id.name] == f[i]
  {
    if i < |f| - 1 {
      var init := f[..|f| - 1];
      assert init[i] == f[i];
      forall j | i < j < |init|
        ensures init[j].id.name != init[i].id.name
      {
        assert init[j] == f[j];
      }
      RestoredLastWins(init, i);
    }
  }

  /** A list whose names are distinct is restored with every snapshot kept. */
  lemma RestoredDistinct(f: seq<JobMsg>)
    requires NamesDistinct(f)
    ensures |Restored(f)| == |f|
    ensures forall i :: 0 <= i < |f| ==> f[i].id.name in Restored(f) && Restored(f)[f[i].id.name] == f[i]
  {
    forall i | 0 <= i < |f|
      ensures f[i].id.name in Restored(f) && Restored(f)[f[i].id.name] == f[i]
    {
      RestoredLastWins(f, i);
    }
    RestoredSize(f);
  }

  lemma {:induction false} RestoredSize(f: seq<JobMsg>)
    requires NamesDistinct(f)
    ensures |Restored(f)| == |f|
  {
    if f != [] {
      var init := f[..|f| - 1];
      assert NamesDistinct(init);
      RestoredSize(init);
      RestoredNames(init);
    }
  }

  class Ci {
    var jobs: map<string, Job>
    var wd: string
    var heartbeats: int

    /** Every job is stored under its own name. */
    ghost predicate Valid()
      reads this, jobs.Values
    {
      forall k :: k in jobs ==> jobs[k].name == k
    }

    /** The persistent content of the registry: the full snapshot of each job, by name. */
    ghost function Abs(): map<string, JobMsg>
      reads this, jobs.Values
    {
      map k | k in jobs :: jobs[k].Marshal()
    }

    /** A daemon with no jobs, as `NewDaemon` creates it before loading its state file. */
    constructor (wd: string)
      ensures Valid() && jobs == map[] && this.wd == wd && heartbeats == 0
    {
      jobs := map[];
      this.wd := wd;
      heartbeats := 0;
    }

    /** Adds a never-run job under a new name; a name in use is refused and nothing changes. */
    method AddJob(path: string, remote: string, branch: string) returns (err: Option<string>)
      requires Valid()
      modifies this`jobs
      ensures Valid()
      ensures path in old(jobs) ==> err == Some(DuplicateJob) && jobs == old(jobs)
      ensures path !in old(jobs) ==>
        err.None? && jobs.Keys == old(jobs).Keys + {path} && fresh(jobs[path])
        && jobs[path].Marshal() == JobMsg(Jobid(path, remote, branch), ToMsg(Zero, true), ToMsg(Zero, true))
        && jobs[path].at == null
        && forall k :: k in old(jobs) ==> jobs[k] == old(jobs)[k]
    {
      if path in jobs {
        return Some(DuplicateJob);
      }
      var j := new Job(path, remote, branch);
      jobs := jobs[path := j];
      return None;
    }

    /**
     * Removes a job by name. The registry forgets it even when its directory
     * cannot be deleted; only that failure is reported, and a directory that
     * was already gone is not a failure. An unknown name is not an error.
     */
    method RemoveJob(path: string, removeAll: RemoveOutcome) returns (err: Option<string>)
      requires Valid()
      modifies this`jobs
      ensures Valid()
      ensures jobs == old(jobs) - {path}
      ensures err.Some? <==> path in old(jobs) && removeAll.RemoveFailed?
      ensures err.Some? ==> err.value == "cannot removing job's local directory: " + removeAll.msg
    {
      if path in jobs {
        jobs := jobs - {path};
        match removeAll
        case Removed =>
        case NotExist =>
          return None;
        case RemoveFailed(msg) =>
          return Some("cannot removing job's local directory: " + msg);
      }
      return None;
    }

    /** The entries of the map, each exactly once, in an unspecified order. */
    method Entries() returns (es: seq<Entry>)
      ensures |es| == |jobs|
      ensures forall i :: 0 <= i < |es| ==> es[i].0 in jobs && es[i].1 == jobs[es[i].0]
      ensures forall k :: k in jobs ==> (k, jobs[k]) in es
      ensures KeysUnique(es, EntryKey)
    {
      es := [];
      var left := jobs.Keys;
      while left != {}
        invariant left <= jobs.Keys
        invariant |es| + |left| == |jobs.Keys|
        invariant forall i :: 0 <= i < |es| ==> es[i].0 in jobs.Keys - left && es[i].1 == jobs[es[i].0]
        invariant forall k :: k in jobs.Keys - left ==> (k, jobs[k]) in es
        invariant KeysUnique(es, EntryKey)
        decreases |left|
      {
        var k :| k in left;
        es := es + [(k, jobs[k])];
        left := left - {k};
      }
    }

    /** A snapshot of every job, each with the requested outputs, in an unspecified order. */
    method ListJobs(refreshResult: bool, buildResult: bool) returns (js: seq<JobMsg>)
      requires Valid()
      ensures |js| == |jobs|
      ensures forall i :: 0 <= i < |js| ==>
        js[i].id.name in jobs && js[i] == jobs[js[i].id.name].Status(refreshResult, buildResult)
      ensures forall k :: k in jobs ==> jobs[k].Status(refreshResult, buildResult) in js
      ensures NamesDistinct(js)
    {
      var es := Entries();
      assert forall n :: 0 <= n < |es| ==> es[n].1.name == es[n].0;
      js := [];
      for i := 0 to |es|
        invariant |js| == i
        invariant forall n :: 0 <= n < i ==> js[n] == es[n].1.Status(refreshResult, buildResult)
        invariant forall n :: 0 <= n < i ==> js[n].id.name == es[n].0
      {
        js := js + [es[i].1.Status(refreshResult, buildResult)];
      }
      forall k | k in jobs
        ensures jobs[k].Status(refreshResult, buildResult) in js
      {
        var n :| 0 <= n < |es| && es[n] == (k, jobs[k]);
        assert js[n] == jobs[k].Status(refreshResult, buildResult);
      }
    }

    /** The snapshot of one job; `None` where Go dereferences the missing job and panics. */
    function JobDetails(name: string): (r: Option<JobMsg>)
      reads this, jobs.Values
      ensures r.Some? <==> name in jobs
      ensures r.Some? ==> r.value == jobs[name].Marshal()
      ensures r.Some? ==> (r.value.refresh.result == jobs[name].refresh.result
                           && r.value.build.result == jobs[name].build.result)
    {
      if name in jobs then Some(jobs[name].Status(true, true)) else None
    }

    /** The state written to the state file: every job's full snapshot. */
    method Marshal() returns (f: seq<JobMsg>)
      requires Valid()
      ensures NamesDistinct(f)
      ensures Restored(f) == Abs()
    {
      f := ListJobs(true, true);
      RestoredDistinct(f);
      RestoredNames(f);
      forall k | k in jobs
        ensures k in Restored(f) && Restored(f)[k] == jobs[k].Marshal()
      {
        var i :| 0 <= i < |f| && f[i] == jobs[k].Status(true, true);
      }
    }

    /**
     * Replaces the registry by the jobs of a state file: one new, unscheduled
     * job per name, holding the last snapshot with that name. It never fails.
     */
    method Unmarshal(f: seq<JobMsg>) returns (err: Option<string>)
      modifies this`jobs
      ensures err.None?
      ensures Valid()
      ensures Abs() == Restored(f)
      ensures forall k :: k in jobs ==> fresh(jobs[k]) && jobs[k].at == null
    {
      jobs := map[];
      for i := 0 to |f|
        invariant Valid()
        invariant Abs() == Restored(f[..i])
        invariant forall k :: k in jobs ==> fresh(jobs[k]) && jobs[k].at == null
      {
        Restore(f[i]);
        assert f[..i + 1][..i] == f[..i];
      }
      assert f[..|f|] == f;
      return None;
    }

    /** Stores a new, unscheduled job holding the snapshot under its name. */
    method Restore(msg: JobMsg)
      requires Valid()
      modifies this`jobs
      ensures Valid() && Abs() == old(Abs())[msg.id.name := msg]
      ensures jobs.Keys == old(jobs.Keys) + {msg.id.name}
      ensures forall k :: k in old(jobs) && k != msg.id.name ==> jobs[k] == old(jobs)[k]
      ensures fresh(jobs[msg.id.name]) && jobs[msg.id.name].at == null
    {
      var jb := new Job.FromMsg(msg);
      jobs := jobs[jb.name := jb];
    }

    /** A commit notification: it is counted and every job is (re)scheduled a debounce delay from `now`. */
    method HeartBeats(now: int)
      requires Valid()
      modifies this`heartbeats, jobs.Values`at, set j | j in jobs.Values && j.at != null :: j.at
      ensures heartbeats == old(heartbeats) + 1
      ensures Valid()
      ensures forall j :: j in jobs.Values ==> j.at != null && j.at.deadline == now + RunDelay
      ensures forall j :: j in jobs.Values && old(j.at) != null ==> j.at == old(j.at)
      ensures forall j :: j in jobs.Values && old(j.at) == null ==> fresh(j.at)
    {
      heartbeats := heartbeats + 1;
      RunAll(jobs.Values, now);
    }

    /**
     * The dashboard layout: the jobs sorted by name, in rows of three, the
     * last row holding the one to three left over; no rows without jobs.
     */
    method JobMatrix() returns (rows: seq<seq<Job>>)
      requires Valid()
      ensures |Flatten(rows)| == |jobs|
      ensures forall k :: k in jobs ==> jobs[k] in Flatten(rows)
      ensures forall j :: j in Flatten(rows) ==> j in jobs.Values
      ensures forall a, b :: 0 <= a < b < |Flatten(rows)| ==> Less(Flatten(rows)[a].name, Flatten(rows)[b].name)
      ensures forall r :: 0 <= r < |rows| - 1 ==> |rows[r]| == RowLength
      ensures rows != [] ==> 1 <= |rows[|rows| - 1]| <= RowLength
    {
      if |jobs| == 0 {
        return [];
      }
      var list := SortedJobs();
      rows := Rows(list);
    }

    /** The jobs in `byName` order: each job once, names strictly ascending. */
    method SortedJobs() returns (list: seq<Job>)
      requires Valid()
      ensures |list| == |jobs|
      ensures forall k :: k in jobs ==> jobs[k] in list
      ensures forall j :: j in list ==> j in jobs.Values
      ensures forall a, b :: 0 <= a < b < |list| ==> Less(list[a].name, list[b].name)
    {
      var es := Entries();
      var sorted := SortBy(es, EntryKey);
      SortUnique(es, EntryKey);
      SortPermutes(es, EntryKey);
      list := Seconds(sorted);
      forall n | 0 <= n < |sorted|
        ensures sorted[n].0 in jobs && sorted[n].1 == jobs[sorted[n].0] && list[n].name == sorted[n].0
      {
        assert sorted[n] in multiset(es);
      }
      forall k | k in jobs
        ensures jobs[k] in list
      {
        assert (k, jobs[k]) in multiset(sorted);
        var n :| 0 <= n < |sorted| && sorted[n] == (k, jobs[k]);
        assert list[n] == jobs[k];
      }
    }
  }

  /**
   * Schedules every job of `js` a debounce delay from `now`, one after
   * another: a job that had a timer keeps it, re-armed; one without gets a
   * new one.
   */
  method RunAll(js: set<Job>, now: int)
    modifies js`at, set j | j in js && j.at != null :: j.at
    ensures forall j :: j in js ==> j.at != null && j.at.deadline == now + RunDelay
    ensures forall j :: j in js && old(j.at) != null ==> j.at == old(j.at)
    ensures forall j :: j in js && old(j.at) == null ==> fresh(j.at)
  {
    var left := js;
    while left != {}
      invariant left <= js
      invariant forall j :: j in left ==> j.at == old(j.at)
      invariant forall j :: j in js && old(j.at) != null ==> j.at == old(j.at)
      invariant forall j :: j in js && old(j.at) == null && j.at != null ==> fresh(j.at)
      invariant forall j :: j in js - left ==> j.at != null && j.at.deadline == now + RunDelay
      decreases |left|
    {
      var j :| j in left;
      j.Run(now);
      left := left - {j};
    }
  }

  /** The second components of a sequence of pairs, in order. */
  method Seconds<A, B>(s: seq<(A, B)>) returns (l: seq<B>)
    ensures |l| == |s| && forall n :: 0 <= n < |s| ==> l[n] == s[n].1
  {
    l := [];
    for i := 0 to |s|
      invariant |l| == i && forall n :: 0 <= n < i ==> l[n] == s[n].1
    {
      l := l + [s[i].1];
    }
  }

  /** Cuts a list into rows of three, the last row holding the one to three left over. */
  method Rows<T>(list: seq<T>) returns (rows: seq<seq<T>>)
    requires list != []
    ensures Flatten(rows) == list
    ensures forall r :: 0 <= r < |rows| - 1 ==> |rows[r]| == RowLength
    ensures rows != [] && 1 <= |rows[|rows| - 1]| <= RowLength
  {
    rows := [];
    var row: seq<T> := [];
    for i := 0 to |list|
      invariant Flatten(rows) + row == list[..i]
      invariant forall r :: 0 <= r < |rows| ==> |rows[r]| == RowLength
      invariant i == 0 ==> row == []
      invariant i > 0 ==> 1 <= |row| <= RowLength && |row| == (i - 1) % RowLength + 1
    {
      if i > 0 && i % RowLength == 0 {
        assert |row| == RowLength by { RowCount(i); }
        assert Flatten(rows + [row]) == Flatten(rows) + row by { FlattenPush(rows, row); }
        rows := rows + [row];
        row := [];
      } else if i > 0 {
        assert |row| + 1 == i % RowLength + 1 by { RowCount(i); }
      }
      assert list[..i + 1] == list[..i] + [list[i]];
      row := row + [list[i]];
    }
    FlattenPush(rows, row);
    rows := rows + [row];
    assert list[..|list|] == list;
  }

  /** Reloading what was persisted restores every job's snapshot under its name. */
  method PersistAndReload(c: Ci) returns (d: Ci)
    requires c.Valid()
    ensures d.Valid() && d.Abs() == c.Abs()
  {
    var f := c.Marshal();
    d := new Ci(c.wd);
    var _ := d.Unmarshal(f);
  }

  /** A removed name is free again: adding it right after the removal succeeds, whatever the directory removal answered. */
  method RemoveThenAdd(c: Ci, path: string, removeAll: RemoveOutcome, remote: string, branch: string)
    returns (addErr: Option<string>)
    requires c.Valid()
    modifies c
    ensures c.Valid() && addErr.None? && path in c.jobs
    ensures c.jobs[path].Marshal() == JobMsg(Jobid(path, remote, branch), ToMsg(Zero, true), ToMsg(Zero, true))
    ensures c.jobs[path].at == null
    ensures c.jobs.Keys == old(c.jobs.Keys) + {path}
    ensures forall k :: k in old(c.jobs) && k != path ==> k in c.jobs && c.jobs[k] == old(c.jobs)[k]
  {
    var _ := c.RemoveJob(path, removeAll);
    addErr := c.AddJob(path, remote, branch);
  }
}
