/** The job list of tsh.c: sixteen entries, and the next job number to hand out. */
module JobTable {
  import opened Sequences

  const MAXJOBS := 16

  datatype State = Undef | Fg | Bg | St

  datatype Job = Job(pid: nat, jid: nat, state: State, cmdline: string)

  const Clear := Job(0, 0, Undef, "")

  /** The first entry of a process (of pid 0: the first free one); |jobs| if there is none. */
  function Slot(jobs: seq<Job>, pid: nat): (i: nat)
    ensures i <= |jobs| && (i < |jobs| ==> jobs[i].pid == pid)
    ensures forall k :: 0 <= k < i ==> jobs[k].pid != pid
  {
    First(jobs, (job: Job) => job.pid == pid)
  }

  /** The first entry with a job number. */
  function JidSlot(jobs: seq<Job>, jid: nat): (i: nat)
    ensures i <= |jobs| && (i < |jobs| ==> jobs[i].jid == jid)
    ensures forall k :: 0 <= k < i ==> jobs[k].jid != jid
  {
    First(jobs, (job: Job) => job.jid == jid)
  }

  /** The first entry in the foreground. */
  function FgSlot(jobs: seq<Job>): (i: nat)
    ensures i <= |jobs| && (i < |jobs| ==> jobs[i].state == Fg)
    ensures forall k :: 0 <= k < i ==> jobs[k].state != Fg
  {
    First(jobs, (job: Job) => job.state == Fg)
  }

  /** The largest job number in use, 0 if there is none. */
  function Largest(jobs: seq<Job>): (m: nat)
    ensures forall k :: 0 <= k < |jobs| ==> jobs[k].jid <= m
    ensures m == 0 || exists k :: 0 <= k < |jobs| && jobs[k].jid == m
  {
    if jobs == [] then 0
    else
      var m := Largest(jobs[..|jobs| - 1]);
      if jobs[|jobs| - 1].jid > m then jobs[|jobs| - 1].jid else m
  }

  datatype Table = Table(jobs: seq<Job>, nextjid: nat)

  function Empty(): Table { Table(seq(MAXJOBS, _ => Clear), 1) }

  /** addjob, for a process that exists: it takes the first free entry, if there is one. */
  function Added(t: Table, pid: nat, state: State, cmdline: string): Table {
    var i := Slot(t.jobs, 0);
    if i == |t.jobs| then t
    else Table(t.jobs[i := Job(pid, t.nextjid, state, cmdline)], if t.nextjid + 1 > MAXJOBS then 1 else t.nextjid + 1)
  }

  /** deletejob. */
  function Deleted(t: Table, pid: nat): Table {
    var i := Slot(t.jobs, pid);
    if i == |t.jobs| then t else Table(t.jobs[i := Clear], Largest(t.jobs[i := Clear]) + 1)
  }

  /** An assignment to the state of an entry. */
  function Set(t: Table, i: nat, state: State): Table
    requires i < |t.jobs|
  {
    t.(jobs := t.jobs[i := t.jobs[i].(state := state)])
  }

  /** The globals jobs and nextjid, updated in place. */
  class Jobs {
    const jobs: array<Job>
    var nextjid: nat

    ghost predicate Valid() { jobs.Length == MAXJOBS }

    ghost function Value(): Table
      reads this, jobs
    {
      Table(jobs[..], nextjid)
    }

    /** initjobs. */
    constructor InitJobs()
      ensures Valid() && fresh(jobs) && Value() == Empty()
    {
      jobs := new Job[MAXJOBS](_ => Clear);
      nextjid := 1;
      new;
      var i := 0;
      while i < MAXJOBS
        invariant 0 <= i <= MAXJOBS && jobs.Length == MAXJOBS && nextjid == 1 && fresh(jobs)
        invariant forall k :: 0 <= k < MAXJOBS ==> jobs[k] == Clear
      {
        jobs[i] := Clear;
        i := i + 1;
      }
      assert jobs[..] == seq(MAXJOBS, _ => Clear);
    }

    method MaxJid() returns (max: nat)
      requires Valid()
      ensures max == Largest(jobs[..])
    {
      max := 0;
      var i := 0;
      while i < MAXJOBS
        invariant 0 <= i <= MAXJOBS && max == Largest(jobs[..i])
      {
        assert jobs[..i + 1][..i] == jobs[..i];
        if jobs[i].jid > max { max := jobs[i].jid; }
        i := i + 1;
      }
      assert jobs[..MAXJOBS] == jobs[..];
    }

    method AddJob(pid: int, state: State, cmdline: string) returns (added: bool)
      requires Valid()
      modifies this, jobs
      ensures Valid() && added == (pid >= 1 && Slot(old(Value()).jobs, 0) < MAXJOBS)
      ensures Value() == if pid < 1 then old(Value()) else Added(old(Value()), pid, state, cmdline)
    {
      if pid < 1 { return false; }
      var i := 0;
      while i < MAXJOBS
        invariant 0 <= i <= MAXJOBS && Value() == old(Value())
        invariant forall k :: 0 <= k < i ==> jobs[k].pid != 0
      {
        if jobs[i].pid == 0 {
          assert Slot(jobs[..], 0) == i;
          jobs[i] := Job(pid, nextjid, state, cmdline);
          nextjid := nextjid + 1;
          if nextjid > MAXJOBS { nextjid := 1; }
          return true;
        }
        i := i + 1;
      }
      assert Slot(jobs[..], 0) == MAXJOBS;
      return false;
    }

    method DeleteJob(pid: int) returns (deleted: bool)
      requires Valid()
      modifies this, jobs
      ensures Valid() && deleted == (pid >= 1 && Slot(old(Value()).jobs, pid) < MAXJOBS)
      ensures Value() == if pid < 1 then old(Value()) else Deleted(old(Value()), pid)
    {
      if pid < 1 { return false; }
      var i := 0;
      while i < MAXJOBS
        invariant 0 <= i <= MAXJOBS && Value() == old(Value())
        invariant forall k :: 0 <= k < i ==> jobs[k].pid != pid
      {
        if jobs[i].pid == pid {
          assert Slot(jobs[..], pid) == i;
          jobs[i] := Clear;
          assert jobs[..] == old(jobs[..])[i := Clear];
          var max := MaxJid();
          nextjid := max + 1;
          return true;
        }
        i := i + 1;
      }
      assert Slot(jobs[..], pid) == MAXJOBS;
      return false;
    }

    /** getjobpid; the entry is given by its index, NULL by None. */
    method GetJobPid(pid: int) returns (found: bool, i: nat)
      requires Valid()
      ensures found == (pid >= 1 && Slot(jobs[..], pid) < MAXJOBS)
      ensures found ==> i == Slot(jobs[..], pid)
    {
      i := 0;
      if pid < 1 { return false, 0; }
      while i < MAXJOBS
        invariant 0 <= i <= MAXJOBS && forall k :: 0 <= k < i ==> jobs[k].pid != pid
      {
        if jobs[i].pid == pid {
          assert Slot(jobs[..], pid) == i;
          return true, i;
        }
        i := i + 1;
      }
      assert Slot(jobs[..], pid) == MAXJOBS;
      return false, i;
    }

    method GetJobJid(jid: int) returns (found: bool, i: nat)
      requires Valid()
      ensures found == (jid >= 1 && JidSlot(jobs[..], jid) < MAXJOBS)
      ensures found ==> i == JidSlot(jobs[..], jid)
    {
      i := 0;
      if jid < 1 { return false, 0; }
      while i < MAXJOBS
        invariant 0 <= i <= MAXJOBS && forall k :: 0 <= k < i ==> jobs[k].jid != jid
      {
        if jobs[i].jid == jid { return true, i; }
        i := i + 1;
      }
      assert JidSlot(jobs[..], jid) == MAXJOBS;
      return false, i;
    }

    method FgPid() returns (pid: nat)
      requires Valid()
      ensures pid == if FgSlot(jobs[..]) < MAXJOBS then jobs[FgSlot(jobs[..])].pid else 0
    {
      var i := 0;
      while i < MAXJOBS
        invariant 0 <= i <= MAXJOBS && forall k :: 0 <= k < i ==> jobs[k].state != Fg
      {
        if jobs[i].state == Fg { return jobs[i].pid; }
        i := i + 1;
      }
      return 0;
    }
  }

  // ---- job numbers ----------------------------------------------------------------------------

  /** Every job number in use is below the next one, and none is used twice. */
  ghost predicate Numbered(t: Table) {
    && (forall i :: 0 <= i < |t.jobs| && t.jobs[i].pid != 0 ==> 0 < t.jobs[i].jid < t.nextjid)
    && (forall i :: 0 <= i < |t.jobs| && t.jobs[i].pid == 0 ==> t.jobs[i].jid == 0)
    && (forall i, j :: 0 <= i < j < |t.jobs| && t.jobs[i].pid != 0 && t.jobs[j].pid != 0 ==> t.jobs[i].jid != t.jobs[j].jid)
  }

  /** Below the wrap, addjob hands out fresh numbers and keeps the rule. */
  lemma AddNumbers(t: Table, pid: nat, state: State, cmdline: string)
    requires Numbered(t) && pid > 0 && 0 < t.nextjid < MAXJOBS
    ensures Numbered(Added(t, pid, state, cmdline))
  {
  }

  ghost predicate DistinctJids(t: Table) {
    forall i, j :: 0 <= i < j < |t.jobs| && t.jobs[i].pid != 0 && t.jobs[j].pid != 0 ==> t.jobs[i].jid != t.jobs[j].jid
  }

  /** At any time it keeps the numbers distinct exactly if the next one is not in use. */
  lemma AddDistinct(t: Table, pid: nat, state: State, cmdline: string)
    requires DistinctJids(t) && pid > 0 && Slot(t.jobs, 0) < |t.jobs|
    ensures DistinctJids(Added(t, pid, state, cmdline)) <==> forall i :: 0 <= i < |t.jobs| && t.jobs[i].pid != 0 ==> t.jobs[i].jid != t.nextjid
  {
    var k, u := Slot(t.jobs, 0), Added(t, pid, state, cmdline);
    assert u.jobs[k] == Job(pid, t.nextjid, state, cmdline);
    forall i | 0 <= i < |t.jobs| && t.jobs[i].pid != 0 ensures i != k && u.jobs[i] == t.jobs[i] {}
  }

  /** deletejob starts the numbers afresh, above all in use, wrapped or not. */
  lemma DeleteNumbers(t: Table, pid: nat)
    requires DistinctJids(t) && pid > 0 && Slot(t.jobs, pid) < |t.jobs|
    requires forall i :: 0 <= i < |t.jobs| ==> (t.jobs[i].pid == 0 <==> t.jobs[i].jid == 0)
    ensures Numbered(Deleted(t, pid))
  {
  }

  /** The table after n calls of addjob, for processes 1 to n. */
  function Filled(n: nat): Table {
    if n == 0 then Empty() else Added(Filled(n - 1), n, Bg, "")
  }

  lemma {:induction false} FilledIs(n: nat)
    requires n < MAXJOBS
    ensures |Filled(n).jobs| == MAXJOBS && Filled(n).nextjid == n + 1
    ensures forall i :: 0 <= i < MAXJOBS ==> Filled(n).jobs[i] == if i < n then Job(i + 1, i + 1, Bg, "") else Clear
  {
    hide Slot;
    if n > 0 {
      FilledIs(n - 1);
      assert Filled(n - 1).jobs[n - 1].pid == 0;
      assert Slot(Filled(n - 1).jobs, 0) == n - 1;
    }
  }

  /** With 16 next, 1 in use, and two entries free, the second call from here hands out 1 again. */
  lemma Collides(t: Table, pid: nat, next: nat)
    requires |t.jobs| == MAXJOBS && t.nextjid == MAXJOBS && t.jobs[0].jid == 1 && t.jobs[0].pid != 0 && pid > 0 && next > 0
    requires t.jobs[1].pid == 0 && t.jobs[15].pid == 0
    ensures !DistinctJids(Added(Added(t, pid, Bg, ""), next, Bg, ""))
  {
    hide Slot;
    assert Slot(t.jobs, 0) == 1;
    var u := Added(t, pid, Bg, "");
    assert u.jobs[15].pid == 0 && Slot(u.jobs, 0) > 1;
    var v := Added(u, next, Bg, "");
    assert v.jobs[0].jid == 1 && v.jobs[Slot(u.jobs, 0)].jid == 1;
  }

  /** So after the wrap a number can be in use twice: fifteen jobs, the second one done, and two more. */
  lemma NumbersCollide()
    ensures !DistinctJids(Added(Added(Deleted(Filled(15), 2), 16, Bg, ""), 17, Bg, ""))
  {
    hide Slot, Largest, Filled, Added;
    FilledIs(15);
    var t := Deleted(Filled(15), 2);
    assert Filled(15).jobs[1].pid == 2;
    assert Slot(Filled(15).jobs, 2) == 1;
    assert t.jobs[14].jid == 15;
    Collides(t, 16, 17);
  }
}
