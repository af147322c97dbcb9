/** The processes of the kernel get their numbers from get_pid, which walks the list of the
    process table. */
module KernelPids {
  import opened Basics
  import opened Kernel
  import opened KernelRuns
  import opened KernelTree
  import opened ChildLinks
  import opened ProcTable
  import opened KernelView
  import opened KernelMachine
  import Pids

  lemma {:induction false} DistinctSize<T>(s: seq<T>, all: set<T>)
    requires Distinct(s) && forall x :: x in all <==> x in s
    ensures |all| == |s|
  {
    if s != [] {
      DistinctParts(s);
      DistinctSize(s[1..], all - {s[0]});
    } else {
      assert all == {};
    }
  }

  /** proc_list holds every process but idle once, and nr_process counts them all. */
  lemma {:induction false} Census(m: Machine)
    requires m.Valid()
    ensures Listing(PidsOf(m.table.list), m.k) && m.table.nrProcess == |m.k.procs|
  {
    var t, s := m.table, PidsOf(m.table.list);
    forall n
      ensures n in s <==> n in m.k.procs && n != IDLE
    {
      InCensus(m, n);
    }
    forall i, j | 0 <= i < j < |s|
      ensures s[i] != s[j]
    {
      assert t.list[i] in Listed(t.list) && t.list[j] in Listed(t.list);
      OneName(m.cells, t.kids, m.byPid, m.k.procs, t.list[i], t.list[j]);
    }
    DistinctSize(s, m.k.procs.Keys - {IDLE});
    assert IDLE in m.k.procs;
  }

  lemma {:induction false} InCensus(m: Machine, n: nat)
    requires m.Valid()
    ensures n in PidsOf(m.table.list) <==> n in m.k.procs && n != IDLE
  {
    var t, s := m.table, PidsOf(m.table.list);
    if n in s {
      var i :| 0 <= i < |s| && s[i] == n;
      assert t.list[i] in Listed(t.list);
      KnownAs(m.cells, t.kids, t.idle, t.init, m.Fields(), m.k, t.list[i]);
    }
    if n in m.k.procs && n != IDLE {
      FoundAs(m.cells, t.kids, t.idle, t.init, m.Fields(), m.k, n);
      var p := m.byPid[n];
      KnownAs(m.cells, t.kids, t.idle, t.init, m.Fields(), m.k, p);
      assert p in Listed(t.list);
      var i :| 0 <= i < |t.list| && t.list[i] == p;
      assert s[i] == n;
    }
  }

  /** What get_pid knows from one call to the next holds of the processes there are. */
  ghost predicate Known(lastPid: int, nextSafe: int, k: Kernel) {
    && 1 <= lastPid <= Pids.MAX_PID && 1 <= nextSafe <= Pids.MAX_PID
    && forall p {:trigger p in k.procs} :: p in k.procs ==> p < Pids.MAX_PID && !(lastPid < p < nextSafe)
  }

  ghost predicate Numbered(a: Pids.Allocator, k: Kernel)
    reads a
  {
    Known(a.lastPid, a.nextSafe, k)
  }

  /** The first number after the one given last, going round, that is not on the list. */
  ghost predicate NextFree(list: seq<int>, lastPid: int, pid: int) {
    1 <= Pids.Next(lastPid) < Pids.MAX_PID && Pids.FirstFree(list, Pids.Next(lastPid), pid)
  }

  ghost predicate Listing(list: seq<nat>, k: Kernel) {
    && Distinct(list) && IDLE in k.procs && |k.procs| == |list| + 1
    && (forall n {:trigger n in list} :: n in list ==> n in k.procs && n != IDLE)
    && (forall n {:trigger n in k.procs} :: n in k.procs && n != IDLE ==> n in list)
  }

  /** The walk of get_pid over proc_list. */
  method NumberFor(a: Pids.Allocator, list: seq<nat>, ghost k: Kernel) returns (pid: int)
    requires Numbered(a, k) && Listing(list, k) && |k.procs| < MAX_PROCESS
    modifies a
    ensures Numbered(a, k) && pid == a.lastPid && 0 < pid < Pids.MAX_PID && pid !in k.procs
    ensures NextFree(list, old(a.lastPid), pid)
  {
    a.list := list;
    pid := a.GetPid();
  }

  lemma {:induction false} ForkKnown(lastPid: int, nextSafe: int, k: Kernel)
    requires Known(lastPid, nextSafe, k) && lastPid < Pids.MAX_PID && k.current in k.procs && Fork(k, lastPid).Goes?
    ensures Known(lastPid, nextSafe, Fork(k, lastPid).k)
  {
    var r := Fork(k, lastPid).k;
    assert forall p {:trigger p in r.procs} :: p in r.procs ==> p in k.procs || p == lastPid;
  }

  lemma {:induction false} CanFork(m: Machine, pid: nat)
    requires m.Valid() && Can(m.k, SFork(pid))
    ensures m.k.current in m.k.procs && Fork(m.k, pid).Goes?
  {
    StepSafe(m.k, SFork(pid));
  }

  /** The rest of do_fork. */
  method ForkAs(m: Machine, a: Pids.Allocator, pid: nat)
    requires m.Valid() && Numbered(a, m.k) && Can(m.k, SFork(pid)) && pid == a.lastPid < Pids.MAX_PID
    modifies m, m.table, m.table.kids.Keys
    ensures m.Valid() && Numbered(a, m.k) && Apply(old(m.k), SFork(pid)) == Goes(m.k)
    ensures forall p {:trigger p in m.table.kids} :: p in m.table.kids && p !in old(m.table.kids) ==> fresh(p)
  {
    CanFork(m, pid);
    ForkKnown(a.lastPid, a.nextSafe, m.k);
    m.Perform(SFork(pid));
  }

  /** do_fork: refused when there are too many processes, and otherwise with a number from
      get_pid that no process has. */
  method DoForkNumbered(m: Machine, a: Pids.Allocator) returns (pid: int)
    requires m.Valid() && Numbered(a, m.k) && m.k.current in m.k.procs && !m.k.leaving
    requires m.k.procs[m.k.current].at == Out
    modifies m, m.table, m.table.kids.Keys, a
    ensures m.Valid() && Numbered(a, m.k)
    ensures pid == -1 <==> |old(m.k).procs| >= MAX_PROCESS
    ensures pid == -1 ==> m.k == old(m.k)
    ensures pid != -1 ==> 0 < pid < Pids.MAX_PID && pid !in old(m.k).procs && Fork(old(m.k), pid) == Goes(m.k)
    ensures pid != -1 ==> NextFree(PidsOf(old(m.table.list)), old(a.lastPid), pid)
    ensures forall p {:trigger p in m.table.kids} :: p in m.table.kids && p !in old(m.table.kids) ==> fresh(p)
  {
    Census(m);
    if m.table.nrProcess >= MAX_PROCESS {
      return -1;
    }
    pid := NumberFor(a, PidsOf(m.table.list), m.k);
    ForkAs(m, a, pid);
  }

  lemma {:induction false} StepKnown(m: Machine, s: Step, lastPid: int, nextSafe: int)
    requires m.Valid() && Known(lastPid, nextSafe, m.k) && Can(m.k, s) && !Suicide(m.k, s) && !s.SFork?
    ensures m.k.current in m.k.procs && Apply(m.k, s).Goes? && Known(lastPid, nextSafe, Apply(m.k, s).k)
  {
    StepSafe(m.k, s);
    StepKin(m.k, s);
    var r := Apply(m.k, s).k;
    forall p | p in r.procs
      ensures p < Pids.MAX_PID && !(lastPid < p < nextSafe)
    {
      assert r.procs[p] == r.procs[p];
      assert p in m.k.procs;
    }
  }

  /** Every other step leaves get_pid with what it knows. */
  method PerformNumbered(m: Machine, a: Pids.Allocator, s: Step)
    requires m.Valid() && Numbered(a, m.k) && Can(m.k, s) && !Suicide(m.k, s) && !s.SFork?
    modifies m, m.table, m.table.kids.Keys
    ensures m.Valid() && Numbered(a, m.k) && Apply(old(m.k), s) == Goes(m.k)
    ensures forall p {:trigger p in m.table.kids} :: p in m.table.kids && p !in old(m.table.kids) ==> fresh(p)
  {
    StepKnown(m, s, a.lastPid, a.nextSafe);
    m.Perform(s);
  }

  /** The first call of get_pid, with only idle there, gives init the number 1. */
  method BootNumbers(starts: seq<nat>) returns (a: Pids.Allocator, pid: int)
    ensures fresh(a) && pid == INIT && Numbered(a, Boot(starts))
  {
    a := new Pids.Allocator();
    pid := a.GetPid();
    assert Pids.Distance(1, 1) == 0 && Pids.Distance(1, pid) == pid - 1;
  }
}
