/** Every step of the kernel keeps the invariant and trips no assertion. */
module KernelSafety {
  import opened Kernel
  import opened Basics
  import Timers

  // ------------------------------------------------------ steps on one process

  /** Between `k` and `r` only process `p` and its own places in queues change; it keeps
      its family, and is dead in both or in neither. */
  ghost predicate Touches(k: Kernel, r: Kernel, p: nat)
  {
    && r.current == k.current && |r.sems| == |k.sems|
    && p in k.procs && r.procs.Keys == k.procs.Keys
    && (forall q {:trigger r.procs[q]} :: q in k.procs && q != p ==> r.procs[q] == k.procs[q])
    && r.procs[p].kids == k.procs[p].kids && r.procs[p].parent == k.procs[p].parent
    && (r.procs[p].state == Zombie <==> k.procs[p].state == Zombie)
    && (forall q {:trigger q in r.runq} :: q != p ==> (q in r.runq <==> q in k.runq))
    && (forall i {:trigger r.sems[i]} ::
          0 <= i < |k.sems| ==> forall q :: q != p ==> (q in r.sems[i].queue <==> q in k.sems[i].queue))
    && (forall q {:trigger q in r.keys} :: q != p ==> (q in r.keys <==> q in k.keys))
    && (forall q {:trigger q in Timers.Ids(r.timers)} ::
          q != p ==> (q in Timers.Ids(r.timers) <==> q in Timers.Ids(k.timers)))
  }

  lemma OthersState(k: Kernel, r: Kernel, p: nat, q: nat)
    requires Touches(k, r, p) && q in k.procs && q != p && StateOk(k, q) && TreeOk(k, q)
    ensures StateOk(r, q)
  {
    assert r.procs[q] == k.procs[q];
    match k.procs[q].at
    case Out =>
    case InDown(i, granted) =>
    case InSleep =>
    case InRead =>
    case InWait(pid) =>
      forall c | c in r.procs && c in k.procs
        ensures r.procs[c].state == Zombie <==> k.procs[c].state == Zombie
      {
      }
  }

  lemma AllTree(k: Kernel, r: Kernel, p: nat, q: nat)
    requires Touches(k, r, p) && q in k.procs && TreeOk(k, q)
    ensures TreeOk(r, q)
  {
    forall c | c in r.procs
      ensures r.procs[c].parent == k.procs[c].parent && r.procs[c].kids == k.procs[c].kids
    {
    }
  }

  /** It remains to check the process itself and the queues it moves between. */
  lemma {:induction false} TouchCore(k: Kernel, r: Kernel, p: nat)
    requires Core(k) && Touches(k, r, p)
    requires StateOk(r, p) && QueuesOk(r)
    requires forall i {:trigger SemOk(r, i)} :: 0 <= i < |r.sems| ==> SemOk(r, i)
    requires !r.leaving ==> r.procs[r.current].state == Runnable
    requires r.leaving ==> r.current != IDLE
    ensures Core(r)
  {
    forall q | q in r.procs
      ensures StateOk(r, q) && TreeOk(r, q)
    {
      assert StateOk(k, q) && TreeOk(k, q);
      AllTree(k, r, p, q);
      if q != p {
        OthersState(k, r, p, q);
      }
    }
  }

  // ------------------------------------------------------------------- semaphores

  lemma {:induction false} SemsKept(k: Kernel, r: Kernel, p: nat, i: nat)
    requires Touches(k, r, p) && i < |k.sems| && SemOk(k, i) && r.sems[i] == k.sems[i]
    requires p in k.sems[i].queue ==> r.procs[p].at == k.procs[p].at
    ensures SemOk(r, i)
  {
  }

  /** A value changed by one, with nobody waiting. */
  lemma {:induction false} CountInvariant(k: Kernel, i: nat, s: Sem)
    requires Invariant(k) && i < |k.sems| && s.queue == k.sems[i].queue == [] && s.value >= 0
    requires s.start + s.ups == s.value + s.grants && s.came == k.sems[i].came && s.served == k.sems[i].served
    ensures Invariant(k.(sems := k.sems[i := s]))
  {
    var r := k.(sems := k.sems[i := s]);
    assert SemOk(k, i) && StateOk(k, k.current);
    assert Touches(k, r, k.current);
    forall j | 0 <= j < |r.sems|
      ensures SemOk(r, j)
    {
      assert SemOk(k, j);
    }
    assert StateOk(r, k.current);
    TouchCore(k, r, k.current);
  }

  lemma {:induction false} UpInvariant(k: Kernel, i: nat)
    requires Invariant(k) && Can(k, SUp(i))
    ensures Up(k, i).Goes? && Invariant(Up(k, i).k)
  {
    var s := k.sems[i];
    assert SemOk(k, i);
    if s.queue == [] {
      CountInvariant(k, i, s.(value := s.value + 1, ups := s.ups + 1));
    } else {
      UpGrants(k, i);
    }
  }

  /** The first waiter is asleep on this semaphore, so it can be woken and queued. */
  lemma {:induction false} GrantTouches(k: Kernel, i: nat)
    requires Invariant(k) && Can(k, SUp(i)) && k.sems[i].queue != []
    ensures Up(k, i).Goes?
    ensures var p, r := k.sems[i].queue[0], Up(k, i).k;
            && Touches(k, r, p) && StateOk(r, p) && QueuesOk(r) && !r.leaving && p != k.current
            && r.procs[p].at == InDown(i, true)
            && r.sems == k.sems[i := r.sems[i]]
  {
    var s := k.sems[i];
    var p := s.queue[0];
    assert SemOk(k, i) && p in s.queue;
    assert StateOk(k, p) && StateOk(k, k.current);
    DistinctParts(s.queue);
    var r := Up(k, i).k;
    assert r.runq == k.runq + [p];
    assert Touches(k, r, p);
    assert StateOk(r, p);
  }

  lemma {:induction false} UpGrants(k: Kernel, i: nat)
    requires Invariant(k) && Can(k, SUp(i)) && k.sems[i].queue != []
    ensures Up(k, i).Goes? && Invariant(Up(k, i).k)
  {
    GrantTouches(k, i);
    var s := k.sems[i];
    var p, r := s.queue[0], Up(k, i).k;
    forall j | 0 <= j < |r.sems|
      ensures SemOk(r, j)
    {
      assert SemOk(k, j);
      if j == i {
        DistinctParts(s.queue);
        assert s.came == s.served + [p] + s.queue[1..];
      } else {
        SemsKept(k, r, p, j);
      }
    }
    TouchCore(k, r, p);
  }

  lemma {:induction false} DownInvariant(k: Kernel, i: nat)
    requires Invariant(k) && Can(k, SDown(i))
    ensures Down(k, i).Goes? && Invariant(Down(k, i).k)
  {
    var s := k.sems[i];
    assert SemOk(k, i);
    if s.value > 0 {
      CountInvariant(k, i, s.(value := s.value - 1, grants := s.grants + 1));
    } else {
      DownBlocks(k, i);
    }
  }

  lemma {:induction false} DownBlocks(k: Kernel, i: nat)
    requires Invariant(k) && Can(k, SDown(i)) && k.sems[i].value <= 0
    ensures Down(k, i).Goes? && Invariant(Down(k, i).k)
  {
    var p, s := k.current, k.sems[i];
    assert SemOk(k, i) && StateOk(k, p);
    var r := Down(k, i).k;
    assert Touches(k, r, p);
    forall j | 0 <= j < |r.sems|
      ensures SemOk(r, j)
    {
      assert SemOk(k, j);
      if j == i {
        assert s.came + [p] == s.served + (s.queue + [p]);
      } else {
        SemsKept(k, r, p, j);
      }
    }
    assert StateOk(r, p);
    TouchCore(k, r, p);
  }

  lemma {:induction false} TryDownInvariant(k: Kernel, i: nat)
    requires Invariant(k) && Can(k, STryDown(i))
    ensures TryDown(k, i).Goes? && Invariant(TryDown(k, i).k)
  {
    var s := k.sems[i];
    assert SemOk(k, i);
    if s.value > 0 {
      CountInvariant(k, i, s.(value := s.value - 1, grants := s.grants + 1));
    }
  }

  // ------------------------------------------------------------- waking and ticking

  /** Waking a process that sleeps interruptibly, or is awake already. */
  lemma {:induction false} WakeCore(k: Kernel, p: nat)
    requires Core(k) && p in k.procs && (k.procs[p].wait.Interruptible() || k.procs[p].state == Runnable)
    ensures Wake(k, p).Goes? && Core(Wake(k, p).k)
    ensures var r := Wake(k, p).k;
            Touches(k, r, p) && r.procs[p].at == k.procs[p].at && r.procs[p].state == Runnable && k.runq <= r.runq
  {
    assert StateOk(k, p);
    var r := Wake(k, p).k;
    assert Touches(k, r, p);
    if k.procs[p].state != Runnable {
      assert StateOk(r, p);
      WakeSems(k, r, p);
      TouchCore(k, r, p);
    }
  }

  lemma {:induction false} WakeSems(k: Kernel, r: Kernel, p: nat)
    requires Core(k) && Touches(k, r, p) && r.sems == k.sems && r.procs[p].at == k.procs[p].at
    ensures forall i {:trigger SemOk(r, i)} :: 0 <= i < |r.sems| ==> SemOk(r, i)
  {
    forall i | 0 <= i < |r.sems|
      ensures SemOk(r, i)
    {
      assert SemOk(k, i);
      SemsKept(k, r, p, i);
    }
  }

  lemma {:induction false} KillInvariant(k: Kernel, p: nat)
    requires Invariant(k) && Can(k, SKill(p))
    ensures Kill(k, p).Goes? && Invariant(Kill(k, p).k)
  {
    assert StateOk(k, p);
    if !k.procs[p].exiting {
      var m := Set(k, p, k.procs[p].(exiting := true));
      assert Touches(k, m, p);
      assert StateOk(m, p);
      WakeSems(k, m, p);
      TouchCore(k, m, p);
      if k.procs[p].wait.Interruptible() {
        WakeCore(m, p);
      }
    }
  }

  lemma {:induction false} IdsTail(l: seq<Timers.Timer>)
    requires l != [] && Timers.Distinct(l)
    ensures Timers.Distinct(l[1..]) && l[0].id in Timers.Ids(l) && Timers.Ids(l[1..]) == Timers.Ids(l) - {l[0].id}
  {
    Timers.IdsCons(l[0], l[1..]);
    assert l == [l[0]] + l[1..];
    forall i | 0 <= i < |l[1..]|
      ensures l[1..][i].id != l[0].id
    {
    }
  }

  /** Dropping the timer of a process that is awake. */
  lemma {:induction false} DropTimer(k: Kernel)
    requires Core(k) && k.timers != [] && k.timers[0].id in k.procs && k.procs[k.timers[0].id].state == Runnable
    ensures Core(k.(timers := k.timers[1..]))
  {
    var p, r := k.timers[0].id, k.(timers := k.timers[1..]);
    IdsTail(k.timers);
    assert StateOk(k, p);
    assert Touches(k, r, p);
    assert StateOk(r, p);
    WakeSems(k, r, p);
    TouchCore(k, r, p);
  }

  /** A process whose timer is due waits for it or is awake; in neither case can waking
      it trip an assertion. */
  lemma {:induction false} FireInvariant(k: Kernel)
    requires Core(k)
    ensures FireAll(k).Goes? && Invariant(FireAll(k).k) && k.runq <= FireAll(k).k.runq
    ensures FireAll(k).k.current == k.current
    decreases |k.timers|
  {
    if k.timers != [] && k.timers[0].expires == 0 {
      var p := k.timers[0].id;
      IdsTail(k.timers);
      assert StateOk(k, p);
      WakeCore(k, p);
      var r := Wake(k, p).k;
      DropTimer(r);
      FireInvariant(r.(timers := r.timers[1..]));
    }
  }

  lemma {:induction false} TickInvariant(k: Kernel)
    requires Invariant(k)
    ensures Tick(k).Goes? && Invariant(Tick(k).k) && k.runq <= Tick(k).k.runq && Tick(k).k.current == k.current
  {
    var r := k.(timers := Timers.Elapse(k.timers));
    assert Timers.Ids(r.timers) == Timers.Ids(k.timers) by {
      if k.timers != [] {
        Timers.IdsCons(k.timers[0], k.timers[1..]);
        Timers.IdsCons(r.timers[0], k.timers[1..]);
        assert k.timers == [k.timers[0]] + k.timers[1..] && r.timers == [r.timers[0]] + k.timers[1..];
      }
    }
    assert StateOk(k, k.current);
    assert Touches(k, r, k.current);
    WakeSems(k, r, k.current);
    TouchCore(k, r, k.current);
    FireInvariant(r);
  }

  /** Taking a reader off the queue and waking it. */
  lemma {:induction false} KeyWake(k: Kernel)
    requires Core(k) && k.keys != []
    ensures var w := Wake(k.(keys := k.keys[1..]), k.keys[0]);
            w.Goes? && Core(w.k) && k.runq <= w.k.runq && w.k.current == k.current
  {
    var p := k.keys[0];
    DistinctParts(k.keys);
    assert p in k.keys;
    assert StateOk(k, p);
    var r := Wake(k.(keys := k.keys[1..]), p).k;
    assert Touches(k, r, p);
    assert StateOk(r, p);
    WakeSems(k, r, p);
    TouchCore(k, r, p);
  }

  lemma {:induction false} KeyInvariant(k: Kernel)
    requires Core(k)
    ensures KeyPress(k).Goes? && Core(KeyPress(k).k) && KeyPress(k).k.timers == k.timers
    ensures k.runq <= KeyPress(k).k.runq && KeyPress(k).k.current == k.current
    decreases |k.keys|
  {
    if k.keys != [] {
      KeyWake(k);
      KeyInvariant(Wake(k.(keys := k.keys[1..]), k.keys[0]).k);
    }
  }

  /** A key leaves awake who is awake ... */
  lemma {:induction false} KeyAwake(k: Kernel, p: nat)
    requires KeyPress(k).Goes? && p in k.procs && k.procs[p].state == Runnable
    ensures p in KeyPress(k).k.procs && KeyPress(k).k.procs[p] == k.procs[p]
    decreases |k.keys|
  {
    if k.keys != [] {
      KeyAwake(Wake(k.(keys := k.keys[1..]), k.keys[0]).k, p);
    }
  }

  /** ... and wakes all readers. */
  lemma {:induction false} KeyWakes(k: Kernel, p: nat)
    requires KeyPress(k).Goes? && p in k.keys
    ensures p in KeyPress(k).k.procs && KeyPress(k).k.procs[p].state == Runnable
    decreases |k.keys|
  {
    var r := Wake(k.(keys := k.keys[1..]), k.keys[0]).k;
    if p == k.keys[0] {
      KeyAwake(r, p);
    } else {
      KeyWakes(r, p);
    }
  }

  lemma {:induction false} KeysGone(k: Kernel)
    requires KeyPress(k).Goes?
    ensures KeyPress(k).k.keys == []
    decreases |k.keys|
  {
    if k.keys != [] {
      KeysGone(Wake(k.(keys := k.keys[1..]), k.keys[0]).k);
    }
  }

  // ------------------------------------------------------- sleeping, reading, leaving

  lemma {:induction false} SleepInvariant(k: Kernel, t: nat)
    requires Invariant(k) && Can(k, SSleep(t))
    ensures Sleep(k, t).Goes? && Invariant(Sleep(k, t).k)
  {
    var p := k.current;
    assert StateOk(k, p);
    Timers.AddIds(k.timers, p, t);
    Timers.AddWellformed(k.timers, p, t);
    var r := Sleep(k, t).k;
    assert Touches(k, r, p);
    assert StateOk(r, p);
    OutSems(k, r, p);
    TouchCore(k, r, p);
  }

  /** A process outside any blocking call waits on no semaphore. */
  lemma {:induction false} OutSems(k: Kernel, r: Kernel, p: nat)
    requires Core(k) && Touches(k, r, p) && r.sems == k.sems && !(k.procs[p].at.InDown? && !k.procs[p].at.granted)
    ensures forall i {:trigger SemOk(r, i)} :: 0 <= i < |r.sems| ==> SemOk(r, i)
  {
    forall i | 0 <= i < |r.sems|
      ensures SemOk(r, i)
    {
      assert SemOk(k, i);
      SemsKept(k, r, p, i);
    }
  }

  lemma {:induction false} ReadInvariant(k: Kernel)
    requires Invariant(k) && Can(k, SRead)
    ensures Read(k).Goes? && Invariant(Read(k).k)
  {
    var p := k.current;
    assert StateOk(k, p);
    var r := Read(k).k;
    assert Touches(k, r, p);
    assert StateOk(r, p);
    OutSems(k, r, p);
    TouchCore(k, r, p);
  }

  /** Leaving a semaphore's down(), a sleep or a read. */
  lemma {:induction false} LeaveInvariant(k: Kernel)
    requires Invariant(k) && Can(k, SResume) && !k.procs[k.current].at.InWait?
    ensures Resume(k).Goes? && Invariant(Resume(k).k)
  {
    var p := k.current;
    assert StateOk(k, p);
    Timers.DelDistinct(k.timers, p);
    DistinctRemove(k.keys, p);
    var r := Resume(k).k;
    assert Touches(k, r, p);
    assert StateOk(r, p);
    OutSems(k, r, p);
    TouchCore(k, r, p);
    if k.procs[p].at == InSleep {
      Timers.DelWellformed(k.timers, p);
    }
  }

  lemma {:induction false} StopWaiting(k: Kernel)
    requires Invariant(k) && Can(k, SResume) && k.procs[k.current].at.InWait?
    ensures Invariant(Set(k, k.current, k.procs[k.current].(at := Out)))
  {
    var p := k.current;
    var r := Set(k, p, k.procs[p].(at := Out));
    assert StateOk(k, p);
    assert Touches(k, r, p);
    assert StateOk(r, p);
    OutSems(k, r, p);
    TouchCore(k, r, p);
  }

  // -------------------------------------------------------------------- schedule()

  /** Who is on the run queue after the current process went to its end. */
  function Requeued(k: Kernel): (q: seq<nat>)
    requires k.current in k.procs
  {
    if k.procs[k.current].state == Runnable && k.current != IDLE then k.runq + [k.current] else k.runq
  }

  ghost predicate Ready(k: Kernel, p: nat)
  {
    p in k.procs && k.procs[p].state == Runnable && p != IDLE
  }

  lemma {:induction false} RequeuedReady(k: Kernel)
    requires Core(k)
    ensures Distinct(Requeued(k)) && forall p {:trigger Ready(k, p)} :: p in Requeued(k) <==> Ready(k, p)
  {
    assert StateOk(k, k.current);
    forall p
      ensures p in Requeued(k) <==> Ready(k, p)
    {
      if p in k.procs {
        assert StateOk(k, p);
      }
    }
  }

  /** schedule() takes the first ready process off the queue. */
  lemma {:induction false} ScheduleQueue(k: Kernel)
    requires Core(k)
    ensures Schedule(k) == Goes(k.(current := if Requeued(k) == [] then IDLE else Requeued(k)[0], leaving := false,
                                   runq := if Requeued(k) == [] then [] else Requeued(k)[1..],
                                   num := if Requeued(k) == [] then 0 else |Requeued(k)| - 1))
    ensures var r := Schedule(k).k;
            Distinct(r.runq) && forall p {:trigger Ready(k, p)} :: p in r.runq <==> Ready(k, p) && p != r.current
    ensures Schedule(k).k.current == IDLE || Ready(k, Schedule(k).k.current)
  {
    assert StateOk(k, k.current);
    RequeuedReady(k);
    if Requeued(k) != [] {
      DistinctParts(Requeued(k));
      assert Requeued(k)[0] in Requeued(k);
    }
  }

  lemma {:induction false} ScheduleInvariant(k: Kernel)
    requires Invariant(k)
    ensures Schedule(k).Goes? && Invariant(Schedule(k).k)
  {
    ScheduleQueue(k);
    var r := Schedule(k).k;
    forall p | p in r.procs
      ensures StateOk(r, p) && TreeOk(r, p)
    {
      assert StateOk(k, p) && TreeOk(k, p);
      assert p in r.runq <==> Ready(k, p) && p != r.current;
      SameElsewhere(k, r, p);
    }
    assert StateOk(k, IDLE);
    forall i | 0 <= i < |r.sems|
      ensures SemOk(r, i)
    {
      assert SemOk(k, i);
    }
    assert QueuesOk(r) by {
      forall p | p in r.runq ensures p in r.procs { assert Ready(k, p) by { assert p in r.runq; } }
    }
  }

  /** Only the run queue and the current process differ. */
  lemma {:induction false} SameElsewhere(k: Kernel, r: Kernel, p: nat)
    requires p in k.procs && StateOk(k, p) && TreeOk(k, p)
    requires r.procs == k.procs && r.sems == k.sems && r.keys == k.keys && r.timers == k.timers
    requires p in r.runq <==> k.procs[p].state == Runnable && p != r.current && p != IDLE
    ensures StateOk(r, p) && TreeOk(r, p)
  {
  }

  // ------------------------------------------------------------------------- fork

  lemma {:induction false} ForkInvariant(k: Kernel, pid: nat)
    requires Invariant(k) && Can(k, SFork(pid))
    ensures Fork(k, pid).Goes? && Invariant(Fork(k, pid).k)
  {
    var c := k.current;
    assert pid !in k.runq;
    var r := Fork(k, pid).k;
    forall p | p in r.procs
      ensures StateOk(r, p) && TreeOk(r, p)
    {
      assert TreeOk(k, c);
      if p != pid {
        assert StateOk(k, p) && TreeOk(k, p);
      }
      ForkProc(k, r, pid, p);
    }
    ForkQueues(k, pid);
  }

  lemma {:induction false} ForkQueues(k: Kernel, pid: nat)
    requires Invariant(k) && Can(k, SFork(pid)) && pid !in k.runq
    ensures Fork(k, pid).Goes?
    ensures var r := Fork(k, pid).k; QueuesOk(r) && forall i {:trigger SemOk(r, i)} :: 0 <= i < |r.sems| ==> SemOk(r, i)
  {
    var r := Fork(k, pid).k;
    forall i | 0 <= i < |r.sems|
      ensures SemOk(r, i)
    {
      assert SemOk(k, i);
    }
  }

  lemma {:induction false} ForkProc(k: Kernel, r: Kernel, pid: nat, p: nat)
    requires Invariant(k) && Can(k, SFork(pid)) && Fork(k, pid) == Goes(r) && TreeOk(k, k.current)
    requires p in r.procs && (p != pid ==> StateOk(k, p) && TreeOk(k, p))
    ensures StateOk(r, p) && TreeOk(r, p)
  {
    if p == pid {
      assert StateOk(r, p) && TreeOk(r, p);
    } else {
      ForkOld(k, r, pid, p);
    }
  }

  lemma {:induction false} ForkOld(k: Kernel, r: Kernel, pid: nat, p: nat)
    requires k.current in k.procs && pid !in k.procs && pid != IDLE && Fork(k, pid) == Goes(r)
    requires p in k.procs && StateOk(k, p) && TreeOk(k, p) && k.procs[k.current].state == Runnable
    ensures StateOk(r, p) && TreeOk(r, p)
  {
    var c := k.current;
    if p == c {
      assert StateOk(r, p);
      assert TreeOk(r, p);
    } else {
      assert r.procs[p] == k.procs[p];
      assert forall d :: d in k.procs[p].kids ==> d != pid;
      assert StateOk(r, p);
      assert TreeOk(r, p);
    }
  }
}
