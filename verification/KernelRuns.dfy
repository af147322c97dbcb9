/** What holds of every run of the kernel, from boot on. */
module KernelRuns {
  import opened Kernel
  import opened KernelSafety
  import opened KernelFamily
  import opened Basics
  import Timers

  // ----------------------------------------------------------------- single steps

  /** The step is an exit of the idle process or of init, which stops the kernel. */
  ghost predicate Suicide(k: Kernel, s: Step)
    requires k.current in k.procs
  {
    && (k.current == IDLE || k.current == INIT)
    && (s.SExit? || (s.SResume? && k.procs[k.current].at.InWait? && k.procs[k.current].exiting))
  }

  /** No step trips an assertion, and the kernel stops only when idle or init exits. */
  lemma {:induction false} StepSafe(k: Kernel, s: Step)
    requires Invariant(k) && Can(k, s)
    ensures !Apply(k, s).Fails?
    ensures Apply(k, s).Panics? <==> Suicide(k, s)
    ensures Apply(k, s).Goes? ==> Invariant(Apply(k, s).k)
  {
    match s
    case SUp(i) => UpInvariant(k, i);
    case SDown(i) => DownInvariant(k, i);
    case STryDown(i) => TryDownInvariant(k, i);
    case SFork(pid) => ForkInvariant(k, pid);
    case SExit => ExitInvariant(k);
    case SWait(pid) => WaitKeeps(k, pid);
    case SKill(p) => KillInvariant(k, p);
    case SSleep(t) => SleepInvariant(k, t);
    case SRead => ReadInvariant(k);
    case SSchedule => ScheduleInvariant(k);
    case STick => TickInvariant(k);
    case SKey => KeyInvariant(k);
    case SResume => ResumeSafe(k);
  }

  lemma {:induction false} ResumeSafe(k: Kernel)
    requires Invariant(k) && Can(k, SResume)
    ensures !Resume(k).Fails?
    ensures Resume(k).Panics? <==> Suicide(k, SResume)
    ensures Resume(k).Goes? ==> Invariant(Resume(k).k)
  {
    var p := k.current;
    assert StateOk(k, p);
    if k.procs[p].at.InWait? {
      StopWaiting(k);
      var out := Set(k, p, k.procs[p].(at := Out));
      if k.procs[p].exiting {
        assert Can(out, SExit);
        ExitInvariant(out);
      } else {
        assert Can(out, SWait(k.procs[p].at.pid));
        WaitKeeps(out, k.procs[p].at.pid);
      }
    } else {
      LeaveInvariant(k);
    }
  }

  /** Every step but schedule() leaves the running process alone and adds to the end of
      the run queue only. */
  lemma {:induction false} StepAppends(k: Kernel, s: Step)
    requires Invariant(k) && Can(k, s) && Apply(k, s).Goes? && !s.SSchedule?
    ensures Apply(k, s).k.current == k.current && k.runq <= Apply(k, s).k.runq
  {
    match s
    case SExit => ExitInvariant(k);
    case STick => TickInvariant(k);
    case SKey => KeyInvariant(k);
    case SResume =>
      var p := k.current;
      if k.procs[p].at.InWait? && k.procs[p].exiting {
        StopWaiting(k);
        var out := Set(k, p, k.procs[p].(at := Out));
        assert Can(out, SExit);
        ExitInvariant(out);
      }
    case _ =>
  }

  // ------------------------------------------------------------------------- runs

  ghost predicate Run(k: Kernel, es: seq<Step>, r: Kernel)
    decreases |es|
  {
    if es == [] then r == k
    else
      && k.current in k.procs && Can(k, es[0]) && Apply(k, es[0]).Goes?
      && Run(Apply(k, es[0]).k, es[1..], r)
  }

  /** Boot: the idle process runs, init is its child and is queued. */
  function Boot(starts: seq<nat>): (k: Kernel) {
    var idle, init := Proc(Runnable, NoWait, false, IDLE, [INIT], Out), Proc(Runnable, NoWait, false, IDLE, [], Out);
    var sems := seq(|starts|, i requires 0 <= i < |starts| => Sem(starts[i], [], starts[i], 0, 0, [], []));
    Kernel(map[IDLE := idle, INIT := init], IDLE, false, [INIT], 1, sems, [], [])
  }

  ghost predicate Reachable(k: Kernel) {
    exists starts: seq<nat>, es :: Run(Boot(starts), es, k)
  }

  lemma {:induction false} BootInvariant(starts: seq<nat>)
    ensures Invariant(Boot(starts))
  {
    var k := Boot(starts);
    assert StateOk(k, IDLE) && StateOk(k, INIT) && TreeOk(k, IDLE) && TreeOk(k, INIT);
    assert forall i {:trigger SemOk(k, i)} :: 0 <= i < |k.sems| ==> SemOk(k, i);
  }

  lemma {:induction false} RunInvariant(k: Kernel, es: seq<Step>, r: Kernel)
    requires Invariant(k) && Run(k, es, r)
    ensures Invariant(r)
    decreases |es|
  {
    if es != [] {
      StepSafe(k, es[0]);
      RunInvariant(Apply(k, es[0]).k, es[1..], r);
    }
  }

  /** Whatever was done before, no step that can be taken now trips an assertion. */
  lemma {:induction false} NeverFails(k: Kernel, s: Step)
    requires Reachable(k)
    ensures Invariant(k)
    ensures Can(k, s) ==> !Apply(k, s).Fails? && (Apply(k, s).Panics? <==> Suicide(k, s))
  {
    var starts: seq<nat>, es :| Run(Boot(starts), es, k);
    BootInvariant(starts);
    RunInvariant(Boot(starts), es, k);
    if Can(k, s) {
      StepSafe(k, s);
    }
  }

  // -------------------------------------------------------- processes and run queue

  /** A process is queued, and once only, iff it is runnable, not running and not idle. */
  lemma RunQueueExact(k: Kernel, p: nat)
    requires Reachable(k) && p in k.procs
    ensures p in k.runq <==> k.procs[p].state == Runnable && p != k.current && p != IDLE
    ensures multiset(k.runq)[p] <= 1 && k.num == |k.runq|
  {
    NeverFails(k, STick);
    assert StateOk(k, p);
    DistinctOnce(k.runq, p);
  }

  lemma {:induction false} DistinctOnce(s: seq<nat>, p: nat)
    requires Distinct(s)
    ensures multiset(s)[p] <= 1
  {
    if s != [] {
      DistinctParts(s);
      DistinctOnce(s[1..], p);
      assert s == [s[0]] + s[1..];
    }
  }

  /** No child wakeup is lost: whoever sleeps in do_wait has a child to wait for, and no
      such child is dead. */
  lemma NoLostWakeup(k: Kernel, p: nat, c: nat)
    requires Reachable(k) && p in k.procs && k.procs[p].state == Sleeping && k.procs[p].at.InWait?
    ensures k.procs[p].kids != [] && (k.procs[p].at.pid != 0 ==> k.procs[p].at.pid in k.procs[p].kids)
    ensures c in k.procs && k.procs[c].parent == p && c != IDLE && k.procs[p].at.pid in {0, c} ==>
              k.procs[c].state != Zombie
  {
    NeverFails(k, STick);
    assert StateOk(k, p) && TreeOk(k, p);
    if c in k.procs {
      assert TreeOk(k, c);
    }
  }

  /** Parents and children agree, dead processes have no children, and idle and init
      are not among the dead. */
  lemma Families(k: Kernel, p: nat, c: nat)
    requires Reachable(k) && p in k.procs
    ensures c in k.procs[p].kids <==> c in k.procs && c != IDLE && k.procs[c].parent == p
    ensures Distinct(k.procs[p].kids)
    ensures p != IDLE ==> k.procs[p].parent in k.procs && k.procs[k.procs[p].parent].state != Zombie
    ensures k.procs[p].state == Zombie ==> k.procs[p].kids == [] && p != IDLE && p != INIT
  {
    NeverFails(k, STick);
    assert StateOk(k, p) && TreeOk(k, p);
    if p != IDLE {
      assert StateOk(k, k.procs[p].parent);
    }
    if c in k.procs {
      assert TreeOk(k, c);
    }
  }

  function Schedules(es: seq<Step>): nat {
    if es == [] then 0 else (if es[0].SSchedule? then 1 else 0) + Schedules(es[1..])
  }

  /** The process at place `j` of the run queue moves one place per schedule() ... */
  lemma {:induction false} QueueMoves(k: Kernel, es: seq<Step>, r: Kernel, j: nat)
    requires Invariant(k) && Run(k, es, r) && j < |k.runq| && Schedules(es) <= j
    ensures j - Schedules(es) < |r.runq| && r.runq[j - Schedules(es)] == k.runq[j]
    decreases |es|
  {
    if es != [] {
      var m := Apply(k, es[0]).k;
      StepSafe(k, es[0]);
      if es[0].SSchedule? {
        ScheduleQueue(k);
        QueueMoves(m, es[1..], r, j - 1);
      } else {
        StepAppends(k, es[0]);
        QueueMoves(m, es[1..], r, j);
      }
    }
  }

  /** ... and the (j + 1)-th call of schedule() dispatches it. */
  lemma {:induction false} Dispatched(k: Kernel, es: seq<Step>, m: Kernel, j: nat)
    requires Invariant(k) && Run(k, es, m) && j < |k.runq| && Schedules(es) == j
    ensures m.current in m.procs && Schedule(m).Goes? && Schedule(m).k.current == k.runq[j]
  {
    QueueMoves(k, es, m, j);
    RunInvariant(k, es, m);
    ScheduleQueue(m);
  }

  // ------------------------------------------------------------------- semaphores

  /** No process moves between places, and no semaphore changes. */
  ghost predicate Still(k: Kernel, r: Kernel) {
    && r.sems == k.sems && r.procs.Keys == k.procs.Keys
    && forall q {:trigger r.procs[q]} :: q in r.procs ==> r.procs[q].at == k.procs[q].at
  }

  lemma {:induction false} FireStill(k: Kernel)
    requires FireAll(k).Goes?
    ensures Still(k, FireAll(k).k)
    decreases |k.timers|
  {
    if k.timers != [] && k.timers[0].expires == 0 {
      var r := Wake(k, k.timers[0].id).k;
      FireStill(r.(timers := r.timers[1..]));
    }
  }

  lemma {:induction false} KeyStill(k: Kernel)
    requires KeyPress(k).Goes?
    ensures Still(k, KeyPress(k).k)
    decreases |k.keys|
  {
    if k.keys != [] {
      KeyStill(Wake(k.(keys := k.keys[1..]), k.keys[0]).k);
    }
  }

  lemma {:induction false} ReparentOneStill(k: Kernel, p: nat)
    requires p in k.procs && k.procs[p].kids != [] && p != INIT && Reparent(k, p).Goes?
    ensures Still(k, Reparent(k, p).k)
  {
    var c := k.procs[p].kids[0];
    var k1 := Set(k, p, k.procs[p].(kids := k.procs[p].kids[1..]));
    var k2 := Set(k1, c, k1.procs[c].(parent := INIT));
    var k3 := Set(k2, INIT, k2.procs[INIT].(kids := [c] + k2.procs[INIT].kids));
    assert Still(k, k3);
    assert Wake(k3, INIT).Goes? ==> Still(k3, Wake(k3, INIT).k);
  }

  lemma {:induction false} ReparentStill(k: Kernel, p: nat, n: nat)
    requires p != INIT && ReparentAll(k, p, n).Goes?
    ensures Still(k, ReparentAll(k, p, n).k)
    decreases n
  {
    if n > 0 {
      ReparentOneStill(k, p);
      ReparentStill(Reparent(k, p).k, p, n - 1);
    }
  }

  lemma {:induction false} ExitStill(k: Kernel)
    requires k.current in k.procs && Exit(k).Goes?
    ensures Still(k, Exit(k).k)
  {
    var p := k.current;
    var dead := Dead(k);
    var up := k.procs[p].parent;
    var o := if dead.procs[up].wait == ForChild then Wake(dead, up) else Goes(dead);
    assert Still(k, o.k);
    ReparentStill(o.k, p, |k.procs[p].kids|);
  }

  /** A step that is no semaphore operation changes no semaphore. */
  lemma {:induction false} OtherSteps(k: Kernel, s: Step)
    requires k.current in k.procs && Can(k, s) && Apply(k, s).Goes? && !s.SUp? && !s.SDown? && !s.STryDown?
    ensures Apply(k, s).k.sems == k.sems
  {
    match s
    case SExit => ExitStill(k);
    case STick => FireStill(k.(timers := Timers.Elapse(k.timers)));
    case SKey => KeyStill(k);
    case SResume =>
      var out := Set(k, k.current, k.procs[k.current].(at := Out));
      if k.procs[k.current].at.InWait? && k.procs[k.current].exiting {
        ExitStill(out);
      }
    case _ =>
  }

  /** `p` was passed a permit of semaphore `i` by an up(), and has not come back yet from the
      down() in which it waited. */
  ghost predicate Comes(k: Kernel, i: nat, p: nat) {
    p in k.procs && k.procs[p].at == InDown(i, true)
  }

  ghost function Coming(k: Kernel, i: nat): set<nat> {
    set p {:trigger Comes(k, i, p)} | p in k.procs && Comes(k, i, p)
  }

  lemma {:induction false} SameComing(k: Kernel, r: Kernel, i: nat)
    requires forall p {:trigger Comes(r, i, p)} {:trigger Comes(k, i, p)} :: Comes(r, i, p) <==> Comes(k, i, p)
    ensures Coming(r, i) == Coming(k, i)
  {
    forall p
      ensures p in Coming(r, i) <==> p in Coming(k, i)
    {
      assert Comes(r, i, p) <==> Comes(k, i, p);
    }
  }

  lemma {:induction false} StillComing(k: Kernel, r: Kernel, i: nat)
    requires Still(k, r)
    ensures Coming(r, i) == Coming(k, i)
  {
    forall p
      ensures Comes(r, i, p) <==> Comes(k, i, p)
    {
      assert p in r.procs ==> r.procs[p].at == k.procs[p].at;
    }
    SameComing(k, r, i);
  }

  /** do_wait gives no permit to anybody, and takes none away. */
  lemma {:induction false} WaitComing(k: Kernel, pid: nat, i: nat)
    requires k.current in k.procs && WaitFor(k, pid).Goes? && k.procs[k.current].at == Out
    requires forall p {:trigger StateOk(k, p)} :: p in k.procs && p != k.current ==> StateOk(k, p)
    ensures Coming(WaitFor(k, pid).k, i) == Coming(k, i)
  {
    var r := WaitFor(k, pid).k;
    forall p
      ensures Comes(r, i, p) <==> Comes(k, i, p)
    {
      assert p in k.procs && p != k.current ==> StateOk(k, p);
    }
    SameComing(k, r, i);
  }

  /** Who was passed a permit comes back by its own step only. */
  lemma {:induction false} StepComing(k: Kernel, s: Step, i: nat)
    requires Invariant(k) && Can(k, s) && Apply(k, s).Goes? && !s.SUp?
    requires s.SResume? ==> !k.procs[k.current].at.InDown? || k.procs[k.current].at.sem != i
    ensures Coming(Apply(k, s).k, i) == Coming(k, i)
  {
    var r := Apply(k, s).k;
    match s
    case SExit =>
      ExitStill(k);
      StillComing(k, r, i);
    case STick =>
      FireStill(k.(timers := Timers.Elapse(k.timers)));
      StillComing(k, r, i);
    case SKey =>
      KeyStill(k);
      StillComing(k, r, i);
    case SWait(pid) => WaitComing(k, pid, i);
    case SResume => ResumeComing(k, i);
    case _ => SameComing(k, r, i);
  }

  lemma {:induction false} ResumeComing(k: Kernel, i: nat)
    requires Invariant(k) && Can(k, SResume) && Resume(k).Goes?
    requires !k.procs[k.current].at.InDown? || k.procs[k.current].at.sem != i
    ensures Coming(Resume(k).k, i) == Coming(k, i)
  {
    var out, at := Set(k, k.current, k.procs[k.current].(at := Out)), k.procs[k.current].at;
    SameComing(k, out, i);
    if at.InWait? {
      StopWaiting(k);
      if k.procs[k.current].exiting {
        ExitStill(out);
        StillComing(out, Resume(k).k, i);
      } else {
        WaitComing(out, at.pid, i);
      }
    } else {
      SameComing(out, Resume(k).k, i);
    }
  }

  /** Who holds semaphore `i` after the step, if `h` do before it: those who came back from
      down() and have not called up() since. A down() that does not leave the processor has
      come back at once, any other one comes back when the process goes on. */
  ghost function Hold(k: Kernel, s: Step, i: nat, h: multiset<nat>): multiset<nat>
    requires k.current in k.procs && Can(k, s)
  {
    match s
    case SUp(j) => if j == i then h - multiset{k.current} else h
    case SDown(j) => if j == i && Down(k, j).Goes? && !Down(k, j).k.leaving then h + multiset{k.current} else h
    case STryDown(j) => if j == i && k.sems[j].value > 0 then h + multiset{k.current} else h
    case SResume =>
      var at := k.procs[k.current].at;
      if at.InDown? && at.sem == i then h + multiset{k.current} else h
    case _ => h
  }

  ghost function HoldAll(k: Kernel, es: seq<Step>, i: nat, h: multiset<nat>): multiset<nat>
    decreases |es|
  {
    if es == [] || k.current !in k.procs || !Can(k, es[0]) || !Apply(k, es[0]).Goes? then h
    else HoldAll(Apply(k, es[0]).k, es[1..], i, Hold(k, es[0], i, h))
  }

  /** Only holders give permits back. */
  ghost predicate Disciplined(k: Kernel, es: seq<Step>, i: nat, h: multiset<nat>)
    decreases |es|
  {
    es == [] || k.current !in k.procs || !Can(k, es[0]) || !Apply(k, es[0]).Goes?
    || ((es[0] == SUp(i) ==> k.current in h)
        && Disciplined(Apply(k, es[0]).k, es[1..], i, Hold(k, es[0], i, h)))
  }

  /** The permits of a semaphore: with its holders, on the way to them, and left. */
  ghost function Total(k: Kernel, i: nat, h: multiset<nat>): int
    requires i < |k.sems|
  {
    |h| + |Coming(k, i)| + k.sems[i].value
  }

  lemma {:induction false} HoldStep(k: Kernel, s: Step, i: nat, h: multiset<nat>)
    requires Invariant(k) && Can(k, s) && Apply(k, s).Goes? && i < |k.sems|
    requires s == SUp(i) ==> k.current in h
    ensures var r := Apply(k, s).k; |r.sems| == |k.sems| && Total(r, i, Hold(k, s, i, h)) == Total(k, i, h)
  {
    assert SemOk(k, i);
    if s.SUp? {
      UpHold(k, s.i, i, h);
    } else if s.SResume? && k.procs[k.current].at.InDown? && k.procs[k.current].at.sem == i {
      BackHold(k, i);
    } else {
      StepComing(k, s, i);
      if !s.SDown? && !s.STryDown? {
        OtherSteps(k, s);
      }
    }
  }

  lemma {:induction false} UpHold(k: Kernel, j: nat, i: nat, h: multiset<nat>)
    requires Invariant(k) && Can(k, SUp(j)) && i < |k.sems| && (j == i ==> k.current in h)
    ensures Up(k, j).Goes?
    ensures var r := Up(k, j).k; |r.sems| == |k.sems| && Total(r, i, Hold(k, SUp(j), i, h)) == Total(k, i, h)
  {
    assert SemOk(k, j);
    UpInvariant(k, j);
    var r := Up(k, j).k;
    if j == i && k.sems[i].queue != [] {
      var p := k.sems[i].queue[0];
      assert p in k.sems[i].queue;
      forall q
        ensures q in Coming(r, i) <==> q in Coming(k, i) + {p}
      {
        assert Comes(r, i, q) <==> Comes(k, i, q) || q == p;
      }
      assert Coming(r, i) == Coming(k, i) + {p} && !Comes(k, i, p);
    } else {
      SameComing(k, r, i);
    }
  }

  /** The running process comes back from the down() in which it waited. */
  lemma {:induction false} BackHold(k: Kernel, i: nat)
    requires Invariant(k) && Can(k, SResume) && k.procs[k.current].at.InDown? && k.procs[k.current].at.sem == i
    ensures Resume(k).Goes? && Resume(k).k.sems == k.sems
    ensures k.current in Coming(k, i) && Coming(Resume(k).k, i) == Coming(k, i) - {k.current}
  {
    var p := k.current;
    assert StateOk(k, p);
    var r := Resume(k).k;
    forall q
      ensures q in Coming(r, i) <==> q in Coming(k, i) - {p}
    {
      assert Comes(r, i, q) <==> Comes(k, i, q) && q != p;
    }
    assert Comes(k, i, p);
  }

  /** Permits are conserved over every run. */
  lemma {:induction false} Permits(k: Kernel, es: seq<Step>, r: Kernel, i: nat, h: multiset<nat>)
    requires Invariant(k) && Run(k, es, r) && i < |k.sems| && Disciplined(k, es, i, h)
    ensures |r.sems| == |k.sems| && Total(r, i, HoldAll(k, es, i, h)) == Total(k, i, h)
    decreases |es|
  {
    if es != [] {
      StepSafe(k, es[0]);
      HoldStep(k, es[0], i, h);
      Permits(Apply(k, es[0]).k, es[1..], r, i, Hold(k, es[0], i, h));
    }
  }

  /** A semaphore that starts from 1 is a mutex: at no time have two processes come back from
      down() without an up() between. While one holds it, or is about to, whoever calls
      down() goes to sleep, and when nobody does, it comes back at once. Who comes back from
      a down() in which it slept is the only holder. */
  lemma {:induction false} Mutex(starts: seq<nat>, es: seq<Step>, r: Kernel, i: nat)
    requires i < |starts| && starts[i] == 1 && Run(Boot(starts), es, r) && Disciplined(Boot(starts), es, i, multiset{})
    ensures i < |r.sems| && r.current in r.procs
    ensures var h := HoldAll(Boot(starts), es, i, multiset{});
            && |h| <= 1
            && (Can(r, SDown(i)) ==>
                  && Down(r, i).Goes?
                  && (h == multiset{} && Coming(r, i) == {} <==> !Down(r, i).k.leaving)
                  && (Down(r, i).k.leaving ==> Down(r, i).k.procs[r.current].state == Sleeping))
            && (Can(r, SResume) && r.procs[r.current].at.InDown? && r.procs[r.current].at.sem == i ==>
                  Hold(r, SResume, i, h) == multiset{r.current})
  {
    var k := Boot(starts);
    BootInvariant(starts);
    RunInvariant(k, es, r);
    NoneComing(starts, i);
    Permits(k, es, r, i, multiset{});
    assert SemOk(r, i) && StateOk(r, r.current);
    if Can(r, SDown(i)) {
      DownInvariant(r, i);
    }
    if Can(r, SResume) && r.procs[r.current].at.InDown? && r.procs[r.current].at.sem == i {
      BackHold(r, i);
    }
  }

  lemma {:induction false} NoneComing(starts: seq<nat>, i: nat)
    ensures Coming(Boot(starts), i) == {}
  {
    forall p
      ensures !Comes(Boot(starts), i, p)
    {
    }
  }

  function Ups(es: seq<Step>, i: nat): nat {
    if es == [] then 0 else (if es[0] == SUp(i) then 1 else 0) + Ups(es[1..], i)
  }

  lemma {:induction false} SemStep(k: Kernel, s: Step, i: nat)
    requires Invariant(k) && Can(k, s) && Apply(k, s).Goes? && i < |k.sems|
    ensures var r := Apply(k, s).k;
            |r.sems| == |k.sems| && r.sems[i].start == k.sems[i].start
            && r.sems[i].ups == k.sems[i].ups + (if s == SUp(i) then 1 else 0)
            && k.sems[i].came <= r.sems[i].came && k.sems[i].served <= r.sems[i].served
  {
    if s.SUp? {
    } else if s.SDown? || s.STryDown? {
    } else {
      OtherSteps(k, s);
    }
  }

  /** Waiters are served in the order in which they came, and start value and up()s
      make up for value and granted down()s. */
  lemma {:induction false} Fifo(k: Kernel, es: seq<Step>, r: Kernel, i: nat)
    requires Invariant(k) && Run(k, es, r) && i < |k.sems|
    ensures |r.sems| == |k.sems| && r.sems[i].start == k.sems[i].start && r.sems[i].ups == k.sems[i].ups + Ups(es, i)
    ensures k.sems[i].came <= r.sems[i].came && k.sems[i].served <= r.sems[i].served <= r.sems[i].came
    ensures 0 <= r.sems[i].value && r.sems[i].start + r.sems[i].ups == r.sems[i].value + r.sems[i].grants
    ensures r.sems[i].value > 0 ==> r.sems[i].queue == []
    decreases |es|
  {
    if es != [] {
      StepSafe(k, es[0]);
      SemStep(k, es[0], i);
      Fifo(Apply(k, es[0]).k, es[1..], r, i);
    } else {
      assert SemOk(k, i);
    }
  }
}
