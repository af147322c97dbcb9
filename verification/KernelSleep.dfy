/** do_sleep over runs: who sleeps for t ticks is woken by the t-th tick and by no other
    step, unless it is killed. */
module KernelSleep {
  import opened Kernel
  import opened KernelSafety
  import opened KernelFamily
  import opened KernelRuns
  import Timers

  /** `p` sleeps, and its timer has `d` ticks left. */
  ghost predicate Asleep(k: Kernel, p: nat, d: nat) {
    && p in k.procs && k.procs[p].state == Sleeping && k.procs[p].wait == ForTimer && k.procs[p].at == InSleep
    && Left(k.timers, p, d)
  }

  ghost predicate Left(l: seq<Timers.Timer>, p: nat, d: nat) {
    p in Timers.Due(l) && Timers.Due(l)[p] == d
  }

  /** What the scheduler knows of `p` stays. */
  ghost predicate Rests(k: Kernel, r: Kernel, p: nat) {
    && p in k.procs && p in r.procs
    && r.procs[p].state == k.procs[p].state && r.procs[p].wait == k.procs[p].wait
    && r.procs[p].exiting == k.procs[p].exiting && r.procs[p].at == k.procs[p].at
  }

  // ----------------------------------------------------------------------- timers

  lemma {:induction false} LeftTail(l: seq<Timers.Timer>, p: nat, d: nat)
    requires l != [] && l[0].expires == 0 && l[0].id != p && Left(l, p, d)
    ensures Left(l[1..], p, d)
  {
  }

  lemma {:induction false} LeftHead(l: seq<Timers.Timer>, p: nat, d: nat)
    requires l != [] && Left(l, p, d)
    ensures l[0].id == p ==> l[0].expires == d
    ensures l[0].expires <= d
  {
  }

  lemma {:induction false} LeftLess(l: seq<Timers.Timer>, p: nat, d: nat)
    requires Timers.Wellformed(l) && Left(l, p, d)
    ensures d > 0 && Left(Timers.Elapse(l), p, d - 1)
  {
    LeftHead(l, p, d);
    assert Timers.Elapse(l)[1..] == l[1..];
  }

  /** Firing the due timers wakes `p` iff it is due. */
  lemma {:induction false} FireWakes(k: Kernel, p: nat, d: nat)
    requires Timers.Distinct(k.timers) && FireAll(k).Goes? && Asleep(k, p, d)
    ensures d > 0 ==> Asleep(FireAll(k).k, p, d)
    ensures d == 0 ==>
              p in FireAll(k).k.procs && FireAll(k).k.procs[p].state == Runnable && FireAll(k).k.procs[p].at == InSleep
    decreases |k.timers|
  {
    LeftHead(k.timers, p, d);
    if k.timers != [] && k.timers[0].expires == 0 {
      var q, r := k.timers[0].id, Wake(k, k.timers[0].id).k;
      var n := r.(timers := r.timers[1..]);
      IdsTail(k.timers);
      if q == p {
        FireAwake(n, p);
      } else {
        LeftTail(k.timers, p, d);
        FireWakes(n, p, d);
      }
    }
  }

  lemma {:induction false} FireAwake(k: Kernel, p: nat)
    requires FireAll(k).Goes? && p in k.procs && k.procs[p].state == Runnable
    ensures p in FireAll(k).k.procs && FireAll(k).k.procs[p] == k.procs[p]
    decreases |k.timers|
  {
    if k.timers != [] && k.timers[0].expires == 0 {
      var r := Wake(k, k.timers[0].id).k;
      FireAwake(r.(timers := r.timers[1..]), p);
    }
  }

  // -------------------------------------------------------------------- other steps

  lemma {:induction false} KeyRests(k: Kernel, p: nat)
    requires KeyPress(k).Goes? && p in k.procs && p !in k.keys
    ensures Rests(k, KeyPress(k).k, p) && KeyPress(k).k.timers == k.timers
    decreases |k.keys|
  {
    if k.keys != [] {
      var r := Wake(k.(keys := k.keys[1..]), k.keys[0]).k;
      KeyRests(r, p);
    }
  }

  lemma {:induction false} OrphanRests(k: Kernel, p: nat, q: nat)
    requires p in k.procs && k.procs[p].kids != [] && p != INIT && Reparent(k, p).Goes? && q in k.procs
    requires k.procs[q].wait != ForChild
    ensures Rests(k, Reparent(k, p).k, q) && Reparent(k, p).k.timers == k.timers
  {
    var m := Moved(k, p);
    assert Rests(k, m, q) && m.timers == k.timers;
    assert Rests(m, Reparent(k, p).k, q);
  }

  lemma {:induction false} OrphansRest(k: Kernel, p: nat, n: nat, q: nat)
    requires p != INIT && ReparentAll(k, p, n).Goes? && q in k.procs && k.procs[q].wait != ForChild
    ensures Rests(k, ReparentAll(k, p, n).k, q) && ReparentAll(k, p, n).k.timers == k.timers
    decreases n
  {
    if n > 0 {
      OrphanRests(k, p, q);
      OrphansRest(Reparent(k, p).k, p, n - 1, q);
    }
  }

  lemma {:induction false} ExitRests(k: Kernel, q: nat)
    requires k.current in k.procs && Exit(k).Goes? && q in k.procs && q != k.current && k.procs[q].wait != ForChild
    ensures Rests(k, Exit(k).k, q) && Exit(k).k.timers == k.timers
  {
    var p := k.current;
    var dead, up := Dead(k), k.procs[p].parent;
    var o := if dead.procs[up].wait == ForChild then Wake(dead, up) else Goes(dead);
    assert Rests(k, o.k, q) && o.k.timers == k.timers;
    OrphansRest(o.k, p, |k.procs[p].kids|, q);
  }

  /** No step but a tick or a kill wakes `p`, or changes how long it has to sleep. */
  lemma {:induction false} StepSleeps(k: Kernel, s: Step, p: nat, d: nat)
    requires Invariant(k) && Can(k, s) && Apply(k, s).Goes? && Asleep(k, p, d) && s != SKill(p) && !s.STick?
    ensures Asleep(Apply(k, s).k, p, d)
  {
    assert StateOk(k, p) && StateOk(k, k.current);
    assert p == k.current ==> k.leaving;
    match s
    case SKey => KeyRests(k, p);
    case SExit => ExitRests(k, p);
    case SSleep(t) => Timers.AddWellformed(k.timers, k.current, t);
    case SResume => ResumeSleeps(k, p, d);
    case SWait(pid) => WaitSleeps(k, pid, p);
    case SUp(i) => UpSleeps(k, i, p);
    case _ =>
  }

  lemma {:induction false} UpSleeps(k: Kernel, i: nat, p: nat)
    requires i < |k.sems| && Up(k, i).Goes? && p in k.procs && k.procs[p].wait != ForSem
    ensures Rests(k, Up(k, i).k, p) && Up(k, i).k.timers == k.timers
  {
  }

  lemma {:induction false} WaitSleeps(k: Kernel, pid: nat, p: nat)
    requires k.current in k.procs && WaitFor(k, pid).Goes? && p in k.procs && p != k.current
    requires k.procs[p].state != Zombie
    ensures Rests(k, WaitFor(k, pid).k, p) && WaitFor(k, pid).k.timers == k.timers
  {
  }

  lemma {:induction false} ResumeSleeps(k: Kernel, p: nat, d: nat)
    requires Invariant(k) && Can(k, SResume) && Resume(k).Goes? && Asleep(k, p, d) && p != k.current
    ensures Asleep(Resume(k).k, p, d)
  {
    var me := k.current;
    var out := Set(k, me, k.procs[me].(at := Out));
    match k.procs[me].at
    case InWait(pid) =>
      if k.procs[me].exiting {
        ExitRests(out, p);
      } else {
        WaitSleeps(out, pid, p);
      }
    case InSleep => Timers.DelWellformed(k.timers, me);
    case _ =>
  }

  lemma {:induction false} TickSleeps(k: Kernel, p: nat, d: nat)
    requires Invariant(k) && Asleep(k, p, d)
    ensures d > 0 && Tick(k).Goes?
    ensures d > 1 ==> Asleep(Tick(k).k, p, d - 1)
    ensures d == 1 ==> p in Tick(k).k.procs && Tick(k).k.procs[p].state == Runnable && Tick(k).k.procs[p].at == InSleep
  {
    TickInvariant(k);
    LeftLess(k.timers, p, d);
    FireWakes(k.(timers := Timers.Elapse(k.timers)), p, d - 1);
  }

  // --------------------------------------------------------------------------- runs

  function Ticks(es: seq<Step>): nat {
    if es == [] then 0 else (if es[0].STick? then 1 else 0) + Ticks(es[1..])
  }

  /** While fewer ticks have passed than it asked for, it sleeps. */
  lemma {:induction false} SleepsOn(k: Kernel, es: seq<Step>, r: Kernel, p: nat, d: nat)
    requires Invariant(k) && Run(k, es, r) && Asleep(k, p, d) && SKill(p) !in es && Ticks(es) < d
    ensures Invariant(r) && Asleep(r, p, d - Ticks(es))
    decreases |es|
  {
    if es != [] {
      var m := Apply(k, es[0]).k;
      StepSafe(k, es[0]);
      assert es[0] in es && forall s :: s in es[1..] ==> s in es;
      if es[0].STick? {
        TickSleeps(k, p, d);
        SleepsOn(m, es[1..], r, p, d - 1);
      } else {
        StepSleeps(k, es[0], p, d);
        SleepsOn(m, es[1..], r, p, d);
      }
    }
  }

  lemma {:induction false} SleepBegins(k: Kernel, t: nat)
    requires Invariant(k) && Can(k, SSleep(t))
    ensures Sleep(k, t).Goes? && Invariant(Sleep(k, t).k) && Asleep(Sleep(k, t).k, k.current, t)
  {
    SleepInvariant(k, t);
    Timers.AddWellformed(k.timers, k.current, t);
  }

  /** The t-th tick after do_sleep(t) wakes the process, and in no run before it is it awake. */
  lemma {:induction false} SleepsExactly(k: Kernel, t: nat, es: seq<Step>, r: Kernel)
    requires Reachable(k) && k.current in k.procs && Can(k, SSleep(t)) && Sleep(k, t).Goes?
    requires Run(Sleep(k, t).k, es, r) && SKill(k.current) !in es && Ticks(es) < t
    ensures k.current in r.procs && r.procs[k.current].state == Sleeping && r.procs[k.current].at == InSleep
    ensures Tick(r).Goes?
    ensures Ticks(es) == t - 1 ==> k.current in Tick(r).k.procs && Tick(r).k.procs[k.current].state == Runnable
  {
    NeverFails(k, STick);
    SleepBegins(k, t);
    SleepsOn(Sleep(k, t).k, es, r, k.current, t);
    TickSleeps(r, k.current, t - Ticks(es));
  }
}
