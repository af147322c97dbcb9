/** do_kill over runs: a sleeping process that is killed is woken and queued, comes to run
    in its turn, and exits if it slept in do_wait. */
module KernelKill {
  import opened Kernel
  import opened KernelSafety
  import opened KernelFamily
  import opened KernelRuns
  import opened KernelSleep
  import opened Basics
  import Timers

  /** do_kill marks a process. It is woken and queued behind all others if it slept, and not
      in down(). Nothing else changes, and nothing at all if it was marked before. */
  lemma {:induction false} KillEffect(k: Kernel, p: nat)
    requires Invariant(k) && Can(k, SKill(p))
    ensures Kill(k, p).Goes?
    ensures var v, m := k.procs[p], Kill(k, p).k;
            if !v.exiting && v.state == Sleeping && !v.at.InDown? then
              m == k.(procs := k.procs[p := v.(state := Runnable, wait := NoWait, exiting := true)],
                      runq := k.runq + [p], num := k.num + 1)
            else m == k.(procs := k.procs[p := v.(exiting := true)])
  {
    KillInvariant(k, p);
    assert StateOk(k, p) && StateOk(k, k.current);
    assert k.procs[p].exiting ==> k.procs[p := k.procs[p].(exiting := true)] == k.procs;
  }

  /** `p` was killed in do_wait, and has not run since. */
  ghost predicate Doomed(k: Kernel, p: nat) {
    p in k.procs && k.procs[p].state == Runnable && k.procs[p].exiting && k.procs[p].at.InWait?
  }

  lemma {:induction false} StepDooms(k: Kernel, s: Step, p: nat)
    requires Invariant(k) && Can(k, s) && Apply(k, s).Goes? && p in k.runq && Doomed(k, p)
    ensures Doomed(Apply(k, s).k, p)
  {
    assert StateOk(k, p) && p != k.current;
    match s
    case SKey => KeyAwake(k, p);
    case STick => FireAwake(k.(timers := Timers.Elapse(k.timers)), p);
    case SExit => ExitRests(k, p);
    case SResume => ResumeDooms(k, p);
    case SWait(pid) => WaitSleeps(k, pid, p);
    case SUp(i) => UpSleeps(k, i, p);
    case _ =>
  }

  lemma {:induction false} ResumeDooms(k: Kernel, p: nat)
    requires Invariant(k) && Can(k, SResume) && Resume(k).Goes? && p != k.current && Doomed(k, p)
    ensures Doomed(Resume(k).k, p)
  {
    assert StateOk(k, p);
    var me := k.current;
    var out := Set(k, me, k.procs[me].(at := Out));
    match k.procs[me].at
    case InWait(pid) =>
      if k.procs[me].exiting {
        ExitRests(out, p);
      } else {
        WaitSleeps(out, pid, p);
      }
    case _ =>
  }

  /** Until its turn has come it stays where it was. */
  lemma {:induction false} StaysDoomed(k: Kernel, es: seq<Step>, r: Kernel, p: nat, j: nat)
    requires Invariant(k) && Run(k, es, r) && Doomed(k, p)
    requires j < |k.runq| && k.runq[j] == p && Schedules(es) <= j
    ensures Invariant(r) && Doomed(r, p)
    decreases |es|
  {
    if es != [] {
      var m := Apply(k, es[0]).k;
      StepSafe(k, es[0]);
      StepDooms(k, es[0], p);
      if es[0].SSchedule? {
        ScheduleQueue(k);
        StaysDoomed(m, es[1..], r, p, j - 1);
      } else {
        StepAppends(k, es[0]);
        StaysDoomed(m, es[1..], r, p, j);
      }
    }
  }

  /** A process other than init that sleeps in do_wait when it is killed is dispatched once
      all that were queued before it have been, whatever else happens, and what it does then
      is to exit. Init cannot exit: the kernel stops. */
  lemma {:induction false} KilledExits(k: Kernel, p: nat, es: seq<Step>, r: Kernel)
    requires Reachable(k) && k.current in k.procs && Can(k, SKill(p)) && Kill(k, p).Goes?
    requires !k.procs[p].exiting && k.procs[p].state == Sleeping && k.procs[p].at.InWait?
    requires Run(Kill(k, p).k, es, r) && Schedules(es) == |k.runq|
    ensures r.current in r.procs && Schedule(r).Goes?
    ensures var n := Schedule(r).k;
            && n.current == p && p in n.procs && Can(n, SResume)
            && (p == INIT ==> Resume(n).Panics?)
            && (p != INIT ==>
                  && Resume(n).Goes? && p in Resume(n).k.procs && Resume(n).k.procs[p].state == Zombie
                  && Resume(n).k.leaving)
  {
    NeverFails(k, SKill(p));
    KillEffect(k, p);
    KillInvariant(k, p);
    var m := Kill(k, p).k;
    assert m.runq[|k.runq|] == p;
    StaysDoomed(m, es, r, p, |k.runq|);
    Dispatched(m, es, r, |k.runq|);
    ScheduleInvariant(r);
    DoomedExits(Schedule(r).k, p);
  }

  lemma {:induction false} DoomedExits(n: Kernel, p: nat)
    requires Invariant(n) && Doomed(n, p) && n.current == p && !n.leaving
    ensures Can(n, SResume)
    ensures p == INIT ==> Resume(n).Panics?
    ensures p != INIT ==>
              Resume(n).Goes? && p in Resume(n).k.procs && Resume(n).k.procs[p].state == Zombie && Resume(n).k.leaving
  {
    var out := Set(n, p, n.procs[p].(at := Out));
    assert StateOk(n, p);
    StopWaiting(n);
    ExitInvariant(out);
    if p != INIT {
      ExitEffect(out);
    }
  }
}
