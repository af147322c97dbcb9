/** The process tree over runs: whoever is there descends from idle, so that only idle and
    init are left once init has no children. */
module KernelTree {
  import opened Basics
  import opened Kernel
  import opened KernelSafety
  import opened KernelFamily
  import opened KernelRuns
  import Timers

  /** `d` gives every process more than its parent, and init the least after idle. */
  ghost predicate Rooted(k: Kernel, d: map<nat, nat>)
  {
    INIT in d && d[INIT] == 1 && forall p {:trigger Deeper(k, d, p)} :: p in k.procs ==> Deeper(k, d, p)
  }

  ghost predicate Deeper(k: Kernel, d: map<nat, nat>, p: nat)
    requires p in k.procs
  {
    && p in d
    && (p != IDLE ==> k.procs[p].parent in d && d[k.procs[p].parent] < d[p] && (p != INIT ==> d[p] > 1))
  }

  /** No process is new, and none has a new parent but init. */
  ghost predicate Kin(k: Kernel, r: Kernel) {
    forall p {:trigger r.procs[p]} :: p in r.procs ==>
      p in k.procs && (r.procs[p].parent == k.procs[p].parent || (p != INIT && r.procs[p].parent == INIT))
  }

  lemma {:induction false} KinTwice(k: Kernel, m: Kernel, r: Kernel)
    requires Kin(k, m) && Kin(m, r)
    ensures Kin(k, r)
  {
    forall p | p in r.procs
      ensures p in k.procs && (r.procs[p].parent == k.procs[p].parent || (p != INIT && r.procs[p].parent == INIT))
    {
      assert p in m.procs && m.procs[p].parent == m.procs[p].parent;
    }
  }

  lemma {:induction false} KinRooted(k: Kernel, r: Kernel, d: map<nat, nat>)
    requires Rooted(k, d) && Kin(k, r)
    ensures Rooted(r, d)
  {
    forall p | p in r.procs
      ensures Deeper(r, d, p)
    {
      assert r.procs[p].parent == r.procs[p].parent;
      assert Deeper(k, d, p);
    }
  }

  lemma {:induction false} FireKin(k: Kernel)
    requires FireAll(k).Goes?
    ensures Kin(k, FireAll(k).k)
    decreases |k.timers|
  {
    if k.timers != [] && k.timers[0].expires == 0 {
      var r := Wake(k, k.timers[0].id).k;
      FireKin(r.(timers := r.timers[1..]));
      KinTwice(k, r, FireAll(k).k);
    }
  }

  lemma {:induction false} KeyKin(k: Kernel)
    requires KeyPress(k).Goes?
    ensures Kin(k, KeyPress(k).k)
    decreases |k.keys|
  {
    if k.keys != [] {
      var r := Wake(k.(keys := k.keys[1..]), k.keys[0]).k;
      KeyKin(r);
      KinTwice(k, r, KeyPress(k).k);
    }
  }

  lemma {:induction false} OrphanKin(k: Kernel, p: nat)
    requires p in k.procs && k.procs[p].kids != [] && p != INIT && Reparent(k, p).Goes?
    ensures Kin(k, Reparent(k, p).k)
  {
    var m := Moved(k, p);
    assert Kin(k, m);
    assert Kin(m, Reparent(k, p).k);
    KinTwice(k, m, Reparent(k, p).k);
  }

  lemma {:induction false} ReparentKin(k: Kernel, p: nat, n: nat)
    requires p != INIT && ReparentAll(k, p, n).Goes?
    ensures Kin(k, ReparentAll(k, p, n).k)
    decreases n
  {
    if n > 0 {
      var r := Reparent(k, p).k;
      OrphanKin(k, p);
      ReparentKin(r, p, n - 1);
      KinTwice(k, r, ReparentAll(k, p, n).k);
    }
  }

  lemma {:induction false} ExitKin(k: Kernel)
    requires k.current in k.procs && Exit(k).Goes?
    ensures Kin(k, Exit(k).k)
  {
    var p := k.current;
    var dead, up := Dead(k), k.procs[p].parent;
    var o := if dead.procs[up].wait == ForChild then Wake(dead, up) else Goes(dead);
    assert Kin(k, o.k);
    ReparentKin(o.k, p, |k.procs[p].kids|);
    KinTwice(k, o.k, Exit(k).k);
  }

  lemma {:induction false} StepKin(k: Kernel, s: Step)
    requires k.current in k.procs && Can(k, s) && Apply(k, s).Goes? && !s.SFork?
    ensures Kin(k, Apply(k, s).k)
  {
    match s
    case SExit => ExitKin(k);
    case STick => FireKin(k.(timers := Timers.Elapse(k.timers)));
    case SKey => KeyKin(k);
    case SResume =>
      var out := Set(k, k.current, k.procs[k.current].(at := Out));
      if k.procs[k.current].at.InWait? && k.procs[k.current].exiting {
        ExitKin(out);
        KinTwice(k, out, Exit(out).k);
      }
    case _ =>
  }

  lemma {:induction false} ForkRooted(k: Kernel, pid: nat, d: map<nat, nat>) returns (e: map<nat, nat>)
    requires Invariant(k) && Can(k, SFork(pid)) && Fork(k, pid).Goes? && Rooted(k, d)
    ensures Rooted(Fork(k, pid).k, e)
  {
    assert Deeper(k, d, k.current);
    e := d[pid := d[k.current] + 2];
    var r := Fork(k, pid).k;
    forall p | p in r.procs
      ensures Deeper(r, e, p)
    {
      if p != pid {
        assert Deeper(k, d, p);
        assert TreeOk(k, p);
      }
    }
  }

  lemma {:induction false} RunRooted(k: Kernel, es: seq<Step>, r: Kernel, d: map<nat, nat>) returns (e: map<nat, nat>)
    requires Invariant(k) && Run(k, es, r) && Rooted(k, d)
    ensures Rooted(r, e)
    decreases |es|
  {
    e := d;
    if es != [] {
      StepSafe(k, es[0]);
      if es[0].SFork? {
        e := ForkRooted(k, es[0].pid, d);
      } else {
        StepKin(k, es[0]);
        KinRooted(k, Apply(k, es[0]).k, d);
      }
      e := RunRooted(Apply(k, es[0]).k, es[1..], r, e);
    }
  }

  lemma {:induction false} ReachRooted(k: Kernel) returns (d: map<nat, nat>)
    requires Reachable(k)
    ensures Rooted(k, d)
  {
    var starts: seq<nat>, es :| Run(Boot(starts), es, k);
    BootInvariant(starts);
    d := RunRooted(Boot(starts), es, k, map[IDLE := 0, INIT := 1]);
  }

  /** The n-th parent of `p`, counted from `p` itself. */
  ghost function Elder(k: Kernel, p: nat, n: nat): nat
    decreases n
  {
    if n == 0 || p !in k.procs then p else Elder(k, k.procs[p].parent, n - 1)
  }

  /** Every process descends from idle: the links to the parents make no circle. */
  lemma {:induction false} Descends(k: Kernel, p: nat) returns (n: nat)
    requires Reachable(k) && p in k.procs
    ensures Elder(k, p, n) == IDLE && forall i :: 0 <= i < n ==> Elder(k, p, i) != IDLE && Elder(k, p, i) in k.procs
  {
    var d := ReachRooted(k);
    NeverFails(k, STick);
    assert Deeper(k, d, p);
    n := Climb(k, d, p);
  }

  lemma {:induction false} Climb(k: Kernel, d: map<nat, nat>, p: nat) returns (n: nat)
    requires Invariant(k) && Rooted(k, d) && p in k.procs && p in d
    ensures Elder(k, p, n) == IDLE && forall i :: 0 <= i < n ==> Elder(k, p, i) != IDLE && Elder(k, p, i) in k.procs
    decreases d[p]
  {
    n := 0;
    if p != IDLE {
      assert Deeper(k, d, p) && TreeOk(k, p);
      assert Deeper(k, d, k.procs[p].parent);
      var m := Climb(k, d, k.procs[p].parent);
      n := m + 1;
      forall i | 0 <= i < n
        ensures Elder(k, p, i) != IDLE && Elder(k, p, i) in k.procs
      {
        if i > 0 {
          assert Elder(k, p, i) == Elder(k, k.procs[p].parent, i - 1);
        }
      }
    }
  }

  /** When init has no child left and idle none but init, no other process is there. */
  lemma {:induction false} AllQuit(k: Kernel)
    requires Reachable(k)
    ensures IDLE in k.procs && INIT in k.procs
    ensures k.procs[INIT].kids == [] && k.procs[IDLE].kids == [INIT] <==> k.procs.Keys == {IDLE, INIT}
  {
    var d := ReachRooted(k);
    NeverFails(k, STick);
    assert TreeOk(k, INIT) && TreeOk(k, IDLE);
    if k.procs[INIT].kids == [] && k.procs[IDLE].kids == [INIT] {
      forall p | p in k.procs
        ensures p == IDLE || p == INIT
      {
        assert Deeper(k, d, p);
        Nobody(k, d, p);
      }
    } else if k.procs.Keys == {IDLE, INIT} {
      TwoLeft(k);
    }
  }

  lemma {:induction false} Nobody(k: Kernel, d: map<nat, nat>, p: nat)
    requires Invariant(k) && Rooted(k, d) && p in k.procs && p in d && k.procs[INIT].kids == []
    requires k.procs[IDLE].kids == [INIT]
    ensures p == IDLE || p == INIT
    decreases d[p]
  {
    if p != IDLE {
      assert Deeper(k, d, p) && TreeOk(k, p);
      assert Deeper(k, d, k.procs[p].parent);
      Nobody(k, d, k.procs[p].parent);
    }
  }

  lemma {:induction false} TwoLeft(k: Kernel)
    requires Invariant(k) && k.procs.Keys == {IDLE, INIT}
    ensures k.procs[INIT].kids == [] && k.procs[IDLE].kids == [INIT]
  {
    assert TreeOk(k, INIT) && TreeOk(k, IDLE);
    var t := k.procs[IDLE].kids;
    NoMember(k.procs[INIT].kids, k.procs.Keys);
    forall c | c in t
      ensures c == INIT
    {
      assert c in k.procs.Keys;
    }
    OneMember(t, INIT);
  }
}
