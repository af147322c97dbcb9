/** do_wait and do_exit keep the invariant: a dead child is reaped once, an exiting
    process leaves no child behind, and nobody sleeps on a child that is dead. */
module KernelFamily {
  import opened Kernel
  import opened KernelSafety
  import opened Basics
  import Timers

  // ---------------------------------------------------------------------- do_wait

  lemma {:induction false} ReapProc(k: Kernel, r: Kernel, c: nat, p: nat)
    requires k.current in k.procs && c in k.procs && Reap(k, c) == Goes(r)
    requires k.procs[k.current].state == Runnable && k.procs[c].parent == k.current
    requires k.procs[c].kids == [] && c != IDLE
    requires p in k.procs && p != c && StateOk(k, p) && TreeOk(k, p) && Distinct(k.procs[k.current].kids)
    ensures StateOk(r, p) && TreeOk(r, p)
  {
    DistinctRemove(k.procs[k.current].kids, c);
    assert forall q :: q in r.procs && q != k.current ==> r.procs[q] == k.procs[q];
    assert p in r.procs;
    if p == k.current {
      assert StateOk(r, p);
      assert TreeOk(r, p);
    } else {
      assert StateOk(r, p);
      assert TreeOk(r, p);
    }
  }

  lemma {:induction false} ReapQueues(k: Kernel, c: nat)
    requires Core(k) && c in k.procs && c != k.current && k.procs[c].state == Zombie
    ensures var me := k.procs[k.current];
            var r := k.(procs := k.procs[k.current := me.(kids := Remove(me.kids, c))] - {c});
            QueuesOk(r) && forall i {:trigger SemOk(r, i)} :: 0 <= i < |r.sems| ==> SemOk(r, i)
  {
    var r := k.(procs := k.procs[k.current := k.procs[k.current].(kids := Remove(k.procs[k.current].kids, c))] - {c});
    assert StateOk(k, c);
    forall q | q in k.procs && q != c
      ensures q in r.procs && r.procs[q].at == k.procs[q].at
    {
    }
    forall i | 0 <= i < |r.sems|
      ensures SemOk(r, i)
    {
      assert SemOk(k, i);
    }
  }

  lemma {:induction false} ReapInvariant(k: Kernel, c: nat)
    requires Invariant(k) && !k.leaving && c in k.procs[k.current].kids && c in k.procs && k.procs[c].state == Zombie
    ensures Reap(k, c).Goes? && Invariant(Reap(k, c).k)
  {
    assert StateOk(k, c) && TreeOk(k, k.current) && StateOk(k, k.current);
    var r := Reap(k, c).k;
    ReapQueues(k, c);
    forall p | p in r.procs
      ensures StateOk(r, p) && TreeOk(r, p)
    {
      assert StateOk(k, p) && TreeOk(k, p);
      ReapProc(k, r, c, p);
    }
  }

  lemma {:induction false} WaitBlocks(k: Kernel, pid: nat)
    requires Invariant(k) && !k.leaving && k.current != IDLE && k.procs[k.current].at == Out
    requires WaitsInVain(k, k.current, pid)
    ensures Invariant(Block(k, InWait(pid)))
  {
    var p := k.current;
    assert StateOk(k, p) && TreeOk(k, p);
    var r := Block(k, InWait(pid));
    assert Touches(k, r, p);
    assert StateOk(r, p);
    OutSems(k, r, p);
    TouchCore(k, r, p);
  }

  lemma {:induction false} WaitKeeps(k: Kernel, pid: nat)
    requires Invariant(k) && Can(k, SWait(pid))
    ensures WaitFor(k, pid).Goes? && Invariant(WaitFor(k, pid).k)
  {
    var me := k.current;
    assert TreeOk(k, me);
    if pid != 0 {
      if pid in k.procs && k.procs[pid].parent == me {
        assert TreeOk(k, pid);
        if k.procs[pid].state == Zombie {
          ReapInvariant(k, pid);
        } else {
          WaitBlocks(k, pid);
        }
      }
    } else {
      var z := FirstZombie(k, k.procs[me].kids);
      if z != 0 {
        ReapInvariant(k, z);
      } else if k.procs[me].kids != [] {
        WaitBlocks(k, pid);
      }
    }
  }

  /** `c` is a child that do_wait(pid) waits for. */
  ghost predicate Asked(k: Kernel, pid: nat, c: nat) {
    k.current in k.procs && c in k.procs[k.current].kids && (pid == 0 || c == pid)
  }

  ghost predicate AskedDead(k: Kernel, pid: nat, c: nat) {
    Asked(k, pid, c) && c in k.procs && k.procs[c].state == Zombie
  }

  lemma {:induction false} FirstZombieAt(k: Kernel, s: seq<nat>, i: nat)
    requires i < |s| && s[i] in k.procs && s[i] != 0 && k.procs[s[i]].state == Zombie
    requires forall j :: 0 <= j < i && s[j] in k.procs ==> k.procs[s[j]].state != Zombie
    ensures FirstZombie(k, s) == s[i]
  {
    if i > 0 {
      FirstZombieAt(k, s[1..], i - 1);
    }
  }

  /** do_wait with a dead child to reap takes the youngest such child. */
  lemma {:induction false} WaitReaps(k: Kernel, pid: nat, i: nat)
    requires Invariant(k) && Can(k, SWait(pid)) && i < |k.procs[k.current].kids|
    requires AskedDead(k, pid, k.procs[k.current].kids[i])
    requires forall j :: 0 <= j < i ==> !AskedDead(k, pid, k.procs[k.current].kids[j])
    ensures WaitFor(k, pid) == Reap(k, k.procs[k.current].kids[i])
  {
    var c := k.procs[k.current].kids[i];
    assert TreeOk(k, k.current) && TreeOk(k, c) && c in k.procs[k.current].kids;
    if pid == 0 {
      forall j | 0 <= j < i && k.procs[k.current].kids[j] in k.procs
        ensures k.procs[k.procs[k.current].kids[j]].state != Zombie
      {
        assert !AskedDead(k, pid, k.procs[k.current].kids[j]);
      }
      FirstZombieAt(k, k.procs[k.current].kids, i);
    }
  }

  /** do_wait keeps the invariant. Without a child that it is asked for it changes nothing.
      While none of those is dead the caller is asleep and has to call schedule(). Of those
      that are dead the youngest, at `i`, disappears. */
  lemma {:induction false} WaitInvariant(k: Kernel, pid: nat, i: nat)
    requires Invariant(k) && Can(k, SWait(pid))
    ensures WaitFor(k, pid).Goes? && Invariant(WaitFor(k, pid).k)
    ensures (forall c :: !Asked(k, pid, c)) ==> WaitFor(k, pid).k == k
    ensures (exists c :: Asked(k, pid, c)) && (forall c :: !AskedDead(k, pid, c)) ==>
              var r := WaitFor(k, pid).k;
              && r.procs == k.procs[k.current := r.procs[k.current]] && r == k.(procs := r.procs, leaving := true)
              && r.procs[k.current] == k.procs[k.current].(state := Sleeping, wait := ForChild, at := InWait(pid))
    ensures var me := k.procs[k.current];
            && i < |me.kids| && AskedDead(k, pid, me.kids[i])
            && (forall j :: 0 <= j < i ==> !AskedDead(k, pid, me.kids[j])) ==>
              var r := WaitFor(k, pid).k;
              && r == k.(procs := r.procs) && r.procs.Keys == k.procs.Keys - {me.kids[i]}
              && r.procs[k.current] == me.(kids := Remove(me.kids, me.kids[i]))
              && forall q {:trigger r.procs[q]} :: q in r.procs && q != k.current ==> r.procs[q] == k.procs[q]
  {
    var me := k.procs[k.current];
    WaitKeeps(k, pid);
    assert TreeOk(k, k.current);
    if forall c :: !AskedDead(k, pid, c) {
      WaitsOrNot(k, pid);
    } else if i < |me.kids| && AskedDead(k, pid, me.kids[i])
              && forall j :: 0 <= j < i ==> !AskedDead(k, pid, me.kids[j]) {
      WaitReaps(k, pid, i);
      assert StateOk(k, me.kids[i]) && TreeOk(k, me.kids[i]);
    }
  }

  lemma {:induction false} WaitsOrNot(k: Kernel, pid: nat)
    requires Invariant(k) && Can(k, SWait(pid)) && forall c :: !AskedDead(k, pid, c)
    ensures WaitFor(k, pid) == Goes(if exists c :: Asked(k, pid, c) then Block(k, InWait(pid)) else k)
  {
    var kids := k.procs[k.current].kids;
    assert TreeOk(k, k.current);
    if pid != 0 {
      assert Asked(k, pid, pid) <==> pid in kids;
      if pid in k.procs {
        assert TreeOk(k, pid) && !AskedDead(k, pid, pid);
      }
    } else {
      var z := FirstZombie(k, kids);
      assert !AskedDead(k, pid, z);
      if kids != [] {
        assert Asked(k, pid, kids[0]);
      }
    }
  }

  // ---------------------------------------------------------------------- do_exit

  /** `p` is dead but may still have children to hand over; `w` has perhaps to be told
      of a dead child. */
  ghost predicate Dying(k: Kernel, p: nat, w: nat)
  {
    && k.current == p && k.leaving && p in k.procs && p != IDLE && p != INIT
    && k.procs[p].state == Zombie && k.procs[p].wait == NoWait && k.procs[p].at == Out && p !in k.runq
    && IDLE in k.procs && INIT in k.procs && k.procs[INIT].parent == IDLE
    && QueuesOk(k)
    && (forall q {:trigger StateOk(k, q)} :: q in k.procs && q != p && q != w ==> StateOk(k, q))
    && (forall q {:trigger TreeOk(k, q)} :: q in k.procs ==> TreeOk(k, q))
    && (forall i {:trigger SemOk(k, i)} :: 0 <= i < |k.sems| ==> SemOk(k, i))
  }

  /** `w` sleeps in do_wait, whatever its children do. */
  ghost predicate Waiting(k: Kernel, w: nat)
  {
    && w in k.procs && w !in k.runq && w != k.current && w != IDLE
    && k.procs[w].state == Sleeping && k.procs[w].wait == ForChild && k.procs[w].at.InWait?
  }

  lemma {:induction false} NotifyTouches(k: Kernel, p: nat, w: nat)
    requires QueuesOk(k) && Waiting(k, w)
    ensures Wake(k, w).Goes?
    ensures var r := Wake(k, w).k;
            Touches(k, r, w) && QueuesOk(r) && StateOk(r, w) && k.runq <= r.runq && r.leaving == k.leaving
    ensures w !in Wake(k, w).k.procs || Wake(k, w).k.procs[w].at == k.procs[w].at
    ensures forall q :: q != w ==> (q in Wake(k, w).k.runq <==> q in k.runq)
  {
    var r := Wake(k, w).k;
    assert r.runq == k.runq + [w];
    assert Touches(k, r, w);
    assert StateOk(r, w);
  }

  lemma {:induction false} Notify(k: Kernel, p: nat, w: nat)
    requires Dying(k, p, w) && Waiting(k, w)
    ensures Wake(k, w).Goes? && Dying(Wake(k, w).k, p, p) && k.runq <= Wake(k, w).k.runq
    ensures Wake(k, w).k.procs[p] == k.procs[p]
  {
    NotifyTouches(k, p, w);
    var r := Wake(k, w).k;
    NotifyProcs(k, r, p, w);
    forall i | 0 <= i < |r.sems|
      ensures SemOk(r, i)
    {
      assert SemOk(k, i);
      SemsKept(k, r, w, i);
    }
    assert r.procs[INIT].parent == IDLE;
  }

  lemma {:induction false} NotifyProcs(k: Kernel, r: Kernel, p: nat, w: nat)
    requires Dying(k, p, w) && Touches(k, r, w) && StateOk(r, w)
    ensures forall q {:trigger StateOk(r, q)} :: q in r.procs && q != p ==> StateOk(r, q)
    ensures forall q {:trigger TreeOk(r, q)} :: q in r.procs ==> TreeOk(r, q)
  {
    forall q | q in r.procs
      ensures TreeOk(r, q) && (q != p ==> StateOk(r, q))
    {
      assert TreeOk(k, q);
      AllTree(k, r, w, q);
      if q != p && q != w {
        assert StateOk(k, q);
        OthersState(k, r, w, q);
      }
    }
  }

  function Dead(k: Kernel): Kernel
    requires k.current in k.procs
  {
    Set(k, k.current, k.procs[k.current].(state := Zombie)).(leaving := true)
  }

  /** Only the parent can be waiting for the process that dies. */
  lemma {:induction false} DeadProc(k: Kernel, q: nat)
    requires k.current in k.procs && k.procs[k.current].state == Runnable && q in k.procs && StateOk(k, q)
    requires TreeOk(k, q)
    ensures q != k.current && q != k.procs[k.current].parent ==> StateOk(Dead(k), q)
    ensures q != k.current && !(k.procs[q].wait == ForChild) ==> StateOk(Dead(k), q)
    ensures TreeOk(Dead(k), q)
  {
    var r := Dead(k);
    assert forall d :: d in k.procs && d != k.current ==> r.procs[d] == k.procs[d];
    assert TreeOk(r, q);
    if q != k.current && (q != k.procs[k.current].parent || k.procs[q].wait != ForChild) {
      assert StateOk(r, q);
    }
  }

  lemma {:induction false} DeadDying(k: Kernel)
    requires Invariant(k) && Can(k, SExit) && k.current != IDLE && k.current != INIT
    ensures var w := k.procs[k.current].parent;
            && w in k.procs && w != k.current && Dying(Dead(k), k.current, w)
            && (if k.procs[w].wait == ForChild then Waiting(Dead(k), w) else Dying(Dead(k), k.current, k.current))
  {
    var p := k.current;
    var w := k.procs[p].parent;
    var r := Dead(k);
    assert StateOk(k, p) && TreeOk(k, p);
    assert TreeOk(k, w) && StateOk(k, w);
    forall q | q in r.procs
      ensures TreeOk(r, q) && (q != p && q != w ==> StateOk(r, q))
      ensures (q == w && k.procs[w].wait != ForChild ==> StateOk(r, q))
    {
      assert StateOk(k, q) && TreeOk(k, q);
      DeadProc(k, q);
    }
    forall i | 0 <= i < |r.sems|
      ensures SemOk(r, i)
    {
      assert SemOk(k, i);
    }
    assert QueuesOk(r);
  }

  /** `c`, the first child of `p`, becomes the first child of init. */
  function Moved(k: Kernel, p: nat): Kernel
    requires p in k.procs && k.procs[p].kids != [] && p != INIT && INIT in k.procs
    requires k.procs[p].kids[0] in k.procs && k.procs[p].kids[0] != p && k.procs[p].kids[0] != INIT
  {
    var c := k.procs[p].kids[0];
    k.(procs := k.procs[p := k.procs[p].(kids := k.procs[p].kids[1..])]
                       [c := k.procs[c].(parent := INIT)]
                       [INIT := k.procs[INIT].(kids := [c] + k.procs[INIT].kids)])
  }

  ghost predicate Movable(k: Kernel, p: nat)
  {
    && p in k.procs && k.procs[p].kids != [] && p != INIT && INIT in k.procs
    && k.procs[p].kids[0] in k.procs && k.procs[p].kids[0] != p && k.procs[p].kids[0] != INIT
    && k.procs[k.procs[p].kids[0]].parent == p && k.procs[p].kids[0] != IDLE && IDLE in k.procs
    && TreeOk(k, p)
  }

  lemma {:induction false} MovedTree(k: Kernel, p: nat, q: nat)
    requires Movable(k, p) && q in k.procs && TreeOk(k, q)
    ensures TreeOk(Moved(k, p), q)
  {
    var r, c := Moved(k, p), k.procs[p].kids[0];
    DistinctParts(k.procs[p].kids);
    if q == p {
      assert r.procs[q].parent == k.procs[q].parent && r.procs[q].kids == k.procs[q].kids[1..];
      assert TreeOk(r, q);
    } else if q == INIT {
      assert r.procs[q].parent == k.procs[q].parent && r.procs[q].kids == [c] + k.procs[q].kids;
      assert TreeOk(r, q);
    } else {
      MovedOther(k, p, q);
    }
  }

  lemma {:induction false} MovedOther(k: Kernel, p: nat, q: nat)
    requires Movable(k, p) && q in k.procs && TreeOk(k, q) && q != p && q != INIT
    ensures TreeOk(Moved(k, p), q)
  {
    var r, c := Moved(k, p), k.procs[p].kids[0];
    DistinctParts(k.procs[p].kids);
    assert r.procs[q].kids == k.procs[q].kids;
    assert forall d :: d in k.procs[q].kids ==> d != c;
    if q == c {
      assert r.procs[q].parent == INIT;
    } else {
      assert r.procs[q].parent == k.procs[q].parent;
    }
  }

  lemma {:induction false} MovedState(k: Kernel, p: nat, q: nat)
    requires Movable(k, p) && q in k.procs && TreeOk(k, q) && StateOk(k, q) && q != p
    requires q == INIT && k.procs[INIT].wait == ForChild ==> k.procs[k.procs[p].kids[0]].state != Zombie
    ensures StateOk(Moved(k, p), q)
  {
    var r, c := Moved(k, p), k.procs[p].kids[0];
    assert forall d :: d in k.procs ==> r.procs[d].state == k.procs[d].state;
    if q == INIT {
      assert forall d :: d in r.procs[q].kids <==> d == c || d in k.procs[q].kids;
      assert StateOk(r, q);
    } else {
      assert r.procs[q].kids == k.procs[q].kids;
      assert StateOk(r, q);
    }
  }

  lemma {:induction false} DyingMovable(k: Kernel, p: nat)
    requires Dying(k, p, p) && k.procs[p].kids != []
    ensures Movable(k, p)
    ensures Reparent(k, p) == if k.procs[k.procs[p].kids[0]].state == Zombie && k.procs[INIT].wait == ForChild
                              then Wake(Moved(k, p), INIT) else Goes(Moved(k, p))
  {
    var c := k.procs[p].kids[0];
    assert TreeOk(k, p);
    assert c in k.procs[p].kids;
  }

  lemma {:induction false} MovedDying(k: Kernel, p: nat)
    requires Dying(k, p, p) && Movable(k, p)
    ensures Dying(Moved(k, p), p, INIT) && Moved(k, p).procs[p].kids == k.procs[p].kids[1..]
    ensures if k.procs[k.procs[p].kids[0]].state == Zombie && k.procs[INIT].wait == ForChild
            then Waiting(Moved(k, p), INIT) else Dying(Moved(k, p), p, p)
  {
    var r := Moved(k, p);
    var told := k.procs[k.procs[p].kids[0]].state == Zombie && k.procs[INIT].wait == ForChild;
    forall q | q in r.procs
      ensures TreeOk(r, q) && (q != p && !(q == INIT && told) ==> StateOk(r, q))
    {
      assert TreeOk(k, q);
      MovedTree(k, p, q);
      if q != p && !(q == INIT && told) {
        assert StateOk(k, q);
        MovedState(k, p, q);
      }
    }
    assert StateOk(k, INIT);
    forall i | 0 <= i < |r.sems|
      ensures SemOk(r, i)
    {
      assert SemOk(k, i);
    }
    assert QueuesOk(r);
  }

  /** All children are handed over, and init is never told of one while it is dead
      itself. */
  lemma {:induction false} ReparentAllInvariant(k: Kernel, p: nat)
    requires Dying(k, p, p)
    ensures var o := ReparentAll(k, p, |k.procs[p].kids|);
            o.Goes? && Core(o.k) && k.runq <= o.k.runq && o.k.current == p && o.k.timers == k.timers
    decreases |k.procs[p].kids|
  {
    if k.procs[p].kids != [] {
      OneOrphan(k, p);
      ReparentAllInvariant(Reparent(k, p).k, p);
    } else {
      assert StateOk(k, p);
    }
  }

  lemma {:induction false} OneOrphan(k: Kernel, p: nat)
    requires Dying(k, p, p) && k.procs[p].kids != []
    ensures Reparent(k, p).Goes? && Dying(Reparent(k, p).k, p, p)
    ensures k.runq <= Reparent(k, p).k.runq && Reparent(k, p).k.timers == k.timers
    ensures var r := Reparent(k, p).k;
            r.procs[INIT].kids == [k.procs[p].kids[0]] + k.procs[INIT].kids && r.procs[p].kids == k.procs[p].kids[1..]
  {
    DyingMovable(k, p);
    MovedDying(k, p);
    var m := Moved(k, p);
    if k.procs[k.procs[p].kids[0]].state == Zombie && k.procs[INIT].wait == ForChild {
      Notify(m, p, INIT);
    }
  }

  /** init gets the children of the dead process, the eldest first. */
  lemma {:induction false} OrphansToInit(k: Kernel, p: nat)
    requires Dying(k, p, p)
    ensures var o := ReparentAll(k, p, |k.procs[p].kids|);
            o.Goes? && p in o.k.procs && INIT in o.k.procs && o.k.procs[p].kids == []
            && o.k.procs[INIT].kids == Reversed(k.procs[p].kids) + k.procs[INIT].kids
    decreases |k.procs[p].kids|
  {
    if k.procs[p].kids != [] {
      OneOrphan(k, p);
      OrphansToInit(Reparent(k, p).k, p);
      ReversedFirst(k.procs[p].kids, k.procs[INIT].kids);
    } else {
      assert Reversed(k.procs[p].kids) + k.procs[INIT].kids == k.procs[INIT].kids;
    }
  }

  lemma {:induction false} OrphanKeeps(k: Kernel, p: nat, q: nat)
    requires p in k.procs && k.procs[p].kids != [] && p != INIT && Reparent(k, p).Goes? && q in k.procs
    ensures var r := Reparent(k, p).k;
            && q in r.procs && (q != INIT || k.procs[q].state != Sleeping ==> r.procs[q].state == k.procs[q].state)
            && k.runq <= r.runq && r.current == k.current && r.leaving == k.leaving
  {
    var m := Moved(k, p);
    assert q in m.procs && m.procs[q].state == k.procs[q].state;
  }

  /** Handing over children wakes nobody but init. */
  lemma {:induction false} OrphansKeep(k: Kernel, p: nat, n: nat, q: nat)
    requires p != INIT && ReparentAll(k, p, n).Goes? && q in k.procs
    ensures var r := ReparentAll(k, p, n).k;
            && q in r.procs && (q != INIT || k.procs[q].state != Sleeping ==> r.procs[q].state == k.procs[q].state)
            && k.runq <= r.runq && r.current == k.current && r.leaving == k.leaving
    decreases n
  {
    if n > 0 {
      OrphanKeeps(k, p, q);
      OrphansKeep(Reparent(k, p).k, p, n - 1, q);
    }
  }

  /** The process is dead and has to call schedule(); its parent, if that waits for a child,
      is awake and queued. */
  lemma {:induction false} ExitEffect(k: Kernel)
    requires k.current in k.procs && Exit(k).Goes?
    ensures var p, r := k.current, Exit(k).k;
            && r.current == p && r.leaving && p in r.procs && r.procs[p].state == Zombie
            && var w := k.procs[p].parent;
               && w in k.procs && w in r.procs
               && (w != p && k.procs[w].wait == ForChild ==>
                     r.procs[w].state == Runnable && (k.procs[w].state == Sleeping && w != IDLE ==> w in r.runq))
  {
    var p, w := k.current, k.procs[k.current].parent;
    var o := if Dead(k).procs[w].wait == ForChild then Wake(Dead(k), w) else Goes(Dead(k));
    OrphansKeep(o.k, p, |k.procs[p].kids|, p);
    OrphansKeep(o.k, p, |k.procs[p].kids|, w);
    if w != p && k.procs[w].wait == ForChild && k.procs[w].state == Sleeping && w != IDLE {
      assert o.k.runq == k.runq + [w];
      assert Exit(k).k.runq[|k.runq|] == w;
    }
  }

  lemma {:induction false} ExitInvariant(k: Kernel)
    requires Invariant(k) && Can(k, SExit)
    ensures Exit(k).Panics? <==> k.current == IDLE || k.current == INIT
    ensures !Exit(k).Panics? ==>
              Exit(k).Goes? && Invariant(Exit(k).k) && k.runq <= Exit(k).k.runq && Exit(k).k.current == k.current
  {
    var p := k.current;
    if p != IDLE && p != INIT {
      DeadDying(k);
      var w := k.procs[p].parent;
      var dead := Dead(k);
      if k.procs[w].wait == ForChild {
        Notify(dead, p, w);
        ReparentAllInvariant(Wake(dead, w).k, p);
      } else {
        ReparentAllInvariant(dead, p);
      }
    }
  }
}
