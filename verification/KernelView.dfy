/** How processes in memory stand for the processes of the transition system: each has a
    number of its own, its fields are those the system knows, and its children in memory
    are, by number, its children there. */
module KernelView {
  import opened Basics
  import opened Kernel
  import opened ChildLinks
  import opened KernelSafety
  import opened KernelFamily
  import opened KernelRuns
  import Timers

  /** What the scheduler knows of one process. */
  datatype Cell = Cell(state: State, wait: Wait, exiting: bool, at: Place)
  type Cells = map<Process, Cell>

  function PidsOf(s: seq<Process>): (r: seq<nat>)
    ensures |r| == |s| && forall i :: 0 <= i < |s| ==> r[i] == s[i].pid
  {
    seq(|s|, i requires 0 <= i < |s| => s[i].pid)
  }

  ghost predicate Fits(cells: Cells, kids: Kids, procs: map<nat, Proc>, p: Process)
  {
    && p in cells && p in kids && p.pid in procs
    && var v := procs[p.pid];
       cells[p] == Cell(v.state, v.wait, v.exiting, v.at) && v.kids == PidsOf(kids[p])
  }

  ghost predicate Named(byPid: map<nat, Process>, p: Process) {
    p.pid in byPid && byPid[p.pid] == p
  }

  /** The processes of `kids` are, by number, those of `procs`. */
  ghost predicate Views(cells: Cells, kids: Kids, byPid: map<nat, Process>, procs: map<nat, Proc>)
  {
    && cells.Keys == kids.Keys && byPid.Keys == procs.Keys
    && (forall n {:trigger byPid[n]} :: n in byPid ==> byPid[n] in kids && byPid[n].pid == n)
    && (forall p {:trigger Named(byPid, p)} :: p in kids ==> Named(byPid, p))
    && (forall p {:trigger Fits(cells, kids, procs, p)} :: p in kids ==> Fits(cells, kids, procs, p))
  }

  /** Different processes have different numbers. */
  lemma {:induction false} OneName(cells: Cells, kids: Kids, byPid: map<nat, Process>, procs: map<nat, Proc>,
      p: Process, q: Process)
    requires Views(cells, kids, byPid, procs) && p in kids && q in kids
    ensures p.pid == q.pid <==> p == q
  {
    assert Named(byPid, p) && Named(byPid, q);
  }

  lemma {:induction false} InPids(cells: Cells, kids: Kids, byPid: map<nat, Process>, procs: map<nat, Proc>,
      s: seq<Process>, p: Process)
    requires Views(cells, kids, byPid, procs) && p in kids && forall q :: q in s ==> q in kids
    ensures p.pid in PidsOf(s) <==> p in s
  {
    if p.pid in PidsOf(s) {
      var i :| 0 <= i < |s| && PidsOf(s)[i] == p.pid;
      OneName(cells, kids, byPid, procs, p, s[i]);
    }
  }

  /** Fields of one process change. */
  lemma {:induction false} ViewCell(cells: Cells, kids: Kids, byPid: map<nat, Process>, procs: map<nat, Proc>,
      p: Process, c: Cell)
    requires Views(cells, kids, byPid, procs) && p in kids
    ensures Named(byPid, p) && p.pid in procs
    ensures Views(cells[p := c], kids, byPid,
        procs[p.pid := procs[p.pid].(state := c.state, wait := c.wait, exiting := c.exiting, at := c.at)])
  {
    assert Named(byPid, p) && Fits(cells, kids, procs, p);
    var to, now := cells[p := c],
        procs[p.pid := procs[p.pid].(state := c.state, wait := c.wait, exiting := c.exiting, at := c.at)];
    forall q | q in kids
      ensures Fits(to, kids, now, q)
    {
      OneName(cells, kids, byPid, procs, p, q);
      assert Fits(cells, kids, procs, q);
    }
  }

  /** A new process, the youngest child of `p`. */
  lemma {:induction false} ViewFork(cells: Cells, kids: Kids, byPid: map<nat, Process>, procs: map<nat, Proc>,
      p: Process, c: Process)
    requires Views(cells, kids, byPid, procs) && p in kids && c !in kids && c.pid !in procs
    ensures Named(byPid, p) && p.pid in procs
    ensures Views(cells[c := Cell(Runnable, NoWait, false, Out)], Adopted(kids, p, c), byPid[c.pid := c],
                  procs[p.pid := procs[p.pid].(kids := [c.pid] + procs[p.pid].kids)]
                       [c.pid := Proc(Runnable, NoWait, false, p.pid, [], Out)])
  {
    assert Named(byPid, p) && Fits(cells, kids, procs, p);
    var to, after, names := cells[c := Cell(Runnable, NoWait, false, Out)], Adopted(kids, p, c), byPid[c.pid := c];
    var now := procs[p.pid := procs[p.pid].(kids := [c.pid] + procs[p.pid].kids)]
                    [c.pid := Proc(Runnable, NoWait, false, p.pid, [], Out)];
    assert PidsOf([c] + kids[p]) == [c.pid] + PidsOf(kids[p]);
    forall q | q in after
      ensures Fits(to, after, now, q) && Named(names, q)
    {
      if q != c {
        OneName(cells, kids, byPid, procs, p, q);
        assert Fits(cells, kids, procs, q) && Named(byPid, q);
      }
    }
  }

  /** The first child of `p` goes to init. */
  lemma {:induction false} ViewHand(cells: Cells, kids: Kids, byPid: map<nat, Process>, k: Kernel, p: Process,
      init: Process)
    requires Views(cells, kids, byPid, k.procs) && p in kids && init in kids && p != init && kids[p] != []
    requires kids[p][0] in kids && kids[p][0] != p && kids[p][0] != init && init.pid == INIT
    ensures Moved.requires(k, p.pid) && k.procs[p.pid].kids[0] == kids[p][0].pid
    ensures Views(cells, HandedOne(kids, p, init), byPid, Moved(k, p.pid).procs)
  {
    var c, procs := kids[p][0], k.procs;
    assert Named(byPid, p) && Fits(cells, kids, procs, p) && Named(byPid, c) && Fits(cells, kids, procs, c);
    assert Named(byPid, init) && Fits(cells, kids, procs, init);
    OneName(cells, kids, byPid, procs, p, c);
    OneName(cells, kids, byPid, procs, p, init);
    OneName(cells, kids, byPid, procs, c, init);
    var after, now := HandedOne(kids, p, init), Moved(k, p.pid).procs;
    assert PidsOf(kids[p][1..]) == PidsOf(kids[p])[1..];
    assert PidsOf([c] + kids[init]) == [c.pid] + PidsOf(kids[init]);
    forall q | q in after
      ensures Fits(cells, after, now, q) && Named(byPid, q)
    {
      OneName(cells, kids, byPid, procs, p, q);
      OneName(cells, kids, byPid, procs, c, q);
      OneName(cells, kids, byPid, procs, init, q);
      assert Fits(cells, kids, procs, q) && Named(byPid, q);
    }
  }

  lemma {:induction false} RemovePids(s: seq<Process>, c: Process)
    requires forall q :: q in s && q.pid == c.pid ==> q == c
    ensures PidsOf(Remove(s, c)) == Remove(PidsOf(s), c.pid)
  {
    if s != [] {
      RemovePids(s[1..], c);
      assert PidsOf(s)[1..] == PidsOf(s[1..]);
      assert s[0] in s;
      assert PidsOf([s[0]] + Remove(s[1..], c)) == [s[0].pid] + PidsOf(Remove(s[1..], c));
    }
  }

  /** A childless child of `p` is reaped. */
  lemma {:induction false} ViewReap(cells: Cells, kids: Kids, byPid: map<nat, Process>, procs: map<nat, Proc>,
      p: Process, c: Process)
    requires Views(cells, kids, byPid, procs) && p in kids && c in kids && c != p
    requires forall q :: q in kids[p] ==> q in kids
    ensures p.pid in procs
    ensures Views(cells - {c}, kids[p := Remove(kids[p], c)] - {c}, byPid - {c.pid},
                  procs[p.pid := procs[p.pid].(kids := Remove(procs[p.pid].kids, c.pid))] - {c.pid})
  {
    assert Named(byPid, p) && Fits(cells, kids, procs, p) && Named(byPid, c);
    var to, after, names := cells - {c}, kids[p := Remove(kids[p], c)] - {c}, byPid - {c.pid};
    var now := procs[p.pid := procs[p.pid].(kids := Remove(procs[p.pid].kids, c.pid))] - {c.pid};
    forall q | q in kids[p] && q.pid == c.pid
      ensures q == c
    {
      OneName(cells, kids, byPid, procs, q, c);
    }
    RemovePids(kids[p], c);
    forall q | q in after
      ensures Fits(to, after, now, q) && Named(names, q)
    {
      OneName(cells, kids, byPid, procs, p, q);
      OneName(cells, kids, byPid, procs, c, q);
      assert Fits(cells, kids, procs, q) && Named(byPid, q);
    }
  }

  /** A child in memory is a child in the system. */
  lemma {:induction false} SameParent(cells: Cells, kids: Kids, byPid: map<nat, Process>, k: Kernel, p: Process,
      c: Process)
    requires Views(cells, kids, byPid, k.procs) && p in kids && c in kids[p]
    requires p.pid in k.procs ==> TreeOk(k, p.pid)
    ensures p.pid in k.procs && c.pid in k.procs[p.pid].kids && c.pid in k.procs && k.procs[c.pid].parent == p.pid
  {
    assert Fits(cells, kids, k.procs, p);
    var i :| 0 <= i < |kids[p]| && kids[p][i] == c;
    assert PidsOf(kids[p])[i] == c.pid;
  }

  // ------------------------------------------------------------- the whole state

  /** The other fields of the kernel: who runs, find_proc, the run queue and its counter,
      semaphores, keyboard readers and timers. */
  datatype Desk = Desk(current: Process, byPid: map<nat, Process>, runq: seq<Process>, procNum: int,
                       sems: seq<Sem>, keys: seq<nat>, timers: seq<Timers.Timer>)

  ghost predicate Queued(kids: Kids, runq: seq<Process>) {
    forall p {:trigger p in runq} :: p in runq ==> p in kids
  }

  ghost predicate Mirrors(cells: Cells, kids: Kids, idle: Process, init: Process, d: Desk, k: Kernel)
  {
    && Views(cells, kids, d.byPid, k.procs)
    && idle in kids && init in kids && idle != init && idle.pid == IDLE && init.pid == INIT
    && d.current in kids && d.current.pid == k.current
    && Queued(kids, d.runq) && PidsOf(d.runq) == k.runq && d.procNum == k.num
    && d.sems == k.sems && d.keys == k.keys && d.timers == k.timers
  }

  /** What a process in memory is to the system. */
  lemma {:induction false} KnownAs(cells: Cells, kids: Kids, idle: Process, init: Process, d: Desk, k: Kernel,
      p: Process)
    requires Mirrors(cells, kids, idle, init, d, k) && p in kids
    ensures p.pid in k.procs && p.pid in d.byPid && d.byPid[p.pid] == p && p in cells
    ensures var v := k.procs[p.pid]; cells[p] == Cell(v.state, v.wait, v.exiting, v.at) && v.kids == PidsOf(kids[p])
    ensures (p.pid == k.current <==> p == d.current) && (p.pid == IDLE <==> p == idle) && (p.pid == INIT <==> p == init)
    ensures p.pid in k.runq <==> p in d.runq
  {
    assert Named(d.byPid, p) && Fits(cells, kids, k.procs, p);
    OneName(cells, kids, d.byPid, k.procs, p, d.current);
    OneName(cells, kids, d.byPid, k.procs, p, idle);
    OneName(cells, kids, d.byPid, k.procs, p, init);
    InPids(cells, kids, d.byPid, k.procs, d.runq, p);
  }

  /** What a number of the system is in memory. */
  lemma {:induction false} FoundAs(cells: Cells, kids: Kids, idle: Process, init: Process, d: Desk, k: Kernel, n: nat)
    requires Mirrors(cells, kids, idle, init, d, k) && n in k.procs
    ensures n in d.byPid && d.byPid[n] in kids && d.byPid[n].pid == n
  {
  }

  lemma {:induction false} MirrorCell(cells: Cells, kids: Kids, idle: Process, init: Process, d: Desk, k: Kernel,
      p: Process, c: Cell)
    requires Mirrors(cells, kids, idle, init, d, k) && p in kids
    ensures p.pid in k.procs
    ensures Mirrors(cells[p := c], kids, idle, init, d,
                    Set(k, p.pid, k.procs[p.pid].(state := c.state, wait := c.wait, exiting := c.exiting, at := c.at)))
  {
    ViewCell(cells, kids, d.byPid, k.procs, p, c);
  }

  lemma {:induction false} MirrorEnqueue(cells: Cells, kids: Kids, idle: Process, init: Process, d: Desk, k: Kernel,
      p: Process)
    requires Mirrors(cells, kids, idle, init, d, k) && p in kids && Enqueue(k, p.pid).Goes?
    ensures p != idle ==> p !in d.runq
    ensures Mirrors(cells, kids, idle, init, Behind(d, idle, p), Enqueue(k, p.pid).k)
  {
    KnownAs(cells, kids, idle, init, d, k, p);
    assert PidsOf(d.runq + [p]) == k.runq + [p.pid];
  }

  /** The fields after RR_enqueue. */
  ghost function Behind(d: Desk, idle: Process, p: Process): Desk {
    if p == idle then d else d.(runq := d.runq + [p], procNum := d.procNum + 1)
  }

  /** The cells and the fields after a wakeup. */
  ghost function Awake(cells: Cells, p: Process): Cells
    requires p in cells
  {
    if cells[p].state == Runnable then cells else cells[p := cells[p].(state := Runnable, wait := NoWait)]
  }

  ghost function Woken(d: Desk, state: State, idle: Process, p: Process): Desk {
    if state == Runnable || p == d.current then d else Behind(d, idle, p)
  }

  lemma {:induction false} MirrorWake(cells: Cells, kids: Kids, idle: Process, init: Process, d: Desk, k: Kernel,
      p: Process)
    requires Mirrors(cells, kids, idle, init, d, k) && p in kids && Wake(k, p.pid).Goes?
    ensures p in cells && cells[p].state != Zombie
    ensures cells[p].state != Runnable && p != d.current && p != idle ==> p !in d.runq
    ensures Mirrors(Awake(cells, p), kids, idle, init, Woken(d, cells[p].state, idle, p), Wake(k, p.pid).k)
  {
    KnownAs(cells, kids, idle, init, d, k, p);
    if cells[p].state != Runnable {
      var c := cells[p].(state := Runnable, wait := NoWait);
      MirrorCell(cells, kids, idle, init, d, k, p, c);
      if p != d.current {
        MirrorEnqueue(cells[p := c], kids, idle, init, d,
            Set(k, p.pid, k.procs[p.pid].(state := Runnable, wait := NoWait)), p);
      }
    }
  }

  /** The fields after schedule(). */
  ghost function Next(d: Desk, state: State, idle: Process): Desk {
    var q := if state == Runnable then Behind(d, idle, d.current) else d;
    if q.runq == [] then q.(current := idle)
    else q.(current := q.runq[0], runq := q.runq[1..], procNum := q.procNum - 1)
  }

  lemma {:induction false} MirrorSchedule(cells: Cells, kids: Kids, idle: Process, init: Process, d: Desk, k: Kernel)
    requires Mirrors(cells, kids, idle, init, d, k) && k.current in k.procs && Schedule(k).Goes?
    ensures d.current in cells && (cells[d.current].state == Runnable && d.current != idle ==> d.current !in d.runq)
    ensures Mirrors(cells, kids, idle, init, Next(d, cells[d.current].state, idle), Schedule(k).k)
  {
    KnownAs(cells, kids, idle, init, d, k, d.current);
    var e, l := d, k;
    if cells[d.current].state == Runnable {
      MirrorEnqueue(cells, kids, idle, init, d, k, d.current);
      e, l := Behind(d, idle, d.current), Enqueue(k, k.current).k;
    }
    if e.runq != [] {
      assert e.runq[0] in e.runq && PidsOf(e.runq[1..]) == l.runq[1..];
      assert forall p :: p in e.runq[1..] ==> p in e.runq;
    }
  }

  /** A semaphore changes. */
  lemma {:induction false} MirrorSem(cells: Cells, kids: Kids, idle: Process, init: Process, d: Desk, k: Kernel,
      i: nat, s: Sem)
    requires Mirrors(cells, kids, idle, init, d, k) && i < |d.sems|
    ensures i < |k.sems| && Mirrors(cells, kids, idle, init, d.(sems := d.sems[i := s]), k.(sems := k.sems[i := s]))
  {
  }

  /** The keyboard queue and the timers change. */
  lemma {:induction false} MirrorLists(cells: Cells, kids: Kids, idle: Process, init: Process, d: Desk, k: Kernel,
      keys: seq<nat>, timers: seq<Timers.Timer>)
    requires Mirrors(cells, kids, idle, init, d, k)
    ensures Mirrors(cells, kids, idle, init, d.(keys := keys, timers := timers), k.(keys := keys, timers := timers))
  {
  }

  /** The running process puts itself to sleep. */
  lemma {:induction false} MirrorBlock(cells: Cells, kids: Kids, idle: Process, init: Process, d: Desk, k: Kernel,
      at: Place)
    requires Mirrors(cells, kids, idle, init, d, k)
    ensures k.current in k.procs && d.current in cells
    ensures Mirrors(cells[d.current := cells[d.current].(state := Sleeping, wait := WaitOf(at), at := at)],
                    kids, idle, init, d, Block(k, at))
  {
    KnownAs(cells, kids, idle, init, d, k, d.current);
    MirrorCell(cells, kids, idle, init, d, k, d.current,
        cells[d.current].(state := Sleeping, wait := WaitOf(at), at := at));
  }

  lemma {:induction false} MirrorBoot(cells: Cells, kids: Kids, d: Desk, starts: seq<nat>, idle: Process, init: Process)
    requires idle.pid == IDLE && init.pid == INIT && kids == map[idle := [init], init := []]
    requires cells == map[idle := Cell(Runnable, NoWait, false, Out), init := Cell(Runnable, NoWait, false, Out)]
    requires d == Desk(idle, map[IDLE := idle, INIT := init], [init], 1, Boot(starts).sems, [], [])
    ensures Mirrors(cells, kids, idle, init, d, Boot(starts))
  {
    assert Fits(cells, kids, Boot(starts).procs, idle) && Fits(cells, kids, Boot(starts).procs, init);
    assert Named(d.byPid, idle) && Named(d.byPid, init);
    assert PidsOf([init]) == [INIT];
  }

  lemma {:induction false} MirrorFork(cells: Cells, kids: Kids, idle: Process, init: Process, d: Desk, k: Kernel,
      c: Process)
    requires Mirrors(cells, kids, idle, init, d, k) && c !in kids && c.pid !in k.procs
    ensures k.current in k.procs
    ensures Mirrors(cells[c := Cell(Runnable, NoWait, false, Out)], Adopted(kids, d.current, c), idle, init,
                    d.(byPid := d.byPid[c.pid := c]),
                    Set(Set(k, k.current, k.procs[k.current].(kids := [c.pid] + k.procs[k.current].kids)), c.pid,
                        Proc(Runnable, NoWait, false, k.current, [], Out)))
  {
    ViewFork(cells, kids, d.byPid, k.procs, d.current, c);
  }

  lemma {:induction false} MirrorBirth(cells: Cells, kids: Kids, idle: Process, init: Process, d: Desk, k: Kernel,
      c: Process)
    requires Mirrors(cells, kids, idle, init, d, k) && c !in kids && c.pid !in k.procs && k.current in k.procs
    requires Fork(k, c.pid).Goes?
    ensures c != idle && c !in d.runq
    ensures Mirrors(cells[c := Cell(Runnable, NoWait, false, Out)], Adopted(kids, d.current, c), idle, init,
                    Behind(d.(byPid := d.byPid[c.pid := c]), idle, c), Fork(k, c.pid).k)
  {
    MirrorFork(cells, kids, idle, init, d, k, c);
    var r := Set(Set(k, k.current, k.procs[k.current].(kids := [c.pid] + k.procs[k.current].kids)), c.pid,
                 Proc(Runnable, NoWait, false, k.current, [], Out));
    MirrorEnqueue(cells[c := Cell(Runnable, NoWait, false, Out)], Adopted(kids, d.current, c), idle, init,
        d.(byPid := d.byPid[c.pid := c]), r, c);
  }

  lemma {:induction false} MirrorHand(cells: Cells, kids: Kids, idle: Process, init: Process, d: Desk, k: Kernel,
      p: Process)
    requires Mirrors(cells, kids, idle, init, d, k) && p in kids && p != init && kids[p] != []
    requires kids[p][0] in kids && kids[p][0] != p && kids[p][0] != init
    ensures Moved.requires(k, p.pid) && k.procs[p.pid].kids[0] == kids[p][0].pid && kids[p][0] in cells && init in cells
    ensures Mirrors(cells, HandedOne(kids, p, init), idle, init, d, Moved(k, p.pid))
    ensures Reparent(k, p.pid) ==
              if cells[kids[p][0]].state == Zombie && cells[init].wait == ForChild then Wake(Moved(k, p.pid), INIT)
                                  else Goes(Moved(k, p.pid))
  {
    ViewHand(cells, kids, d.byPid, k, p, init);
    KnownAs(cells, kids, idle, init, d, k, kids[p][0]);
    KnownAs(cells, kids, idle, init, d, k, init);
  }

  /** A dead child comes to init, which waits for one. */
  ghost predicate Calls(cells: Cells, c: Process, init: Process) {
    c in cells && init in cells && cells[c].state == Zombie && cells[init].wait == ForChild
  }

  ghost function Called(cells: Cells, c: Process, init: Process): Cells {
    if Calls(cells, c, init) then Awake(cells, init) else cells
  }

  ghost function CalledOn(d: Desk, cells: Cells, idle: Process, c: Process, init: Process): Desk {
    if Calls(cells, c, init) then Woken(d, cells[init].state, idle, init) else d
  }

  /** One round of the child loop of do_exit. */
  lemma {:induction false} MirrorRound(cells: Cells, kids: Kids, idle: Process, init: Process, d: Desk, k: Kernel,
      p: Process)
    requires Mirrors(cells, kids, idle, init, d, k) && p in kids && p != init && kids[p] != []
    requires kids[p][0] in kids && kids[p][0] != p && kids[p][0] != init && p.pid != INIT
    requires ReparentAll(k, p.pid, |kids[p]|).Goes?
    ensures kids[p][0] in cells && init in cells && Reparent.requires(k, p.pid) && Reparent(k, p.pid).Goes?
    ensures ReparentAll(k, p.pid, |kids[p]|) == ReparentAll(Reparent(k, p.pid).k, p.pid, |kids[p]| - 1)
    ensures Calls(cells, kids[p][0], init) ==>
              && cells[init].state != Zombie
              && (cells[init].state != Runnable && init != d.current && init != idle ==> init !in d.runq)
    ensures Mirrors(Called(cells, kids[p][0], init), HandedOne(kids, p, init), idle, init,
                    CalledOn(d, cells, idle, kids[p][0], init), Reparent(k, p.pid).k)
  {
    MirrorHand(cells, kids, idle, init, d, k, p);
    if Calls(cells, kids[p][0], init) {
      MirrorWake(cells, HandedOne(kids, p, init), idle, init, d, Moved(k, p.pid), init);
    }
  }

  /** The running process dies. */
  lemma {:induction false} MirrorDead(cells: Cells, kids: Kids, idle: Process, init: Process, d: Desk, k: Kernel)
    requires Mirrors(cells, kids, idle, init, d, k)
    ensures k.current in k.procs && d.current in cells
    ensures Mirrors(cells[d.current := cells[d.current].(state := Zombie)], kids, idle, init, d, Dead(k))
  {
    KnownAs(cells, kids, idle, init, d, k, d.current);
    MirrorCell(cells, kids, idle, init, d, k, d.current, cells[d.current].(state := Zombie));
  }

  /** The state once the running process is dead and `w`, its parent, knows. */
  ghost function Mourned(k: Kernel, w: nat): Outcome
    requires k.current in k.procs && w in k.procs
  {
    if Dead(k).procs[w].wait == ForChild then Wake(Dead(k), w) else Goes(Dead(k))
  }

  lemma {:induction false} MirrorExit(cells: Cells, kids: Kids, idle: Process, init: Process, d: Desk, k: Kernel,
      q: Process)
    requires Mirrors(cells, kids, idle, init, d, k) && q in kids && k.current in k.procs
    requires k.procs[k.current].parent == q.pid && Exit(k).Goes?
    ensures d.current in cells && q in cells && q.pid in k.procs && Mourned(k, q.pid).Goes?
    ensures ReparentAll(Mourned(k, q.pid).k, k.current, |k.procs[k.current].kids|) == Exit(k)
    ensures var c := cells[d.current := cells[d.current].(state := Zombie)];
            && (Calls(c, d.current, q) ==>
                  c[q].state != Zombie && (c[q].state != Runnable && q != d.current && q != idle ==> q !in d.runq))
            && Mirrors(Called(c, d.current, q), kids, idle, init, CalledOn(d, c, idle, d.current, q),
                       Mourned(k, q.pid).k)
  {
    var c := cells[d.current := cells[d.current].(state := Zombie)];
    MirrorDead(cells, kids, idle, init, d, k);
    KnownAs(cells, kids, idle, init, d, k, q);
    KnownAs(c, kids, idle, init, d, Dead(k), q);
    if Calls(c, d.current, q) {
      MirrorWake(c, kids, idle, init, d, Dead(k), q);
    }
  }

  lemma {:induction false} MirrorReap(cells: Cells, kids: Kids, idle: Process, init: Process, d: Desk, k: Kernel,
      c: Process)
    requires Mirrors(cells, kids, idle, init, d, k) && c in kids && c != d.current && c != idle && c != init
    requires c !in d.runq
    requires forall q :: q in kids[d.current] ==> q in kids
    ensures k.current in k.procs
    ensures var me := k.procs[k.current];
            Mirrors(cells - {c}, kids[d.current := Remove(kids[d.current], c)] - {c}, idle, init,
                    d.(byPid := d.byPid - {c.pid}),
                    k.(procs := k.procs[k.current := me.(kids := Remove(me.kids, c.pid))] - {c.pid}))
  {
    ViewReap(cells, kids, d.byPid, k.procs, d.current, c);
  }

  /** The scan of the children in memory finds what the system finds. */
  lemma {:induction false} MirrorScan(cells: Cells, kids: Kids, idle: Process, init: Process, d: Desk, k: Kernel,
      z: Process?)
    requires Mirrors(cells, kids, idle, init, d, k) && k.current in k.procs && TreeOk(k, k.current)
    requires forall c :: c in kids[d.current] ==> c in kids
    requires z == null ==> forall c :: c in kids[d.current] && c in cells ==> cells[c].state != Zombie
    requires z != null ==>
               exists i ::
                 0 <= i < |kids[d.current]| && kids[d.current][i] == z && z in cells && cells[z].state == Zombie
                                       && forall j ::
                                            0 <= j < i && kids[d.current][j] in cells ==>
                                              cells[kids[d.current][j]].state != Zombie
    ensures k.procs[k.current].kids == PidsOf(kids[d.current])
    ensures FirstZombie(k, k.procs[k.current].kids) == if z == null then 0 else z.pid
    ensures z != null ==> z.pid in k.procs && z.pid != 0
  {
    KnownAs(cells, kids, idle, init, d, k, d.current);
    var s := kids[d.current];
    forall c | c in s
      ensures c in cells && c.pid in k.procs && k.procs[c.pid].state == cells[c].state
    {
      KnownAs(cells, kids, idle, init, d, k, c);
    }
    if z != null {
      var i :| 0 <= i < |s| && s[i] == z && forall j :: 0 <= j < i && s[j] in cells ==> cells[s[j]].state != Zombie;
      assert PidsOf(s)[i] == z.pid;
      FirstZombieAt(k, PidsOf(s), i);
    } else {
      forall n | n in PidsOf(s)
        ensures n in k.procs && k.procs[n].state != Zombie
      {
        var i :| 0 <= i < |s| && PidsOf(s)[i] == n;
        assert s[i] in s;
      }
    }
  }

  // -------------------------------------------------------------------- the steps

  /** The cells after the permit was passed to `p`. */
  ghost function Granted(cells: Cells, p: Process): Cells
    requires p in cells && cells[p].at.InDown?
  {
    Awake(cells[p := cells[p].(at := cells[p].at.(granted := true))], p)
  }

  lemma {:induction false} MirrorUp(cells: Cells, kids: Kids, idle: Process, init: Process, d: Desk, k: Kernel, i: nat)
    requires Mirrors(cells, kids, idle, init, d, k) && i < |k.sems| && k.sems[i].queue != [] && Up(k, i).Goes?
    ensures i < |d.sems| && k.sems[i].queue[0] in d.byPid
    ensures var s, p := d.sems[i], d.byPid[k.sems[i].queue[0]];
            && p in kids && p in cells && cells[p].wait == ForSem && cells[p].state != Zombie && cells[p].at.InDown?
            && (cells[p].state != Runnable && p != d.current && p != idle ==> p !in d.runq)
            && Mirrors(Granted(cells, p), kids, idle, init,
                       Woken(d.(sems := d.sems[i := PassedOn(s)]), cells[p].state, idle, p),
                       Up(k, i).k)
  {
    var n := k.sems[i].queue[0];
    FoundAs(cells, kids, idle, init, d, k, n);
    var p := d.byPid[n];
    KnownAs(cells, kids, idle, init, d, k, p);
    var t := PassedOn(d.sems[i]);
    MirrorSem(cells, kids, idle, init, d, k, i, t);
    var e, l := d.(sems := d.sems[i := t]), k.(sems := k.sems[i := t]);
    var c := cells[p].(at := cells[p].at.(granted := true));
    MirrorCell(cells, kids, idle, init, e, l, p, c);
    MirrorWake(cells[p := c], kids, idle, init, e, Set(l, n, l.procs[n].(at := c.at)), p);
  }

  /** A semaphore whose first waiter got the permit. */
  function PassedOn(s: Sem): Sem
    requires s.queue != []
  {
    s.(queue := s.queue[1..], ups := s.ups + 1, grants := s.grants + 1, served := s.served + [s.queue[0]])
  }
}
