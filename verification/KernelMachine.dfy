/** The kernel's operations on processes in memory: their fields, the run queue of
    processes with its counter, and the sibling links of the process table. Beside them
    runs, as a ghost, the state of the transition system; every operation does what the
    step does, so whatever holds of all runs of the system holds here, and the process
    table is well linked in every state that can be reached. */
module KernelMachine {
  import opened Basics
  import opened Kernel
  import opened KernelSafety
  import opened KernelFamily
  import opened KernelRuns
  import opened KernelTree
  import opened ChildLinks
  import opened ProcTable
  import opened KernelView
  import Timers

  ghost predicate IsCells(cells: Cells)
    reads cells.Keys`state, cells.Keys`wait, cells.Keys`exiting, cells.Keys`at
  {
    forall p {:trigger cells[p]} :: p in cells ==> cells[p] == Cell(p.state, p.wait, p.exiting, p.at)
  }

  /** Parents and children of the system know each other. */
  ghost predicate Trees(k: Kernel) {
    && INIT in k.procs && k.procs[INIT].parent == IDLE
    && forall q {:trigger TreeOk(k, q)} :: q in k.procs ==> TreeOk(k, q)
  }

  ghost function Stood(k: Kernel): Kernel
    requires k.current in k.procs
  {
    Set(k, k.current, k.procs[k.current].(at := Out))
  }

  /** All that the scheduler and do_wait know. */
  datatype Memory = Memory(cells: Cells, kids: Kids, desk: Desk, leaving: bool)

  /** The running process sleeps, and has to call schedule(). */
  ghost function Lain(m: Memory, at: Place): Memory
    requires m.desk.current in m.cells
  {
    var me := m.desk.current;
    m.(cells := m.cells[me := m.cells[me].(state := Sleeping, wait := WaitOf(at), at := at)], leaving := true)
  }

  /** The running process has left its blocking call. */
  ghost function Upright(m: Memory): Memory
    requires m.desk.current in m.cells
  {
    m.(cells := m.cells[m.desk.current := m.cells[m.desk.current].(at := Out)])
  }

  /** `p` is marked as killed. If it slept, and not in down(), it is awake and queued behind
      all others. */
  ghost function Killed(m: Memory, p: Process): Memory
    requires p in m.cells
  {
    var c := m.cells[p];
    if !c.exiting && c.state == Sleeping && !c.at.InDown? then
      m.(cells := m.cells[p := Cell(Runnable, NoWait, true, c.at)],
         desk := m.desk.(runq := m.desk.runq + [p], procNum := m.desk.procNum + 1))
    else m.(cells := m.cells[p := c.(exiting := true)])
  }

  /** Who slept drops its timer, who read leaves the readers. */
  ghost function Forgot(d: Desk, at: Place): Desk {
    d.(timers := if at == InSleep then Timers.Del(d.timers, d.current.pid) else d.timers,
       keys := if at == InRead then Remove(d.keys, d.current.pid) else d.keys)
  }

  ghost function Left(m: Memory): Memory
    requires m.desk.current in m.cells
  {
    Upright(m).(desk := Forgot(m.desk, m.cells[m.desk.current].at))
  }

  /** `c` is a child of the running process, and one that do_wait(pid) waits for. */
  ghost predicate Asks(m: Memory, pid: nat, c: Process) {
    var me := m.desk.current;
    me in m.kids && c in m.kids && c in m.kids[me] && (pid == 0 || c.pid == pid)
  }

  ghost predicate AsksOne(m: Memory, pid: nat) {
    exists c {:trigger Asks(m, pid, c)} :: c in m.kids && Asks(m, pid, c)
  }

  ghost predicate Gone(cells: Cells, c: Process) {
    c in cells && cells[c].state == Zombie
  }

  /** It waits for `c`, which is dead. */
  ghost predicate AsksDead(m: Memory, pid: nat, c: Process) {
    Asks(m, pid, c) && Gone(m.cells, c)
  }

  ghost predicate NoneDead(m: Memory, pid: nat) {
    forall c {:trigger AsksDead(m, pid, c)} :: c in m.kids ==> !AsksDead(m, pid, c)
  }

  /** `z` is the youngest dead child that do_wait(pid) waits for. */
  ghost predicate Youngest(m: Memory, pid: nat, z: Process) {
    AsksDead(m, pid, z)
    && var s := m.kids[m.desk.current];
       exists i :: 0 <= i < |s| && s[i] == z && forall j :: 0 <= j < i ==> !AsksDead(m, pid, s[j])
  }

  /** do_wait takes memory from `m` to `n`: the dead child `z` is gone, or else the caller
      sleeps, if there is a child to wait for, or else nothing happens. */
  ghost predicate Settled(m: Memory, n: Memory, pid: nat, haskid: bool, z: Process?) {
    var me := m.desk.current;
    if z != null then
      var c: Process := z;
      && me in m.kids
      && n == m.(cells := m.cells - {c}, kids := m.kids[me := Remove(m.kids[me], c)] - {c},
                 desk := m.desk.(byPid := m.desk.byPid - {c.pid}))
    else if haskid then
      me in m.cells && n == Lain(m, InWait(pid))
    else n == m
  }

  class Machine {
    const table: Table
    var current: Process
    /** find_proc */
    var byPid: map<nat, Process>
    var runq: seq<Process>
    var procNum: int
    var sems: seq<Sem>
    var keys: seq<nat>
    var timers: seq<Timers.Timer>
    ghost var cells: Cells
    ghost var k: Kernel

    ghost function Fields(): Desk
      reads this
    {
      Desk(current, byPid, runq, procNum, sems, keys, timers)
    }

    ghost function Now(): Memory
      reads this, table`kids
    {
      Memory(cells, table.kids, Fields(), k.leaving)
    }

    /** Memory is what `k` says, whatever that is. */
    ghost predicate Follows()
      reads this, table, cells.Keys`state, cells.Keys`wait, cells.Keys`exiting, cells.Keys`at
    {
      IsCells(cells) && Mirrors(cells, table.kids, table.idle, table.init, Fields(), k)
    }

    ghost predicate Valid()
      reads this, table, cells.Keys, table.links.Keys
    {
      Follows() && table.Valid() && Invariant(k)
    }

    /** The two processes of boot, as proc_init leaves them. */
    constructor (t: Table, starts: seq<nat>)
      requires t.Valid() && t.kids == map[t.idle := [t.init], t.init := []] && t.idle.pid == IDLE && t.init.pid == INIT
      requires t.idle.state == t.init.state == Runnable && t.idle.wait == t.init.wait == NoWait
      requires !t.idle.exiting && !t.init.exiting && t.idle.at == t.init.at == Out
      ensures Valid() && table == t && k == Boot(starts)
    {
      table, current, runq, procNum := t, t.idle, [t.init], 1;
      byPid := map[IDLE := t.idle, INIT := t.init];
      sems := Boot(starts).sems;
      keys, timers := [], [];
      cells := map[t.idle := Cell(Runnable, NoWait, false, Out), t.init := Cell(Runnable, NoWait, false, Out)];
      k := Boot(starts);
      new;
      BootInvariant(starts);
      MirrorBoot(cells, table.kids, Fields(), starts, t.idle, t.init);
    }

    // -------------------------------------------------------------------- scheduler

    /** RR_enqueue, for any process but idle. */
    method RrEnqueue(p: Process)
      requires p != table.idle ==> p !in runq
      modifies this`runq, this`procNum
      ensures runq == (if p == table.idle then old(runq) else old(runq) + [p])
      ensures procNum == old(procNum) + |runq| - |old(runq)|
    {
      if p != table.idle {
        runq, procNum := runq + [p], procNum + 1;
      }
    }

    /** What wakeup_proc asserts: a dead process is not woken, and one that is queued already
        is not queued again. */
    ghost predicate Wakes(p: Process)
      reads this`current, this`runq, p`state
    {
      p.state != Zombie && (p.state != Runnable && p != current && p != table.idle ==> p !in runq)
    }

    /** wakeup_proc: a process that slept is runnable, waits for nothing, and is queued
        behind all others unless it is running; one that is awake stays as it is. */
    method WakeupProc(p: Process)
      requires Wakes(p)
      modifies this`runq, this`procNum, p`state, p`wait
      ensures p.state == Runnable && p.wait == (if old(p.state) == Runnable then old(p.wait) else NoWait)
      ensures runq ==
                (if old(p.state) != Runnable && p != current && p != table.idle then old(runq) + [p] else old(runq))
      ensures procNum == old(procNum) + |runq| - |old(runq)|
    {
      if p.state != Runnable {
        p.state, p.wait := Runnable, NoWait;
        if p != current {
          RrEnqueue(p);
        }
      }
    }

    method WakeCell(p: Process)
      requires Wakes(p)
      requires IsCells(cells) && p in cells
      modifies this`runq, this`procNum, this`cells, p`state, p`wait
      ensures Fields() == Woken(old(Fields()), old(p.state), table.idle, p)
      ensures IsCells(cells) && cells == Awake(old(cells), p)
    {
      cells := Awake(cells, p);
      WakeupProc(p);
    }

    /** schedule(): the running process goes to the end of the queue, the first of the queue
        runs, idle if there is none. */
    method Switch()
      requires current.state == Runnable && current != table.idle ==> current !in runq
      modifies this`current, this`runq, this`procNum
      ensures Fields() == Next(old(Fields()), old(current.state), table.idle)
    {
      if current.state == Runnable {
        RrEnqueue(current);
      }
      if runq != [] {
        current, runq, procNum := runq[0], runq[1..], procNum - 1;
      } else {
        current := table.idle;
      }
    }

    method DoSchedule()
      requires Follows() && k.current in k.procs && Schedule(k).Goes?
      modifies this`current, this`runq, this`procNum, this`k
      ensures Follows() && k == Schedule(old(k)).k
    {
      MirrorSchedule(cells, table.kids, table.idle, table.init, Fields(), k);
      Switch();
      k := Schedule(k).k;
    }

    // -------------------------------------------------------------------- semaphores

    /** The waiter gets the permit. */
    method Pass(i: nat, p: Process)
      requires i < |sems| && sems[i].queue != [] && p.at.InDown? && Wakes(p)
      requires IsCells(cells) && p in cells
      modifies this`runq, this`procNum, this`sems, this`cells, p`state, p`wait, p`at
      ensures Fields() ==
                Woken(old(Fields()).(sems := old(sems)[i := PassedOn(old(sems)[i])]), old(p.state), table.idle, p)
      ensures IsCells(cells) && cells == Granted(old(cells), p)
    {
      sems := sems[i := PassedOn(sems[i])];
      p.at := p.at.(granted := true);
      cells := cells[p := cells[p].(at := p.at)];
      WakeCell(p);
    }

    /** `p` is awake, and queued behind all others. */
    twostate predicate UpLast(p: Process)
      reads this`runq, this`procNum, p`state, p`wait
    {
      p.state == Runnable && p.wait == NoWait && runq == old(runq) + [p] && procNum == old(procNum) + 1
    }

    /** Whoever sleeps waits for something, and is not the process that runs. */
    lemma Sleeper(p: Process)
      requires Follows() && p in table.kids && k.current in k.procs && States(k) && !k.leaving
      ensures p.state == Sleeping <==> p.wait != NoWait
      ensures p.state == Sleeping ==> p != current && p != table.idle && p.at != Out && p.wait == WaitOf(p.at)
    {
      KnownAs(cells, table.kids, table.idle, table.init, Fields(), k, p);
      assert StateOk(k, p.pid);
    }

    /** __up with somebody waiting: the first waiter waits for a semaphore, and gets the permit. */
    method Grant(i: nat)
      requires Follows() && i < |k.sems| && k.sems[i].queue != [] && Up(k, i).Goes?
      requires k.current in k.procs && States(k) && !k.leaving
      modifies this`runq, this`procNum, this`sems, this`cells, this`k, cells.Keys`state, cells.Keys`wait, cells.Keys`at
      ensures Follows() && k == Up(old(k), i).k
      ensures sems == old(sems)[i := PassedOn(old(sems[i]))] && old(sems[i]).queue[0] in byPid
      ensures var p := old(byPid[sems[i].queue[0]]);
              && old(p.wait == ForSem && p.at.InDown?) && p.at == old(p.at).(granted := true) && UpLast(p)
    {
      MirrorUp(cells, table.kids, table.idle, table.init, Fields(), k, i);
      ghost var r := Up(k, i).k;
      var p := byPid[sems[i].queue[0]];
      assert p.wait == ForSem;
      Sleeper(p);
      k := r;
      Pass(i, p);
    }

    /** __up: the permit goes to the value, or else to the first waiter. */
    method DoUp(i: nat)
      requires Follows() && i < |k.sems| && Up(k, i).Goes? && k.current in k.procs && States(k) && !k.leaving
      modifies this`runq, this`procNum, this`sems, this`cells, this`k, cells.Keys`state, cells.Keys`wait, cells.Keys`at
      ensures Follows() && k == Up(old(k), i).k
      ensures old(sems[i]).queue == [] ==>
                && sems == old(sems)[i := old(sems[i]).(value := old(sems[i]).value + 1, ups := old(sems[i]).ups + 1)]
                && runq == old(runq)
      ensures old(sems[i]).queue != [] ==>
                && sems == old(sems)[i := PassedOn(old(sems[i]))] && old(sems[i]).queue[0] in byPid
                && var p := old(byPid[sems[i].queue[0]]);
                   old(p.wait == ForSem && p.at.InDown?) && p.at == old(p.at).(granted := true) && UpLast(p)
    {
      if sems[i].queue == [] {
        var s := sems[i].(value := sems[i].value + 1, ups := sems[i].ups + 1);
        MirrorSem(cells, table.kids, table.idle, table.init, Fields(), k, i, s);
        sems, k := sems[i := s], Up(k, i).k;
      } else {
        Grant(i);
      }
    }

    method Lie(at: Place)
      requires IsCells(cells) && current in cells
      modifies this`cells, current`state, current`wait, current`at
      ensures IsCells(cells) && current.state == Sleeping && current.wait == WaitOf(at) && current.at == at
      ensures cells == old(cells)[current := old(cells)[current].(state := Sleeping, wait := WaitOf(at), at := at)]
    {
      cells := cells[current := cells[current].(state := Sleeping, wait := WaitOf(at), at := at)];
      current.state, current.wait, current.at := Sleeping, WaitOf(at), at;
    }

    method FallAsleep(at: Place)
      requires Follows()
      modifies this`cells, this`k, current`state, current`wait, current`at
      ensures k.current in old(k).procs && Follows() && k == Block(old(k), at)
      ensures current in old(cells) && Now() == Lain(old(Now()), at)
      ensures current.state == Sleeping && current.wait == WaitOf(at) && current.at == at
    {
      MirrorBlock(cells, table.kids, table.idle, table.init, Fields(), k, at);
      k := Block(k, at);
      Lie(at);
    }

    /** The running process puts itself to sleep, and is to call schedule() next. */
    method Sleeps(at: Place)
      requires Follows()
      modifies this`cells, this`k, current`state, current`wait, current`at
      ensures k.current in old(k).procs && Follows() && k == Block(old(k), at) && k.leaving
      ensures current.state == Sleeping && current.wait == WaitOf(at) && current.at == at
    {
      FallAsleep(at);
    }

    /** __down, up to its call of schedule(): a permit that is left is taken, and the caller
        goes on. If none is left, it is last in the queue of the semaphore and asleep. */
    method DoDown(i: nat)
      requires Follows() && i < |k.sems| && k.current in k.procs && Down(k, i).Goes?
      modifies this`sems, this`cells, this`k, current`state, current`wait, current`at
      ensures Follows() && k == Down(old(k), i).k
      ensures |sems| == |old(sems)| && forall j :: 0 <= j < |sems| && j != i ==> sems[j] == old(sems)[j]
      ensures var was := old(sems[i]);
              if was.value > 0 then
                && sems[i] == was.(value := was.value - 1, grants := was.grants + 1) && k.leaving == old(k).leaving
                && current.state == old(current.state) && current.wait == old(current.wait)
                && current.at == old(current.at)
              else
                && sems[i] == was.(queue := was.queue + [current.pid], came := was.came + [current.pid]) && k.leaving
                && current.state == Sleeping && current.wait == ForSem && current.at == InDown(i, false)
    {
      var s := sems[i];
      var taken := s.value > 0;
      s := if taken then s.(value := s.value - 1, grants := s.grants + 1)
           else s.(queue := s.queue + [current.pid], came := s.came + [current.pid]);
      MirrorSem(cells, table.kids, table.idle, table.init, Fields(), k, i, s);
      sems, k := sems[i := s], k.(sems := k.sems[i := s]);
      if !taken {
        Sleeps(InDown(i, false));
      }
    }

    /** try_down */
    method DoTryDown(i: nat) returns (ok: bool)
      requires Follows() && i < |k.sems|
      modifies this`sems, this`k
      ensures Follows() && TryDown(old(k), i) == Goes(k) && ok == (old(sems[i]).value > 0)
      ensures var was := old(sems[i]);
              sems == if ok then old(sems)[i := was.(value := was.value - 1, grants := was.grants + 1)] else old(sems)
    {
      ok := sems[i].value > 0;
      if ok {
        var s := sems[i].(value := sems[i].value - 1, grants := sems[i].grants + 1);
        MirrorSem(cells, table.kids, table.idle, table.init, Fields(), k, i, s);
        sems, k := sems[i := s], k.(sems := k.sems[i := s]);
      }
    }

    // ------------------------------------------------------------- sleeping, reading

    /** do_sleep, up to its call of schedule(). */
    method DoSleep(ticks: nat)
      requires Follows() && k.current in k.procs && Sleep(k, ticks).Goes?
      modifies this`timers, this`cells, this`k, current`state, current`wait, current`at
      ensures Follows() && k == Sleep(old(k), ticks).k
      ensures current.state == Sleeping && current.wait == ForTimer && current.at == InSleep && k.leaving
      ensures timers == Timers.Add(old(timers), current.pid, ticks)
    {
      ghost var to := Timers.Add(timers, current.pid, ticks);
      MirrorLists(cells, table.kids, table.idle, table.init, Fields(), k, keys, to);
      timers, k := Timers.Add(timers, current.pid, ticks), k.(timers := to);
      Sleeps(InSleep);
    }

    /** A read of the keyboard that finds no character, up to its call of schedule(). */
    method DoRead()
      requires Follows() && k.current in k.procs && Read(k).Goes?
      modifies this`keys, this`cells, this`k, current`state, current`wait, current`at
      ensures Follows() && k == Read(old(k)).k
      ensures current.state == Sleeping && current.wait == ForKey && current.at == InRead && k.leaving
      ensures keys == old(keys) + [current.pid]
    {
      MirrorLists(cells, table.kids, table.idle, table.init, Fields(), k, keys + [current.pid], timers);
      keys, k := keys + [current.pid], k.(keys := k.keys + [k.current]);
      Sleeps(InRead);
    }

    /** Wakes a process that exists and is not dead. */
    method Rouse(p: Process)
      requires Follows() && p in table.kids && Wake(k, p.pid).Goes?
      modifies this`runq, this`procNum, this`cells, this`k, p`state, p`wait
      ensures Follows() && k == Wake(old(k), p.pid).k
      ensures p in old(cells) && cells == Awake(old(cells), p)
      ensures Fields() == Woken(old(Fields()), old(cells)[p].state, table.idle, p)
    {
      MirrorWake(cells, table.kids, table.idle, table.init, Fields(), k, p);
      k := Wake(k, p.pid).k;
      WakeCell(p);
    }

    // -------------------------------------------------------------- life of a process

    /** The new process is entered under its number and queued. */
    method Beget(pid: nat) returns (child: Process)
      requires IsCells(cells) && forall p :: p in runq ==> p in cells
      modifies this`byPid, this`runq, this`procNum, this`cells
      ensures fresh(child) && child.pid == pid && child.parent == current && child.cptr == null
      ensures Fields() == Behind(old(Fields()).(byPid := old(byPid)[pid := child]), table.idle, child)
      ensures IsCells(cells) && cells == old(cells)[child := Cell(Runnable, NoWait, false, Out)]
    {
      child := new Process(pid, current);
      byPid, cells := byPid[pid := child], cells[child := Cell(Runnable, NoWait, false, Out)];
      RrEnqueue(child);
    }

    /** All of do_fork but set_links. */
    method Enter(pid: nat) returns (child: Process)
      requires Follows() && k.current in k.procs && pid !in k.procs && Fork(k, pid).Goes?
      modifies this`runq, this`procNum, this`byPid, this`cells, this`k
      ensures fresh(child) && child.parent == current == old(current) && child.cptr == null && k == Fork(old(k), pid).k
      ensures child.pid == pid
      ensures Fields() == Behind(old(Fields()).(byPid := old(byPid)[pid := child]), table.idle, child)
      ensures cells == old(cells)[child := Cell(Runnable, NoWait, false, Out)]
      ensures IsCells(cells) && Mirrors(cells, Adopted(table.kids, current, child), table.idle, table.init, Fields(), k)
    {
      ghost var d, c := Fields(), cells;
      child := Beget(pid);
      MirrorBirth(c, table.kids, table.idle, table.init, d, k, child);
      k := Fork(k, pid).k;
    }

    /** The process table part of do_fork. */
    method DoFork(pid: nat) returns (child: Process)
      requires Follows() && table.Valid() && k.current in k.procs && pid !in k.procs && Fork(k, pid).Goes?
      modifies this`runq, this`procNum, this`byPid, this`cells, this`k, table
      modifies table.kids.Keys`parent, table.kids.Keys`cptr, table.kids.Keys`optr, table.kids.Keys`yptr
      ensures Follows() && table.Valid() && k == Fork(old(k), pid).k && fresh(child) && child.pid == pid
      ensures table.kids == Adopted(old(table.kids), old(current), child)
      ensures runq == old(runq) + [child] && procNum == old(procNum) + 1 && byPid == old(byPid)[pid := child]
      ensures cells == old(cells)[child := Cell(Runnable, NoWait, false, Out)]
    {
      child := Enter(pid);
      Enlist(child);
    }

    /** set_links leaves alone what the scheduler knows. */
    method Enlist(child: Process)
      requires table.Valid() && child !in table.kids && child.parent != null && child.parent in table.kids
      requires child.cptr == null
      requires IsCells(cells)
      modifies table, child`parent, child`cptr, child`optr, child`yptr
      modifies table.kids.Keys`parent, table.kids.Keys`cptr, table.kids.Keys`optr, table.kids.Keys`yptr
      ensures table.Valid() && table.kids == Adopted(old(table.kids), old(child.parent), child)
      ensures IsCells(cells) && Fields() == old(Fields()) && cells == old(cells)
    {
      table.SetLinks(child);
    }

    /** The links of the first child of `p` change, and nothing else. */
    method Relink(p: Process)
      requires IsCells(cells) && table.Emptying(p) && table.kids[p] != []
      modifies table`kids, table`links, table.kids.Keys`parent, table.kids.Keys`cptr, table.kids.Keys`optr
      modifies table.kids.Keys`yptr
      ensures IsCells(cells) && Fields() == old(Fields())
      ensures table.Emptying(p) && table.kids == HandedOne(old(table.kids), p, table.init)
    {
      table.HandFirst(p);
    }

    /** `q` is woken if it waits for a child and `proc` is dead; the links stay. */
    method Notify(ghost p: Process, proc: Process, q: Process)
      requires IsCells(cells) && q in cells && proc in cells && table.Emptying(p)
      requires Calls(cells, proc, q) ==> Wakes(q)
      modifies this`runq, this`procNum, this`cells, q`state, q`wait
      ensures Fields() == CalledOn(old(Fields()), old(cells), table.idle, proc, q)
      ensures IsCells(cells) && cells == Called(old(cells), proc, q)
      ensures table.Emptying(p) && table.kids == old(table.kids)
    {
      if proc.state == Zombie && q.wait == ForChild {
        WakeCell(q);
      }
    }

    /** One round of the child loop of do_exit: the first child goes to init. */
    method Round(p: Process)
      requires IsCells(cells) && table.Emptying(p) && table.kids[p] != []
      requires table.init in cells && table.kids[p][0] in cells
      requires (Calls(cells, table.kids[p][0], table.init) ==> Wakes(table.init))
      modifies this`runq, this`procNum, this`cells, table`kids, table`links, table.init`state, table.init`wait
      modifies table.kids.Keys`parent, table.kids.Keys`cptr, table.kids.Keys`optr, table.kids.Keys`yptr
      ensures Fields() == CalledOn(old(Fields()), old(cells), table.idle, old(table.kids[p][0]), table.init)
      ensures IsCells(cells) && cells == Called(old(cells), old(table.kids[p][0]), table.init)
      ensures table.Emptying(p) && table.kids == HandedOne(old(table.kids), p, table.init)
      ensures p.cptr == At(table.kids[p], 0) && |table.kids[p]| == |old(table.kids)[p]| - 1
    {
      table.FirstChild(p);
      var proc: Process := p.cptr;
      Relink(p);
      Notify(p, proc, table.init);
      table.FirstChild(p);
    }

    /** The same, if that leads to `r`. */
    method RoundTo(p: Process, ghost r: Kernel)
      requires IsCells(cells) && table.Emptying(p) && table.kids[p] != []
      requires table.init in cells && table.kids[p][0] in cells
      requires (Calls(cells, table.kids[p][0], table.init) ==> Wakes(table.init))
      requires var c := table.kids[p][0];
               Mirrors(Called(cells, c, table.init), HandedOne(table.kids, p, table.init), table.idle, table.init,
                       CalledOn(Fields(), cells, table.idle, c, table.init), r)
      modifies this`runq, this`procNum, this`cells, this`k, table`kids, table`links, table.init`state, table.init`wait
      modifies table.kids.Keys`parent, table.kids.Keys`cptr, table.kids.Keys`optr, table.kids.Keys`yptr
      ensures Follows() && k == r
      ensures table.Emptying(p) && table.kids == HandedOne(old(table.kids), p, table.init)
      ensures p.cptr == At(table.kids[p], 0) && |table.kids[p]| == |old(table.kids)[p]| - 1
    {
      k := r;
      Round(p);
    }

    lemma RoundReady(p: Process)
      requires Follows() && table.Emptying(p) && table.kids[p] != [] && p.pid != INIT
      requires ReparentAll(k, p.pid, |table.kids[p]|).Goes?
      ensures table.init in cells && table.kids[p][0] in cells
      ensures (Calls(cells, table.kids[p][0], table.init) ==> Wakes(table.init))
      ensures Reparent.requires(k, p.pid) && Reparent(k, p.pid).Goes?
      ensures ReparentAll(k, p.pid, |table.kids[p]|) == ReparentAll(Reparent(k, p.pid).k, p.pid, |table.kids[p]| - 1)
      ensures var c := table.kids[p][0];
              Mirrors(Called(cells, c, table.init), HandedOne(table.kids, p, table.init), table.idle, table.init,
                      CalledOn(Fields(), cells, table.idle, c, table.init), Reparent(k, p.pid).k)
    {
      table.FirstChild(p);
      MirrorRound(cells, table.kids, table.idle, table.init, Fields(), k, p);
    }

    method HandChild(p: Process)
      requires Follows() && table.Emptying(p) && table.kids[p] != [] && p.pid != INIT
      requires ReparentAll(k, p.pid, |table.kids[p]|).Goes?
      modifies this`runq, this`procNum, this`cells, this`k, table`kids, table`links, table.init`state, table.init`wait
      modifies table.kids.Keys`parent, table.kids.Keys`cptr, table.kids.Keys`optr, table.kids.Keys`yptr
      ensures Follows() && table.Emptying(p) && table.kids == HandedOne(old(table.kids), p, table.init)
      ensures p.cptr == At(table.kids[p], 0) && |table.kids[p]| == |old(table.kids)[p]| - 1
      ensures ReparentAll(k, p.pid, |table.kids[p]|) == old(ReparentAll(k, p.pid, |table.kids[p]|))
    {
      RoundReady(p);
      RoundTo(p, Reparent(k, p.pid).k);
    }

    /** The child loop of do_exit: all children go to the front of init's list, the eldest
        first. */
    method HandAll(p: Process)
      requires Follows() && table.Emptying(p) && p.pid != INIT && ReparentAll(k, p.pid, |table.kids[p]|).Goes?
      modifies this`runq, this`procNum, this`cells, this`k, table`kids, table`links, table.init`state, table.init`wait
      modifies table.kids.Keys`parent, table.kids.Keys`cptr, table.kids.Keys`optr, table.kids.Keys`yptr
      ensures Follows() && k == ReparentAll(old(k), p.pid, |old(table.kids)[p]|).k
      ensures table.Valid() && table.kids == HandedAll(old(table.kids), p, table.init)
    {
      ghost var all := ReparentAll(k, p.pid, |table.kids[p]|);
      table.FirstChild(p);
      while p.cptr != null
        invariant Follows() && table.Emptying(p) && table.kids.Keys == old(table.kids.Keys)
        invariant HandedAll(table.kids, p, table.init) == HandedAll(old(table.kids), p, table.init)
        invariant p.cptr == At(table.kids[p], 0) && ReparentAll(k, p.pid, |table.kids[p]|) == all
        decreases |table.kids[p]|
      {
        ghost var was := table.kids;
        HandChild(p);
        HandedStep(was, p, table.init);
      }
      table.Ends(p);
    }

    /** Parent and children of a process that exits. */
    lemma ExitReady()
      requires Follows() && table.Valid() && k.current in k.procs && Exit(k).Goes? && Trees(k)
      ensures var p := current;
              && p.pid == k.current && p.pid != INIT && p in table.kids && p.parent != null && p.parent in table.kids
              && k.procs[p.pid].parent == p.parent.pid
              && |k.procs[p.pid].kids| == |table.kids[p]| && table.Emptying(p)
    {
      var p := current;
      KnownAs(cells, table.kids, table.idle, table.init, Fields(), k, p);
      table.Parents(p);
      SameParent(cells, table.kids, byPid, k, p.parent, p);
      if table.init in table.kids[p] {
        SameParent(cells, table.kids, byPid, k, p, table.init);
      }
      table.Begins(p);
    }

    method Die()
      requires IsCells(cells) && table.Emptying(current) && current in cells
      modifies this`cells, current`state
      ensures IsCells(cells) && table.Emptying(current) && current.state == Zombie
      ensures cells == old(cells[current := cells[current].(state := Zombie)])
    {
      cells := cells[current := cells[current].(state := Zombie)];
      current.state := Zombie;
    }

    /** do_exit up to its child loop: the process dies, and its parent is woken if it waits. */
    method DieAndTell()
      requires IsCells(cells) && table.Emptying(current) && current in cells && current.parent != null
      requires current.parent in cells
      requires Calls(cells[current := cells[current].(state := Zombie)], current, current.parent) ==>
                 current.parent != current && Wakes(current.parent)
      modifies this`runq, this`procNum, this`cells, current`state, current.parent`state, current.parent`wait
      ensures var c := old(cells[current := cells[current].(state := Zombie)]);
              && Fields() == CalledOn(old(Fields()), c, table.idle, current, current.parent)
              && IsCells(cells) && cells == Called(c, current, current.parent)
      ensures table.Emptying(current) && table.kids == old(table.kids)
    {
      Die();
      Notify(current, current, current.parent);
    }

    /** The same, if that leads to `r`. */
    method DieTo(ghost r: Kernel)
      requires IsCells(cells) && table.Emptying(current) && current in cells && current.parent != null
      requires current.parent in cells
      requires var c, q := cells[current := cells[current].(state := Zombie)], current.parent;
               && (Calls(c, current, q) ==> q != current && Wakes(q))
               && Mirrors(Called(c, current, q), table.kids, table.idle, table.init,
                          CalledOn(Fields(), c, table.idle, current, q), r)
      modifies this`runq, this`procNum, this`cells, this`k, current`state, current.parent`state, current.parent`wait
      ensures Follows() && k == r && table.Emptying(current)
    {
      k := r;
      DieAndTell();
    }

    method Depart()
      requires Follows() && k.current in k.procs && Exit(k).Goes? && current.parent != null
      requires current.parent in table.kids
      requires k.procs[k.current].parent == current.parent.pid && table.Emptying(current)
      modifies this`runq, this`procNum, this`cells, this`k, current`state, current.parent`state, current.parent`wait
      ensures Follows() && table.Emptying(current)
      ensures ReparentAll(k, old(k).current, |old(k).procs[old(k).current].kids|) == Exit(old(k))
    {
      MirrorExit(cells, table.kids, table.idle, table.init, Fields(), k, current.parent);
      DieTo(Mourned(k, current.parent.pid).k);
    }

    method Vanish()
      requires Follows() && table.Valid() && k.current in k.procs && Exit(k).Goes? && Trees(k)
      modifies this`runq, this`procNum, this`cells, this`k, table`kids, table`links, table.kids.Keys`state
      modifies table.kids.Keys`wait
      modifies table.kids.Keys`parent, table.kids.Keys`cptr, table.kids.Keys`optr, table.kids.Keys`yptr
      ensures Follows() && k == Exit(old(k)).k
      ensures table.Valid() && old(current) in old(table.kids)
      ensures table.kids == HandedAll(old(table.kids), old(current), table.init)
    {
      ExitReady();
      Depart();
      HandAll(current);
    }

    /** What a process that has exited leaves behind, and its parent `q`. */
    lemma Departed(was: Kernel, q: Process)
      requires Follows() && was.current in was.procs && Exit(was).Goes? && k == Exit(was).k
      requires q in table.kids && q.pid == was.procs[was.current].parent
      ensures Gone(cells, current) && k.leaving && q.pid in was.procs
      ensures q != current && was.procs[q.pid].wait == ForChild ==>
                q.state == Runnable && (was.procs[q.pid].state == Sleeping && q != table.idle ==> q in runq)
    {
      ExitEffect(was);
      KnownAs(cells, table.kids, table.idle, table.init, Fields(), k, current);
      KnownAs(cells, table.kids, table.idle, table.init, Fields(), k, q);
    }

    /** do_exit, up to its call of schedule(): the caller is dead, its children are init's, and
        its parent, if that slept in do_wait, is awake and queued. */
    method DoExit()
      requires Follows() && table.Valid() && k.current in k.procs && Exit(k).Goes? && Trees(k)
      modifies this`runq, this`procNum, this`cells, this`k, table`kids, table`links, table.kids.Keys`state
      modifies table.kids.Keys`wait
      modifies table.kids.Keys`parent, table.kids.Keys`cptr, table.kids.Keys`optr, table.kids.Keys`yptr
      ensures Follows() && k == Exit(old(k)).k && table.Valid()
      ensures current in old(table.kids) && table.kids == HandedAll(old(table.kids), current, table.init)
      ensures Gone(cells, current) && k.leaving
      ensures var q := old(current.parent);
              && q != null && q in table.kids
              && (q != current && old(q.wait) == ForChild ==>
                    q.state == Runnable && (old(q.state) == Sleeping && q != table.idle ==> q in runq))
    {
      ExitReady();
      ghost var q: Process, was := current.parent, k;
      KnownAs(cells, table.kids, table.idle, table.init, Fields(), k, q);
      Vanish();
      Departed(was, q);
    }

    /** What find_proc finds for a number in use. */
    lemma Found(pid: nat)
      requires Follows() && table.Valid() && k.current in k.procs && Trees(k) && pid != IDLE
      ensures pid in byPid <==> pid in k.procs
      ensures pid in k.procs ==>
                var c := byPid[pid];
                && c in table.kids && c.pid == pid && c.state == k.procs[pid].state
                && (c.parent == current <==> k.procs[pid].parent == k.current)
                && current in table.kids && (c.parent == current ==> c in table.kids[current])
    {
      if pid in k.procs {
        FoundAs(cells, table.kids, table.idle, table.init, Fields(), k, pid);
        var c := byPid[pid];
        KnownAs(cells, table.kids, table.idle, table.init, Fields(), k, c);
        table.Parents(c);
        SameParent(cells, table.kids, byPid, k, c.parent, c);
        KnownAs(cells, table.kids, table.idle, table.init, Fields(), k, c.parent);
      }
    }

    /** do_wait for one process: whether it is a child, and whether it is dead. */
    method FindChild(pid: nat) returns (haskid: bool, z: Process?)
      requires Follows() && table.Valid() && k.current in k.procs && Trees(k) && pid != IDLE
      ensures haskid <==> AsksOne(Now(), pid)
      ensures if z == null then NoneDead(Now(), pid) else Youngest(Now(), pid, z)
      ensures z != null ==> z.pid in k.procs && WaitFor(k, pid) == Reap(k, z.pid)
      ensures z == null ==> WaitFor(k, pid) == Goes(if haskid then Block(k, InWait(pid)) else k)
    {
      Found(pid);
      OneAsked(pid);
      haskid, z := false, null;
      if pid in byPid && byPid[pid].parent == current {
        haskid := true;
        assert Asks(Now(), pid, byPid[pid]);
        if byPid[pid].state == Zombie {
          z := byPid[pid];
          OnlyOne(pid, z);
        }
      }
    }

    lemma OnlyOne(pid: nat, z: Process)
      requires AsksDead(Now(), pid, z)
      requires forall c {:trigger AsksDead(Now(), pid, c)} :: AsksDead(Now(), pid, c) ==> c == z
      ensures Youngest(Now(), pid, z)
    {
      var i := FirstPlace(table.kids[current], z);
      assert forall j :: 0 <= j < i ==> table.kids[current][j] in table.kids[current][..i];
    }

    /** With a number, do_wait asks for the child of that number and for no other. */
    lemma OneAsked(pid: nat)
      requires Follows() && table.Valid() && k.current in k.procs && Trees(k) && pid != IDLE
      ensures forall c {:trigger Asks(Now(), pid, c)} {:trigger AsksDead(Now(), pid, c)} :: Asks(Now(), pid, c) <==>
                pid in byPid && c == byPid[pid] && c.parent == current
    {
      KnownAs(cells, table.kids, table.idle, table.init, Fields(), k, current);
      Found(pid);
      table.Siblings(current);
      forall c | c in table.kids && c.pid == pid
        ensures pid in byPid && c == byPid[pid]
      {
        KnownAs(cells, table.kids, table.idle, table.init, Fields(), k, c);
      }
    }

    lemma Scanned(z: Process?)
      requires Follows() && table.Valid() && k.current in k.procs && Trees(k) && current in table.kids
      requires z == null <==> forall c :: c in table.kids[current] ==> c.state != Zombie
      requires z != null ==>
                 exists i :: 0 <= i < |table.kids[current]| && table.kids[current][i] == z && z.state == Zombie
                                         && forall j :: 0 <= j < i ==> table.kids[current][j].state != Zombie
      ensures k.procs[k.current].kids != [] <==> table.kids[current] != []
      ensures FirstZombie(k, k.procs[k.current].kids) == if z == null then 0 else z.pid
      ensures z != null ==> z.pid in k.procs && z.pid != 0
    {
      table.Siblings(current);
      assert TreeOk(k, k.current);
      MirrorScan(cells, table.kids, table.idle, table.init, Fields(), k, z);
    }

    /** Without a number, do_wait asks for all children. */
    lemma AllAsked(z: Process?)
      requires IsCells(cells) && cells.Keys == table.kids.Keys && table.Valid() && current in table.kids
      requires z == null <==> forall c :: c in table.kids[current] ==> c.state != Zombie
      requires z != null ==>
                 exists i :: 0 <= i < |table.kids[current]| && table.kids[current][i] == z && z.state == Zombie
                                         && forall j :: 0 <= j < i ==> table.kids[current][j].state != Zombie
      ensures table.kids[current] != [] <==> AsksOne(Now(), 0)
      ensures if z == null then NoneDead(Now(), 0) else Youngest(Now(), 0, z)
    {
      table.Siblings(current);
      if table.kids[current] != [] {
        assert Asks(Now(), 0, table.kids[current][0]);
      }
    }

    /** do_wait for any child: whether there is one, and the youngest that is dead. */
    method FindDead() returns (haskid: bool, z: Process?)
      requires Follows() && table.Valid() && k.current in k.procs && Trees(k)
      ensures haskid <==> AsksOne(Now(), 0)
      ensures if z == null then NoneDead(Now(), 0) else Youngest(Now(), 0, z)
      ensures z != null ==> z.pid in k.procs && WaitFor(k, 0) == Reap(k, z.pid)
      ensures z == null ==> WaitFor(k, 0) == Goes(if haskid then Block(k, InWait(0)) else k)
    {
      haskid, z := table.FirstDead(current);
      Scanned(z);
      AllAsked(z);
    }

    lemma ReapReady(c: Process)
      requires Follows() && table.Valid() && k.current in k.procs && States(k) && AsksDead(Now(), 0, c)
      requires c.pid in k.procs && Reap(k, c.pid).Goes?
      ensures c in table.kids && c.parent == current && c != table.idle && c != table.init && table.kids[c] == []
      ensures Mirrors(cells - {c}, table.kids[current := Remove(table.kids[current], c)] - {c}, table.idle, table.init,
                      Fields().(byPid := byPid - {c.pid}), Reap(k, c.pid).k)
    {
      table.Siblings(current);
      KnownAs(cells, table.kids, table.idle, table.init, Fields(), k, c);
      assert StateOk(k, c.pid);
      MirrorReap(cells, table.kids, table.idle, table.init, Fields(), k, c);
    }

    /** unhash_proc and remove_links */
    method Unlink(c: Process)
      requires table.Valid() && c in table.kids && c.parent != null && c != table.idle && c != table.init
      requires table.kids[c] == [] && IsCells(cells)
      modifies this`byPid, this`cells, table
      modifies table.kids.Keys`parent, table.kids.Keys`cptr, table.kids.Keys`optr, table.kids.Keys`yptr
      ensures old(c.parent) in old(table.kids)
      ensures table.Valid()
      ensures table.kids == old(table.kids)[old(c.parent) := Remove(old(table.kids)[old(c.parent)], c)] - {c}
      ensures IsCells(cells) && cells == old(cells) - {c} && Fields() == old(Fields()).(byPid := old(byPid) - {c.pid})
    {
      byPid, cells := byPid - {c.pid}, cells - {c};
      Delist(c);
    }

    /** remove_links leaves alone what the scheduler knows. */
    method Delist(c: Process)
      requires table.Valid() && c in table.kids && c.parent != null && c != table.idle && c != table.init
      requires table.kids[c] == [] && IsCells(cells)
      modifies table
      modifies table.kids.Keys`parent, table.kids.Keys`cptr, table.kids.Keys`optr, table.kids.Keys`yptr
      ensures old(c.parent) in old(table.kids)
      ensures table.Valid()
      ensures table.kids == old(table.kids)[old(c.parent) := Remove(old(table.kids)[old(c.parent)], c)] - {c}
      ensures IsCells(cells)
    {
      table.RemoveLinks(c);
    }

    /** The end of do_wait for a dead child. */
    method DoReap(c: Process)
      requires Follows() && table.Valid() && k.current in k.procs && States(k) && AsksDead(Now(), 0, c)
      requires c.pid in k.procs && Reap(k, c.pid).Goes?
      modifies this`byPid, this`cells, this`k, table
      modifies table.kids.Keys`parent, table.kids.Keys`cptr, table.kids.Keys`optr, table.kids.Keys`yptr
      ensures Follows() && k == Reap(old(k), c.pid).k && table.Valid()
      ensures Settled(old(Now()), Now(), 0, true, c)
    {
      ReapReady(c);
      k := Reap(k, c.pid).k;
      Unlink(c);
    }

    /** The child that do_wait reaps, if any, and whether there is one to wait for. */
    method Search(pid: nat) returns (haskid: bool, z: Process?)
      requires Follows() && table.Valid() && k.current in k.procs && Trees(k)
      ensures haskid <==> AsksOne(Now(), pid)
      ensures if z == null then NoneDead(Now(), pid) else Youngest(Now(), pid, z)
      ensures z != null ==> z.pid in k.procs && WaitFor(k, pid) == Reap(k, z.pid)
      ensures z == null ==> WaitFor(k, pid) == Goes(if haskid then Block(k, InWait(pid)) else k)
    {
      if pid != 0 {
        haskid, z := FindChild(pid);
      } else {
        haskid, z := FindDead();
      }
    }

    /** Nobody's links change when the running process falls asleep. */
    method SleepsLinked(at: Place)
      requires Follows() && table.Valid()
      modifies this`cells, this`k, current`state, current`wait, current`at
      ensures k.current in old(k).procs && Follows() && k == Block(old(k), at) && table.Valid()
      ensures current in old(cells) && Now() == Lain(old(Now()), at)
    {
      FallAsleep(at);
    }

    method Settle(pid: nat, haskid: bool, z: Process?)
      requires Follows() && table.Valid() && k.current in k.procs && States(k)
      requires z != null ==> AsksDead(Now(), pid, z) && z.pid in k.procs && Reap(k, z.pid).Goes?
      modifies this`byPid, this`cells, this`k, table, current`state, current`wait, current`at
      modifies table.kids.Keys`parent, table.kids.Keys`cptr, table.kids.Keys`optr, table.kids.Keys`yptr
      ensures Follows() && table.Valid() && table.kids.Keys <= old(table.kids).Keys
      ensures k == if z != null then Reap(old(k), z.pid).k else if haskid then Block(old(k), InWait(pid)) else old(k)
      ensures Settled(old(Now()), Now(), pid, haskid, z)
    {
      if z != null {
        DoReap(z);
      } else if haskid {
        SleepsLinked(InWait(pid));
      }
    }

    /** do_wait, up to its call of schedule(). `haskid` tells whether the caller has a child
        that it asks for; without one nothing changes. The youngest of those that are dead,
        `z`, is reaped. With one, and none dead, the caller sleeps. */
    method DoWait(pid: nat) returns (haskid: bool, z: Process?)
      requires Follows() && table.Valid() && k.current in k.procs && WaitFor(k, pid).Goes? && Trees(k)
      requires States(k)
      modifies this`byPid, this`cells, this`k, table, current`state, current`wait, current`at
      modifies table.kids.Keys`parent, table.kids.Keys`cptr, table.kids.Keys`optr, table.kids.Keys`yptr
      ensures Follows() && k == WaitFor(old(k), pid).k && table.Valid() && table.kids.Keys <= old(table.kids).Keys
      ensures haskid == AsksOne(old(Now()), pid)
      ensures if z == null then NoneDead(old(Now()), pid) else Youngest(old(Now()), pid, z)
      ensures Settled(old(Now()), Now(), pid, haskid, z)
    {
      haskid, z := Search(pid);
      Settle(pid, haskid, z);
    }

    method Sign(p: Process)
      requires IsCells(cells) && p in cells
      modifies this`cells, p`exiting
      ensures IsCells(cells) && cells == old(cells)[p := old(cells)[p].(exiting := true)] && p.exiting
    {
      cells := cells[p := cells[p].(exiting := true)];
      p.exiting := true;
    }

    /** Marks `p` as killed. */
    method Mark(p: Process)
      requires Follows() && p in table.kids
      modifies this`cells, this`k, p`exiting
      ensures p.pid in old(k).procs && Follows() && k == Set(old(k), p.pid, old(k).procs[p.pid].(exiting := true))
      ensures p in old(cells) && cells == old(cells)[p := old(cells)[p].(exiting := true)] && p.exiting
    {
      KnownAs(cells, table.kids, table.idle, table.init, Fields(), k, p);
      MirrorCell(cells, table.kids, table.idle, table.init, Fields(), k, p, cells[p].(exiting := true));
      k := Set(k, p.pid, k.procs[p.pid].(exiting := true));
      Sign(p);
    }

    lemma KillReady(pid: nat)
      requires Follows() && pid in byPid && Kill(k, pid).Goes? && k.current in k.procs && States(k) && !k.leaving
      ensures var p := byPid[pid];
              && p in table.kids && p in cells && p.pid == pid && (p.exiting <==> k.procs[pid].exiting)
              && (p.exiting ==> Killed(Now(), p) == Now())
              && (!p.exiting ==>
                    var m, c := Set(k, pid, k.procs[pid].(exiting := true)), cells[p := cells[p].(exiting := true)];
                    && Kill(k, pid) == (if p.wait.Interruptible() then Wake(m, pid) else Goes(m))
                    && Killed(Now(), p) == if p.wait.Interruptible() then
                                             Now().(cells := Awake(c, p),
                                                    desk := Woken(Fields(), c[p].state, table.idle, p))
                                           else Now().(cells := c))
    {
      var p := byPid[pid];
      Sleeper(p);
      KnownAs(cells, table.kids, table.idle, table.init, Fields(), k, p);
    }

    /** do_kill for a process that is not marked yet. */
    method Strike(p: Process)
      requires Follows() && p in table.kids && p.pid in k.procs
      requires p.wait.Interruptible() ==> Wake(Set(k, p.pid, k.procs[p.pid].(exiting := true)), p.pid).Goes?
      modifies this`runq, this`procNum, this`cells, this`k, p`state, p`wait, p`exiting
      ensures Follows() && p.exiting && p in old(cells)
      ensures var m := Set(old(k), p.pid, old(k).procs[p.pid].(exiting := true));
              k == if old(p.wait.Interruptible()) then Wake(m, p.pid).k else m
      ensures var c := old(cells)[p := old(cells)[p].(exiting := true)];
              if old(p.wait.Interruptible()) then
                cells == Awake(c, p) && Fields() == Woken(old(Fields()), c[p].state, table.idle, p)
              else cells == c && Fields() == old(Fields())
    {
      Mark(p);
      if p.wait.Interruptible() {
        Rouse(p);
      }
    }

    /** do_kill, for a process that find_proc finds: it is marked. If it slept, and not in
        down(), it is woken and queued behind all others; any other process stays as it is. */
    method DoKill(pid: nat)
      requires Follows() && pid in byPid && Kill(k, pid).Goes? && k.current in k.procs && States(k) && !k.leaving
      modifies this`runq, this`procNum, this`cells, this`k, {byPid[pid]}`state, {byPid[pid]}`wait, {byPid[pid]}`exiting
      ensures Follows() && k == Kill(old(k), pid).k
      ensures byPid[pid] in old(cells) && byPid[pid].exiting && Now() == Killed(old(Now()), byPid[pid])
    {
      KillReady(pid);
      if !byPid[pid].exiting {
        Strike(byPid[pid]);
      }
    }

    // ------------------------------------------------------------------- interrupts

    method SetLists(keys: seq<nat>, timers: seq<Timers.Timer>)
      requires Follows()
      modifies this`keys, this`timers, this`k
      ensures Follows() && k == old(k).(keys := keys, timers := timers)
    {
      MirrorLists(cells, table.kids, table.idle, table.init, Fields(), k, keys, timers);
      this.keys, this.timers, k := keys, timers, k.(keys := keys, timers := timers);
    }

    /** A timer that is due wakes its process, which waits for nothing else than what a
        timer may end. */
    method Fire()
      requires Follows() && timers != [] && timers[0].expires == 0 && FireAll(k).Goes?
      modifies this`runq, this`procNum, this`cells, this`k, this`keys, this`timers, table.kids.Keys`state
      modifies table.kids.Keys`wait
      ensures Follows() && FireAll(k) == FireAll(old(k)) && timers == old(timers)[1..]
    {
      var p := byPid[timers[0].id];
      KnownAs(cells, table.kids, table.idle, table.init, Fields(), k, p);
      assert p.wait == NoWait || p.wait.Interruptible();
      Rouse(p);
      SetLists(keys, timers[1..]);
    }

    /** run_timer_list: due timers wake their processes. */
    method DoTick()
      requires Follows() && Tick(k).Goes?
      modifies this`runq, this`procNum, this`cells, this`k, this`keys, this`timers, table.kids.Keys`state
      modifies table.kids.Keys`wait
      ensures Follows() && k == Tick(old(k)).k
    {
      SetLists(keys, Timers.Elapse(timers));
      ghost var all := FireAll(k);
      while timers != [] && timers[0].expires == 0
        invariant Follows() && FireAll(k) == all
        decreases |timers|
      {
        Fire();
      }
    }

    method WakeReader()
      requires Follows() && keys != [] && KeyPress(k).Goes?
      modifies this`runq, this`procNum, this`cells, this`k, this`keys, this`timers, table.kids.Keys`state
      modifies table.kids.Keys`wait
      ensures Follows() && KeyPress(k) == KeyPress(old(k)) && keys == old(keys)[1..]
    {
      var p := byPid[keys[0]];
      SetLists(keys[1..], timers);
      Rouse(p);
    }

    /** wakeup_queue for the readers of the keyboard: none is left, and all are awake. */
    method DoKey()
      requires Follows() && KeyPress(k).Goes?
      modifies this`runq, this`procNum, this`cells, this`k, this`keys, this`timers, table.kids.Keys`state
      modifies table.kids.Keys`wait
      ensures Follows() && k == KeyPress(old(k)).k && keys == []
      ensures forall p {:trigger p in table.kids} :: p in table.kids && p.pid in old(keys) ==> p.state == Runnable
    {
      ghost var was := k;
      WakeReaders();
      Readers(was);
    }

    /** No reader is left asleep. */
    lemma Readers(was: Kernel)
      requires Follows() && KeyPress(was) == Goes(k)
      ensures keys == []
      ensures forall p {:trigger p in table.kids} :: p in table.kids && p.pid in was.keys ==> p.state == Runnable
    {
      forall p | p in table.kids
        ensures p.pid in was.keys ==> p.state == Runnable
      {
        KnownAs(cells, table.kids, table.idle, table.init, Fields(), k, p);
        if p.pid in was.keys {
          KeyWakes(was, p.pid);
        }
      }
      KeysGone(was);
    }

    method WakeReaders()
      requires Follows() && KeyPress(k).Goes?
      modifies this`runq, this`procNum, this`cells, this`k, this`keys, this`timers, table.kids.Keys`state
      modifies table.kids.Keys`wait
      ensures Follows() && k == KeyPress(old(k)).k
    {
      ghost var all := KeyPress(k);
      while keys != []
        invariant Follows() && KeyPress(k) == all
        decreases |keys|
      {
        WakeReader();
      }
    }

    // ---------------------------------------------------------------- after schedule()

    method Rise()
      requires IsCells(cells) && current in cells
      modifies this`cells, current`at
      ensures IsCells(cells) && current.at == Out
      ensures cells == old(cells)[current := old(cells)[current].(at := Out)]
      ensures old(table.Valid()) ==> table.Valid()
    {
      cells := cells[current := cells[current].(at := Out)];
      current.at := Out;
    }

    /** The running process leaves its blocking call. */
    method StandUp()
      requires Follows()
      modifies this`cells, this`k, current`at
      ensures k.current in old(k).procs && Follows() && k == Stood(old(k)) && current.at == Out
      ensures current in old(cells) && Now() == Upright(old(Now())) && (old(table.Valid()) ==> table.Valid())
    {
      KnownAs(cells, table.kids, table.idle, table.init, Fields(), k, current);
      MirrorCell(cells, table.kids, table.idle, table.init, Fields(), k, current, cells[current].(at := Out));
      k := Stood(k);
      Rise();
    }

    /** A sleeper deletes its timer, a reader leaves the queue. */
    method Forget(at: Place)
      requires Follows()
      modifies this`k, this`keys, this`timers
      ensures Fields() == Forgot(old(Fields()), at)
      ensures Follows() && k == old(k).(keys := keys, timers := timers) && (old(table.Valid()) ==> table.Valid())
    {
      match at
      case InSleep => SetLists(keys, Timers.Del(timers, current.pid));
      case InRead => SetLists(Remove(keys, current.pid), timers);
      case _ =>
    }

    /** down(), do_sleep and a read after schedule() has returned: down() was woken by an
        up(), a sleeper deletes its timer, a reader leaves the queue. */
    method Leave()
      requires Follows() && k.current in k.procs && Resume(k).Goes?
      requires k.procs[k.current].at != Out && !k.procs[k.current].at.InWait?
      modifies this`cells, this`k, this`keys, this`timers, current`at
      ensures Follows() && k == Resume(old(k)).k && current.at == Out
      ensures current in old(cells) && Now() == Left(old(Now())) && (old(table.Valid()) ==> table.Valid())
      ensures old(cells)[current].at.InDown? ==> old(cells)[current].at.granted
    {
      KnownAs(cells, table.kids, table.idle, table.init, Fields(), k, current);
      LeftBy(k);
      var at := current.at;
      StandUp();
      Forget(at);
    }

    /** The loop of do_wait: a killed process exits, any other one looks for its children. */
    method WaitLoop(pid: nat) returns (haskid: bool, z: Process?)
      requires Follows() && table.Valid() && k.current in k.procs && Trees(k) && States(k)
      requires if k.procs[k.current].exiting then Exit(k).Goes? else WaitFor(k, pid).Goes?
      modifies this`runq, this`procNum, this`byPid, this`cells, this`k, table, table.kids.Keys`state
      modifies table.kids.Keys`wait, table.kids.Keys`at
      modifies table.kids.Keys`parent, table.kids.Keys`cptr, table.kids.Keys`optr, table.kids.Keys`yptr
      ensures k == if old(k).procs[old(k).current].exiting then Exit(old(k)).k else WaitFor(old(k), pid).k
      ensures Follows() && table.Valid() && table.kids.Keys <= old(table.kids).Keys
      ensures if old(current.exiting) then
                && Gone(cells, current) && k.leaving && current in old(table.kids)
                && table.kids == HandedAll(old(table.kids), current, table.init)
              else
                && haskid == AsksOne(old(Now()), pid)
                && (if z == null then NoneDead(old(Now()), pid) else Youngest(old(Now()), pid, z))
                && Settled(old(Now()), Now(), pid, haskid, z)
    {
      KnownAs(cells, table.kids, table.idle, table.init, Fields(), k, current);
      if current.exiting {
        haskid, z := false, null;
        DoExit();
      } else {
        haskid, z := DoWait(pid);
      }
    }

    /** do_wait after schedule() has returned: a killed process exits, any other one looks
        again for the children it asks for. */
    method WaitAgain() returns (haskid: bool, z: Process?)
      requires Follows() && table.Valid() && k.current in k.procs && Resume(k).Goes? && k.procs[k.current].at.InWait?
      requires Trees(Stood(k)) && States(Stood(k))
      modifies this`runq, this`procNum, this`byPid, this`cells, this`k, table, table.kids.Keys`state
      modifies table.kids.Keys`wait, table.kids.Keys`at
      modifies table.kids.Keys`parent, table.kids.Keys`cptr, table.kids.Keys`optr, table.kids.Keys`yptr
      ensures Follows() && k == Resume(old(k)).k && table.Valid() && table.kids.Keys <= old(table.kids).Keys
      ensures current in old(cells) && old(current.at).InWait?
      ensures var m, pid := Upright(old(Now())), old(current.at).pid;
              if old(current.exiting) then
                && Gone(cells, current) && k.leaving && current in old(table.kids)
                && table.kids == HandedAll(old(table.kids), current, table.init)
              else
                && haskid == AsksOne(m, pid) && (if z == null then NoneDead(m, pid) else Youngest(m, pid, z))
                && Settled(m, Now(), pid, haskid, z)
    {
      KnownAs(cells, table.kids, table.idle, table.init, Fields(), k, current);
      var pid := current.at.pid;
      StandUp();
      haskid, z := WaitLoop(pid);
    }

    // --------------------------------------------------------------------------- runs

    /** The steps on semaphores. */
    method StepSem(s: Step)
      requires Follows() && k.current in k.procs && Can(k, s) && Apply(k, s).Goes? && States(k)
      requires (s.SUp? || s.SDown? || s.STryDown?)
      modifies this, table.kids.Keys`state, table.kids.Keys`wait, table.kids.Keys`at, table.kids.Keys`exiting
      ensures Follows() && k == Apply(old(k), s).k
    {
      match s
      case SUp(i) => DoUp(i);
      case SDown(i) => DoDown(i);
      case STryDown(i) => var _ := DoTryDown(i);
    }

    /** Killing, sleeping and reading. */
    method StepSelf(s: Step)
      requires Follows() && k.current in k.procs && Can(k, s) && Apply(k, s).Goes? && States(k)
      requires (s.SKill? || s.SSleep? || s.SRead?)
      modifies this, table.kids.Keys`state, table.kids.Keys`wait, table.kids.Keys`at, table.kids.Keys`exiting
      ensures Follows() && k == Apply(old(k), s).k
    {
      match s
      case SKill(p) => DoKill(p);
      case SSleep(t) => DoSleep(t);
      case SRead => DoRead();
    }

    /** The scheduler and the interrupts. */
    method StepClock(s: Step)
      requires Follows() && k.current in k.procs && Can(k, s) && Apply(k, s).Goes?
      requires (s.SSchedule? || s.STick? || s.SKey?)
      modifies this, table.kids.Keys`state, table.kids.Keys`wait, table.kids.Keys`at, table.kids.Keys`exiting
      ensures Follows() && k == Apply(old(k), s).k
    {
      match s
      case SSchedule => DoSchedule();
      case STick => DoTick();
      case SKey => DoKey();
    }

    method StepAlone(s: Step)
      requires Follows() && k.current in k.procs && Can(k, s) && Apply(k, s).Goes? && States(k)
      requires !s.SFork? && !s.SExit? && !s.SWait? && !s.SResume?
      modifies this, table.kids.Keys`state, table.kids.Keys`wait, table.kids.Keys`at, table.kids.Keys`exiting
      ensures Follows() && k == Apply(old(k), s).k
    {
      if s.SUp? || s.SDown? || s.STryDown? {
        StepSem(s);
      } else if s.SKill? || s.SSleep? || s.SRead? {
        StepSelf(s);
      } else {
        StepClock(s);
      }
    }

    /** A step that leaves the process table alone. */
    method StepHere(s: Step)
      requires Follows() && table.Valid() && k.current in k.procs && Can(k, s) && Apply(k, s).Goes? && States(k)
      requires !s.SFork? && !s.SExit? && !s.SWait? && !s.SResume?
      modifies this, table.kids.Keys`state, table.kids.Keys`wait, table.kids.Keys`at, table.kids.Keys`exiting
      ensures Follows() && k == Apply(old(k), s).k && table.Valid()
    {
      StepAlone(s);
    }

    method StepResume()
      requires Follows() && table.Valid() && k.current in k.procs && Resume(k).Goes? && k.procs[k.current].at != Out
      requires k.procs[k.current].at.InWait? ==> Trees(Stood(k)) && States(Stood(k))
      modifies this, table, table.kids.Keys
      ensures Follows() && k == Resume(old(k)).k && table.Valid()
      ensures table.kids.Keys <= old(table.kids).Keys
    {
      KnownAs(cells, table.kids, table.idle, table.init, Fields(), k, current);
      if current.at.InWait? {
        var _, _ := WaitAgain();
      } else {
        Leave();
      }
    }

    method StepFork(pid: nat)
      requires Follows() && table.Valid() && k.current in k.procs && pid !in k.procs && Fork(k, pid).Goes?
      modifies this, table, table.kids.Keys
      ensures Follows() && k == Fork(old(k), pid).k && table.Valid()
      ensures forall p {:trigger p in table.kids} :: p in table.kids && p !in old(table.kids) ==> fresh(p)
    {
      var _ := DoFork(pid);
    }

    /** A step that may change it. */
    method StepTree(s: Step)
      requires Follows() && table.Valid() && k.current in k.procs && Can(k, s) && Apply(k, s).Goes? && Trees(k)
      requires States(k)
      requires s.SResume? && k.procs[k.current].at.InWait? ==> Trees(Stood(k)) && States(Stood(k))
      requires s.SFork? || s.SExit? || s.SWait? || s.SResume?
      modifies this, table, table.kids.Keys
      ensures Follows() && k == Apply(old(k), s).k && table.Valid()
      ensures forall p {:trigger p in table.kids} :: p in table.kids && p !in old(table.kids) ==> fresh(p)
    {
      match s
      case SFork(pid) => StepFork(pid);
      case SExit => DoExit();
      case SWait(pid) => var _, _ := DoWait(pid);
      case SResume => StepResume();
    }

    method StepAny(s: Step)
      requires Follows() && table.Valid() && k.current in k.procs && Can(k, s) && Apply(k, s).Goes? && Trees(k)
      requires States(k)
      requires s.SResume? && k.procs[k.current].at.InWait? ==> Trees(Stood(k)) && States(Stood(k))
      modifies this, table, table.kids.Keys
      ensures Follows() && k == Apply(old(k), s).k && table.Valid()
      ensures forall p {:trigger p in table.kids} :: p in table.kids && p !in old(table.kids) ==> fresh(p)
    {
      if s.SFork? || s.SExit? || s.SWait? || s.SResume? {
        StepTree(s);
      } else {
        StepHere(s);
      }
    }

    /** Every step that a run can take from here: memory follows, and the process table
        stays well linked. */
    method Perform(s: Step)
      requires Valid() && Can(k, s) && !Suicide(k, s)
      modifies this, table, table.kids.Keys
      ensures Valid() && Apply(old(k), s) == Goes(k)
      ensures forall p {:trigger p in table.kids} :: p in table.kids && p !in old(table.kids) ==> fresh(p)
    {
      StepReady(k, s);
      StepAny(s);
    }

    method PerformFirst(es: seq<Step>, ghost r: Kernel)
      requires Valid() && Run(k, es, r) && es != []
      modifies this, table, table.kids.Keys
      ensures Valid() && Run(k, es[1..], r)
      ensures forall p {:trigger p in table.kids} :: p in table.kids && p !in old(table.kids) ==> fresh(p)
    {
      RunFirst(k, es, r);
      Perform(es[0]);
    }

    /** Any run, done in memory. */
    method Execute(es: seq<Step>, ghost r: Kernel)
      requires Valid() && Run(k, es, r)
      modifies this, table, table.kids.Keys
      ensures Valid() && k == r
      ensures forall p {:trigger p in table.kids} :: p in table.kids && p !in old(table.kids) ==> fresh(p)
    {
      var left := es;
      while left != []
        invariant Valid() && Run(k, left, r)
        invariant forall p {:trigger p in table.kids} :: p in table.kids && p !in old(table.kids) ==> fresh(p)
        decreases |left|
      {
        ghost var was := table.kids;
        PerformFirst(left, r);
        left := left[1..];
        assert forall p {:trigger p in table.kids} :: p in table.kids && p !in was ==> fresh(p);
      }
    }

    /** What init_main asserts when do_wait finds it no child any more: init has no
        relatives but idle, two processes are counted, and init alone is listed. */
    lemma InitAlone()
      requires Valid() && Reachable(k) && table.init in table.kids && table.kids[table.init] == []
      requires table.idle in table.kids && table.kids[table.idle] == [table.init]
      ensures table.init.cptr == null && table.init.yptr == null && table.init.optr == null
      ensures table.nrProcess == 2 && table.list == [table.init]
    {
      KnownAs(cells, table.kids, table.idle, table.init, Fields(), k, table.idle);
      KnownAs(cells, table.kids, table.idle, table.init, Fields(), k, table.init);
      assert PidsOf([table.init]) == [INIT];
      AllQuit(k);
      forall p | p in table.kids
        ensures p == table.idle || p == table.init
      {
        KnownAs(cells, table.kids, table.idle, table.init, Fields(), k, p);
      }
      assert table.kids == map[table.idle := [table.init], table.init := []];
      table.OnlyInit();
    }
  }

  /** The table proc_init makes. */
  method FirstTable() returns (t: Table)
    ensures fresh(t) && fresh(t.kids.Keys) && t.Valid() && t.kids == map[t.idle := [t.init], t.init := []]
    ensures t.idle.pid == IDLE && t.init.pid == INIT && t.idle.state == t.init.state == Runnable
    ensures t.idle.wait == t.init.wait == NoWait
    ensures !t.idle.exiting && !t.init.exiting && t.idle.at == t.init.at == Out
  {
    var idle := new Process(IDLE, null);
    var init := new Process(INIT, idle);
    t := new Table(idle, init);
  }

  method Start(starts: seq<nat>) returns (m: Machine)
    ensures fresh(m) && fresh(m.table) && fresh(m.table.kids.Keys) && m.Valid() && m.k == Boot(starts)
  {
    var t := FirstTable();
    m := new Machine(t, starts);
  }

  /** Boot, and any run from there. */
  method Replay(starts: seq<nat>, es: seq<Step>, ghost r: Kernel) returns (m: Machine)
    requires Run(Boot(starts), es, r)
    ensures fresh(m) && m.Valid() && m.k == r
  {
    m := Start(starts);
    m.Execute(es, r);
  }

  /** The first place of `c` in a list that has it. */
  lemma {:induction false} FirstPlace(s: seq<Process>, c: Process) returns (i: nat)
    requires c in s
    ensures i < |s| && s[i] == c && c !in s[..i]
  {
    if s[0] == c {
      i := 0;
    } else {
      i := FirstPlace(s[1..], c);
      assert s[..i + 1] == [s[0]] + s[1..][..i];
      i := i + 1;
    }
  }

  /** Leaving down(), a sleep or a read. */
  lemma {:induction false} LeftBy(k: Kernel)
    requires k.current in k.procs && Resume(k).Goes?
    requires k.procs[k.current].at != Out && !k.procs[k.current].at.InWait?
    ensures var at := k.procs[k.current].at;
            && (at.InDown? ==> at.granted)
            && Resume(k).k == Stood(k).(timers := if at == InSleep then Timers.Del(k.timers, k.current) else k.timers,
                                        keys := if at == InRead then Remove(k.keys, k.current) else k.keys)
  {
  }

  lemma {:induction false} RunFirst(k: Kernel, es: seq<Step>, r: Kernel)
    requires Invariant(k) && Run(k, es, r) && es != []
    ensures k.current in k.procs && Can(k, es[0]) && !Suicide(k, es[0]) && Apply(k, es[0]).Goes?
    ensures Run(Apply(k, es[0]).k, es[1..], r)
  {
    StepSafe(k, es[0]);
  }

  ghost predicate States(k: Kernel) {
    && (forall q {:trigger StateOk(k, q)} :: q in k.procs ==> StateOk(k, q))
    && (k.current in k.procs && !k.leaving ==> k.procs[k.current].state == Runnable)
  }

  lemma {:induction false} StepReady(k: Kernel, s: Step)
    requires Invariant(k) && Can(k, s) && !Suicide(k, s)
    ensures Apply(k, s).Goes? && Invariant(Apply(k, s).k) && Trees(k) && States(k)
    ensures s.SResume? && k.procs[k.current].at.InWait? ==> Trees(Stood(k)) && States(Stood(k))
  {
    StepSafe(k, s);
    if s.SResume? && k.procs[k.current].at.InWait? {
      StopWaiting(k);
    }
  }
}
