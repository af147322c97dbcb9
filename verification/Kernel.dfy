/** Processes, run queue, semaphores, timers and the process tree, as one transition
    system. Kernel code is not preempted, so what a process does between two calls of
    schedule() is one step; interrupts may come between any two steps, also after a
    process has put itself to sleep and before it has called schedule().

    A step that would trip an assertion of the kernel `Fails`; one that stops the
    kernel on purpose `Panics`. */
module Kernel {
  import opened Basics
  import Timers

  const IDLE: nat := 0
  const INIT: nat := 1
  const MAX_PROCESS: nat := 4096

  datatype State = Sleeping | Runnable | Zombie

  /** What a sleeping process waits for. */
  datatype Wait = NoWait | ForChild | ForSem | ForTimer | ForKey {
    /** Whether killing the process wakes it. */
    predicate Interruptible() {
      ForChild? || ForTimer? || ForKey?
    }
  }

  /** Where in a blocking call a process is. `granted` tells that whoever woke it took
      it off the queue it waited in. */
  datatype Place = Out | InDown(sem: nat, granted: bool) | InWait(pid: nat) | InSleep | InRead

  datatype Proc = Proc(state: State, wait: Wait, exiting: bool, parent: nat, kids: seq<nat>, at: Place)

  /** A semaphore, with its history: what it started from, how many ups and granted
      downs there were, and who came to wait and who was served. */
  datatype Sem = Sem(value: int, queue: seq<nat>, start: int, ups: nat, grants: nat, came: seq<nat>, served: seq<nat>)

  /** `leaving`: the current process must call schedule() next; `num` is the counter beside
      the run queue. */
  datatype Kernel = Kernel(procs: map<nat, Proc>, current: nat, leaving: bool, runq: seq<nat>, num: int,
                           sems: seq<Sem>, keys: seq<nat>, timers: seq<Timers.Timer>)

  datatype Outcome = Goes(k: Kernel) | Panics | Fails

  function WaitOf(at: Place): Wait {
    match at
    case Out => NoWait
    case InDown(_, _) => ForSem
    case InWait(_) => ForChild
    case InSleep => ForTimer
    case InRead => ForKey
  }

  function Set(k: Kernel, p: nat, v: Proc): Kernel {
    k.(procs := k.procs[p := v])
  }

  // ------------------------------------------------------- scheduler primitives

  function Enqueue(k: Kernel, p: nat): (o: Outcome)
    ensures o.Goes? ==> o.k.timers == k.timers && o.k.keys == k.keys && o.k.sems == k.sems
  {
    if p == IDLE then Goes(k)
    else if p in k.runq then Fails
    else Goes(k.(runq := k.runq + [p], num := k.num + 1))
  }

  /** wakeup_proc: a zombie must not be woken; waking a runnable process only warns. */
  function Wake(k: Kernel, p: nat): (o: Outcome)
    ensures o.Goes? ==> o.k.timers == k.timers && o.k.keys == k.keys && o.k.sems == k.sems
  {
    if p !in k.procs || k.procs[p].state == Zombie then Fails
    else if k.procs[p].state == Runnable then Goes(k)
    else
      var woken := Set(k, p, k.procs[p].(state := Runnable, wait := NoWait));
      if p == k.current then Goes(woken) else Enqueue(woken, p)
  }

  function Schedule(k: Kernel): Outcome
    requires k.current in k.procs
  {
    var queued := if k.procs[k.current].state == Runnable then Enqueue(k, k.current) else Goes(k);
    match queued
    case Goes(q) =>
      if q.runq == [] then Goes(q.(current := IDLE, leaving := false))
      else Goes(q.(current := q.runq[0], runq := q.runq[1..], num := q.num - 1, leaving := false))
    case other => other
  }

  // ------------------------------------------------------------------ semaphores

  function Up(k: Kernel, i: nat): Outcome
    requires i < |k.sems|
  {
    var s := k.sems[i];
    if s.queue == [] then
      Goes(k.(sems := k.sems[i := s.(value := s.value + 1, ups := s.ups + 1)]))
    else
      var p := s.queue[0];
      if p !in k.procs || k.procs[p].wait != ForSem || !k.procs[p].at.InDown? then Fails
      else
        var passed := s.(queue := s.queue[1..], ups := s.ups + 1, grants := s.grants + 1, served := s.served + [p]);
        Wake(Set(k.(sems := k.sems[i := passed]), p, k.procs[p].(at := k.procs[p].at.(granted := true))), p)
  }

  /** The current process puts itself to sleep. */
  function Block(k: Kernel, at: Place): Kernel
    requires k.current in k.procs
  {
    Set(k, k.current, k.procs[k.current].(state := Sleeping, wait := WaitOf(at), at := at)).(leaving := true)
  }

  function Down(k: Kernel, i: nat): Outcome
    requires i < |k.sems| && k.current in k.procs
  {
    var s := k.sems[i];
    if s.value > 0 then
      Goes(k.(sems := k.sems[i := s.(value := s.value - 1, grants := s.grants + 1)]))
    else if k.current in s.queue then Fails
    else
      var waits := s.(queue := s.queue + [k.current], came := s.came + [k.current]);
      Goes(Block(k.(sems := k.sems[i := waits]), InDown(i, false)))
  }

  function TryDown(k: Kernel, i: nat): Outcome
    requires i < |k.sems|
  {
    var s := k.sems[i];
    if s.value > 0 then Goes(k.(sems := k.sems[i := s.(value := s.value - 1, grants := s.grants + 1)])) else Goes(k)
  }

  // -------------------------------------------------------- the process life cycle

  function Fork(k: Kernel, pid: nat): Outcome
    requires k.current in k.procs
  {
    var parent := k.procs[k.current];
    var child := Proc(Runnable, NoWait, false, k.current, [], Out);
    Enqueue(Set(Set(k, k.current, parent.(kids := [pid] + parent.kids)), pid, child), pid)
  }

  /** Hands the first child of `p` to init, and wakes init if that child is dead and
      init waits for children. */
  function Reparent(k: Kernel, p: nat): Outcome
    requires p in k.procs && k.procs[p].kids != [] && p != INIT
  {
    var c := k.procs[p].kids[0];
    if c !in k.procs || INIT !in k.procs || c == INIT || c == p then Fails
    else
      var k1 := Set(k, p, k.procs[p].(kids := k.procs[p].kids[1..]));
      var k2 := Set(k1, c, k1.procs[c].(parent := INIT));
      var k3 := Set(k2, INIT, k2.procs[INIT].(kids := [c] + k2.procs[INIT].kids));
      if k3.procs[c].state == Zombie && k3.procs[INIT].wait == ForChild then Wake(k3, INIT) else Goes(k3)
  }

  function ReparentAll(k: Kernel, p: nat, n: nat): Outcome
    requires p != INIT
    decreases n
  {
    if n == 0 then Goes(k)
    else if p !in k.procs || k.procs[p].kids == [] then Fails
    else
      match Reparent(k, p)
      case Goes(r) => ReparentAll(r, p, n - 1)
      case other => other
  }

  function Exit(k: Kernel): Outcome
    requires k.current in k.procs
  {
    var p := k.current;
    if p == IDLE || p == INIT then Panics
    else
      var dead := Set(k, p, k.procs[p].(state := Zombie)).(leaving := true);
      var up := k.procs[p].parent;
      if up !in dead.procs then Fails
      else
        match (if dead.procs[up].wait == ForChild then Wake(dead, up) else Goes(dead))
        case Goes(r) => ReparentAll(r, p, |k.procs[p].kids|)
        case other => other
  }

  /** The first dead child in the list, if any. */
  function FirstZombie(k: Kernel, kids: seq<nat>): (r: nat)
    ensures r != 0 ==> r in kids && r in k.procs && k.procs[r].state == Zombie
    ensures r == 0 ==> forall c :: c in kids && c in k.procs && c != 0 ==> k.procs[c].state != Zombie
  {
    if kids == [] then 0
    else if kids[0] in k.procs && kids[0] != 0 && k.procs[kids[0]].state == Zombie then kids[0]
    else FirstZombie(k, kids[1..])
  }

  function Reap(k: Kernel, c: nat): Outcome
    requires k.current in k.procs && c in k.procs
  {
    if c == IDLE || c == INIT then Panics
    else
      var me := k.procs[k.current];
      Goes(k.(procs := k.procs[k.current := me.(kids := Remove(me.kids, c))] - {c}))
  }

  /** do_wait: reaps a dead child, sleeps if there is a child to wait for, and gives up
      otherwise. `pid` 0 stands for any child. */
  function WaitFor(k: Kernel, pid: nat): Outcome
    requires k.current in k.procs
  {
    var me := k.current;
    if pid != 0 then
      if pid in k.procs && k.procs[pid].parent == me then
        if k.procs[pid].state == Zombie then Reap(k, pid) else Goes(Block(k, InWait(pid)))
      else Goes(k)
    else
      var z := FirstZombie(k, k.procs[me].kids);
      if z != 0 then Reap(k, z)
      else if k.procs[me].kids != [] then Goes(Block(k, InWait(0)))
      else Goes(k)
  }

  function Kill(k: Kernel, p: nat): Outcome
    requires p in k.procs
  {
    if k.procs[p].exiting then Goes(k)
    else
      var marked := Set(k, p, k.procs[p].(exiting := true));
      if k.procs[p].wait.Interruptible() then Wake(marked, p) else Goes(marked)
  }

  // ------------------------------------------------------------ sleeping, reading

  function Sleep(k: Kernel, t: nat): Outcome
    requires k.current in k.procs
  {
    if k.current in Timers.Ids(k.timers) then Fails
    else Goes(Block(k, InSleep).(timers := Timers.Add(k.timers, k.current, t)))
  }

  function Read(k: Kernel): Outcome
    requires k.current in k.procs
  {
    if k.current in k.keys then Fails
    else Goes(Block(k, InRead).(keys := k.keys + [k.current]))
  }

  /** Leaving the blocking call after schedule() has returned. down() asserts that it
      was woken by an up(). */
  function Resume(k: Kernel): Outcome
    requires k.current in k.procs
  {
    var p := k.current;
    var v := k.procs[p];
    var out := Set(k, p, v.(at := Out));
    match v.at
    case Out => Goes(k)
    case InDown(i, granted) => if granted then Goes(out) else Fails
    case InWait(pid) => if v.exiting then Exit(out) else WaitFor(out, pid)
    case InSleep => Goes(out.(timers := Timers.Del(k.timers, p)))
    case InRead => Goes(out.(keys := Remove(k.keys, p)))
  }

  // ------------------------------------------------------------------- interrupts

  /** Wakes the owners of the timers at the front that are due, dropping each. */
  function FireAll(k: Kernel): Outcome
    decreases |k.timers|
  {
    if k.timers == [] || k.timers[0].expires > 0 then Goes(k)
    else
      var p := k.timers[0].id;
      if p !in k.procs || (k.procs[p].wait != NoWait && !k.procs[p].wait.Interruptible()) then Fails
      else
        match Wake(k, p)
        case Goes(r) => FireAll(r.(timers := r.timers[1..]))
        case other => other
  }

  function Tick(k: Kernel): Outcome {
    if k.timers != [] && k.timers[0].expires == 0 then Fails
    else FireAll(k.(timers := Timers.Elapse(k.timers)))
  }

  /** A key arrives: all readers are taken off the queue and woken. */
  function KeyPress(k: Kernel): Outcome
    decreases |k.keys|
  {
    if k.keys == [] then Goes(k)
    else
      match Wake(k.(keys := k.keys[1..]), k.keys[0])
      case Goes(r) => KeyPress(r)
      case other => other
  }

  // ------------------------------------------------------------------------ steps

  datatype Step = SUp(i: nat) | SDown(i: nat) | STryDown(i: nat) | SFork(pid: nat) | SExit | SWait(pid: nat)
                | SKill(pid: nat) | SSleep(ticks: nat) | SRead | SSchedule | SResume | STick | SKey

  /** When a step can be taken: a process in a blocking call first has to call
      schedule() and then to leave that call; the idle process never blocks. */
  ghost predicate Can(k: Kernel, s: Step)
    requires k.current in k.procs
  {
    var free := !k.leaving && k.procs[k.current].at == Out;
    match s
    case SUp(i) => free && i < |k.sems|
    case SDown(i) => free && i < |k.sems| && (k.current == IDLE ==> k.sems[i].value > 0)
    case STryDown(i) => free && i < |k.sems|
    case SFork(pid) => free && pid !in k.procs && |k.procs| < MAX_PROCESS
    case SExit => free
    case SWait(_) => free && k.current != IDLE
    case SKill(p) => free && p in k.procs && p != IDLE
    case SSleep(t) => free && t > 0 && k.current != IDLE
    case SRead => free && k.current != IDLE
    case SSchedule => k.leaving || k.procs[k.current].at == Out
    case SResume => !k.leaving && k.procs[k.current].at != Out
    case STick => true
    case SKey => true
  }

  function Apply(k: Kernel, s: Step): Outcome
    requires k.current in k.procs
    requires (s.SUp? || s.SDown? || s.STryDown?) ==> s.i < |k.sems|
    requires s.SKill? ==> s.pid in k.procs
  {
    match s
    case SUp(i) => Up(k, i)
    case SDown(i) => Down(k, i)
    case STryDown(i) => TryDown(k, i)
    case SFork(pid) => Fork(k, pid)
    case SExit => Exit(k)
    case SWait(pid) => WaitFor(k, pid)
    case SKill(p) => Kill(k, p)
    case SSleep(t) => Sleep(k, t)
    case SRead => Read(k)
    case SSchedule => Schedule(k)
    case SResume => Resume(k)
    case STick => Tick(k)
    case SKey => KeyPress(k)
  }

  // -------------------------------------------------------------------- invariant

  /** `p` sleeps in do_wait: it has a child to wait for, and none of those is dead. */
  ghost predicate WaitsInVain(k: Kernel, p: nat, pid: nat)
    requires p in k.procs
  {
    if pid == 0 then
      k.procs[p].kids != [] && forall c :: c in k.procs[p].kids && c in k.procs ==> k.procs[c].state != Zombie
    else
      pid in k.procs[p].kids && (pid in k.procs ==> k.procs[pid].state != Zombie)
  }

  /** State, wait state and queue membership of one process agree. */
  ghost predicate StateOk(k: Kernel, p: nat)
    requires p in k.procs
  {
    var v := k.procs[p];
    && (p in k.runq <==> v.state == Runnable && p != k.current && p != IDLE)
    && (v.state == Runnable ==> v.wait == NoWait)
    && (v.state == Zombie ==> v.wait == NoWait && v.kids == [] && v.at == Out && p != IDLE && p != INIT)
    && (v.state == Sleeping ==> v.wait == WaitOf(v.at) && v.at != Out && p != IDLE)
    && (p == IDLE ==> v.state == Runnable && v.at == Out)
    && match v.at
       case Out => true
       case InDown(i, granted) =>
         i < |k.sems| && (p in k.sems[i].queue <==> !granted) && (granted <==> v.state == Runnable)
       case InWait(pid) => v.state == Sleeping ==> WaitsInVain(k, p, pid)
       case InSleep => v.state == Sleeping ==> p in Timers.Ids(k.timers)
       case InRead => v.state == Sleeping ==> p in k.keys
  }

  /** Parent and children know each other. */
  ghost predicate TreeOk(k: Kernel, p: nat)
    requires p in k.procs
  {
    var v := k.procs[p];
    && Distinct(v.kids) && p !in v.kids && IDLE !in v.kids
    && (forall c :: c in v.kids ==> c in k.procs && k.procs[c].parent == p)
    && (p != IDLE ==> v.parent in k.procs && p in k.procs[v.parent].kids)
  }

  ghost predicate SemOk(k: Kernel, i: nat)
    requires i < |k.sems|
  {
    var s := k.sems[i];
    && s.value >= 0
    && (s.value > 0 ==> s.queue == [])
    && Distinct(s.queue)
    && (forall p :: p in s.queue ==> p in k.procs && k.procs[p].at == InDown(i, false))
    && s.start + s.ups == s.value + s.grants
    && s.came == s.served + s.queue
  }

  ghost predicate QueuesOk(k: Kernel)
  {
    && Distinct(k.runq) && (forall p :: p in k.runq ==> p in k.procs) && k.num == |k.runq|
    && Distinct(k.keys) && (forall p :: p in k.keys ==> p in k.procs && k.procs[p].at == InRead)
    && Timers.Distinct(k.timers)
    && (forall p :: p in Timers.Ids(k.timers) ==> p in k.procs && k.procs[p].at == InSleep)
  }

  /** What holds at every point of a step at which a process is woken. */
  ghost predicate Core(k: Kernel)
  {
    && k.current in k.procs && IDLE in k.procs && INIT in k.procs && k.procs[INIT].parent == IDLE
    && (!k.leaving ==> k.procs[k.current].state == Runnable)
    && (k.leaving ==> k.current != IDLE)
    && QueuesOk(k)
    && (forall p {:trigger StateOk(k, p)} :: p in k.procs ==> StateOk(k, p))
    && (forall p {:trigger TreeOk(k, p)} :: p in k.procs ==> TreeOk(k, p))
    && (forall i {:trigger SemOk(k, i)} :: 0 <= i < |k.sems| ==> SemOk(k, i))
  }

  /** What holds between steps. */
  ghost predicate Invariant(k: Kernel)
  {
    Core(k) && (k.timers != [] ==> k.timers[0].expires > 0)
  }
}
