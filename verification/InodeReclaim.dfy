/** The life of in-memory inodes: lookups, reference counting and delayed reclaim calls of
    any number of threads, interleaved at every point where one could wait for the file
    system lock or for the disk.

    A reclaim call that the last reference drop has started but that has not got the lock
    yet is `Pending`. A step `Fails` if it would trip an assertion or use a freed inode. */
module InodeReclaim {
  import opened Basics

  datatype Node = Node(ino: nat, ref: nat, opens: nat, count: int)

  datatype Phase = Idle
                 | WantLoad(ino: nat)
                 | Loading(ino: nat)
                 | Pending(id: nat)
                 | Reclaiming(id: nat)
                 | Killing(id: nat)

  datatype Lock = Open | Held(holder: nat)

  /** `nodes` are the inodes in memory, by an address that is never used again; `links`
      is the list lookups walk; `killed` records what was freed. */
  datatype Fs = Fs(nodes: map<nat, Node>, links: seq<nat>, threads: map<nat, Phase>,
                   lock: Lock, next: nat, killed: seq<nat>)

  datatype Outcome = Goes(fs: Fs) | Fails

  datatype Found = Hit(id: nat) | Miss

  /** The walk over the list. */
  function Lookup(fs: Fs, links: seq<nat>, ino: nat): (r: Found)
    ensures r.Hit? ==> r.id in links && r.id in fs.nodes && fs.nodes[r.id].ino == ino
    ensures r.Miss? ==> forall id :: id in links && id in fs.nodes ==> fs.nodes[id].ino != ino
  {
    if links == [] then Miss
    else if links[0] in fs.nodes && fs.nodes[links[0]].ino == ino then Hit(links[0])
    else Lookup(fs, links[1..], ino)
  }

  function Turn(fs: Fs, t: nat, ph: Phase): Fs {
    fs.(threads := fs.threads[t := ph])
  }

  function Put(fs: Fs, id: nat, v: Node): Fs {
    fs.(nodes := fs.nodes[id := v])
  }

  datatype Step = CallLoad(t: nat, ino: nat) | EnterLoad(t: nat) | FinishLoad(t: nat, ok: bool)
                | RefInc(t: nat, id: nat) | RefDec(t: nat, id: nat)
                | OpenInc(t: nat, id: nat) | OpenDec(t: nat, id: nat)
                | EnterReclaim(t: nat) | FailReclaim(t: nat) | Unlink(t: nat) | Kill(t: nat)

  /** Threads use an inode only through a reference, and give up no reference that an
      open file still needs. */
  ghost predicate Can(fs: Fs, s: Step)
  {
    s.t in fs.threads &&
    var ph := fs.threads[s.t];
    match s
    case CallLoad(_, _) => ph.Idle?
    case EnterLoad(_) => ph.WantLoad? && fs.lock == Open
    case FinishLoad(_, _) => ph.Loading?
    case RefInc(_, id) => ph.Idle? && id in fs.nodes && fs.nodes[id].ref > 0
    case RefDec(_, id) => ph.Idle? && id in fs.nodes && fs.nodes[id].ref > fs.nodes[id].opens
    case OpenInc(_, id) => ph.Idle? && id in fs.nodes && fs.nodes[id].ref > fs.nodes[id].opens
    case OpenDec(_, id) => ph.Idle? && id in fs.nodes && fs.nodes[id].opens > 0
    case EnterReclaim(_) => ph.Pending? && fs.lock == Open
    case FailReclaim(_) => ph.Reclaiming?
    case Unlink(_) => ph.Reclaiming?
    case Kill(_) => ph.Killing?
  }

  /** sfs_load_inode with the lock: a hit takes a reference, and counts one reclaim more
      if it is the first. */
  function Load(fs: Fs, t: nat, ino: nat): Outcome
  {
    match Lookup(fs, fs.links, ino)
    case Miss => Goes(Turn(fs, t, Loading(ino)).(lock := Held(t)))
    case Hit(id) =>
      var v := fs.nodes[id].(ref := fs.nodes[id].ref + 1);
      Goes(Turn(Put(fs, id, if v.ref == 1 then v.(count := v.count + 1) else v), t, Idle))
  }

  function Create(fs: Fs, t: nat, ino: nat): Outcome
  {
    var loaded := Turn(Put(fs, fs.next, Node(ino, 1, 0, 1)), t, Idle);
    Goes(loaded.(links := [fs.next] + fs.links, next := fs.next + 1, lock := Open))
  }

  function Drop(fs: Fs, t: nat, id: nat): Outcome
  {
    if id !in fs.nodes || fs.nodes[id].ref == 0 then Fails
    else
      var v := fs.nodes[id].(ref := fs.nodes[id].ref - 1);
      Goes(Turn(Put(fs, id, v), t, if v.ref == 0 then Pending(id) else Idle))
  }

  /** sfs_reclaim with the lock: only the last reclaim of an inode nobody uses goes on. */
  function Reclaim(fs: Fs, t: nat, id: nat): Outcome
  {
    if id !in fs.nodes || fs.nodes[id].count <= 0 then Fails
    else
      var v := fs.nodes[id].(count := fs.nodes[id].count - 1);
      if v.count != 0 || v.ref != 0 then Goes(Turn(Put(fs, id, v), t, Idle))
      else Goes(Turn(Put(fs, id, v), t, Reclaiming(id)).(lock := Held(t)))
  }

  function Free(fs: Fs, t: nat, id: nat): Outcome
  {
    if id !in fs.nodes || fs.nodes[id].ref != 0 || fs.nodes[id].opens != 0 then Fails
    else Goes(Turn(fs.(nodes := fs.nodes - {id}, killed := fs.killed + [id]), t, Idle))
  }

  function Apply(fs: Fs, s: Step): Outcome
    requires s.t in fs.threads
  {
    var ph := fs.threads[s.t];
    match s
    case CallLoad(t, ino) => Goes(Turn(fs, t, WantLoad(ino)))
    case EnterLoad(t) => if ph.WantLoad? then Load(fs, t, ph.ino) else Fails
    case FinishLoad(t, ok) =>
      if !ph.Loading? then Fails
      else if ok then Create(fs, t, ph.ino)
      else Goes(Turn(fs, t, Idle).(lock := Open))
    case RefInc(t, id) =>
      if id in fs.nodes then Goes(Put(fs, id, fs.nodes[id].(ref := fs.nodes[id].ref + 1))) else Fails
    case RefDec(t, id) => Drop(fs, t, id)
    case OpenInc(t, id) =>
      if id in fs.nodes then Goes(Put(fs, id, fs.nodes[id].(opens := fs.nodes[id].opens + 1))) else Fails
    case OpenDec(t, id) =>
      if id !in fs.nodes || fs.nodes[id].opens == 0 then Fails
      else Goes(Put(fs, id, fs.nodes[id].(opens := fs.nodes[id].opens - 1)))
    case EnterReclaim(t) => if ph.Pending? then Reclaim(fs, t, ph.id) else Fails
    case FailReclaim(t) => Goes(Turn(fs, t, Idle).(lock := Open))
    case Unlink(t) =>
      if !ph.Reclaiming? || ph.id !in fs.nodes then Fails
      else Goes(Turn(fs, t, Killing(ph.id)).(links := Remove(fs.links, ph.id), lock := Open))
    case Kill(t) => if ph.Killing? then Free(fs, t, ph.id) else Fails
  }

  // -------------------------------------------------------------------- invariant

  ghost predicate Waits(fs: Fs, id: nat, t: nat) {
    t in fs.threads && fs.threads[t] == Pending(id)
  }

  /** The reclaim calls of `id` that wait for the lock. */
  ghost function Waiting(fs: Fs, id: nat): set<nat> {
    set t {:trigger Waits(fs, id, t)} | t in fs.threads && Waits(fs, id, t)
  }

  ghost predicate NodeOk(fs: Fs, id: nat)
    requires id in fs.nodes
  {
    var v := fs.nodes[id];
    && id < fs.next && v.opens <= v.ref
    && v.count == |Waiting(fs, id)| + (if v.ref > 0 then 1 else 0)
    && (id !in fs.links ==> v.ref == 0 && v.count == 0)
  }

  ghost predicate ThreadOk(fs: Fs, t: nat)
    requires t in fs.threads
  {
    match fs.threads[t]
    case Idle => true
    case WantLoad(_) => true
    case Loading(ino) => fs.lock == Held(t) && forall id :: id in fs.links && id in fs.nodes ==> fs.nodes[id].ino != ino
    case Pending(id) => id in fs.nodes && id in fs.links
    case Reclaiming(id) =>
      fs.lock == Held(t) && id in fs.nodes && id in fs.links && fs.nodes[id].ref == 0 && fs.nodes[id].count == 0
    case Killing(id) => id in fs.nodes && id !in fs.links
  }

  /** Only one thread frees an inode. */
  ghost predicate Alone(fs: Fs, t: nat, u: nat)
    requires t in fs.threads && u in fs.threads
  {
    t != u && fs.threads[t].Killing? && fs.threads[u].Killing? ==> fs.threads[t].id != fs.threads[u].id
  }

  ghost predicate LinksOk(fs: Fs)
  {
    && Distinct(fs.links) && (forall id :: id in fs.links ==> id in fs.nodes)
    && (forall a, b ::
          a in fs.links && b in fs.links && a in fs.nodes && b in fs.nodes && fs.nodes[a].ino == fs.nodes[b].ino ==>
            a == b)
    && Distinct(fs.killed) && (forall id :: id in fs.killed ==> id < fs.next && id !in fs.nodes)
    && (fs.lock.Held? ==>
          && fs.lock.holder in fs.threads
          && (fs.threads[fs.lock.holder].Loading? || fs.threads[fs.lock.holder].Reclaiming?))
  }

  ghost predicate Invariant(fs: Fs)
  {
    && LinksOk(fs)
    && (forall id {:trigger NodeOk(fs, id)} :: id in fs.nodes ==> NodeOk(fs, id))
    && (forall t {:trigger ThreadOk(fs, t)} :: t in fs.threads ==> ThreadOk(fs, t))
    && (forall t, u {:trigger Alone(fs, t, u)} :: t in fs.threads && u in fs.threads ==> Alone(fs, t, u))
  }

  // ---------------------------------------------------------------- counting waits

  lemma WaitingSame(fs: Fs, g: Fs, id: nat)
    requires g.threads.Keys == fs.threads.Keys
    requires forall t :: t in fs.threads ==> (fs.threads[t] == Pending(id) <==> g.threads[t] == Pending(id))
    ensures Waiting(g, id) == Waiting(fs, id)
  {
    forall t
      ensures t in Waiting(g, id) <==> t in Waiting(fs, id)
    {
      assert Waits(g, id, t) <==> Waits(fs, id, t);
    }
  }

  lemma WaitingMore(fs: Fs, t: nat, id: nat)
    requires t in fs.threads && fs.threads[t] != Pending(id)
    ensures |Waiting(Turn(fs, t, Pending(id)), id)| == |Waiting(fs, id)| + 1
  {
    WaitingAdds(fs, t, id);
    assert !Waits(fs, id, t);
  }

  lemma WaitingAdds(fs: Fs, t: nat, id: nat)
    requires t in fs.threads && fs.threads[t] != Pending(id)
    ensures Waiting(Turn(fs, t, Pending(id)), id) == Waiting(fs, id) + {t}
  {
    var g := Turn(fs, t, Pending(id));
    forall u
      ensures u in Waiting(g, id) <==> u in Waiting(fs, id) + {t}
    {
      assert Waits(g, id, u) <==> Waits(fs, id, u) || u == t;
    }
  }

  lemma WaitingFewer(fs: Fs, t: nat, id: nat, ph: Phase)
    requires t in fs.threads && fs.threads[t] == Pending(id) && ph != Pending(id)
    ensures |Waiting(Turn(fs, t, ph), id)| == |Waiting(fs, id)| - 1
  {
    var g := Turn(fs, t, ph);
    assert Turn(g, t, Pending(id)) == fs;
    WaitingMore(g, t, id);
  }

  // ------------------------------------------------------------- one step, one inode

  ghost predicate On(ph: Phase, id: nat) {
    (ph.Pending? || ph.Reclaiming? || ph.Killing?) && ph.id == id
  }

  /** Thread `t` goes from `fs` to `g` by a step on inode `id`; whoever else has the lock
      keeps it, and then no inode is linked anew. */
  ghost predicate Moves(fs: Fs, g: Fs, t: nat, id: nat)
  {
    && t in fs.threads && t in g.threads && g.threads == fs.threads[t := g.threads[t]] && g.next >= fs.next
    && (forall n {:trigger g.nodes[n]} {:trigger n in g.nodes} ::
          n != id ==> (n in g.nodes <==> n in fs.nodes) && (n in fs.nodes ==> g.nodes[n] == fs.nodes[n]))
    && (forall n {:trigger n in g.links} :: n != id ==> (n in g.links <==> n in fs.links))
    && (forall n {:trigger Pending(n)} :: n != id ==> (g.threads[t] == Pending(n) <==> fs.threads[t] == Pending(n)))
    && (forall u {:trigger Held(u)} :: u != t && fs.lock == Held(u) ==>
          && g.lock == Held(u)
          && (id in g.links ==>
                id in fs.links && id in fs.nodes && id in g.nodes && g.nodes[id].ino == fs.nodes[id].ino))
  }

  lemma {:induction false} OtherNode(fs: Fs, g: Fs, t: nat, id: nat, n: nat)
    requires Moves(fs, g, t, id) && n != id && n in fs.nodes && NodeOk(fs, n)
    ensures n in g.nodes && NodeOk(g, n)
  {
    WaitingSame(fs, g, n);
    assert n in g.nodes;
  }

  lemma {:induction false} OtherThread(fs: Fs, g: Fs, t: nat, id: nat, u: nat)
    requires Moves(fs, g, t, id) && u in fs.threads && u != t && ThreadOk(fs, u) && !On(fs.threads[u], id)
    ensures u in g.threads && ThreadOk(g, u)
  {
    assert fs.lock == Held(u) ==> g.lock == Held(u);
  }

  lemma {:induction false} MoveInvariant(fs: Fs, g: Fs, t: nat, id: nat)
    requires Invariant(fs) && Moves(fs, g, t, id) && LinksOk(g) && ThreadOk(g, t) && (id in g.nodes ==> NodeOk(g, id))
    requires forall u {:trigger ThreadOk(g, u)} :: u in fs.threads && u != t && On(fs.threads[u], id) ==> ThreadOk(g, u)
    requires forall u {:trigger Alone(g, t, u)} :: u in fs.threads ==> Alone(g, t, u) && Alone(g, u, t)
    ensures Invariant(g)
  {
    forall n | n in g.nodes
      ensures NodeOk(g, n)
    {
      if n != id {
        assert NodeOk(fs, n);
        OtherNode(fs, g, t, id, n);
      }
    }
    forall u | u in g.threads
      ensures ThreadOk(g, u)
    {
      if u != t && !On(fs.threads[u], id) {
        assert ThreadOk(fs, u);
        OtherThread(fs, g, t, id, u);
      }
    }
    forall u, w | u in g.threads && w in g.threads
      ensures Alone(g, u, w)
    {
      assert Alone(fs, u, w);
      assert Alone(g, t, w) && Alone(g, t, u) && Alone(g, w, t) && Alone(g, u, t);
    }
  }

  // --------------------------------------------------------------------- the steps

  /** A thread between two calls does nothing to an inode that no other thread minds. */
  lemma {:induction false} QuietInvariant(fs: Fs, t: nat, ph: Phase)
    requires Invariant(fs) && t in fs.threads
    requires (fs.threads[t].Idle? || fs.threads[t].Loading? || fs.threads[t].Reclaiming?)
    requires (ph.Idle? || ph.WantLoad?)
    ensures var g := Turn(fs, t, ph).(lock := if fs.threads[t].Idle? then fs.lock else Open); Invariant(g)
  {
    var g := Turn(fs, t, ph).(lock := if fs.threads[t].Idle? then fs.lock else Open);
    assert ThreadOk(fs, t);
    assert Moves(fs, g, t, fs.next);
    assert fs.next in fs.nodes ==> NodeOk(fs, fs.next);
    forall u | u in fs.threads
      ensures Alone(g, t, u) && Alone(g, u, t) && (u != t && On(fs.threads[u], fs.next) ==> ThreadOk(g, u))
    {
      assert ThreadOk(fs, u) && Alone(fs, t, u);
    }
    MoveInvariant(fs, g, t, fs.next);
  }

  /** The reference and open counts of an inode in use. */
  lemma {:induction false} CountInvariant(fs: Fs, t: nat, id: nat, v: Node)
    requires Invariant(fs) && t in fs.threads && fs.threads[t].Idle? && id in fs.nodes && fs.nodes[id].ref > 0
    requires v.ref > 0 && v.opens <= v.ref && v.count == fs.nodes[id].count && v.ino == fs.nodes[id].ino
    ensures Invariant(Put(fs, id, v))
  {
    var g := Put(fs, id, v);
    assert NodeOk(fs, id);
    WaitingSame(fs, g, id);
    assert g.threads == fs.threads[t := g.threads[t]];
    assert Moves(fs, g, t, id);
    forall u | u in fs.threads
      ensures Alone(g, t, u) && Alone(g, u, t) && (u != t && On(fs.threads[u], id) ==> ThreadOk(g, u))
    {
      assert ThreadOk(fs, u) && Alone(fs, t, u);
    }
    MoveInvariant(fs, g, t, id);
  }

  /** The last reference starts a reclaim call, any other drop does not. */
  lemma {:induction false} DropInvariant(fs: Fs, t: nat, id: nat)
    requires Invariant(fs) && Can(fs, RefDec(t, id))
    ensures Drop(fs, t, id).Goes? && Invariant(Drop(fs, t, id).fs)
  {
    var v := fs.nodes[id];
    if v.ref > 1 {
      CountInvariant(fs, t, id, v.(ref := v.ref - 1));
      assert Turn(Put(fs, id, v.(ref := v.ref - 1)), t, Idle).threads == fs.threads;
    } else {
      LastInvariant(fs, t, id);
    }
  }

  lemma {:induction false} LastInvariant(fs: Fs, t: nat, id: nat)
    requires Invariant(fs) && Can(fs, RefDec(t, id)) && fs.nodes[id].ref == 1
    ensures Drop(fs, t, id).Goes? && Invariant(Drop(fs, t, id).fs)
  {
    var g := Drop(fs, t, id).fs;
    assert NodeOk(fs, id);
    WaitingMore(fs, t, id);
    WaitingSame(Turn(fs, t, Pending(id)), g, id);
    assert NodeOk(g, id);
    assert Moves(fs, g, t, id);
    forall u | u in fs.threads
      ensures Alone(g, t, u) && Alone(g, u, t) && (u != t && On(fs.threads[u], id) ==> ThreadOk(g, u))
    {
      assert ThreadOk(fs, u) && Alone(fs, t, u);
    }
    MoveInvariant(fs, g, t, id);
  }

  lemma {:induction false} LoadInvariant(fs: Fs, t: nat)
    requires Invariant(fs) && Can(fs, EnterLoad(t))
    ensures Apply(fs, EnterLoad(t)).Goes? && Invariant(Apply(fs, EnterLoad(t)).fs)
  {
    if Lookup(fs, fs.links, fs.threads[t].ino).Miss? {
      MissInvariant(fs, t);
    } else {
      HitInvariant(fs, t);
    }
  }

  lemma {:induction false} MissInvariant(fs: Fs, t: nat)
    requires Invariant(fs) && Can(fs, EnterLoad(t)) && Lookup(fs, fs.links, fs.threads[t].ino).Miss?
    ensures Apply(fs, EnterLoad(t)).Goes? && Invariant(Apply(fs, EnterLoad(t)).fs)
  {
    var g := Apply(fs, EnterLoad(t)).fs;
    assert Moves(fs, g, t, fs.next);
    assert fs.next in fs.nodes ==> NodeOk(fs, fs.next);
    forall u | u in fs.threads
      ensures Alone(g, t, u) && Alone(g, u, t) && (u != t && On(fs.threads[u], fs.next) ==> ThreadOk(g, u))
    {
      assert ThreadOk(fs, u) && Alone(fs, t, u);
    }
    MoveInvariant(fs, g, t, fs.next);
  }

  /** A lookup may revive an inode that has reclaim calls waiting. */
  lemma {:induction false} HitInvariant(fs: Fs, t: nat)
    requires Invariant(fs) && Can(fs, EnterLoad(t)) && Lookup(fs, fs.links, fs.threads[t].ino).Hit?
    ensures Apply(fs, EnterLoad(t)).Goes? && Invariant(Apply(fs, EnterLoad(t)).fs)
  {
    var id := Lookup(fs, fs.links, fs.threads[t].ino).id;
    var g := Apply(fs, EnterLoad(t)).fs;
    assert NodeOk(fs, id);
    WaitingSame(fs, g, id);
    assert NodeOk(g, id);
    assert Moves(fs, g, t, id);
    forall u | u in fs.threads
      ensures Alone(g, t, u) && Alone(g, u, t) && (u != t && On(fs.threads[u], id) ==> ThreadOk(g, u))
    {
      assert ThreadOk(fs, u) && Alone(fs, t, u);
    }
    MoveInvariant(fs, g, t, id);
  }

  lemma {:induction false} CreateInvariant(fs: Fs, t: nat)
    requires Invariant(fs) && Can(fs, FinishLoad(t, true))
    ensures Invariant(Create(fs, t, fs.threads[t].ino).fs)
  {
    var id := fs.next;
    var g := Create(fs, t, fs.threads[t].ino).fs;
    assert ThreadOk(fs, t);
    assert id in fs.nodes ==> NodeOk(fs, id);
    forall u | u in fs.threads
      ensures fs.threads[u] != Pending(id) && !On(fs.threads[u], id) && Alone(g, t, u) && Alone(g, u, t)
    {
      assert ThreadOk(fs, u) && Alone(fs, t, u);
    }
    NobodyWaits(g, id);
    assert NodeOk(g, id);
    assert Moves(fs, g, t, id);
    MoveInvariant(fs, g, t, id);
  }

  lemma {:induction false} NobodyWaits(fs: Fs, id: nat)
    ensures |Waiting(fs, id)| == 0 <==> forall t :: t in fs.threads ==> fs.threads[t] != Pending(id)
  {
    forall t
      ensures t in Waiting(fs, id) <==> t in fs.threads && fs.threads[t] == Pending(id)
    {
      assert Waits(fs, id, t) <==> t in fs.threads && fs.threads[t] == Pending(id);
    }
    if |Waiting(fs, id)| == 0 {
      assert Waiting(fs, id) == {};
    } else {
      assert Waiting(fs, id) != {};
      var t :| t in Waiting(fs, id);
    }
  }

  /** The reclaim count of a pending call is positive, and what goes on is nobody's. */
  lemma {:induction false} ReclaimInvariant(fs: Fs, t: nat)
    requires Invariant(fs) && Can(fs, EnterReclaim(t))
    ensures Apply(fs, EnterReclaim(t)).Goes? && Invariant(Apply(fs, EnterReclaim(t)).fs)
  {
    var id := fs.threads[t].id;
    assert ThreadOk(fs, t);
    assert NodeOk(fs, id);
    NobodyWaits(fs, id);
    var g := Apply(fs, EnterReclaim(t)).fs;
    WaitingFewer(fs, t, id, g.threads[t]);
    WaitingSame(Turn(fs, t, g.threads[t]), g, id);
    assert NodeOk(g, id);
    assert Moves(fs, g, t, id);
    forall u | u in fs.threads
      ensures Alone(g, t, u) && Alone(g, u, t) && (u != t && On(fs.threads[u], id) ==> ThreadOk(g, u))
    {
      assert ThreadOk(fs, u) && Alone(fs, t, u);
    }
    MoveInvariant(fs, g, t, id);
  }

  lemma {:induction false} UnlinkInvariant(fs: Fs, t: nat)
    requires Invariant(fs) && Can(fs, Unlink(t))
    ensures Apply(fs, Unlink(t)).Goes? && Invariant(Apply(fs, Unlink(t)).fs)
  {
    var id := fs.threads[t].id;
    assert ThreadOk(fs, t);
    assert NodeOk(fs, id);
    NobodyWaits(fs, id);
    DistinctRemove(fs.links, id);
    var g := Apply(fs, Unlink(t)).fs;
    WaitingSame(fs, g, id);
    assert NodeOk(g, id);
    assert Moves(fs, g, t, id);
    forall u | u in fs.threads
      ensures Alone(g, t, u) && Alone(g, u, t) && (u != t && On(fs.threads[u], id) ==> ThreadOk(g, u))
    {
      assert ThreadOk(fs, u) && Alone(fs, t, u);
    }
    MoveInvariant(fs, g, t, id);
  }

  lemma {:induction false} KillInvariant(fs: Fs, t: nat)
    requires Invariant(fs) && Can(fs, Kill(t))
    ensures Apply(fs, Kill(t)).Goes? && Invariant(Apply(fs, Kill(t)).fs)
  {
    var id := fs.threads[t].id;
    assert ThreadOk(fs, t);
    assert NodeOk(fs, id);
    NobodyWaits(fs, id);
    var g := Apply(fs, Kill(t)).fs;
    assert Moves(fs, g, t, id);
    forall u | u in fs.threads
      ensures Alone(g, t, u) && Alone(g, u, t) && (u != t ==> !On(fs.threads[u], id))
    {
      assert ThreadOk(fs, u) && Alone(fs, t, u);
    }
    MoveInvariant(fs, g, t, id);
  }

  /** No step of any thread trips an assertion or touches a freed inode. */
  lemma {:induction false} StepSafe(fs: Fs, s: Step)
    requires Invariant(fs) && Can(fs, s)
    ensures Apply(fs, s).Goes? && Invariant(Apply(fs, s).fs)
  {
    match s
    case CallLoad(t, ino) => QuietInvariant(fs, t, WantLoad(ino));
    case EnterLoad(t) => LoadInvariant(fs, t);
    case FinishLoad(t, ok) => if ok { CreateInvariant(fs, t); } else { QuietInvariant(fs, t, Idle); }
    case EnterReclaim(t) => ReclaimInvariant(fs, t);
    case FailReclaim(t) => QuietInvariant(fs, t, Idle);
    case Unlink(t) => UnlinkInvariant(fs, t);
    case Kill(t) => KillInvariant(fs, t);
    case _ => CountersSafe(fs, s);
  }

  lemma {:induction false} CountersSafe(fs: Fs, s: Step)
    requires Invariant(fs) && Can(fs, s) && (s.RefInc? || s.RefDec? || s.OpenInc? || s.OpenDec?)
    ensures Apply(fs, s).Goes? && Invariant(Apply(fs, s).fs)
  {
    var v := fs.nodes[s.id];
    assert NodeOk(fs, s.id);
    match s
    case RefInc(t, id) => CountInvariant(fs, t, id, v.(ref := v.ref + 1));
    case RefDec(t, id) => DropInvariant(fs, t, id);
    case OpenInc(t, id) => CountInvariant(fs, t, id, v.(opens := v.opens + 1));
    case OpenDec(t, id) => CountInvariant(fs, t, id, v.(opens := v.opens - 1));
  }

  // ------------------------------------------------------------------------- runs

  ghost predicate Run(fs: Fs, es: seq<Step>, g: Fs)
    decreases |es|
  {
    if es == [] then g == fs
    else Can(fs, es[0]) && Apply(fs, es[0]).Goes? && Run(Apply(fs, es[0]).fs, es[1..], g)
  }

  /** A mounted file system without inodes in memory, and any threads. */
  ghost predicate Start(fs: Fs) {
    && fs.nodes == map[] && fs.links == [] && fs.lock == Open && fs.killed == []
    && forall t :: t in fs.threads ==> fs.threads[t].Idle?
  }

  lemma {:induction false} RunInvariant(fs: Fs, es: seq<Step>, g: Fs)
    requires Invariant(fs) && Run(fs, es, g)
    ensures Invariant(g)
    decreases |es|
  {
    if es != [] {
      StepSafe(fs, es[0]);
      RunInvariant(Apply(fs, es[0]).fs, es[1..], g);
    }
  }

  /** In every interleaving: the reclaim count is the number of waiting reclaim calls,
      plus one while there are references; an inode number has one inode at most; and
      what is freed is unused, awaited by no reclaim call, and was not freed before. */
  lemma {:induction false} Protocol(s: Fs, es: seq<Step>, fs: Fs, e: Step)
    requires Start(s) && Run(s, es, fs)
    ensures Can(fs, e) ==> Apply(fs, e).Goes?
    ensures forall id {:trigger fs.nodes[id]} ::
              id in fs.nodes ==> fs.nodes[id].count == |Waiting(fs, id)| + if fs.nodes[id].ref > 0 then 1 else 0
    ensures forall a, b ::
              a in fs.links && b in fs.links ==>
                a in fs.nodes && b in fs.nodes && (fs.nodes[a].ino == fs.nodes[b].ino ==> a == b)
    ensures Can(fs, e) && e.Kill? ==>
              var id := fs.threads[e.t].id;
              && id in fs.nodes && fs.nodes[id].ref == 0 && fs.nodes[id].opens == 0 && |Waiting(fs, id)| == 0
              && id !in fs.links && id !in fs.killed && Apply(fs, e).fs.killed == fs.killed + [id]
    ensures Distinct(fs.killed) && forall id :: id in fs.killed ==> id !in fs.nodes
  {
    assert Invariant(s);
    RunInvariant(s, es, fs);
    forall id | id in fs.nodes
      ensures NodeOk(fs, id)
    {
    }
    if Can(fs, e) {
      StepSafe(fs, e);
      if e.Kill? {
        assert ThreadOk(fs, e.t);
        assert NodeOk(fs, fs.threads[e.t].id);
      }
    }
  }

  // ------------------------------------------------------------- who holds an inode

  function Gain(r: Found): multiset<nat> {
    if r.Hit? then multiset{r.id} else multiset{}
  }

  /** The references handed out and not given back: a lookup that finds an inode, or has
      made one, hands out one, and so does RefInc. */
  function RefsAfter(fs: Fs, s: Step, h: multiset<nat>): multiset<nat> {
    match s
    case EnterLoad(t) =>
      if t !in fs.threads || !fs.threads[t].WantLoad? then h
      else h + Gain(Lookup(fs, fs.links, fs.threads[t].ino))
    case FinishLoad(_, ok) => if ok then h + multiset{fs.next} else h
    case RefInc(_, id) => h + multiset{id}
    case RefDec(_, id) => h - multiset{id}
    case _ => h
  }

  /** The open files of each inode. */
  function OpensAfter(s: Step, o: multiset<nat>): multiset<nat> {
    match s
    case OpenInc(_, id) => o + multiset{id}
    case OpenDec(_, id) => o - multiset{id}
    case _ => o
  }

  ghost function RefsHeld(fs: Fs, es: seq<Step>, h: multiset<nat>): multiset<nat>
    decreases |es|
  {
    if es == [] || !Can(fs, es[0]) || !Apply(fs, es[0]).Goes? then h
    else RefsHeld(Apply(fs, es[0]).fs, es[1..], RefsAfter(fs, es[0], h))
  }

  function OpensHeld(es: seq<Step>, o: multiset<nat>): multiset<nat> {
    if es == [] then o else OpensHeld(es[1..], OpensAfter(es[0], o))
  }

  /** The counters of an inode are the references and open files there are. */
  ghost predicate Tally(fs: Fs, h: multiset<nat>, o: multiset<nat>, id: nat) {
    h[id] == RefOf(fs, id) && o[id] == OpenOf(fs, id)
  }

  ghost predicate Tallied(fs: Fs, h: multiset<nat>, o: multiset<nat>) {
    forall id: nat {:trigger Tally(fs, h, o, id)} :: Tally(fs, h, o, id)
  }

  function RefOf(fs: Fs, id: nat): nat {
    if id in fs.nodes then fs.nodes[id].ref else 0
  }

  function OpenOf(fs: Fs, id: nat): nat {
    if id in fs.nodes then fs.nodes[id].opens else 0
  }

  lemma {:induction false} RefsOne(fs: Fs, s: Step, h: multiset<nat>, id: nat)
    requires Can(fs, s) && Apply(fs, s).Goes? && h[id] == RefOf(fs, id) && fs.next !in fs.nodes
    requires s.Kill? ==> RefOf(fs, fs.threads[s.t].id) == 0
    ensures RefsAfter(fs, s, h)[id] == RefOf(Apply(fs, s).fs, id)
  {
    if s.EnterLoad? {
      LoadRefs(fs, s.t, h, id);
    } else if s.FinishLoad? {
    } else if s.RefInc? || s.RefDec? {
    }
  }

  lemma {:induction false} LoadRefs(fs: Fs, t: nat, h: multiset<nat>, id: nat)
    requires Can(fs, EnterLoad(t)) && Apply(fs, EnterLoad(t)).Goes? && h[id] == RefOf(fs, id)
    ensures RefsAfter(fs, EnterLoad(t), h)[id] == RefOf(Apply(fs, EnterLoad(t)).fs, id)
  {
  }

  lemma {:induction false} OpensOne(fs: Fs, s: Step, o: multiset<nat>, id: nat)
    requires Can(fs, s) && Apply(fs, s).Goes? && o[id] == OpenOf(fs, id) && fs.next !in fs.nodes
    requires s.Kill? ==> OpenOf(fs, fs.threads[s.t].id) == 0
    ensures OpensAfter(s, o)[id] == OpenOf(Apply(fs, s).fs, id)
  {
  }

  lemma {:induction false} StepTally(fs: Fs, s: Step, h: multiset<nat>, o: multiset<nat>)
    requires Invariant(fs) && Can(fs, s) && Tallied(fs, h, o)
    ensures Apply(fs, s).Goes? && Tallied(Apply(fs, s).fs, RefsAfter(fs, s, h), OpensAfter(s, o))
  {
    StepSafe(fs, s);
    assert ThreadOk(fs, s.t);
    assert fs.next in fs.nodes ==> NodeOk(fs, fs.next);
    if s.Kill? {
      assert NodeOk(fs, fs.threads[s.t].id);
    }
    forall id: nat
      ensures Tally(Apply(fs, s).fs, RefsAfter(fs, s, h), OpensAfter(s, o), id)
    {
      assert Tally(fs, h, o, id);
      RefsOne(fs, s, h, id);
      OpensOne(fs, s, o, id);
    }
  }

  lemma {:induction false} HeldOver(s: Fs, es: seq<Step>, fs: Fs, h: multiset<nat>, o: multiset<nat>)
    requires Invariant(s) && Run(s, es, fs) && Tallied(s, h, o)
    ensures Invariant(fs) && Tallied(fs, RefsHeld(s, es, h), OpensHeld(es, o))
    decreases |es|
  {
    if es != [] {
      StepSafe(s, es[0]);
      StepTally(s, es[0], h, o);
      HeldOver(Apply(s, es[0]).fs, es[1..], fs, RefsAfter(s, es[0], h), OpensAfter(es[0], o));
    }
  }

  /** In every interleaving the reference count of an inode in memory is the number of
      references handed out and not given back, its open count that of its open files, and
      an inode that is freed is held by nobody. */
  lemma {:induction false} CountsExact(s: Fs, es: seq<Step>, fs: Fs, e: Step)
    requires Start(s) && Run(s, es, fs)
    ensures var h, o := RefsHeld(s, es, multiset{}), OpensHeld(es, multiset{});
            && (forall id {:trigger fs.nodes[id]} ::
                  id in fs.nodes ==> fs.nodes[id].ref == h[id] && fs.nodes[id].opens == o[id])
            && (forall id: nat {:trigger h[id]} {:trigger o[id]} :: h[id] > 0 || o[id] > 0 ==> id in fs.nodes)
            && (Can(fs, e) && e.Kill? ==> h[fs.threads[e.t].id] == 0 && o[fs.threads[e.t].id] == 0)
  {
    assert Invariant(s);
    assert Tallied(s, multiset{}, multiset{});
    HeldOver(s, es, fs, multiset{}, multiset{});
    var h, o := RefsHeld(s, es, multiset{}), OpensHeld(es, multiset{});
    forall id: nat
      ensures h[id] == RefOf(fs, id) && o[id] == OpenOf(fs, id)
    {
      assert Tally(fs, h, o, id);
    }
    if Can(fs, e) && e.Kill? {
      assert ThreadOk(fs, e.t);
      assert NodeOk(fs, fs.threads[e.t].id);
      assert Tally(fs, h, o, fs.threads[e.t].id);
    }
  }

  /** What a lookup comes to: an inode with that number, with a reference more, or the lock,
      to read it from the disk. */
  lemma {:induction false} LookupGives(fs: Fs, t: nat, id: nat)
    requires Invariant(fs) && Can(fs, EnterLoad(t))
    ensures Apply(fs, EnterLoad(t)).Goes?
    ensures var ino, g := fs.threads[t].ino, Apply(fs, EnterLoad(t)).fs;
            && (id in fs.links && id in fs.nodes && fs.nodes[id].ino == ino ==>
                  && g.threads == fs.threads[t := Idle] && g.links == fs.links && g.lock == fs.lock
                  && g.nodes.Keys == fs.nodes.Keys && g.nodes[id].ref == fs.nodes[id].ref + 1
                  && g.nodes[id].opens == fs.nodes[id].opens && g.nodes[id].ino == ino
                  && (forall n :: n in fs.nodes && n != id ==> g.nodes[n] == fs.nodes[n]))
            && ((forall n :: n in fs.links && n in fs.nodes ==> fs.nodes[n].ino != ino) ==>
                  g == fs.(threads := fs.threads[t := Loading(ino)], lock := Held(t)))
  {
  }

  /** Where a step leaves its thread, and who has the lock then. */
  lemma {:induction false} Advances(fs: Fs, s: Step)
    requires Invariant(fs) && Can(fs, s)
    ensures Apply(fs, s).Goes?
    ensures var g, ph := Apply(fs, s).fs, fs.threads[s.t];
            var id := if s.RefDec? then s.id else if ph.Pending? then ph.id else 0;
            match s
            case CallLoad(t, ino) => g == fs.(threads := fs.threads[t := WantLoad(ino)])
            case FinishLoad(t, ok) =>
              && g.threads == fs.threads[t := Idle] && g.lock == Open
              && g.links == (if ok then [fs.next] else []) + fs.links
              && (ok ==> fs.next !in fs.nodes && fs.next in g.nodes && g.nodes[fs.next].ino == fs.threads[t].ino)
            case RefDec(t, _) => g.threads[t] == (if g.nodes[id].ref == 0 then Pending(id) else Idle)
            case EnterReclaim(t) =>
              if fs.nodes[id].ref == 0 && |Waiting(fs, id)| == 1 then
                g.threads[t] == Reclaiming(id) && g.lock == Held(t)
              else g.threads[t] == Idle && g.lock == Open
            case FailReclaim(t) => g == fs.(threads := fs.threads[t := Idle], lock := Open)
            case Unlink(t) => g.threads[t] == Killing(fs.threads[t].id) && g.lock == Open
            case Kill(t) => g.threads[t] == Idle && g.nodes == fs.nodes - {fs.threads[t].id}
            case _ => true
  {
    StepSafe(fs, s);
    assert ThreadOk(fs, s.t);
    assert fs.next in fs.nodes ==> NodeOk(fs, fs.next);
    if s.EnterReclaim? {
      assert NodeOk(fs, fs.threads[s.t].id);
    }
  }

  // ------------------------------------------------------------- nothing is forgotten

  ghost predicate At(fs: Fs, t: nat, ph: Phase) {
    t in fs.threads && fs.threads[t] == ph
  }

  /** A linked inode is in use or has a reclaim call to come or at work; an unlinked one
      is about to be freed. */
  ghost predicate Tended(fs: Fs, id: nat)
    requires id in fs.nodes
  {
    if id in fs.links then fs.nodes[id].count > 0 || exists t :: At(fs, t, Reclaiming(id))
    else exists t :: At(fs, t, Killing(id))
  }

  ghost predicate AllTended(fs: Fs) {
    forall id {:trigger Tended(fs, id)} :: id in fs.nodes ==> Tended(fs, id)
  }

  lemma {:induction false} StepTends(fs: Fs, s: Step, id: nat)
    requires Invariant(fs) && Can(fs, s) && AllTended(fs) && !s.FailReclaim? && Apply(fs, s).Goes?
    requires id in Apply(fs, s).fs.nodes
    ensures Tended(Apply(fs, s).fs, id)
  {
    var g := Apply(fs, s).fs;
    if id in fs.nodes {
      assert NodeOk(fs, id) && Tended(fs, id) && ThreadOk(fs, s.t);
      if id !in fs.links {
        UnlinkedTends(fs, s, id);
      } else if fs.nodes[id].count <= 0 {
        var t :| At(fs, t, Reclaiming(id));
        assert ThreadOk(fs, t);
        ReclaimedTends(fs, s, id, t);
      } else {
        UsedTends(fs, s, id);
      }
    }
  }

  lemma {:induction false} UnlinkedTends(fs: Fs, s: Step, id: nat)
    requires Can(fs, s) && Apply(fs, s).Goes? && id in fs.nodes && id !in fs.links && Tended(fs, id) && NodeOk(fs, id)
    requires ThreadOk(fs, s.t) && id in Apply(fs, s).fs.nodes
    ensures Tended(Apply(fs, s).fs, id)
  {
    var g := Apply(fs, s).fs;
    var t :| At(fs, t, Killing(id));
    assert At(g, t, Killing(id));
  }

  lemma {:induction false} ReclaimedTends(fs: Fs, s: Step, id: nat, t: nat)
    requires Can(fs, s) && Apply(fs, s).Goes? && id in fs.nodes && id in fs.links && At(fs, t, Reclaiming(id))
    requires ThreadOk(fs, t)
    requires NodeOk(fs, id) && !s.FailReclaim? && ThreadOk(fs, s.t) && id in Apply(fs, s).fs.nodes
    ensures Tended(Apply(fs, s).fs, id)
  {
    var g := Apply(fs, s).fs;
    if s == Unlink(t) {
      assert At(g, t, Killing(id));
    } else {
      assert At(g, t, Reclaiming(id));
    }
  }

  lemma {:induction false} UsedTends(fs: Fs, s: Step, id: nat)
    requires Can(fs, s) && Apply(fs, s).Goes? && id in fs.nodes && id in fs.links && fs.nodes[id].count > 0
    requires NodeOk(fs, id) && ThreadOk(fs, s.t) && id in Apply(fs, s).fs.nodes
    ensures Tended(Apply(fs, s).fs, id)
  {
    var g := Apply(fs, s).fs;
    if s.EnterReclaim? && fs.threads[s.t].id == id {
      var v := fs.nodes[id];
      if v.count == 1 && v.ref == 0 {
        assert At(g, s.t, Reclaiming(id));
      } else if v.count == 1 {
        NobodyWaits(fs, id);
        assert false;
      }
    }
  }

  /** Unless writing an inode back failed, every inode that is no longer used has a
      reclaim call coming. */
  lemma {:induction false} NoneForgotten(fs: Fs, es: seq<Step>, g: Fs)
    requires Invariant(fs) && AllTended(fs) && Run(fs, es, g) && forall i :: 0 <= i < |es| ==> !es[i].FailReclaim?
    ensures AllTended(g)
    decreases |es|
  {
    if es != [] {
      var m := Apply(fs, es[0]).fs;
      StepSafe(fs, es[0]);
      forall id | id in m.nodes
        ensures Tended(m, id)
      {
        StepTends(fs, es[0], id);
      }
      NoneForgotten(m, es[1..], g);
    }
  }

  /** An inode whose write-back failed stays linked, and a later load finds it again. */
  lemma {:induction false} FailedStays(fs: Fs, t: nat, u: nat)
    requires Invariant(fs) && Can(fs, FailReclaim(t)) && u in fs.threads && u != t
    ensures var id, g := fs.threads[t].id, Apply(fs, FailReclaim(t)).fs;
            && id in g.nodes && id in g.links && g.lock == Open && g.nodes[id].ref == 0 && g.nodes[id].count == 0
            && (g.threads[u] == WantLoad(g.nodes[id].ino) ==>
                  var h := Apply(g, EnterLoad(u));
                  h.Goes? && id in h.fs.nodes && h.fs.nodes[id].ref == 1 && h.fs.nodes[id].count == 1)
  {
    var id, g := fs.threads[t].id, Apply(fs, FailReclaim(t)).fs;
    assert ThreadOk(fs, t);
    if g.threads[u] == WantLoad(g.nodes[id].ino) {
      StepSafe(fs, FailReclaim(t));
      assert Lookup(g, g.links, g.nodes[id].ino) == Hit(id);
    }
  }
}
