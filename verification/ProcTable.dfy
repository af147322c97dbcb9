/** The process table in memory: the list of all processes and their family links,
    changed by set_links, remove_links and the child loop of do_exit. */
module ProcTable {
  import opened Basics
  import opened ChildLinks
  import Kernel

  ghost function Listed(s: seq<Process>): set<Process>
  {
    set p | p in s
  }

  lemma {:induction false} RemoveOne(s: seq<Process>, c: Process)
    requires Distinct(s) && c in s
    ensures Distinct(Remove(s, c)) && Listed(Remove(s, c)) == Listed(s) - {c} && |Remove(s, c)| == |s| - 1
  {
    DistinctRemove(s, c);
  }

  lemma {:induction false} Registers(s: seq<Process>, c: Process)
    requires Distinct(s) && c !in Listed(s)
    ensures Distinct([c] + s) && Listed([c] + s) == {c} + Listed(s)
  {
    assert c !in s;
  }

  lemma {:induction false} CutIsRemove(s: seq<Process>, k: nat)
    requires Distinct(s) && k < |s|
    ensures Cut(s, k) == Remove(s, s[k])
  {
    if k > 0 {
      var t := s[1..];
      CutIsRemove(t, k - 1);
      assert t[k - 1] == s[k];
      CutTail(s, k);
    } else {
      DistinctRemove(s, s[0]);
    }
  }

  lemma {:induction false} CutTail(s: seq<Process>, k: nat)
    requires 0 < k < |s|
    ensures Cut(s, k) == [s[0]] + Cut(s[1..], k - 1)
  {
    var t := s[1..];
    assert t[..k - 1] == s[1..k] && t[k..] == s[k + 1..];
    assert s[..k] == [s[0]] + s[1..k];
  }

  // ------------------------------------------------------ the links in memory

  /** The links of the processes of `m` are those `m` tells. */
  ghost predicate Is(m: Mem)
    reads m.Keys`parent, m.Keys`cptr, m.Keys`optr, m.Keys`yptr
  {
    forall p {:trigger m[p]} :: p in m ==> m[p] == Link(p.parent, p.cptr, p.optr, p.yptr)
  }

  /** The sibling links of a process that comes before the children of `p`. */
  method Precede(proc: Process, p: Process, ghost m: Mem)
    requires Is(m) && proc in m && p in m && p != proc && (m[p].cptr != null ==> m[p].cptr in m)
    modifies m.Keys`parent, m.Keys`cptr, m.Keys`optr, m.Keys`yptr
    ensures Is(SetYounger(m[proc := m[proc].(yptr := null, optr := m[p].cptr)], m[p].cptr, proc))
  {
    proc.yptr := null;
    proc.optr := p.cptr;
    ghost var n := m[proc := m[proc].(yptr := null, optr := m[p].cptr)];
    assert Is(n);
    if proc.optr != null {
      proc.optr.yptr := proc;
    }
    assert Is(SetYounger(n, n[proc].optr, proc));
  }

  /** The pointer part of set_links. */
  method Attach(proc: Process, ghost m: Mem)
    requires Is(m) && proc in m && m[proc].parent != null && m[proc].parent in m && m[proc].parent != proc
    requires m[m[proc].parent].cptr != null ==> m[m[proc].parent].cptr in m
    modifies m.Keys`parent, m.Keys`cptr, m.Keys`optr, m.Keys`yptr
    ensures Is(Prepend(m, m[proc].parent, proc))
  {
    var parent: Process := proc.parent;
    Precede(proc, parent, m);
    parent.cptr := proc;
    ghost var n := SetYounger(m[proc := m[proc].(yptr := null, optr := m[parent].cptr)], m[parent].cptr, proc);
    assert Prepend(m, parent, proc) == n[parent := n[parent].(cptr := proc)];
  }

  /** The pointer part of remove_links. */
  method Detach(proc: Process, ghost m: Mem)
    requires Is(m) && proc in m && m[proc].parent != null && m[proc].parent in m
    requires (m[proc].optr != null ==> m[proc].optr in m) && (m[proc].yptr != null ==> m[proc].yptr in m)
    modifies m.Keys`parent, m.Keys`cptr, m.Keys`optr, m.Keys`yptr
    ensures Is(Drop(m, proc, m[proc].parent))
  {
    if proc.optr != null {
      proc.optr.yptr := proc.yptr;
    }
    ghost var n := SetYounger(m, m[proc].optr, m[proc].yptr);
    assert Is(n);
    if proc.yptr != null {
      proc.yptr.optr := proc.optr;
      assert Is(SetOlder(n, n[proc].yptr, n[proc].optr));
    } else {
      proc.parent.cptr := proc.optr;
      assert Is(n[m[proc].parent := n[m[proc].parent].(cptr := n[proc].optr)]);
    }
  }

  /** `proc` becomes the youngest child of init. */
  method Adopt(proc: Process, init: Process, ghost m: Mem)
    requires Is(m) && proc in m && init in m && init != proc
    requires m[init].cptr != null ==> m[init].cptr in m
    modifies m.Keys`parent, m.Keys`cptr, m.Keys`optr, m.Keys`yptr
    ensures Is(Prepend(m, init, proc))
  {
    ghost var n := SetYounger(m[proc := m[proc].(yptr := null, optr := m[init].cptr)], m[init].cptr, proc);
    Precede(proc, init, m);
    proc.parent := init;
    n := n[proc := n[proc].(parent := init)];
    assert Is(n);
    init.cptr := proc;
    n := n[init := n[init].(cptr := proc)];
    assert Is(n);
    PrependOrder(m, init, proc);
  }

  /** Setting the parent before or after the sibling links makes no difference. */
  lemma {:induction false} PrependOrder(m: Mem, p: Process, proc: Process)
    requires p in m && proc in m && p != proc && (m[p].cptr != null ==> m[p].cptr in m)
    ensures var n := SetYounger(m[proc := m[proc].(yptr := null, optr := m[p].cptr)], m[p].cptr, proc);
            var l := n[proc := n[proc].(parent := p)];
            Prepend(m, p, proc) == l[p := l[p].(cptr := proc)]
  {
  }

  lemma {:induction false} BootWired(m: Mem, idle: Process, init: Process)
    requires m.Keys == {idle, init} && idle != init
    requires m[idle].cptr == init && m[init] == Link(idle, null, null, null)
    ensures Wired(m, map[idle := [init], init := []], idle, null)
  {
    var kids: Kids := map[idle := [init], init := []];
    assert Ahead(m, idle, [init], 0) && Back(m, [init], 0);
    assert Forward(m, idle, kids[idle]) && Forward(m, init, kids[init]);
    assert Child(m, kids, idle, init) && Child(m, kids, idle, idle);
  }

  /** One round of the child loop of do_exit. */
  method Pass(p: Process, init: Process, ghost m: Mem)
    requires Is(m) && p in m && m[p].cptr != null && m[p].cptr in m && init in m && init != m[p].cptr && init != p
    requires m[p].cptr != p
    requires m[init].cptr != null ==> m[init].cptr in m
    modifies m.Keys`parent, m.Keys`cptr, m.Keys`optr, m.Keys`yptr
    ensures Is(HandOne(m, p, init))
  {
    var proc: Process := p.cptr;
    p.cptr := proc.optr;
    ghost var n := m[p := m[p].(cptr := m[proc].optr)];
    assert Is(n);
    Adopt(proc, init, n);
  }

  class Table {
    const idle: Process
    const init: Process
    var list: seq<Process>
    var nrProcess: nat
    ghost var kids: Kids
    ghost var links: Mem

    /** All but the family links: idle is counted, but not listed. */
    ghost predicate Registered()
      reads this
    {
      && idle in kids && init in kids && idle != init
      && Distinct(list) && Listed(list) == kids.Keys - {idle}
      && nrProcess == |list| + 1
    }

    ghost predicate Valid()
      reads this, links.Keys`parent, links.Keys`cptr, links.Keys`optr, links.Keys`yptr
    {
      Registered() && Is(links) && Wired(links, kids, idle, null)
    }

    /** proc_init: init is the one child of idle. */
    constructor (idle: Process, init: Process)
      requires idle != init && idle.cptr == null && init.cptr == null
      modifies idle`parent, idle`cptr, idle`optr, idle`yptr, init`parent, init`cptr, init`optr, init`yptr
      ensures Valid() && this.idle == idle && this.init == init
      ensures kids == map[idle := [init], init := []] && list == [init] && nrProcess == 2
    {
      this.idle, this.init := idle, init;
      list, nrProcess := [init], 2;
      kids := map[idle := [init], init := []];
      new;
      init.parent, init.optr, init.yptr := idle, null, null;
      idle.cptr := init;
      links := map[idle := Link(idle.parent, idle.cptr, idle.optr, idle.yptr),
          init := Link(init.parent, init.cptr, init.optr, init.yptr)];
      BootWired(links, idle, init);
    }

    method Enter(proc: Process)
      requires Is(links) && Wired(links, kids, idle, null)
      requires proc !in kids && proc.parent != null && proc.parent in kids && proc.cptr == null
      modifies this`links, this`kids, kids.Keys`parent, kids.Keys`cptr, kids.Keys`optr, kids.Keys`yptr, proc`parent
      modifies proc`cptr, proc`optr, proc`yptr
      ensures kids == Adopted(old(kids), old(proc.parent), proc) && links.Keys == kids.Keys
      ensures Is(links) && Wired(links, kids, idle, null) && proc.parent == old(proc.parent)
    {
      ghost var p: Process := proc.parent;
      ghost var m0 := links[proc := Link(p, null, proc.optr, proc.yptr)];
      AddWired(links, kids, idle, p, proc);
      ghost var after := Prepend(m0, p, proc);
      assert after == Prepend(links[proc := Link(p, null, null, null)], p, proc);
      assert after[proc].parent == p;
      Attach(proc, m0);
      links, kids := after, Adopted(kids, p, proc);
    }

    /** set_links: the new process becomes the youngest child of its parent. */
    method SetLinks(proc: Process)
      requires Valid() && proc !in kids && proc.parent != null && proc.parent in kids && proc.cptr == null
      modifies this, kids.Keys`parent, kids.Keys`cptr, kids.Keys`optr, kids.Keys`yptr, proc`parent, proc`cptr
      modifies proc`optr, proc`yptr
      ensures Valid() && nrProcess == old(nrProcess) + 1
      ensures list == [proc] + old(list) && proc.parent == old(proc.parent)
      ensures kids == Adopted(old(kids), old(proc.parent), proc)
    {
      Registers(list, proc);
      list := [proc] + list;
      Enter(proc);
      nrProcess := nrProcess + 1;
    }

    method Leave(proc: Process, ghost p: Process, ghost k: nat)
      requires Is(links) && Wired(links, kids, idle, null)
      requires proc in kids && kids[proc] == [] && proc.parent == p && p in kids && k < |kids[p]| && kids[p][k] == proc
      modifies this`links, this`kids, kids.Keys`parent, kids.Keys`cptr, kids.Keys`optr, kids.Keys`yptr
      ensures kids == Dropped(old(kids), p, k) && links.Keys == kids.Keys
      ensures Is(links) && Wired(links, kids, idle, null)
    {
      DropWired(links, kids, idle, p, k);
      ghost var after := Drop(links, proc, p);
      Detach(proc, links);
      links, kids := after - {proc}, Dropped(kids, p, k);
      assert Is(links);
    }

    /** remove_links: the process leaves its siblings and the table. */
    method RemoveLinks(proc: Process)
      requires Valid() && proc in kids && proc != idle && proc != init && kids[proc] == []
      modifies this, kids.Keys`parent, kids.Keys`cptr, kids.Keys`optr, kids.Keys`yptr
      ensures Valid() && nrProcess == old(nrProcess) - 1
      ensures list == Remove(old(list), proc)
      ensures old(proc.parent) != null && old(proc.parent) in old(kids)
      ensures kids == old(kids)[old(proc.parent) := Remove(old(kids)[old(proc.parent)], proc)] - {proc}
    {
      assert Child(links, kids, idle, proc);
      ghost var p: Process := proc.parent;
      ghost var k :| 0 <= k < |kids[p]| && kids[p][k] == proc;
      assert Forward(links, p, kids[p]);
      CutIsRemove(kids[p], k);
      assert proc in Listed(list);
      RemoveOne(list, proc);
      list := Remove(list, proc);
      Leave(proc, p, k);
      nrProcess := nrProcess - 1;
    }

    /** While `p` hands its children over. */
    ghost predicate Emptying(p: Process)
      reads this, links.Keys`parent, links.Keys`cptr, links.Keys`optr, links.Keys`yptr
    {
      Registered() && Is(links) && Handing(links, kids, idle, init, p)
    }

    lemma Parents(p: Process)
      requires Valid() && p in kids && p != idle
      ensures p.parent != null && p.parent in kids && p in kids[p.parent]
    {
      assert Child(links, kids, idle, p);
    }

    lemma Siblings(p: Process)
      requires Valid() && p in kids
      ensures forall c :: c in kids[p] ==> c in kids && c != idle && c != p && c.parent == p
    {
      assert Members(kids, idle, p) && Forward(links, p, kids[p]);
      forall c | c in kids[p]
        ensures c in kids && c != idle && c != p && c.parent == p
      {
        var i :| 0 <= i < |kids[p]| && kids[p][i] == c;
        assert Ahead(links, p, kids[p], i);
      }
    }

    /** The table when only idle and its child init are left. */
    lemma OnlyInit()
      requires Valid() && kids == map[idle := [init], init := []]
      ensures list == [init] && nrProcess == 2 && init.cptr == null && init.optr == null && init.yptr == null
    {
      assert Listed(list) == {init};
      assert init in list;
      forall p | p in list
        ensures p == init
      {
        assert p in Listed(list);
      }
      OneMember(list, init);
      assert Forward(links, init, kids[init]) && Forward(links, idle, kids[idle]) && Backward(links, kids[idle]);
      assert Ahead(links, idle, kids[idle], 0) && Back(links, kids[idle], 0);
    }

    lemma Begins(p: Process)
      requires Valid() && p in kids && p != init && init !in kids[p]
      ensures Emptying(p)
    {
      assert Backward(links, kids[p]);
    }

    /** The pointer tells whether there is a child left, and which is the next. */
    lemma FirstChild(p: Process)
      requires Emptying(p)
      ensures p in kids && init in kids && p.cptr == At(kids[p], 0)
      ensures kids[p] != [] ==> kids[p][0] in kids && kids[p][0] != p && kids[p][0] != init
    {
      assert Forward(links, p, kids[p]) && Members(kids, idle, p);
    }

    lemma Ends(p: Process)
      requires Emptying(p) && p in kids && kids[p] == []
      ensures Valid() && init in kids && HandedAll(kids, p, init) == kids
    {
      HandedDone(links, kids, idle, init, p);
    }

    /** One round of the child loop of do_exit: the yptr fields of the children left are
        stale. */
    method HandFirst(p: Process)
      requires Emptying(p) && kids[p] != []
      modifies this`kids, this`links, kids.Keys`parent, kids.Keys`cptr, kids.Keys`optr, kids.Keys`yptr
      ensures Emptying(p) && kids == HandedOne(old(kids), p, init)
    {
      HandReady(links, kids, idle, init, p);
      HandWired(links, kids, idle, init, p);
      ghost var after := HandOne(links, p, init);
      Pass(p, init, links);
      links, kids := after, HandedOne(kids, p, init);
    }

    /** The child scan of do_wait: the youngest dead child, if there is one. */
    method FirstDead(p: Process) returns (haskid: bool, found: Process?)
      requires Valid() && p in kids
      ensures haskid <==> kids[p] != []
      ensures found == null <==> forall c :: c in kids[p] ==> c.state != Kernel.Zombie
      ensures found != null ==>
                exists i ::
                  && 0 <= i < |kids[p]|
                  && kids[p][i] == found
                  && found.state == Kernel.Zombie
                  && forall j :: 0 <= j < i ==> kids[p][j].state != Kernel.Zombie
    {
      ghost var s := kids[p];
      assert Forward(links, p, s);
      found, haskid := p.cptr, false;
      ghost var i := 0;
      while found != null
        invariant 0 <= i <= |s| && found == At(s, i)
        invariant haskid <==> i > 0
        invariant forall j :: 0 <= j < i ==> s[j].state != Kernel.Zombie
        decreases |s| - i
      {
        assert Ahead(links, p, s, i);
        haskid := true;
        if found.state == Kernel.Zombie {
          return;
        }
        found := found.optr;
        i := i + 1;
      }
    }
  }
}
