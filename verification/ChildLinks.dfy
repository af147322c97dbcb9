/** The children of each process, threaded through cptr (youngest child), optr (next
    older sibling) and yptr (next younger sibling), as values: a memory maps each process
    to its links, a family map gives each process its children, youngest first. */
module ChildLinks {
  import opened Basics
  import Kernel

  /** A process: its number, what the scheduler knows of it, and its family links. */
  class Process {
    const pid: nat
    var state: Kernel.State
    var wait: Kernel.Wait
    var exiting: bool
    var at: Kernel.Place
    var parent: Process?
    var cptr: Process?
    var optr: Process?
    var yptr: Process?

    /** alloc_proc, with the parent set as do_fork does and awake as it leaves do_fork. */
    constructor (pid: nat, parent: Process?)
      ensures this.pid == pid && state == Kernel.Runnable && wait == Kernel.NoWait && !exiting && at == Kernel.Out
      ensures this.parent == parent && cptr == null && optr == null && yptr == null
    {
      this.pid := pid;
      state, wait, exiting, at := Kernel.Runnable, Kernel.NoWait, false, Kernel.Out;
      this.parent := parent;
      cptr, optr, yptr := null, null, null;
    }
  }

  datatype Link = Link(parent: Process?, cptr: Process?, optr: Process?, yptr: Process?)
  type Mem = map<Process, Link>
  type Kids = map<Process, seq<Process>>

  function At(s: seq<Process>, i: int): (r: Process?)
  {
    if 0 <= i < |s| then s[i] else null
  }

  /** Parent and older sibling of the i-th child of `p`. */
  ghost predicate Ahead(m: Mem, p: Process, s: seq<Process>, i: int)
  {
    0 <= i < |s| && s[i] in m && m[s[i]].parent == p && m[s[i]].optr == At(s, i + 1)
  }

  /** Younger sibling of the i-th child. */
  ghost predicate Back(m: Mem, s: seq<Process>, i: int)
  {
    0 <= i < |s| && s[i] in m && m[s[i]].yptr == At(s, i - 1)
  }

  ghost predicate Forward(m: Mem, p: Process, s: seq<Process>)
  {
    && Distinct(s) && p in m && m[p].cptr == At(s, 0)
    && forall i {:trigger Ahead(m, p, s, i)} :: 0 <= i < |s| ==> Ahead(m, p, s, i)
  }

  ghost predicate Backward(m: Mem, s: seq<Process>)
  {
    forall i {:trigger Back(m, s, i)} :: 0 <= i < |s| ==> Back(m, s, i)
  }

  /** Every process but idle is a child of its parent. */
  ghost predicate Child(m: Mem, kids: Kids, idle: Process, p: Process)
  {
    p in m && (p != idle ==> m[p].parent != null && m[p].parent in kids && p in kids[m[p].parent])
  }

  ghost predicate Members(kids: Kids, idle: Process, p: Process)
    requires p in kids
  {
    forall c :: c in kids[p] ==> c in kids && c != idle && c != p
  }

  /** The links are the doubly linked child lists of `kids`. While `x` hands over its
      children, the yptr fields of those left are stale. */
  ghost predicate Wired(m: Mem, kids: Kids, idle: Process, x: Process?)
  {
    && m.Keys == kids.Keys && idle in kids
    && (forall p {:trigger Members(kids, idle, p)} :: p in kids ==> Members(kids, idle, p))
    && (forall p {:trigger Forward(m, p, kids[p])} :: p in kids ==> Forward(m, p, kids[p]))
    && (forall p {:trigger Backward(m, kids[p])} :: p in kids && p != x ==> Backward(m, kids[p]))
    && (forall p {:trigger Child(m, kids, idle, p)} :: p in kids ==> Child(m, kids, idle, p))
  }

  /** A list none of whose links changed. */
  lemma {:induction false} Same(m: Mem, n: Mem, p: Process, s: seq<Process>)
    requires Forward(m, p, s) && p in n && n[p].cptr == m[p].cptr
    requires forall c :: c in s ==> c in m && c in n && n[c].parent == m[c].parent && n[c].optr == m[c].optr
    ensures Forward(n, p, s)
    ensures Backward(m, s) && (forall c :: c in s ==> n[c].yptr == m[c].yptr) ==> Backward(n, s)
  {
    forall i | 0 <= i < |s|
      ensures Ahead(n, p, s, i)
    {
      assert Ahead(m, p, s, i);
      assert s[i] in s;
    }
    if Backward(m, s) && forall c :: c in s ==> n[c].yptr == m[c].yptr {
      forall i | 0 <= i < |s|
        ensures Back(n, s, i)
      {
        assert Back(m, s, i);
        assert s[i] in s;
      }
    }
  }

  // -------------------------------------------------------------------- set_links

  function SetYounger(m: Mem, c: Process?, y: Process?): (n: Mem)
    requires c != null ==> c in m
    ensures n.Keys == m.Keys
  {
    if c == null then m else m[c := m[c].(yptr := y)]
  }

  function SetOlder(m: Mem, c: Process?, o: Process?): (n: Mem)
    requires c != null ==> c in m
    ensures n.Keys == m.Keys
  {
    if c == null then m else m[c := m[c].(optr := o)]
  }

  /** `proc` put before the children of `p`. */
  function Prepend(m: Mem, p: Process, proc: Process): (n: Mem)
    requires p in m && proc in m && p != proc && (m[p].cptr != null ==> m[p].cptr in m)
    ensures n.Keys == m.Keys
  {
    var m1 := m[proc := m[proc].(yptr := null, optr := m[p].cptr, parent := p)];
    var m2 := SetYounger(m1, m[p].cptr, proc);
    m2[p := m2[p].(cptr := proc)]
  }

  lemma {:induction false} PrependChain(m: Mem, p: Process, s: seq<Process>, proc: Process)
    requires Forward(m, p, s) && Backward(m, s) && proc in m && proc !in s && p != proc && p !in s
    ensures m[p].cptr != null ==> m[p].cptr in m
    ensures Forward(Prepend(m, p, proc), p, [proc] + s) && Backward(Prepend(m, p, proc), [proc] + s)
  {
    if s != [] {
      assert Ahead(m, p, s, 0);
    }
    var n, t := Prepend(m, p, proc), [proc] + s;
    forall i | 0 <= i < |t|
      ensures Ahead(n, p, t, i) && Back(n, t, i)
    {
      if i > 0 {
        assert Ahead(m, p, s, i - 1) && Back(m, s, i - 1);
        assert t[i] == s[i - 1] && s[i - 1] in s;
        assert i > 1 ==> s[i - 1] != s[0];
      }
    }
  }

  /** Lists of other parents do not feel it. */
  lemma {:induction false} PrependOther(m: Mem, p: Process, proc: Process, q: Process, s: seq<Process>)
    requires p in m && proc in m && p != proc && q != p && Forward(m, q, s) && proc !in s
    requires m[p].cptr != null ==> m[p].cptr in m && m[m[p].cptr].parent == p
    ensures Forward(Prepend(m, p, proc), q, s)
    ensures Backward(m, s) ==> Backward(Prepend(m, p, proc), s)
  {
    var n := Prepend(m, p, proc);
    forall c | c in s
      ensures c in n && n[c].parent == m[c].parent && n[c].optr == m[c].optr && n[c].yptr == m[c].yptr
    {
      var i :| 0 <= i < |s| && s[i] == c;
      assert Ahead(m, q, s, i);
    }
    Same(m, n, q, s);
  }

  /** A new process, not linked yet, disturbs nobody. */
  lemma {:induction false} NewcomerKeeps(m: Mem, kids: Kids, idle: Process, p: Process, proc: Process, q: Process)
    requires Wired(m, kids, idle, null) && p in kids && proc !in kids && q in kids
    ensures var m0 := m[proc := Link(p, null, null, null)];
            proc !in kids[q] && Forward(m0, q, kids[q]) && Backward(m0, kids[q])
  {
    var m0 := m[proc := Link(p, null, null, null)];
    assert Members(kids, idle, q) && Forward(m, q, kids[q]) && Backward(m, kids[q]);
    Same(m, m0, q, kids[q]);
  }

  function Adopted(kids: Kids, p: Process, proc: Process): Kids
    requires p in kids
  {
    kids[p := [proc] + kids[p]][proc := []]
  }

  lemma {:induction false} AddWired(m: Mem, kids: Kids, idle: Process, p: Process, proc: Process)
    requires Wired(m, kids, idle, null) && p in kids && proc !in kids
    ensures var m0 := m[proc := Link(p, null, null, null)];
            && (m0[p].cptr != null ==> m0[p].cptr in m0)
            && Wired(Prepend(m0, p, proc), Adopted(kids, p, proc), idle, null)
  {
    var m0 := m[proc := Link(p, null, null, null)];
    var after := Adopted(kids, p, proc);
    assert Members(kids, idle, p);
    NewcomerKeeps(m, kids, idle, p, proc, p);
    PrependChain(m0, p, kids[p], proc);
    var n := Prepend(m0, p, proc);
    assert m0[p].cptr != null ==> Ahead(m0, p, kids[p], 0);
    forall q | q in after
      ensures Forward(n, q, after[q]) && Backward(n, after[q]) && Members(after, idle, q) && Child(n, after, idle, q)
    {
      if q == proc {
        assert n[proc].cptr == null;
      } else {
        assert Members(kids, idle, q) && Child(m, kids, idle, q);
        if q != p {
          NewcomerKeeps(m, kids, idle, p, proc, q);
          PrependOther(m0, p, proc, q, kids[q]);
        }
      }
    }
  }

  // ------------------------------------------------------------- children to init

  /** The first child of `p` moves to the front of init's children. */
  function HandOne(m: Mem, p: Process, init: Process): (n: Mem)
    requires p in m && m[p].cptr != null && m[p].cptr in m && init in m && init != m[p].cptr && init != p
    requires m[init].cptr != null ==> m[init].cptr in m
    ensures n.Keys == m.Keys
  {
    var c: Process := m[p].cptr;
    Prepend(m[p := m[p].(cptr := m[c].optr)], init, c)
  }

  function HandedOne(kids: Kids, p: Process, init: Process): (r: Kids)
    requires p in kids && init in kids && kids[p] != []
    ensures r.Keys == kids.Keys
  {
    kids[p := kids[p][1..]][init := [kids[p][0]] + kids[init]]
  }

  lemma {:induction false} Beheaded(m: Mem, p: Process, s: seq<Process>)
    requires Forward(m, p, s) && s != [] && p !in s
    ensures s[0] in m && s[0] !in s[1..] && Forward(m[p := m[p].(cptr := m[s[0]].optr)], p, s[1..])
  {
    assert Ahead(m, p, s, 0);
    var n := m[p := m[p].(cptr := m[s[0]].optr)];
    forall i | 0 <= i < |s[1..]|
      ensures Ahead(n, p, s[1..], i)
    {
      assert Ahead(m, p, s, i + 1);
      assert s[i + 1] in s;
    }
  }

  ghost predicate Handing(m: Mem, kids: Kids, idle: Process, init: Process, p: Process)
  {
    Wired(m, kids, idle, p) && p in kids && init in kids && p != init && init !in kids[p]
  }

  lemma {:induction false} HandReady(m: Mem, kids: Kids, idle: Process, init: Process, p: Process)
    requires Handing(m, kids, idle, init, p) && kids[p] != []
    ensures m[p].cptr == kids[p][0] && kids[p][0] in m && kids[p][0] != init && kids[p][0] != p
    ensures m[kids[p][0]].parent == p
    ensures m[init].cptr != null ==> m[init].cptr in m && m[m[init].cptr].parent == init
  {
    assert Forward(m, p, kids[p]) && Members(kids, idle, p);
    assert kids[p][0] in kids[p];
    assert Ahead(m, p, kids[p], 0);
    assert Forward(m, init, kids[init]);
    assert kids[init] != [] ==> Ahead(m, init, kids[init], 0);
  }

  /** The list of any process other than `p` before the child arrives at init. */
  lemma {:induction false} HandKeeps(m: Mem, kids: Kids, idle: Process, init: Process, p: Process, q: Process)
    requires Handing(m, kids, idle, init, p) && kids[p] != [] && q in kids && q != p && kids[p][0] in m
    ensures var m1 := m[p := m[p].(cptr := m[kids[p][0]].optr)];
            Forward(m1, q, kids[q]) && Backward(m1, kids[q]) && kids[p][0] !in kids[q]
  {
    var m1 := m[p := m[p].(cptr := m[kids[p][0]].optr)];
    HandReady(m, kids, idle, init, p);
    assert Forward(m, q, kids[q]) && Backward(m, kids[q]) && Members(kids, idle, q);
    Same(m, m1, q, kids[q]);
    forall i | 0 <= i < |kids[q]|
      ensures kids[q][i] != kids[p][0]
    {
      assert Ahead(m, q, kids[q], i);
    }
  }

  /** The lists after the child arrived. */
  lemma {:induction false} HandList(m: Mem, kids: Kids, idle: Process, init: Process, p: Process, q: Process)
    requires Handing(m, kids, idle, init, p) && kids[p] != [] && q in kids
    requires m[p].cptr == kids[p][0] && kids[p][0] in m && kids[p][0] != init && kids[p][0] != p
    requires m[init].cptr != null ==> m[init].cptr in m && m[m[init].cptr].parent == init
    ensures var n, s := HandOne(m, p, init), HandedOne(kids, p, init)[q];
            Forward(n, q, s) && (q != p ==> Backward(n, s))
  {
    var c := kids[p][0];
    var m1 := m[p := m[p].(cptr := m[c].optr)];
    if q == p {
      assert Forward(m, p, kids[p]) && Members(kids, idle, p);
      Beheaded(m, p, kids[p]);
      PrependOther(m1, init, c, p, kids[p][1..]);
    } else {
      HandKeeps(m, kids, idle, init, p, q);
      if q == init {
        assert Members(kids, idle, init);
        PrependChain(m1, init, kids[init], c);
      } else {
        PrependOther(m1, init, c, q, kids[q]);
      }
    }
  }

  lemma {:induction false} HandTree(m: Mem, kids: Kids, idle: Process, init: Process, p: Process, q: Process)
    requires Handing(m, kids, idle, init, p) && kids[p] != [] && q in kids
    requires m[p].cptr == kids[p][0] && kids[p][0] in m && kids[p][0] != init && kids[p][0] != p
    requires m[init].cptr != null ==> m[init].cptr in m
    ensures Members(HandedOne(kids, p, init), idle, q) && Child(HandOne(m, p, init), HandedOne(kids, p, init), idle, q)
  {
    var c, n, after := kids[p][0], HandOne(m, p, init), HandedOne(kids, p, init);
    assert Members(kids, idle, q) && Child(m, kids, idle, q) && Members(kids, idle, p);
    assert kids[p] == [c] + kids[p][1..];
    assert c in kids[p];
    if q != c {
      assert n[q].parent == m[q].parent;
    }
  }

  lemma {:induction false} HandWired(m: Mem, kids: Kids, idle: Process, init: Process, p: Process)
    requires Handing(m, kids, idle, init, p) && kids[p] != []
    ensures m[p].cptr == kids[p][0] && kids[p][0] in m && kids[p][0] != init
    ensures m[init].cptr != null ==> m[init].cptr in m
    ensures Handing(HandOne(m, p, init), HandedOne(kids, p, init), idle, init, p)
  {
    HandReady(m, kids, idle, init, p);
    var n, after := HandOne(m, p, init), HandedOne(kids, p, init);
    forall q | q in after
      ensures Forward(n, q, after[q]) && (q != p ==> Backward(n, after[q])) && Members(after, idle, q)
      ensures Child(n, after, idle, q)
    {
      HandList(m, kids, idle, init, p, q);
      HandTree(m, kids, idle, init, p, q);
    }
  }

  /** What the whole loop makes of the families: the children of `p` go to init, the
      eldest first. */
  function HandedAll(kids: Kids, p: Process, init: Process): (r: Kids)
    requires p in kids && init in kids
    ensures r.Keys == kids.Keys
  {
    kids[p := []][init := Reversed(kids[p]) + kids[init]]
  }

  lemma {:induction false} HandedStep(kids: Kids, p: Process, init: Process)
    requires p in kids && init in kids && p != init && kids[p] != []
    ensures HandedAll(HandedOne(kids, p, init), p, init) == HandedAll(kids, p, init)
  {
    var s := kids[p];
    assert Reversed(s[1..]) + ([s[0]] + kids[init]) == Reversed(s) + kids[init];
  }

  lemma {:induction false} HandedDone(m: Mem, kids: Kids, idle: Process, init: Process, p: Process)
    requires Handing(m, kids, idle, init, p) && kids[p] == []
    ensures HandedAll(kids, p, init) == kids && Wired(m, kids, idle, null)
  {
    assert Reversed(kids[p]) + kids[init] == kids[init];
    assert Backward(m, kids[p]);
  }

  // ----------------------------------------------------------------- remove_links

  function Cut(s: seq<Process>, i: nat): (r: seq<Process>)
    requires i < |s|
  {
    s[..i] + s[i + 1..]
  }

  function Drop(m: Mem, proc: Process, p: Process): (n: Mem)
    requires proc in m && p in m && (m[proc].optr != null ==> m[proc].optr in m)
    requires (m[proc].yptr != null ==> m[proc].yptr in m)
    ensures n.Keys == m.Keys
  {
    var m1 := SetYounger(m, m[proc].optr, m[proc].yptr);
    if m1[proc].yptr != null then SetOlder(m1, m1[proc].yptr, m1[proc].optr)
    else m1[p := m1[p].(cptr := m1[proc].optr)]
  }

  lemma {:induction false} DropReady(m: Mem, p: Process, s: seq<Process>, k: nat)
    requires Forward(m, p, s) && Backward(m, s) && k < |s|
    ensures s[k] in m && m[s[k]].optr == At(s, k + 1) && m[s[k]].yptr == At(s, k - 1)
    ensures k + 1 < |s| ==> s[k + 1] in m
    ensures k >= 1 ==> s[k - 1] in m
  {
    assert Ahead(m, p, s, k) && Back(m, s, k);
    assert k + 1 < |s| ==> Ahead(m, p, s, k + 1);
    assert k >= 1 ==> Ahead(m, p, s, k - 1);
  }

  lemma {:induction false} CutAt(s: seq<Process>, k: nat, i: int)
    requires k < |s|
    ensures At(Cut(s, k), i) == if i < k then At(s, i) else At(s, i + 1)
  {
  }

  lemma {:induction false} DropChain(m: Mem, p: Process, s: seq<Process>, k: nat)
    requires Forward(m, p, s) && Backward(m, s) && k < |s| && p !in s
    ensures s[k] in m && m[s[k]].optr == At(s, k + 1) && m[s[k]].yptr == At(s, k - 1)
    ensures m[s[k]].optr != null ==> m[s[k]].optr in m
    ensures m[s[k]].yptr != null ==> m[s[k]].yptr in m
    ensures var n := Drop(m, s[k], p); Forward(n, p, Cut(s, k)) && Backward(n, Cut(s, k))
  {
    DropReady(m, p, s, k);
    var n, t := Drop(m, s[k], p), Cut(s, k);
    forall i | 0 <= i < |t|
      ensures Ahead(n, p, t, i) && Back(n, t, i)
    {
      var j := if i < k then i else i + 1;
      assert Ahead(m, p, s, j) && Back(m, s, j);
      CutAt(s, k, i);
      CutAt(s, k, i - 1);
      CutAt(s, k, i + 1);
      assert s[j] in s;
    }
    CutAt(s, k, 0);
  }

  lemma {:induction false} DropOther(m: Mem, p: Process, s: seq<Process>, k: nat, q: Process, u: seq<Process>)
    requires Forward(m, p, s) && Backward(m, s) && k < |s| && q != p && Forward(m, q, u) && Backward(m, u)
    requires s[k] in m && (m[s[k]].optr != null ==> m[s[k]].optr in m) && (m[s[k]].yptr != null ==> m[s[k]].yptr in m)
    ensures Forward(Drop(m, s[k], p), q, u) && Backward(Drop(m, s[k], p), u)
  {
    DropReady(m, p, s, k);
    var n := Drop(m, s[k], p);
    assert k + 1 < |s| ==> Ahead(m, p, s, k + 1);
    assert k >= 1 ==> Ahead(m, p, s, k - 1);
    forall c | c in u
      ensures c in n && n[c].parent == m[c].parent && n[c].optr == m[c].optr && n[c].yptr == m[c].yptr
    {
      var i :| 0 <= i < |u| && u[i] == c;
      assert Ahead(m, q, u, i);
    }
    Same(m, n, q, u);
  }

  function Dropped(kids: Kids, p: Process, k: nat): Kids
    requires p in kids && k < |kids[p]|
  {
    kids[p := Cut(kids[p], k)] - {kids[p][k]}
  }

  lemma {:induction false} DropList(m: Mem, kids: Kids, idle: Process, p: Process, k: nat, q: Process)
    requires Wired(m, kids, idle, null) && p in kids && k < |kids[p]| && kids[p][k] in kids && kids[kids[p][k]] == []
    requires q in kids && q != kids[p][k] && p !in kids[p]
    requires var proc := kids[p][k];
             (m[proc].optr != null ==> m[proc].optr in m) && (m[proc].yptr != null ==> m[proc].yptr in m)
    ensures var n := Drop(m, kids[p][k], p) - {kids[p][k]};
            Forward(n, q, Dropped(kids, p, k)[q]) && Backward(n, Dropped(kids, p, k)[q])
  {
    var s, proc := kids[p], kids[p][k];
    var n, after := Drop(m, proc, p), Dropped(kids, p, k);
    assert Forward(m, p, s) && Backward(m, s);
    assert Forward(m, q, kids[q]) && Backward(m, kids[q]);
    if q == p {
      DropChain(m, p, s, k);
    } else {
      DropOther(m, p, s, k, q, kids[q]);
    }
    forall c | c in after[q]
      ensures c != proc && c in n
    {
      var i :| 0 <= i < |after[q]| && after[q][i] == c;
      assert Ahead(m, p, s, k) && Ahead(n, q, after[q], i);
      if q != p {
        assert Ahead(m, q, kids[q], i);
      }
    }
    Same(n, n - {proc}, q, after[q]);
  }

  lemma {:induction false} DropTree(m: Mem, kids: Kids, idle: Process, p: Process, k: nat, q: Process)
    requires Wired(m, kids, idle, null) && p in kids && k < |kids[p]| && kids[p][k] in kids && kids[kids[p][k]] == []
    requires q in kids && q != kids[p][k]
    requires var proc := kids[p][k];
             (m[proc].optr != null ==> m[proc].optr in m) && (m[proc].yptr != null ==> m[proc].yptr in m)
    ensures var n := Drop(m, kids[p][k], p) - {kids[p][k]};
            Members(Dropped(kids, p, k), idle, q) && Child(n, Dropped(kids, p, k), idle, q)
  {
    var s, proc := kids[p], kids[p][k];
    var n, after := Drop(m, proc, p) - {proc}, Dropped(kids, p, k);
    assert Members(kids, idle, q) && Child(m, kids, idle, q);
    assert Forward(m, q, kids[q]) && Forward(m, p, s);
    assert Ahead(m, p, s, k);
    assert n[q].parent == m[q].parent;
    forall c | c in after[q]
      ensures c in kids[q] && c != proc
    {
      var i :| 0 <= i < |after[q]| && after[q][i] == c;
      assert q != p ==> Ahead(m, q, kids[q], i);
    }
    if q != idle && m[q].parent == p {
      var i :| 0 <= i < |s| && s[i] == q;
      assert q == after[p][if i < k then i else i - 1];
    }
  }

  lemma {:induction false} DropWired(m: Mem, kids: Kids, idle: Process, p: Process, k: nat)
    requires Wired(m, kids, idle, null) && p in kids && k < |kids[p]| && kids[p][k] in kids && kids[kids[p][k]] == []
    ensures var proc := kids[p][k];
            && m[proc].parent == p
            && (m[proc].optr != null ==> m[proc].optr in m) && (m[proc].yptr != null ==> m[proc].yptr in m)
            && Wired(Drop(m, proc, p) - {proc}, Dropped(kids, p, k), idle, null)
  {
    var s, proc := kids[p], kids[p][k];
    assert Forward(m, p, s) && Backward(m, s) && Members(kids, idle, p);
    assert Ahead(m, p, s, k);
    DropReady(m, p, s, k);
    var n, after := Drop(m, proc, p) - {proc}, Dropped(kids, p, k);
    assert proc in s;
    forall q | q in after
      ensures Forward(n, q, after[q]) && Backward(n, after[q]) && Members(after, idle, q) && Child(n, after, idle, q)
    {
      DropList(m, kids, idle, p, k, q);
      DropTree(m, kids, idle, p, k, q);
    }
  }
}
