/** The red-black tree itself: heap nodes rewritten in place. A ghost copy of the
    memory is carried along as a value, so that each branch is an appeal to one
    lemma about values, and every operation says what becomes of the nodes in order. */
module RbTree {
  import opened Basics
  import opened RbShape
  import opened RbBalance
  import opened RbLink
  import RbInsert
  import RbDelete

  /** `m` is the current memory of the nodes in `dom`. */
  ghost predicate Is(dom: set<Node>, m: Mem)
    reads dom
  {
    m.Keys == dom && forall n {:trigger m[n]} :: n in dom ==> m[n] == Cell(n.red, n.parent, n.left, n.right)
  }

  ghost predicate Sorted(order: seq<Node>)
  {
    forall i, j :: 0 <= i < j < |order| ==> order[i].key <= order[j].key
  }

  /** Elements before position `a` have keys up to `key`, those from `b` on greater ones. */
  ghost predicate Splits(order: seq<Node>, a: int, b: int, key: int)
  {
    && 0 <= a <= b <= |order|
    && (forall i :: 0 <= i < a ==> order[i].key <= key)
    && (forall i :: b <= i < |order| ==> order[i].key > key)
  }

  function KidOf(n: Node, d: Dir): Node
    reads n
  {
    if d.Left? then n.left else n.right
  }

  method LinkKid(n: Node, d: Dir, k: Node, ghost dom: set<Node>, ghost m: Mem) returns (ghost r: Mem)
    requires Is(dom, m) && n in dom
    modifies n
    ensures r == SetKid(m, n, d, k) && Is(dom, r)
  {
    if d.Left? {
      n.left := k;
    } else {
      n.right := k;
    }
    r := SetKid(m, n, d, k);
  }

  method LinkParent(n: Node, p: Node, ghost dom: set<Node>, ghost m: Mem) returns (ghost r: Mem)
    requires Is(dom, m) && n in dom
    modifies n
    ensures r == SetParent(m, n, p) && Is(dom, r)
  {
    n.parent := p;
    r := SetParent(m, n, p);
  }

  method Paint(n: Node, red: bool, ghost dom: set<Node>, ghost m: Mem) returns (ghost r: Mem)
    requires Is(dom, m) && n in dom
    modifies n
    ensures r == SetRed(m, n, red) && Is(dom, r)
  {
    n.red := red;
    r := SetRed(m, n, red);
  }

  method CopyFields(n: Node, from: Node, ghost dom: set<Node>, ghost m: Mem) returns (ghost r: Mem)
    requires Is(dom, m) && n in dom && from in dom
    modifies n
    ensures r == m[n := m[from]] && Is(dom, r)
  {
    n.red, n.parent, n.left, n.right := from.red, from.parent, from.left, from.right;
    r := m[n := m[from]];
  }

  lemma WithoutNode(dom: set<Node>, m: Mem, n: Node)
    requires Is(dom, m)
    ensures Is(dom - {n}, m - {n})
  {
  }

  /** The assignments of a rotation, in program order, add up to its net effect. */
  lemma RotationSteps(m: Mem, nil: Node, d: Dir, x: Node, y: Node, b: Node, p: Node)
    requires x in m && y in m && b in m && p in m
    requires y == Kid(m, x, d.Flip()) && b == Kid(m, y, d) && p == m[x].parent && Apart(m, x, y, b, p)
    ensures var m1 := SetKid(m, x, d.Flip(), b);
            var m2 := if b != nil then SetParent(m1, b, x) else m1;
            var m3 := SetParent(m2, y, p);
            var m4 := if x == Kid(m3, p, d) then SetKid(m3, p, d, y) else SetKid(m3, p, d.Flip(), y);
            Rotated(m, SetParent(SetKid(m4, y, d, x), x, y), nil, d, x)
  {
  }

  /** The assignments that hang a leaf, in program order, add up to `Attach`. */
  lemma LeafSteps(m: Mem, nil: Node, z: Node, p: Node, d: Dir)
    requires z in m && p in m && p != z
    ensures SetRed(SetKid(SetParent(SetKid(SetKid(m, z, Left, nil), z, Right, nil), z, p), p, d, z), z, true)
         == Attach(m - {z}, nil, p, d, z)
  {
  }

  class Tree {
    const nil: Node
    const root: Node
    ghost var mem: Mem
    ghost var g: Layout

    ghost function Dom(): set<Node>
      reads this
    {
      g.at.Keys + {nil, root}
    }

    /** The tree is a red-black tree, and its nodes in order are sorted by key. */
    ghost predicate Valid()
      reads this, Dom()
    {
      Is(Dom(), mem) && RedBlack(mem, nil, root, g) && Sorted(g.order)
    }

    constructor ()
      ensures Valid() && fresh(Dom()) && g.order == []
    {
      var s := new Node(0);
      var h := new Node(0);
      h.parent, h.left, h.right := s, s, s;
      nil, root := s, h;
      g := Layout([], map[]);
      mem := map[s := Cell(false, s, s, s), h := Cell(false, s, s, s)];
    }

    /** Rotates `x` towards `d`: the child on the other side takes its place. */
    method Rotate(d: Dir, x: Node, ghost dom: set<Node>, ghost m: Mem, ghost h: Layout) returns (ghost r: Mem)
      requires Is(dom, m) && CanRotate(m, nil, root, h, d, x)
      modifies dom
      ensures Is(dom, r) && Kid(m, x, d.Flip()) in m && m[x].parent in m && Rotated(m, r, nil, d, x)
    {
      RotationNodes(m, nil, root, h, d, x);
      var y := KidOf(x, d.Flip());
      var b := KidOf(y, d);
      var p := x.parent;
      RotationSteps(m, nil, d, x, y, b, p);
      r := Loosen(d, x, y, b, p, dom, m);
      if x == KidOf(p, d) {
        r := LinkKid(p, d, y, dom, r);
      } else {
        r := LinkKid(p, d.Flip(), y, dom, r);
      }
      r := LinkKid(y, d, x, dom, r);
      r := LinkParent(x, y, dom, r);
    }

    /** The first half of a rotation: `b` changes from `y` to `x`, and `y` looks up to `p`. */
    method Loosen(d: Dir, x: Node, y: Node, b: Node, p: Node, ghost dom: set<Node>, ghost m: Mem) returns (ghost r: Mem)
      requires Is(dom, m) && x in m && y in m && b in m
      modifies dom
      ensures Is(dom, r)
      ensures var m1 := SetKid(m, x, d.Flip(), b); r == SetParent(if b != nil then SetParent(m1, b, x) else m1, y, p)
    {
      r := LinkKid(x, d.Flip(), b, dom, m);
      if b != nil {
        r := LinkParent(b, x, dom, r);
      }
      r := LinkParent(y, p, dom, r);
    }

    // -------------------------------------------------------------- insertion

    /** The descent of a binary insertion: the node below which an element with key
        `key` belongs, right of every element whose key is not greater. */
    method Descend(key: int) returns (y: Node, ghost d: Dir, ghost k: int)
      requires Is(Dom(), mem) && Linked(mem, nil, root, g) && Sorted(g.order)
      ensures y in mem && Vacant(mem, nil, root, g, y, d, k)
      ensures d == if y == root || y.key > key then Left else Right
      ensures Splits(g.order, k, k, key)
    {
      y := root;
      var x := y.left;
      ghost var a, b := 0, |g.order|;
      d := Left;
      while x != nil
        invariant y in mem && Probing(mem, nil, root, g, y, d, a, b) && x == Kid(mem, y, d)
        invariant d == if y == root || y.key > key then Left else Right
        invariant Splits(g.order, a, b, key)
        decreases b - a
      {
        ProbeHere(mem, nil, root, g, y, d, a, b);
        ghost var e := if x.key > key then Left else Right;
        ProbeStep(mem, nil, root, g, y, d, a, b, e);
        SplitBeside(g, x, a, b, key);
        y, d, a, b := x, e, From(g, x, e), To(g, x, e);
        x := if x.key > key then x.left else x.right;
      }
      ProbeHere(mem, nil, root, g, y, d, a, b);
      ProbeVacant(mem, nil, root, g, y, d, a);
      k := a;
    }

    /** Hangs `z`, painted red, as a leaf where the descent ends. */
    method InsertBinary(z: Node, ghost dom: set<Node>, ghost m: Mem)
      returns (ghost y: Node, ghost d: Dir, ghost k: int, ghost r: Mem)
      requires Is(Dom(), mem) && Linked(mem, nil, root, g) && Sorted(g.order)
      requires z !in Dom() && dom == Dom() + {z} && Is(dom, m) && m - {z} == mem
      modifies dom
      ensures y in mem && Vacant(mem, nil, root, g, y, d, k)
      ensures Is(dom, r) && r == Attach(mem, nil, y, d, z)
      ensures Splits(g.order, k, k, z.key)
    {
      var p;
      p, d, k := Descend(z.key);
      y := p;
      r := HangLeaf(z, p, if p == root || p.key > z.key then Left else Right, dom, m);
    }

    /** Inserts `z` after every element whose key is not greater than its own. */
    method Insert(z: Node) returns (ghost k: int)
      requires Valid() && z !in Dom()
      modifies this, Dom(), z
      ensures Valid() && g.at.Keys == old(g.at.Keys) + {z} && Dom() == old(Dom()) + {z}
      ensures Splits(old(g.order), k, k, z.key)
      ensures g.order == old(g.order)[..k] + [z] + old(g.order)[k..]
    {
      ghost var dom := Dom() + {z};
      ghost var h, m := g, Admit(z, dom);
      OwnNodes();
      assert g.at.Keys + {z} == dom - {nil, root};
      k, h, m := InsertLeaf(z, dom, m);
      h, m := InsertFixup(z, dom, m, h);
      Adopt(dom, h, m);
    }

    /** The memory of the tree's nodes and of `z`. */
    ghost function Admit(z: Node, dom: set<Node>): (m: Mem)
      requires z !in Dom() && dom == Dom() + {z} && Is(Dom(), mem)
      reads this, Dom(), z
      ensures Is(dom, m) && m - {z} == mem
    {
      mem[z := Cell(z.red, z.parent, z.left, z.right)]
    }

    /** The sentinel and the header are no elements. */
    lemma OwnNodes()
      requires Valid()
      ensures nil !in g.at && root !in g.at
    {
    }

    ghost method Adopt(dom: set<Node>, h: Layout, m: Mem)
      requires Is(dom, m) && RedBlack(m, nil, root, h) && Sorted(h.order)
      modifies this
      ensures g == h && mem == m && Valid() && Dom() == dom && g.at.Keys == dom - {nil, root}
    {
      g, mem := h, m;
    }

    /** The first half of an insertion: a red leaf in the right place. */
    method InsertLeaf(z: Node, ghost dom: set<Node>, ghost m0: Mem)
      returns (ghost k: int, ghost h: Layout, ghost m: Mem)
      requires Valid() && z !in Dom() && dom == Dom() + {z} && Is(dom, m0) && m0 - {z} == mem
      modifies dom
      ensures Is(dom, m) && RbInsert.Inserting(m, nil, root, h, z)
      ensures Splits(g.order, k, k, z.key) && h.order == g.order[..k] + [z] + g.order[k..] && Sorted(h.order)
    {
      ghost var y, d;
      y, d, k, m := InsertBinary(z, dom, m0);
      AttachRepairing(mem, nil, root, g, y, d, k, z);
      SortedAttach(g, k, z);
      h := AttachLayout(g, k, z);
    }

    /** Restores the red-black rules above the red leaf `z`; the order stays. */
    method InsertFixup(z: Node, ghost dom: set<Node>, ghost m0: Mem, ghost h0: Layout)
      returns (ghost h: Layout, ghost m: Mem)
      requires Is(dom, m0) && RbInsert.Inserting(m0, nil, root, h0, z)
      modifies dom
      ensures h.order == h0.order && h.at.Keys == h0.at.Keys
      ensures Is(dom, m) && RedBlack(m, nil, root, h)
    {
      h, m := h0, m0;
      var x := z;
      RbInsert.ParentIn(m, nil, root, h, x);
      while x.parent.red
        invariant Is(dom, m) && RbInsert.Inserting(m, nil, root, h, x) && m[x].parent in m
        invariant h.order == h0.order && h.at.Keys == h0.at.Keys
        decreases if m[m[x].parent].red then 1 + |h.order| - (h.at[x].hi - h.at[x].lo) else 0
      {
        RbInsert.Grandparent(m, nil, root, h, x);
        assert SpotOk(h, x);
        var p := x.parent;
        var q := p.parent;
        if p == q.left {
          x, m, h := InsertSub(Left, x, p, q, dom, m, h);
        } else {
          x, m, h := InsertSub(Right, x, p, q, dom, m, h);
        }
        assert SpotOk(h, x);
      }
      RbInsert.BlackenRoot(m, nil, root, h, x);
      var t := root.left;
      h := BlackenLayout(m, h, t);
      m := Paint(t, false, dom, m);
    }

    method HangLeaf(z: Node, p: Node, d: Dir, ghost dom: set<Node>, ghost m: Mem) returns (ghost r: Mem)
      requires Is(dom, m) && z in m && p in m && p != z
      modifies dom
      ensures Is(dom, r) && r == Attach(m - {z}, nil, p, d, z)
    {
      LeafSteps(m, nil, z, p, d);
      r := LinkKid(z, Left, nil, dom, m);
      r := LinkKid(z, Right, nil, dom, r);
      r := LinkParent(z, p, dom, r);
      r := LinkKid(p, d, z, dom, r);
      r := Paint(z, true, dom, r);
    }

    /** One round of the repair after an insertion, for a parent `p` on side `d` of
        the grandparent `q`. */
    method InsertSub(d: Dir, x0: Node, p: Node, q: Node, ghost dom: set<Node>, ghost m: Mem, ghost h0: Layout)
      returns (x: Node, ghost r: Mem, ghost h: Layout)
      requires Is(dom, m) && RbInsert.Inserting(m, nil, root, h0, x0)
      requires p == m[x0].parent && p in m && m[p].red && q == m[p].parent && q in m && Kid(m, q, d) == p
      modifies dom
      ensures h.order == h0.order && h.at.Keys == h0.at.Keys
      ensures Is(dom, r) && RbInsert.Inserting(r, nil, root, h, x)
      ensures r[x].parent in r
      ensures !r[r[x].parent].red || h.at[x].hi - h.at[x].lo > h0.at[x0].hi - h0.at[x0].lo
    {
      var y := KidOf(q, d.Flip());
      RbInsert.UncleHere(m, nil, root, h0, d, x0, p, q);
      if y.red {
        x := q;
        r, h := InsertRecolor(x0, p, y, q, dom, m, h0);
      } else {
        x, r, h := InsertTurn(d, x0, p, q, dom, m, h0);
      }
    }

    /** The recolouring of that round, when the uncle `y` is red. */
    method InsertRecolor(x: Node, p: Node, y: Node, q: Node, ghost dom: set<Node>, ghost m: Mem, ghost h0: Layout)
      returns (ghost r: Mem, ghost h: Layout)
      requires Is(dom, m) && RbInsert.Inserting(m, nil, root, h0, x) && p == m[x].parent && p in m && m[p].red
      requires q == m[p].parent && q in m && y == RbInsert.Uncle(m, x) && y in m && m[y].red
      modifies dom
      ensures h.order == h0.order && h.at.Keys == h0.at.Keys
      ensures Is(dom, r) && RbInsert.Inserting(r, nil, root, h, q) && r[q].parent in r
      ensures h.at[q].hi - h.at[q].lo > h0.at[x].hi - h0.at[x].lo
    {
      RbInsert.RecolorStep(m, nil, root, h0, x, p, y, q);
      r := Paint(p, false, dom, m);
      r := Paint(y, false, dom, r);
      r := Paint(q, true, dom, r);
      h := RbInsert.RecolorLayout(h0, p, y);
    }

    /** The rotations of that round, when the uncle is black. */
    method InsertTurn(d: Dir, x0: Node, p: Node, q: Node, ghost dom: set<Node>, ghost m: Mem, ghost h0: Layout)
      returns (x: Node, ghost r: Mem, ghost h: Layout)
      requires Is(dom, m) && RbInsert.Inserting(m, nil, root, h0, x0)
      requires p == m[x0].parent && p in m && m[p].red && q == m[p].parent && q in m && Kid(m, q, d) == p
      requires Kid(m, q, d.Flip()) in m && !m[Kid(m, q, d.Flip())].red
      modifies dom
      ensures h.order == h0.order && h.at.Keys == h0.at.Keys
      ensures Is(dom, r) && RbInsert.Inserting(r, nil, root, h, x)
      ensures r[x].parent in r && !r[r[x].parent].red
    {
      if x0 == KidOf(p, d.Flip()) {
        RbInsert.InnerCan(m, nil, root, h0, d, x0);
        r := Rotate(d, p, dom, m, h0);
        RbInsert.InnerStep(m, r, nil, root, h0, d, x0);
        RbInsert.InnerGivesOuter(m, r, nil, root, h0, d, x0, p, q);
        h := Rebalance(h0, d, p, x0, h0.at[p].bh, h0.at[x0].bh);
        x := p;
        r, h := InsertOuter(d, p, x0, q, dom, r, h);
      } else {
        RbInsert.OuterHere(m, nil, root, h0, d, x0, p, q);
        x := x0;
        r, h := InsertOuter(d, x0, p, q, dom, m, h0);
      }
    }

    method InsertOuter(d: Dir, x: Node, p: Node, q: Node, ghost dom: set<Node>, ghost m: Mem, ghost h0: Layout)
      returns (ghost r: Mem, ghost h: Layout)
      requires Is(dom, m) && RbInsert.Inserting(m, nil, root, h0, x) && RbInsert.Outer(m, h0, d, x, p, q)
      modifies dom
      ensures h.order == h0.order && h.at.Keys == h0.at.Keys
      ensures Is(dom, r) && RbInsert.Inserting(r, nil, root, h, x)
      ensures r[x].parent in r && !r[r[x].parent].red
    {
      RbInsert.OuterCan(m, nil, root, h0, d, x, p, q);
      r := Paint(p, false, dom, m);
      r := Paint(q, true, dom, r);
      r := Rotate(d.Flip(), q, dom, r, h0);
      RbInsert.OuterStep(m, r, nil, root, h0, d, x, p, q);
      h := Rebalance(h0, d.Flip(), q, p, h0.at[p].bh, h0.at[q].bh);
    }

    // ----------------------------------------------------------------- search

    /** Finds an element that `cmp` maps to 0, if there is one: the one highest in the
        tree, whose subtree holds all the others. It looks at no more than
        2 * log2(n + 1) nodes. */
    method Search(cmp: Node -> int) returns (r: Node?, ghost steps: nat)
      requires Valid() && Monotone(cmp, g.order)
      ensures r == null <==> forall i :: 0 <= i < |g.order| ==> cmp(g.order[i]) != 0
      ensures r != null ==> r in g.at && cmp(r) == 0
      ensures r != null ==> forall i :: 0 <= i < |g.order| && cmp(g.order[i]) == 0 ==> g.at[r].lo <= i < g.at[r].hi
      ensures Pow2(steps) <= (|g.order| + 1) * (|g.order| + 1)
    {
      var node := root.left;
      ghost var y, d, a, b := root, Left, 0, |g.order|;
      steps := 0;
      ghost var top := 2 * Height(g, node);
      SearchRoot(mem, nil, root, g);
      while node != nil && cmp(node) != 0
        invariant y in mem && Probing(mem, nil, root, g, y, d, a, b) && node == Kid(mem, y, d)
        invariant Within(cmp, g.order, a, b)
        invariant steps + Reach(mem, g, node) <= top
        decreases b - a
      {
        ghost var e := if cmp(node) > 0 then Left else Right;
        SearchDown(cmp, mem, nil, root, g, y, d, a, b);
        steps := steps + 1;
        y, d, a, b := node, e, From(g, node, e), To(g, node, e);
        node := if cmp(node) > 0 then node.left else node.right;
      }
      ProbeHere(mem, nil, root, g, y, d, a, b);
      ReachNatural(mem, nil, root, g, node);
      StepsBound(mem, nil, root, g, steps);
      if node != nil {
        assert SpotOk(g, node);
        assert cmp(g.order[g.at[node].pos]) == 0;
      }
      r := if node != nil then node else null;
    }

    /** The next node in order, or the sentinel after the last one. */
    method Successor(node: Node) returns (s: Node)
      requires Is(Dom(), mem) && Linked(mem, nil, root, g) && node in g.at
      ensures SpotOk(g, node)
      ensures s == if g.at[node].pos + 1 < |g.order| then g.order[g.at[node].pos + 1] else nil
      ensures node.right != nil ==> s in g.at && s.left == nil && s != node.left
    {
      assert NodeOk(mem, nil, root, g, node);
      var x, y := node, node.right;
      if y != nil {
        while y.left != nil
          invariant y in g.at && g.at[y].lo == g.at[node].pos + 1
          decreases g.at[y].hi - g.at[y].lo
        {
          assert NodeOk(mem, nil, root, g, y);
          y := y.left;
        }
        assert NodeOk(mem, nil, root, g, y);
        return y;
      }
      y := x.parent;
      while x == y.right
        invariant x in g.at && y == mem[x].parent && y in mem && g.at[x].hi == g.at[node].pos + 1
        decreases |g.order| - (g.at[x].hi - g.at[x].lo)
      {
        assert NodeOk(mem, nil, root, g, x);
        assert NodeOk(mem, nil, root, g, y);
        x, y := y, y.parent;
      }
      assert NodeOk(mem, nil, root, g, x);
      if y == root {
        return nil;
      }
      assert NodeOk(mem, nil, root, g, y);
      return y;
    }

    /** The node before in order, or the sentinel before the first one. */
    method Predecessor(node: Node) returns (s: Node)
      requires Is(Dom(), mem) && Linked(mem, nil, root, g) && node in g.at
      ensures SpotOk(g, node)
      ensures s == if g.at[node].pos > 0 then g.order[g.at[node].pos - 1] else nil
    {
      assert NodeOk(mem, nil, root, g, node);
      var x, y := node, node.left;
      if y != nil {
        while y.right != nil
          invariant y in g.at && g.at[y].hi == g.at[node].pos
          decreases g.at[y].hi - g.at[y].lo
        {
          assert NodeOk(mem, nil, root, g, y);
          y := y.right;
        }
        assert NodeOk(mem, nil, root, g, y);
        return y;
      }
      y := x.parent;
      while x == y.left
        invariant x in g.at && y == mem[x].parent && y in mem && g.at[x].lo == g.at[node].pos
        decreases |g.order| - (g.at[x].hi - g.at[x].lo)
      {
        assert NodeOk(mem, nil, root, g, x);
        if y == root {
          return nil;
        }
        assert NodeOk(mem, nil, root, g, y);
        x, y := y, y.parent;
      }
      assert NodeOk(mem, nil, root, g, x);
      if y in g.at {
        assert NodeOk(mem, nil, root, g, y);
      }
      return y;
    }

    // --------------------------------------------------------------- deletion

    /** Takes `node` out of the tree; the other nodes keep their order. */
    method Delete(node: Node)
      requires Valid() && node in g.at
      modifies this, Dom()
      ensures Valid() && g.at.Keys == old(g.at.Keys) - {node} && Dom() == old(Dom()) - {node}
      ensures old(SpotOk(g, node)) && g.order == old(g.order[..g.at[node].pos] + g.order[g.at[node].pos + 1..])
    {
      var z := node;
      ghost var h, m, dom;
      assert SpotOk(g, z);
      SortedDetach(g, z);
      OwnNodes();
      assert g.at.Keys - {z} == Dom() - {z} - {nil, root};
      if z.left == nil || z.right == nil {
        h, m, dom := DeleteSpare(z);
      } else {
        h, m, dom := DeleteInner(z);
      }
      Adopt(dom, h, m);
    }

    /** `z` has at most one child, which moves up. */
    method DeleteSpare(z: Node) returns (ghost h: Layout, ghost m: Mem, ghost dom: set<Node>)
      requires Valid() && z in g.at && (z.left == nil || z.right == nil)
      modifies Dom()
      ensures SpotOk(g, z) && dom == Dom() - {z}
      ensures Is(dom, m) && RedBlack(m, nil, root, h) && h.order == DetachLayout(g, z).order
    {
      assert SpotOk(g, z);
      dom := Dom() - {z};
      h := DetachLayout(g, z);
      if z.red {
        RbDelete.DetachRed(mem, nil, root, g, z);
        var x;
        x, m := Remove(z);
      } else {
        RbDelete.DetachBlack(mem, nil, root, g, z);
        ghost var hole := LeftBy(mem, z);
        var x;
        x, m := Remove(z);
        m, h := DeleteFixup(x, dom, m, h, hole);
      }
    }

    method Remove(z: Node) returns (x: Node, ghost r: Mem)
      requires Is(Dom(), mem) && Spare(mem, nil, root, g, z)
      modifies Dom()
      ensures Detaching(mem, nil, root, g, z) && x == OnlyKid(mem, nil, z)
      ensures Is(Dom() - {z}, r) && r == Detach(mem, nil, z)
    {
      x, r := Unlink(z, Dom(), mem, g);
      WithoutNode(Dom(), r, z);
      r := r - {z};
    }

    /** `z` has two children: its successor is taken out and put in its place. */
    method DeleteInner(z: Node) returns (ghost h: Layout, ghost m: Mem, ghost dom: set<Node>)
      requires Valid() && z in g.at && z.left != nil && z.right != nil
      modifies Dom()
      ensures SpotOk(g, z) && dom == Dom() - {z}
      ensures Is(dom, m) && RedBlack(m, nil, root, h) && h.order == DetachLayout(g, z).order
    {
      var y := Successor(z);
      dom := Dom() - {z};
      assert SpotOk(g, z) && SpotOk(g, y);
      RbDelete.SuccessorOrder(g, z, y);
      var fix := !y.red;
      var x;
      x, m := Unlink(y, Dom(), mem, g);
      h := DetachLayout(g, y);
      if fix {
        RbDelete.DetachBlack(mem, nil, root, g, y);
        RbDelete.DetachKeepsKids(mem, nil, root, g, z, y);
        m, h := PlaceAndFix(z, y, x, Dom(), m, h, LeftBy(mem, y));
      } else {
        RbDelete.DetachRed(mem, nil, root, g, y);
        ReplaceRepairing(m - {y}, nil, root, h, z, y, nil, NoHole);
        m := TakePlace(z, y, Dom(), m, h);
        h := ReplaceLayout(h, z, y);
      }
    }

    method PlaceAndFix(z: Node, y: Node, x: Node, ghost dom: set<Node>, ghost m0: Mem, ghost h0: Layout,
        ghost hole: Hole)
      returns (ghost m: Mem, ghost h: Layout)
      requires Is(dom, m0) && y in m0 && z != y && x != z && z in h0.at && z in m0
      requires RbDelete.Deleting(m0 - {y}, nil, root, h0, x, hole)
      requires m0[z].left != nil && (m0[z].right == nil ==> hole.p == z)
      requires 0 <= h0.at[z].pos < |h0.order|
      modifies dom
      ensures Is(dom - {z}, m) && RedBlack(m, nil, root, h) && h.order == ReplaceLayout(h0, z, y).order
    {
      RbDelete.ReplaceDeleting(m0 - {y}, nil, root, h0, z, y, x, hole);
      m := TakePlace(z, y, dom, m0, h0);
      m, h := DeleteFixup(x, dom - {z}, m, ReplaceLayout(h0, z, y), ReplaceHole(hole, z, y));
    }

    /** Puts the only child of `y`, or the sentinel, in its place. */
    method Unlink(y: Node, ghost dom: set<Node>, ghost m: Mem, ghost h: Layout) returns (x: Node, ghost r: Mem)
      requires Is(dom, m) && Spare(m, nil, root, h, y)
      modifies dom
      ensures Detaching(m, nil, root, h, y) && x == OnlyKid(m, nil, y)
      ensures Is(dom, r) && r - {y} == Detach(m, nil, y)
    {
      DetachingNodes(m, nil, root, h, y);
      UnlinkSteps(m, nil, root, h, y);
      x := if y.left != nil then y.left else y.right;
      var p := y.parent;
      r := LinkParent(x, p, dom, m);
      if y == p.left {
        r := LinkKid(p, Left, x, dom, r);
      } else {
        r := LinkKid(p, Right, x, dom, r);
      }
    }

    /** Makes `y`, which is out of the tree, take over the fields of `z`. */
    method TakePlace(z: Node, y: Node, ghost dom: set<Node>, ghost m: Mem, ghost h: Layout) returns (ghost r: Mem)
      requires Is(dom, m) && y in m && z != y && Replacing(m - {y}, nil, root, h, z, y)
      modifies dom
      ensures Is(dom - {z}, r) && r == Replace(m - {y}, z, y)
    {
      PlaceSteps(m, nil, root, h, z, y);
      var p, a, b := z.parent, z.left, z.right;
      if z == p.left {
        r := LinkKid(p, Left, y, dom, m);
      } else {
        r := LinkKid(p, Right, y, dom, m);
      }
      r := LinkParent(b, y, dom, r);
      r := LinkParent(a, y, dom, r);
      r := CopyFields(y, z, dom, r);
      WithoutNode(dom, r, z);
      r := r - {z};
    }

    /** Moves the missing black node up until it can be made up for. `top` is the root
        at the start; once rotations change the root it only serves to leave the loop. */
    method DeleteFixup(node: Node, ghost dom: set<Node>, ghost m0: Mem, ghost h0: Layout, ghost hole0: Hole)
      returns (ghost m: Mem, ghost h: Layout)
      requires Is(dom, m0) && RbDelete.Deleting(m0, nil, root, h0, node, hole0)
      modifies dom
      ensures Is(dom, m) && RedBlack(m, nil, root, h) && h.order == h0.order
    {
      m, h := m0, h0;
      ghost var hole, done := hole0, false;
      var x, top := node, root.left;
      while x != top && !x.red
        invariant Is(dom, m) && x in m && h.order == h0.order
        invariant done ==> RbDelete.Finishing(m, nil, root, h, x) && (x == top || m[x].red)
        invariant !done ==> RbDelete.Deleting(m, nil, root, h, x, hole) && m[root].left == top
        decreases if done then 0 else 1 + |h.order| - RbDelete.Size(h, x)
      {
        RbDelete.HoleSide(m, nil, root, h, x, hole);
        RbDelete.SizeBounds(m, nil, root, h, x);
        var p := x.parent;
        if x == p.left {
          x, m, h, hole, done := FixupSub(Left, x, p, top, dom, m, h);
        } else {
          x, m, h, hole, done := FixupSub(Right, x, p, top, dom, m, h);
        }
        if !done {
          RbDelete.SizeBounds(m, nil, root, h, x);
        }
      }
      if !done {
        RbDelete.Blacken(m, nil, root, h, x, hole);
        h := BlackenLayout(m, h, x);
      }
      m := Paint(x, false, dom, m);
    }

    /** One round of that loop, for `x` on side `d` of `p`. */
    method FixupSub(d: Dir, x0: Node, p: Node, top: Node, ghost dom: set<Node>, ghost m0: Mem, ghost h0: Layout)
      returns (x: Node, ghost m: Mem, ghost h: Layout, ghost hole: Hole, ghost done: bool)
      requires Is(dom, m0) && RbDelete.Deleting(m0, nil, root, h0, x0, Hole(p, d)) && p != root
      requires m0[root].left == top && !m0[x0].red
      modifies dom
      ensures Is(dom, m) && x in m && h.order == h0.order
      ensures done ==> RbDelete.Finishing(m, nil, root, h, x) && (x == top || m[x].red)
      ensures !done ==> RbDelete.Deleting(m, nil, root, h, x, hole) && m[root].left == top
      ensures !done ==> RbDelete.Size(h, x) > RbDelete.Size(h0, x0)
    {
      m, h := m0, h0;
      RbDelete.Sibling(m, nil, root, h, x0, Hole(p, d));
      var w := KidOf(p, d.Flip());
      if w.red {
        m, h := FixupRed(d, x0, p, w, top, dom, m, h);
        w := KidOf(p, d.Flip());
      }
      x, m, h, hole, done := FixupBlack(d, x0, p, w, top, dom, m, h);
    }

    /** Sibling `w` red. */
    method FixupRed(d: Dir, x: Node, p: Node, w: Node, top: Node, ghost dom: set<Node>, ghost m0: Mem, ghost h0: Layout)
      returns (ghost m: Mem, ghost h: Layout)
      requires Is(dom, m0) && RbDelete.Deleting(m0, nil, root, h0, x, Hole(p, d)) && p != root && m0[root].left == top
      requires !m0[x].red
      requires RbDelete.Siblings(m0, h0, d, x, p, w) && m0[w].red
      modifies dom
      ensures Is(dom, m) && h.order == h0.order && RbDelete.Size(h, x) == RbDelete.Size(h0, x)
      ensures RbDelete.Deleting(m, nil, root, h, x, Hole(p, d)) && !m[x].red
      ensures Kid(m, p, d.Flip()) in m && !m[Kid(m, p, d.Flip())].red
      ensures m[root].left == top || (top == p && m[p].red)
    {
      RbDelete.RedSiblingCan(m0, nil, root, h0, d, x, p, w);
      m := Paint(w, false, dom, m0);
      m := Paint(p, true, dom, m);
      m := Rotate(d, p, dom, m, h0);
      RbDelete.RedSiblingStep(m0, m, nil, root, h0, d, x, p, w);
      h := Rebalance(h0, d, p, w, h0.at[w].bh, h0.at[p].bh);
    }

    /** Sibling `w` black. */
    method FixupBlack(d: Dir, x0: Node, p: Node, w: Node, top: Node, ghost dom: set<Node>, ghost m0: Mem,
        ghost h0: Layout)
      returns (x: Node, ghost m: Mem, ghost h: Layout, ghost hole: Hole, ghost done: bool)
      requires Is(dom, m0) && RbDelete.Deleting(m0, nil, root, h0, x0, Hole(p, d)) && p != root && !m0[x0].red
      requires w == Kid(m0, p, d.Flip()) && w in m0 && !m0[w].red
      requires m0[root].left == top || (top == p && m0[p].red)
      modifies dom
      ensures Is(dom, m) && x in m && h.order == h0.order
      ensures done ==> RbDelete.Finishing(m, nil, root, h, x) && (x == top || m[x].red)
      ensures !done ==> RbDelete.Deleting(m, nil, root, h, x, hole) && m[root].left == top
      ensures !done ==> RbDelete.Size(h, x) > RbDelete.Size(h0, x0)
    {
      RbDelete.Sibling(m0, nil, root, h0, x0, Hole(p, d));
      hole := Hole(p, d);
      if !w.left.red && !w.right.red {
        RbDelete.SizeUp(m0, nil, root, h0, x0, hole);
        m := Paint(w, true, dom, m0);
        x, done := p, p.red;
        if done {
          RbDelete.AbsorbStep(m0, nil, root, h0, d, x0, p, w);
          h := RbDelete.LowerLayout(h0, p, w, 0);
        } else {
          RbDelete.LowerStep(m0, nil, root, h0, d, x0, p, w);
          h := RbDelete.LowerLayout(h0, p, w, 1);
          hole := Hole(m0[p].parent, if m0[m0[p].parent].left == p then Left else Right);
        }
      } else {
        m, h := FixupTurn(d, x0, p, w, top, dom, m0, h0);
        x, done := top, true;
      }
    }

    /** Sibling `w` black with a red child: the last rotations. */
    method FixupTurn(d: Dir, x: Node, p: Node, w0: Node, top: Node, ghost dom: set<Node>, ghost m0: Mem,
        ghost h0: Layout)
      returns (ghost m: Mem, ghost h: Layout)
      requires Is(dom, m0) && RbDelete.Deleting(m0, nil, root, h0, x, Hole(p, d)) && p != root && !m0[x].red
      requires RbDelete.Siblings(m0, h0, d, x, p, w0) && !m0[w0].red
      requires m0[m0[w0].left].red || m0[m0[w0].right].red
      requires m0[root].left == top || (top == p && m0[p].red)
      modifies dom
      ensures Is(dom, m) && top in m && h.order == h0.order && RbDelete.Finishing(m, nil, root, h, top)
    {
      m, h := m0, h0;
      var w := w0;
      if !KidOf(w, d.Flip()).red {
        ghost var v := Kid(m, w, d);
        RbDelete.InnerRedKid(m0, nil, root, h0, d, x, p, w);
        RbDelete.InnerRedCan(m0, nil, root, h0, d, x, p, w, v);
        m := Paint(KidOf(w, d), false, dom, m);
        m := Paint(w, true, dom, m);
        m := Rotate(d.Flip(), w, dom, m, h);
        RbDelete.InnerRedStep(m0, m, nil, root, h0, d, x, p, w0, v);
        h := Rebalance(h0, d.Flip(), w0, v, h0.at[v].bh, h0.at[w0].bh);
        RbDelete.Sibling(m, nil, root, h, x, Hole(p, d));
        w := KidOf(p, d.Flip());
      }
      m, h := FixupLast(d, x, p, w, top, dom, m, h);
    }

    method FixupLast(d: Dir, x: Node, p: Node, w: Node, top: Node, ghost dom: set<Node>, ghost m0: Mem,
        ghost h0: Layout)
      returns (ghost m: Mem, ghost h: Layout)
      requires Is(dom, m0) && RbDelete.Deleting(m0, nil, root, h0, x, Hole(p, d)) && p != root && !m0[x].red
      requires RbDelete.Siblings(m0, h0, d, x, p, w) && !m0[w].red && m0[Kid(m0, w, d.Flip())].red
      requires m0[root].left == top || top == p
      modifies dom
      ensures Is(dom, m) && top in m && h.order == h0.order && RbDelete.Finishing(m, nil, root, h, top)
    {
      ghost var u := Kid(m0, w, d.Flip());
      RbDelete.OuterRedKid(m0, nil, root, h0, d, x, p, w);
      RbDelete.OuterRedCan(m0, nil, root, h0, d, x, p, w, u);
      m := Paint(w, p.red, dom, m0);
      m := Paint(p, false, dom, m);
      m := Paint(KidOf(w, d.Flip()), false, dom, m);
      m := Rotate(d, p, dom, m, RbDelete.ExchangeLayout(h0, u));
      RbDelete.OuterRedStep(m0, m, nil, root, h0, d, x, p, w, u);
      h := Rebalance(RbDelete.ExchangeLayout(h0, u), d, p, w, h0.at[w].bh, h0.at[p].bh);
      RbDelete.AlreadyBlack(m, nil, root, h, top);
    }
  }

  /** The assignments that unlink `y`, in program order, add up to `Detach`. */
  lemma UnlinkSteps(m: Mem, nil: Node, hdr: Node, h: Layout, y: Node)
    requires Detaching(m, nil, hdr, h, y)
    ensures var x, p := OnlyKid(m, nil, y), m[y].parent;
            var m1 := SetParent(m, x, p);
            (if y == m1[p].left then SetKid(m1, p, Left, x) else SetKid(m1, p, Right, x)) - {y} == Detach(m, nil, y)
  {
  }

  lemma SortedDetach(g: Layout, z: Node)
    requires Placed(g) && z in g.at && SpotOk(g, z) && Sorted(g.order)
    ensures Sorted(DetachLayout(g, z).order)
  {
  }

  /** The assignments that put `y` in the place of `z`, in program order, add up to
      `Replace`. */
  lemma PlaceSteps(m: Mem, nil: Node, hdr: Node, h: Layout, z: Node, y: Node)
    requires y in m && z != y && Replacing(m - {y}, nil, hdr, h, z, y)
    ensures var p := m[z].parent;
            var m1 := if m[p].left == z then SetKid(m, p, Left, y) else SetKid(m, p, Right, y);
            var m2 := SetParent(SetParent(m1, m[z].right, y), m[z].left, y);
            m2[y := m2[z]] - {z} == Replace(m - {y}, z, y)
  {
  }

  lemma SplitBeside(g: Layout, x: Node, a: int, b: int, key: int)
    requires Placed(g) && x in g.at && Sorted(g.order) && Splits(g.order, a, b, key)
    requires g.at[x].lo == a && g.at[x].hi == b
    ensures SpotOk(g, x)
    ensures var e := if x.key > key then Left else Right; Splits(g.order, From(g, x, e), To(g, x, e), key)
  {
    assert SpotOk(g, x);
  }

  lemma SortedAttach(g: Layout, k: int, z: Node)
    requires Sorted(g.order) && Splits(g.order, k, k, z.key)
    ensures Sorted(AttachLayout(g, k, z).order)
  {
  }

  // ------------------------------------------------------- search and height

  /** Along the order the sign of `cmp` goes from negative over zero to positive. */
  ghost predicate Monotone(cmp: Node -> int, order: seq<Node>)
  {
    forall i, j :: 0 <= i < j < |order| ==>
      (cmp(order[i]) > 0 ==> cmp(order[j]) > 0) && (cmp(order[i]) >= 0 ==> cmp(order[j]) >= 0)
  }

  /** Every match lies at a position in `a .. b`. */
  ghost predicate Within(cmp: Node -> int, order: seq<Node>, a: int, b: int)
  {
    0 <= a <= b <= |order| && forall i :: 0 <= i < |order| && cmp(order[i]) == 0 ==> a <= i < b
  }

  lemma WithinBeside(cmp: Node -> int, g: Layout, x: Node, a: int, b: int)
    requires Placed(g) && x in g.at && Monotone(cmp, g.order) && Within(cmp, g.order, a, b)
    requires g.at[x].lo == a && g.at[x].hi == b && cmp(x) != 0
    ensures var e := if cmp(x) > 0 then Left else Right; Within(cmp, g.order, From(g, x, e), To(g, x, e))
  {
    assert SpotOk(g, x);
  }

  /** The longest path down from `n`: reds at most alternate with blacks. */
  ghost function Reach(m: Mem, g: Layout, n: Node): int
  {
    if n in g.at && n in m then 2 * g.at[n].bh + (if m[n].red then 1 else 0) else 0
  }

  lemma ReachDown(m: Mem, nil: Node, hdr: Node, g: Layout, n: Node, d: Dir)
    requires RedBlack(m, nil, hdr, g) && n in g.at
    ensures Reach(m, g, Kid(m, n, d)) < Reach(m, g, n)
  {
    assert NodeOk(m, nil, hdr, g, n) && HeightOk(m, g, NoHole, n) && ColorOk(m, nil, n);
    if Kid(m, n, d) in g.at {
      assert HeightOk(m, g, NoHole, Kid(m, n, d));
    }
  }

  /** One step of a search. */
  lemma SearchDown(cmp: Node -> int, m: Mem, nil: Node, hdr: Node, g: Layout, y: Node, d: Dir, a: int, b: int)
    requires RedBlack(m, nil, hdr, g) && y in m && Probing(m, nil, hdr, g, y, d, a, b)
    requires Monotone(cmp, g.order) && Within(cmp, g.order, a, b) && Kid(m, y, d) != nil && cmp(Kid(m, y, d)) != 0
    ensures var x := Kid(m, y, d);
            var e := if cmp(x) > 0 then Left else Right;
            && x in g.at && x in m && Probing(m, nil, hdr, g, x, e, From(g, x, e), To(g, x, e))
            && Within(cmp, g.order, From(g, x, e), To(g, x, e)) && To(g, x, e) - From(g, x, e) < b - a
            && Reach(m, g, Kid(m, x, e)) < Reach(m, g, x)
  {
    var x := Kid(m, y, d);
    var e := if cmp(x) > 0 then Left else Right;
    ProbeHere(m, nil, hdr, g, y, d, a, b);
    ProbeStep(m, nil, hdr, g, y, d, a, b, e);
    WithinBeside(cmp, g, x, a, b);
    ReachDown(m, nil, hdr, g, x, e);
  }

  lemma ReachNatural(m: Mem, nil: Node, hdr: Node, g: Layout, n: Node)
    requires RedBlack(m, nil, hdr, g)
    ensures Reach(m, g, n) >= 0
  {
    if n in g.at {
      assert HeightOk(m, g, NoHole, n);
    }
  }

  lemma SearchRoot(m: Mem, nil: Node, hdr: Node, g: Layout)
    requires RedBlack(m, nil, hdr, g)
    ensures Probing(m, nil, hdr, g, hdr, Left, 0, |g.order|)
    ensures Reach(m, g, m[hdr].left) == 2 * Height(g, m[hdr].left)
  {
  }

  /** A subtree of black height h holds at least 2^h - 1 nodes. */
  lemma {:induction false} Bushy(m: Mem, nil: Node, hdr: Node, g: Layout, n: Node)
    requires RedBlack(m, nil, hdr, g) && n in g.at
    ensures 0 <= g.at[n].bh && Pow2(g.at[n].bh) <= g.at[n].hi - g.at[n].lo + 1
    decreases g.at[n].hi - g.at[n].lo
  {
    assert NodeOk(m, nil, hdr, g, n) && HeightOk(m, g, NoHole, n);
    if m[n].left in g.at {
      Bushy(m, nil, hdr, g, m[n].left);
    }
    if m[n].right in g.at {
      Bushy(m, nil, hdr, g, m[n].right);
    }
  }

  lemma {:induction false} Pow2Double(h: nat, n: nat)
    requires Pow2(h) <= n
    ensures Pow2(2 * h) <= n * n
  {
    PowSum(h, h);
    assert Pow2(h) * Pow2(h) <= n * n;
  }

  lemma StepsBound(m: Mem, nil: Node, hdr: Node, g: Layout, steps: nat)
    requires RedBlack(m, nil, hdr, g) && steps <= 2 * Height(g, m[hdr].left)
    ensures Pow2(steps) <= (|g.order| + 1) * (|g.order| + 1)
  {
    var t := m[hdr].left;
    if t in g.at {
      Bushy(m, nil, hdr, g, t);
      Pow2Double(g.at[t].bh, |g.order| + 1);
      PowGrows(steps, 2 * g.at[t].bh);
    }
  }
}
