/** The red-black tree seen as an ordinary tree: walking the links from the root gives the
    nodes in the order of the layout, every path has the same number of black nodes, and
    the tree's own checking routine trips none of its assertions. */
module RbCheck {
  import opened RbShape
  import opened RbBalance
  import RbTree

  datatype Shape = Tip | Bin(left: Shape, node: Node, right: Shape)

  /** Following the child links from `n` gives the tree `t`. */
  ghost predicate Holds(m: Mem, nil: Node, n: Node, t: Shape)
    decreases t
  {
    match t
    case Tip => n == nil
    case Bin(l, x, r) => n == x && n != nil && n in m && Holds(m, nil, m[n].left, l) && Holds(m, nil, m[n].right, r)
  }

  lemma {:induction false} HoldsOnce(m: Mem, nil: Node, n: Node, t: Shape, u: Shape)
    requires Holds(m, nil, n, t) && Holds(m, nil, n, u)
    ensures t == u
    decreases t
  {
    if t.Bin? {
      HoldsOnce(m, nil, m[n].left, t.left, u.left);
      HoldsOnce(m, nil, m[n].right, t.right, u.right);
    }
  }

  function InOrder(t: Shape): seq<Node> {
    match t
    case Tip => []
    case Bin(l, x, r) => InOrder(l) + [x] + InOrder(r)
  }

  /** The classical rules: no red node has a red child, and all paths down have `h` black
      nodes. */
  ghost predicate Rules(m: Mem, t: Shape, h: int)
    decreases t
  {
    match t
    case Tip => h == 0
    case Bin(l, x, r) =>
      && x in m
      && (m[x].red ==> !RedRoot(m, l) && !RedRoot(m, r))
      && var k := if m[x].red then h else h - 1;
         Rules(m, l, k) && Rules(m, r, k)
  }

  ghost predicate RedRoot(m: Mem, t: Shape) {
    t.Bin? && t.node in m && m[t.node].red
  }

  /** The tree below a node. */
  lemma {:induction false} Below(m: Mem, nil: Node, hdr: Node, g: Layout, n: Node) returns (t: Shape)
    requires RedBlack(m, nil, hdr, g) && n in g.at
    ensures SpotOk(g, n) && Holds(m, nil, n, t) && InOrder(t) == g.order[g.at[n].lo..g.at[n].hi]
    ensures Rules(m, t, g.at[n].bh)
    decreases g.at[n].hi - g.at[n].lo, 0
  {
    assert NodeOk(m, nil, hdr, g, n) && HeightOk(m, g, NoHole, n) && ColorOk(m, nil, n);
    var l := Side(m, nil, hdr, g, n, Left);
    var r := Side(m, nil, hdr, g, n, Right);
    t := Bin(l, n, r);
    var s := g.at[n];
    assert g.order[s.lo..s.hi] == g.order[s.lo..s.pos] + [n] + g.order[s.pos + 1..s.hi];
  }

  lemma {:induction false} Side(m: Mem, nil: Node, hdr: Node, g: Layout, n: Node, d: Dir) returns (t: Shape)
    requires RedBlack(m, nil, hdr, g) && n in g.at && NodeOk(m, nil, hdr, g, n)
    ensures 0 <= From(g, n, d) <= To(g, n, d) <= |g.order|
    ensures Holds(m, nil, Kid(m, n, d), t) && InOrder(t) == g.order[From(g, n, d)..To(g, n, d)]
    ensures Rules(m, t, Height(g, Kid(m, n, d))) && (RedRoot(m, t) ==> Kid(m, n, d) != nil && m[Kid(m, n, d)].red)
    decreases To(g, n, d) - From(g, n, d), 1
  {
    if From(g, n, d) == To(g, n, d) {
      t := Tip;
    } else {
      t := Below(m, nil, hdr, g, Kid(m, n, d));
    }
  }

  /** From the root: the whole tree in order, with a black root. */
  lemma {:induction false} Whole(m: Mem, nil: Node, hdr: Node, g: Layout) returns (t: Shape, h: int)
    requires RedBlack(m, nil, hdr, g)
    ensures Holds(m, nil, m[hdr].left, t) && InOrder(t) == g.order && Rules(m, t, h) && !RedRoot(m, t)
  {
    if g.order == [] {
      t, h := Tip, 0;
    } else {
      t := Below(m, nil, hdr, g, m[hdr].left);
      h := g.at[m[hdr].left].bh;
      assert g.order[0..|g.order|] == g.order;
    }
  }

  /** check_tree: all its assertions hold, and it returns the black height plus one for the
      sentinel. */
  method CheckTree(tree: RbTree.Tree, node: Node) returns (hb: int)
    requires tree.Valid() && (node == tree.nil || node in tree.g.at)
    ensures hb == Height(tree.g, node) + 1
    decreases if node in tree.g.at then tree.g.at[node].hi - tree.g.at[node].lo else 0
  {
    var nil := tree.nil;
    ghost var m, g := tree.mem, tree.g;
    if node == nil {
      assert m[nil] == m[nil];
      assert !node.red;
      return 1;
    }
    assert NodeOk(m, nil, tree.root, g, node) && HeightOk(m, g, NoHole, node) && ColorOk(m, nil, node);
    assert m[node].left in m && m[node].right in m;
    Keys(tree, node);
    if node.left != nil {
      assert node.key >= node.left.key;
      assert node.left.parent == node;
    }
    if node.right != nil {
      assert node.key <= node.right.key;
      assert node.right.parent == node;
    }
    if node.red {
      assert !node.left.red && !node.right.red;
    }
    var hbLeft := CheckTree(tree, node.left);
    var hbRight := CheckTree(tree, node.right);
    assert hbLeft == hbRight;
    hb := hbLeft;
    if !node.red {
      hb := hb + 1;
    }
  }

  lemma {:induction false} Keys(tree: RbTree.Tree, n: Node)
    requires tree.Valid() && n in tree.g.at && NodeOk(tree.mem, tree.nil, tree.root, tree.g, n)
    ensures forall d: Dir ::
              Kid(tree.mem, n, d) != tree.nil ==> Kid(tree.mem, n, d) in tree.g.at && Kid(tree.mem, n, d) in tree.mem
    ensures tree.mem[n].left != tree.nil ==> n.key >= tree.mem[n].left.key
    ensures tree.mem[n].right != tree.nil ==> n.key <= tree.mem[n].right.key
  {
    var g, m := tree.g, tree.mem;
    forall d: Dir | Kid(m, n, d) != tree.nil
      ensures Kid(m, n, d) in g.at && SpotOk(g, Kid(m, n, d)) && From(g, n, d) <= g.at[Kid(m, n, d)].pos < To(g, n, d)
    {
      assert SideOk(m, tree.nil, g, n, d);
      assert NodeOk(m, tree.nil, tree.root, g, Kid(m, n, d));
    }
  }
}
