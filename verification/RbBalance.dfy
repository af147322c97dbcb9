/** Colours and black heights of the red-black tree, and what each step of the
    insertion and deletion repairs does to them. */
module RbBalance {
  import opened RbShape

  /** Where the tree is one black node short: nowhere, or on side `d` of `p`. */
  datatype Hole = NoHole | Hole(p: Node, d: Dir)

  /** Black nodes below and including `n`; the sentinel counts none. */
  ghost function Height(g: Layout, n: Node): int
  {
    if n in g.at then g.at[n].bh else 0
  }

  /** The height side `d` of `n` should have, counting a missing node as present. */
  ghost function SideHeight(m: Mem, g: Layout, hole: Hole, n: Node, d: Dir): int
    requires n in m
  {
    Height(g, Kid(m, n, d)) + if hole == Hole(n, d) then 1 else 0
  }

  ghost predicate HeightOk(m: Mem, g: Layout, hole: Hole, n: Node)
    requires n in m && n in g.at
  {
    && 0 <= g.at[n].bh
    && SideHeight(m, g, hole, n, Left) == SideHeight(m, g, hole, n, Right)
    && g.at[n].bh == SideHeight(m, g, hole, n, Left) + if m[n].red then 0 else 1
  }

  /** All paths down from a node meet the same number of black nodes. */
  ghost predicate Balanced(m: Mem, g: Layout, hole: Hole)
    requires g.at.Keys <= m.Keys
  {
    forall n {:trigger HeightOk(m, g, hole, n)} :: n in g.at ==> HeightOk(m, g, hole, n)
  }

  /** No red node has a red child, `e` as the child excepted. */
  ghost predicate ColorOk(m: Mem, e: Node, n: Node)
    requires n in m
  {
    RedKidsAre(m, e, e, n)
  }

  /** If `n` is red then a red child of it is `e` or `f`. */
  ghost predicate RedKidsAre(m: Mem, e: Node, f: Node, n: Node)
    requires n in m
  {
    m[n].red ==>
      && (m[n].left in m && m[m[n].left].red ==> m[n].left == e || m[n].left == f)
      && (m[n].right in m && m[m[n].right].red ==> m[n].right == e || m[n].right == f)
  }

  ghost predicate Colored(m: Mem, nil: Node, hdr: Node, g: Layout, e: Node)
    requires nil in m && hdr in m && g.at.Keys <= m.Keys
  {
    && !m[nil].red && !m[hdr].red
    && (m[hdr].left in m && m[m[hdr].left].red ==> m[hdr].left == e)
    && (forall n {:trigger ColorOk(m, e, n)} :: n in g.at ==> ColorOk(m, e, n))
  }

  /** A red-black tree whose rules may be broken in two ways: `e` may be red under
      a red parent (or as the root), and one side may be one black node short. */
  ghost predicate Repairing(m: Mem, nil: Node, hdr: Node, g: Layout, e: Node, hole: Hole)
  {
    Linked(m, nil, hdr, g) && Colored(m, nil, hdr, g, e) && Balanced(m, g, hole)
  }

  /** A red-black tree. The sentinel is black, so exempting it exempts nothing. */
  ghost predicate RedBlack(m: Mem, nil: Node, hdr: Node, g: Layout)
  {
    Repairing(m, nil, hdr, g, nil, NoHole)
  }

  ghost function WithHeight(g: Layout, n: Node, bh: int): (h: Layout)
    requires n in g.at
    ensures h.order == g.order && h.at.Keys == g.at.Keys
  {
    g.(at := g.at[n := g.at[n].(bh := bh)])
  }

  /** Heights and colours play no part in the linking. */
  lemma LinkedIgnoresBalance(m: Mem, r: Mem, nil: Node, hdr: Node, g: Layout, h: Layout)
    requires Linked(m, nil, hdr, g)
    requires r.Keys == m.Keys && h.at.Keys == g.at.Keys && h.order == g.order
    requires forall n {:trigger r[n]} :: n in m ==> r[n] == m[n].(red := r[n].red)
    requires forall n {:trigger h.at[n]} :: n in g.at ==> h.at[n] == g.at[n].(bh := h.at[n].bh)
    ensures Linked(r, nil, hdr, h)
  {
    forall n | n in h.at
      ensures SpotOk(h, n) && NodeOk(r, nil, hdr, h, n)
    {
      assert NodeOk(m, nil, hdr, g, n);
      assert r[n].left == m[n].left;
      assert h.at[n].pos == g.at[n].pos;
    }
  }

  lemma SetRedLinked(m: Mem, nil: Node, hdr: Node, g: Layout, n: Node, red: bool)
    requires Linked(m, nil, hdr, g) && n in m
    ensures Linked(SetRed(m, n, red), nil, hdr, g)
  {
    LinkedIgnoresBalance(m, SetRed(m, n, red), nil, hdr, g, g);
  }

  lemma WithHeightLinked(m: Mem, nil: Node, hdr: Node, g: Layout, n: Node, bh: int)
    requires Linked(m, nil, hdr, g) && n in g.at
    ensures Linked(m, nil, hdr, WithHeight(g, n, bh))
  {
    LinkedIgnoresBalance(m, m, nil, hdr, g, WithHeight(g, n, bh));
  }

  /** The children after rotating `x` towards `d`, which is all that colours and
      heights see of it: `y` stands for `x` with its old parent, and `x` and `y`
      exchange their inner subtrees. */
  ghost predicate KidsTurned(m: Mem, r: Mem, g: Layout, hdr: Node, d: Dir, x: Node, y: Node)
    requires g.at.Keys + {hdr} <= m.Keys && x in m && y in m
  {
    && r.Keys == m.Keys
    && Kid(r, x, d) == Kid(m, x, d) && Kid(r, x, d.Flip()) == Kid(m, y, d)
    && Kid(r, y, d) == x && Kid(r, y, d.Flip()) == Kid(m, y, d.Flip())
    && (forall n {:trigger r[n]} :: n in m ==> r[n].red == m[n].red)
    && (forall n {:trigger r[n]} :: n in g.at && n != x && n != y ==> KidsKept(m, r, x, y, n))
    && r[hdr].left == (if m[hdr].left == x then y else m[hdr].left)
    && (m[hdr].left == x ==> m[x].parent == hdr)
  }

  ghost predicate KidsKept(m: Mem, r: Mem, x: Node, y: Node, n: Node)
    requires n in m && n in r && x in m
  {
    && m[n].left != y && m[n].right != y
    && (m[n].left == x || m[n].right == x ==> m[x].parent == n)
    && r[n].left == (if m[n].left == x then y else m[n].left)
    && r[n].right == (if m[n].right == x then y else m[n].right)
  }

  lemma RotateKids(m: Mem, r: Mem, nil: Node, hdr: Node, g: Layout, d: Dir, x: Node, y: Node)
    requires CanRotate(m, nil, hdr, g, d, x) && Turning(m, r, nil, hdr, g, d, x, y)
    ensures KidsTurned(m, r, g, hdr, d, x, y)
  {
    forall n | n in g.at && n != x && n != y
      ensures KidsKept(m, r, x, y, n)
    {
      assert NodeOk(m, nil, hdr, g, n);
    }
  }

  /** The heights `hx` and `hy` that a rotation gives the rotated node `x` and its
      raised child `y` fit what hangs below them, and `y` shows its new parent the
      height that `x` showed before. */
  ghost predicate HeightsFit(m: Mem, g: Layout, d: Dir, x: Node, y: Node, hx: int, hy: int, hole: Hole)
    requires x in m && y in m && x in g.at
  {
    && (hole.Hole? ==> hole.p != y && hole != Hole(x, d.Flip()))
    && 0 <= hx && 0 <= hy == g.at[x].bh
    && SideHeight(m, g, hole, x, d) == Height(g, Kid(m, y, d))
    && hx == Height(g, Kid(m, y, d)) + (if m[x].red then 0 else 1)
    && hx == Height(g, Kid(m, y, d.Flip()))
    && hy == hx + (if m[y].red then 0 else 1)
  }

  ghost function Rebalance(g: Layout, d: Dir, x: Node, y: Node, hx: int, hy: int): (h: Layout)
    requires x in g.at && y in g.at
    ensures h.order == g.order && h.at.Keys == g.at.Keys
  {
    WithHeight(WithHeight(RotateLayout(g, d, x, y), x, hx), y, hy)
  }

  lemma RotateHeight(m: Mem, r: Mem, hdr: Node, g: Layout, d: Dir, x: Node, y: Node,
                     hx: int, hy: int, hole: Hole, n: Node)
    requires g.at.Keys + {hdr} <= m.Keys && x in g.at && y in g.at && x != y
    requires Kid(m, x, d) != x && Kid(m, x, d) != y && Kid(m, y, d) != x && Kid(m, y, d) != y
    requires Kid(m, y, d.Flip()) != x && Kid(m, y, d.Flip()) != y
    requires KidsTurned(m, r, g, hdr, d, x, y) && HeightsFit(m, g, d, x, y, hx, hy, hole)
    requires n in g.at && (n == x || n == y || HeightOk(m, g, hole, n))
    ensures HeightOk(r, Rebalance(g, d, x, y, hx, hy), hole, n)
  {
    var h := Rebalance(g, d, x, y, hx, hy);
    assert forall k {:trigger Height(h, k)} :: k != x && k != y ==> Height(h, k) == Height(g, k);
    assert Height(h, x) == hx && Height(h, y) == hy == Height(g, x);
    if n == x || n == y {
      assert SideHeight(r, h, hole, n, d) == SideHeight(r, h, hole, n, d.Flip());
    } else {
      assert KidsKept(m, r, x, y, n);
    }
  }

  /** The colours a rotation brings together agree, `e` excepted. */
  ghost predicate ColorsFit(m: Mem, hdr: Node, d: Dir, x: Node, y: Node, e: Node)
    requires x in m && y in m && m[x].parent in m
  {
    && (m[y].red && (m[m[x].parent].red || m[x].parent == hdr) ==> y == e)
    && (m[x].red && Kid(m, x, d) in m && m[Kid(m, x, d)].red ==> Kid(m, x, d) == e)
    && (m[x].red && Kid(m, y, d) in m && m[Kid(m, y, d)].red ==> Kid(m, y, d) == e)
    && (m[y].red && m[x].red ==> x == e)
    && (m[y].red && Kid(m, y, d.Flip()) in m && m[Kid(m, y, d.Flip())].red ==> Kid(m, y, d.Flip()) == e)
  }

  lemma RotateColor(m: Mem, r: Mem, hdr: Node, g: Layout, d: Dir, x: Node, y: Node, e: Node, n: Node)
    requires g.at.Keys + {hdr} <= m.Keys && x in g.at && y in g.at && m[x].parent in m
    requires KidsTurned(m, r, g, hdr, d, x, y) && ColorsFit(m, hdr, d, x, y, e)
    requires n in g.at && (n == x || n == y || RedKidsAre(m, e, x, n))
    ensures ColorOk(r, e, n)
  {
    if n == x || n == y {
    } else {
      assert KidsKept(m, r, x, y, n);
      assert r[n].left in m ==> r[r[n].left].red == m[r[n].left].red;
      assert r[n].right in m ==> r[r[n].right].red == m[r[n].right].red;
    }
  }

  /** Every node but `x` and its child `y` obeys the rules; the colour of `x` as a
      child does not count, since `y` is about to take its place. */
  ghost predicate OthersOk(m: Mem, nil: Node, hdr: Node, g: Layout, x: Node, y: Node, e: Node, hole: Hole)
    requires nil in m && hdr in m && g.at.Keys <= m.Keys
  {
    && !m[nil].red && !m[hdr].red
    && (m[hdr].left in m && m[m[hdr].left].red && m[hdr].left != x ==> m[hdr].left == e)
    && (forall n {:trigger RedKidsAre(m, e, x, n)} :: n in g.at && n != x && n != y ==> RedKidsAre(m, e, x, n))
    && (forall n {:trigger HeightOk(m, g, hole, n)} :: n in g.at && n != x && n != y ==> HeightOk(m, g, hole, n))
  }

  lemma RotateRules(m: Mem, r: Mem, nil: Node, hdr: Node, g: Layout, d: Dir, x: Node, y: Node,
                    hx: int, hy: int, e: Node, hole: Hole)
    requires g.at.Keys + {nil, hdr} <= m.Keys && x in g.at && y in g.at && x != y && m[x].parent in m
    requires Kid(m, x, d) != x && Kid(m, x, d) != y && Kid(m, y, d) != x && Kid(m, y, d) != y
    requires Kid(m, y, d.Flip()) != x && Kid(m, y, d.Flip()) != y
    requires KidsTurned(m, r, g, hdr, d, x, y) && OthersOk(m, nil, hdr, g, x, y, e, hole)
    requires ColorsFit(m, hdr, d, x, y, e) && HeightsFit(m, g, d, x, y, hx, hy, hole)
    ensures Colored(r, nil, hdr, g, e) && Balanced(r, Rebalance(g, d, x, y, hx, hy), hole)
  {
    var h := Rebalance(g, d, x, y, hx, hy);
    forall n | n in g.at
      ensures ColorOk(r, e, n) && HeightOk(r, h, hole, n)
    {
      assert n == x || n == y || (RedKidsAre(m, e, x, n) && HeightOk(m, g, hole, n));
      RotateColor(m, r, hdr, g, d, x, y, e, n);
      RotateHeight(m, r, hdr, g, d, x, y, hx, hy, hole, n);
    }
  }

  lemma RebalanceLinked(r: Mem, nil: Node, hdr: Node, g: Layout, d: Dir, x: Node, y: Node, hx: int, hy: int)
    requires x in g.at && y in g.at && Linked(r, nil, hdr, RotateLayout(g, d, x, y))
    ensures Linked(r, nil, hdr, Rebalance(g, d, x, y, hx, hy))
  {
    WithHeightLinked(r, nil, hdr, RotateLayout(g, d, x, y), x, hx);
    WithHeightLinked(r, nil, hdr, WithHeight(RotateLayout(g, d, x, y), x, hx), y, hy);
  }

  lemma RotationKids(m: Mem, r: Mem, nil: Node, hdr: Node, g: Layout, d: Dir, x: Node, y: Node)
    requires CanRotate(m, nil, hdr, g, d, x) && y == Kid(m, x, d.Flip()) && y in g.at && m[x].parent in m
    requires Rotated(m, r, nil, d, x)
    ensures x != y && Kid(m, x, d) != x && Kid(m, x, d) != y && Kid(m, y, d) != x && Kid(m, y, d) != y
    ensures Kid(m, y, d.Flip()) != x && Kid(m, y, d.Flip()) != y
    ensures KidsTurned(m, r, g, hdr, d, x, y)
  {
    RotationNodes(m, nil, hdr, g, d, x);
    assert NodeOk(m, nil, hdr, g, x) && NodeOk(m, nil, hdr, g, y);
    assert Turning(m, r, nil, hdr, g, d, x, y);
    RotateKids(m, r, nil, hdr, g, d, x, y);
  }

  /** A rotation that brings fitting colours and heights together repairs the
      tree at the two nodes it turns. */
  lemma RotateRepairs(m: Mem, r: Mem, nil: Node, hdr: Node, g: Layout, d: Dir, x: Node, y: Node,
                      hx: int, hy: int, e: Node, hole: Hole)
    requires CanRotate(m, nil, hdr, g, d, x) && y == Kid(m, x, d.Flip()) && y in g.at && m[x].parent in m
    requires Rotated(m, r, nil, d, x)
    requires OthersOk(m, nil, hdr, g, x, y, e, hole)
    requires ColorsFit(m, hdr, d, x, y, e) && HeightsFit(m, g, d, x, y, hx, hy, hole)
    ensures Repairing(r, nil, hdr, Rebalance(g, d, x, y, hx, hy), e, hole)
  {
    assert Linked(r, nil, hdr, Rebalance(g, d, x, y, hx, hy)) by {
      RotateLinked(m, r, nil, hdr, g, d, x);
      RebalanceLinked(r, nil, hdr, g, d, x, y, hx, hy);
    }
    assert x != y && Kid(m, x, d) != x && Kid(m, x, d) != y && Kid(m, y, d) != x && Kid(m, y, d) != y
           && Kid(m, y, d.Flip()) != x && Kid(m, y, d.Flip()) != y
           && KidsTurned(m, r, g, hdr, d, x, y) by {
      RotationKids(m, r, nil, hdr, g, d, x, y);
    }
    RotateRules(m, r, nil, hdr, g, d, x, y, hx, hy, e, hole);
  }

  /** `b` turns black, then `c` red. */
  function Repaint(m: Mem, b: Node, c: Node): Mem
    requires b in m && c in m
  {
    SetRed(SetRed(m, b, false), c, true)
  }

  lemma RepaintLinked(m: Mem, nil: Node, hdr: Node, g: Layout, b: Node, c: Node)
    requires Linked(m, nil, hdr, g) && b in g.at && c in g.at
    ensures Linked(Repaint(m, b, c), nil, hdr, g)
  {
    SetRedLinked(m, nil, hdr, g, b, false);
    SetRedLinked(SetRed(m, b, false), nil, hdr, g, c, true);
  }

  /** The heights once `x` is painted black. */
  ghost function BlackenLayout(m: Mem, g: Layout, x: Node): (h: Layout)
    requires x in m
    ensures h.order == g.order && h.at.Keys == g.at.Keys
  {
    if x in g.at && m[x].red then WithHeight(g, x, g.at[x].bh + 1) else g
  }
}
