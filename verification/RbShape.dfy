/** The link structure of the intrusive red-black tree, as a value.

    A `Mem` records the four fields of every node the tree can reach: its own
    nodes, the black sentinel `nil` and the header whose left child is the root.
    A `Layout` explains such a memory: it lists the nodes in order and gives each
    node the range of positions its subtree covers. With ranges at hand every
    tree property is a condition on one node and its two children, so a rotation
    or a relinking is checked at the handful of nodes it touches. */
module RbShape {

  /** An element of the tree. `key` is its place in the order that the tree's
      compare function defines; equal keys compare equal. */
  class Node {
    const key: int
    var red: bool
    var parent: Node
    var left: Node
    var right: Node

    constructor (key: int)
      ensures this.key == key
      ensures !red && parent == this && left == this && right == this
    {
      this.key := key;
      red, parent, left, right := false, this, this, this;
    }
  }

  datatype Dir = Left | Right {
    function Flip(): Dir {
      if Left? then Right else Left
    }
  }

  datatype Cell = Cell(red: bool, parent: Node, left: Node, right: Node)

  type Mem = map<Node, Cell>

  function Kid(m: Mem, n: Node, d: Dir): Node
    requires n in m
  {
    if d.Left? then m[n].left else m[n].right
  }

  function SetKid(m: Mem, n: Node, d: Dir, k: Node): Mem
    requires n in m
  {
    m[n := if d.Left? then m[n].(left := k) else m[n].(right := k)]
  }

  function SetParent(m: Mem, n: Node, p: Node): Mem
    requires n in m
  {
    m[n := m[n].(parent := p)]
  }

  function SetRed(m: Mem, n: Node, red: bool): Mem
    requires n in m
  {
    m[n := m[n].(red := red)]
  }

  /** Where a node stands: its position in order, the range `lo .. hi` of positions
      its subtree covers, and the number of black nodes on each path from it down. */
  datatype Spot = Spot(pos: int, lo: int, hi: int, bh: int)

  /** What explains a memory: the nodes in order and the spot of each. */
  datatype Layout = Layout(order: seq<Node>, at: map<Node, Spot>)

  ghost predicate SpotOk(g: Layout, n: Node)
    requires n in g.at
  {
    0 <= g.at[n].lo <= g.at[n].pos < g.at[n].hi <= |g.order| && g.order[g.at[n].pos] == n
  }

  ghost predicate Placed(g: Layout)
  {
    && (forall i {:trigger g.order[i]} :: 0 <= i < |g.order| ==> g.order[i] in g.at && g.at[g.order[i]].pos == i)
    && (forall n {:trigger SpotOk(g, n)} :: n in g.at ==> SpotOk(g, n))
  }

  /** The first position of the subtree on side `d` of `n`. */
  ghost function From(g: Layout, n: Node, d: Dir): int
    requires n in g.at
  {
    if d.Left? then g.at[n].lo else g.at[n].pos + 1
  }

  /** One past the last position of the subtree on side `d` of `n`. */
  ghost function To(g: Layout, n: Node, d: Dir): int
    requires n in g.at
  {
    if d.Left? then g.at[n].pos else g.at[n].hi
  }

  /** The child on side `d` of `n` covers exactly the positions on that side. */
  ghost predicate SideOk(m: Mem, nil: Node, g: Layout, n: Node, d: Dir)
    requires n in g.at && n in m
  {
    var k := Kid(m, n, d);
    if From(g, n, d) == To(g, n, d) then
      k == nil
    else
      k in g.at && k in m && m[k].parent == n && g.at[k].lo == From(g, n, d) && g.at[k].hi == To(g, n, d)
  }

  ghost predicate UpOk(m: Mem, hdr: Node, g: Layout, n: Node)
    requires n in m
  {
    var p := m[n].parent;
    && p in m
    && (p in g.at || p == hdr)
    && (p == hdr ==> m[hdr].left == n)
    && (p != hdr ==> m[p].left == n || m[p].right == n)
  }

  ghost predicate NodeOk(m: Mem, nil: Node, hdr: Node, g: Layout, n: Node)
    requires n in g.at && n in m
  {
    SpotOk(g, n) && SideOk(m, nil, g, n, Left) && SideOk(m, nil, g, n, Right) && UpOk(m, hdr, g, n)
  }

  ghost predicate RootOk(m: Mem, nil: Node, hdr: Node, g: Layout)
    requires hdr in m
  {
    var r := m[hdr].left;
    if g.order == [] then r == nil
    else r in g.at && r in m && m[r].parent == hdr && g.at[r].lo == 0 && g.at[r].hi == |g.order|
  }

  /** The memory is the binary tree that the layout describes. */
  ghost predicate Linked(m: Mem, nil: Node, hdr: Node, g: Layout)
  {
    && Placed(g)
    && nil != hdr && nil !in g.at && hdr !in g.at
    && m.Keys == g.at.Keys + {nil, hdr}
    && m[hdr].right == nil
    && RootOk(m, nil, hdr, g)
    && (forall n {:trigger NodeOk(m, nil, hdr, g, n)} :: n in g.at ==> NodeOk(m, nil, hdr, g, n))
  }

  // ---------------------------------------------------------------- rotation

  /** `x` has a child on the side away from `d`, so it can rotate towards `d`. */
  ghost predicate CanRotate(m: Mem, nil: Node, hdr: Node, g: Layout, d: Dir, x: Node)
  {
    Linked(m, nil, hdr, g) && x in g.at && Kid(m, x, d.Flip()) != nil
  }

  /** The nodes a rotation touches are distinct. */
  lemma RotationNodes(m: Mem, nil: Node, hdr: Node, g: Layout, d: Dir, x: Node)
    requires CanRotate(m, nil, hdr, g, d, x)
    ensures var y := Kid(m, x, d.Flip());
            && x in m && y in m && y in g.at && Kid(m, y, d) in m && m[x].parent in m
            && m[y].parent == x
            && Apart(m, x, y, Kid(m, y, d), m[x].parent)
  {
    var y := Kid(m, x, d.Flip());
    var p := m[x].parent;
    assert NodeOk(m, nil, hdr, g, x);
    assert NodeOk(m, nil, hdr, g, y);
    if p != hdr {
      assert NodeOk(m, nil, hdr, g, p);
    }
  }

  ghost predicate Apart(m: Mem, x: Node, y: Node, b: Node, p: Node)
    requires p in m
  {
    x != y && b != x && b != y && p != x && p != y && p != b && ((m[p].left == x) != (m[p].right == x))
  }

  /** The net effect of rotating `x` towards `d`: its child `y` takes its place,
      and the inner subtree `b` of `y` becomes a child of `x`. */
  ghost predicate Rotated(m: Mem, r: Mem, nil: Node, d: Dir, x: Node)
    requires x in m && Kid(m, x, d.Flip()) in m && m[x].parent in m
  {
    var y := Kid(m, x, d.Flip());
    var b := Kid(m, y, d);
    var p := m[x].parent;
    && r.Keys == m.Keys
    && r[x] == (if d.Left? then Cell(m[x].red, y, m[x].left, b) else Cell(m[x].red, y, b, m[x].right))
    && r[y] == (if d.Left? then Cell(m[y].red, p, x, m[y].right) else Cell(m[y].red, p, m[y].left, x))
    && r[p] == (if m[p].left == x then m[p].(left := y) else m[p].(right := y))
    && (b in m && b != nil ==> r[b] == m[b].(parent := x))
    && (forall n {:trigger r[n]} :: n in m && n != x && n != y && n != p && (n != b || n == nil) ==> r[n] == m[n])
  }

  /** A rotation moves no node in order: only the ranges of `x` and of its raised
      child `y` change. */
  ghost function RotateLayout(g: Layout, d: Dir, x: Node, y: Node): (h: Layout)
    requires x in g.at && y in g.at
    ensures h.order == g.order && h.at.Keys == g.at.Keys
  {
    var sx, sy := g.at[x], g.at[y];
    if d.Left? then
      g.(at := g.at[y := Spot(sy.pos, sx.lo, sx.hi, sy.bh)][x := Spot(sx.pos, sx.lo, sy.pos, sx.bh)])
    else
      g.(at := g.at[y := Spot(sy.pos, sx.lo, sx.hi, sy.bh)][x := Spot(sx.pos, sy.pos + 1, sx.hi, sx.bh)])
  }

  lemma RotatePlaced(m: Mem, nil: Node, hdr: Node, g: Layout, d: Dir, x: Node, y: Node)
    requires CanRotate(m, nil, hdr, g, d, x) && y == Kid(m, x, d.Flip()) && y in g.at
    ensures Placed(RotateLayout(g, d, x, y))
  {
    assert NodeOk(m, nil, hdr, g, x);
    assert SpotOk(g, y);
    var h := RotateLayout(g, d, x, y);
    forall n | n in h.at
      ensures SpotOk(h, n)
    {
      assert SpotOk(g, n);
    }
  }

  /** What the proof about one node `n` needs to know of a rotation. */
  ghost predicate Turning(m: Mem, r: Mem, nil: Node, hdr: Node, g: Layout, d: Dir, x: Node, y: Node)
  {
    && nil != hdr && nil !in g.at && hdr !in g.at && m.Keys == g.at.Keys + {nil, hdr}
    && x in g.at && y in g.at && y == Kid(m, x, d.Flip()) && m[x].parent in m && Kid(m, y, d) in m
    && NodeOk(m, nil, hdr, g, x) && NodeOk(m, nil, hdr, g, y)
    && Apart(m, x, y, Kid(m, y, d), m[x].parent)
    && Rotated(m, r, nil, d, x)
  }

  lemma RotateSideAt(m: Mem, r: Mem, nil: Node, hdr: Node, g: Layout, d: Dir, x: Node, y: Node, n: Node, e: Dir)
    requires Turning(m, r, nil, hdr, g, d, x, y) && (n == x || n == y)
    ensures SideOk(r, nil, RotateLayout(g, d, x, y), n, e)
  {
  }

  lemma RotateSide(m: Mem, r: Mem, nil: Node, hdr: Node, g: Layout, d: Dir, x: Node, y: Node, n: Node, e: Dir)
    requires Turning(m, r, nil, hdr, g, d, x, y)
    requires n in g.at && NodeOk(m, nil, hdr, g, n)
    ensures SideOk(r, nil, RotateLayout(g, d, x, y), n, e)
  {
    var h := RotateLayout(g, d, x, y);
    if n == x || n == y {
      RotateSideAt(m, r, nil, hdr, g, d, x, y, n, e);
    } else {
      assert From(h, n, e) == From(g, n, e) && To(h, n, e) == To(g, n, e);
    }
  }

  lemma RotateUp(m: Mem, r: Mem, nil: Node, hdr: Node, g: Layout, d: Dir, x: Node, y: Node, n: Node)
    requires Turning(m, r, nil, hdr, g, d, x, y)
    requires n in g.at && NodeOk(m, nil, hdr, g, n)
    ensures UpOk(r, hdr, RotateLayout(g, d, x, y), n)
  {
  }

  lemma RotateRoot(m: Mem, r: Mem, nil: Node, hdr: Node, g: Layout, d: Dir, x: Node, y: Node)
    requires Turning(m, r, nil, hdr, g, d, x, y)
    requires m[hdr].right == nil && RootOk(m, nil, hdr, g)
    ensures r[hdr].right == nil && RootOk(r, nil, hdr, RotateLayout(g, d, x, y))
  {
  }

  lemma RotateNode(m: Mem, r: Mem, nil: Node, hdr: Node, g: Layout, d: Dir, x: Node, y: Node, n: Node)
    requires Turning(m, r, nil, hdr, g, d, x, y)
    requires n in g.at && NodeOk(m, nil, hdr, g, n) && SpotOk(RotateLayout(g, d, x, y), n)
    ensures NodeOk(r, nil, hdr, RotateLayout(g, d, x, y), n)
  {
    RotateSide(m, r, nil, hdr, g, d, x, y, n, Left);
    RotateSide(m, r, nil, hdr, g, d, x, y, n, Right);
    RotateUp(m, r, nil, hdr, g, d, x, y, n);
  }

  /** A rotation at `x` keeps the tree linked, with the same nodes in the same order. */
  lemma RotateLinked(m: Mem, r: Mem, nil: Node, hdr: Node, g: Layout, d: Dir, x: Node)
    requires CanRotate(m, nil, hdr, g, d, x) && Kid(m, x, d.Flip()) in g.at && m[x].parent in m
    requires Rotated(m, r, nil, d, x)
    ensures Linked(r, nil, hdr, RotateLayout(g, d, x, Kid(m, x, d.Flip())))
  {
    RotationNodes(m, nil, hdr, g, d, x);
    var y := Kid(m, x, d.Flip());
    RotatePlaced(m, nil, hdr, g, d, x, y);
    var h := RotateLayout(g, d, x, y);
    assert NodeOk(m, nil, hdr, g, x) && NodeOk(m, nil, hdr, g, y);
    assert Turning(m, r, nil, hdr, g, d, x, y);
    RotateRoot(m, r, nil, hdr, g, d, x, y);
    forall n | n in h.at
      ensures NodeOk(r, nil, hdr, h, n)
    {
      assert NodeOk(m, nil, hdr, g, n);
      RotateNode(m, r, nil, hdr, g, d, x, y, n);
    }
  }
}
