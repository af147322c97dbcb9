/** Attaching a new leaf to the tree, and taking a node with at most one child out. */
module RbLink {
  import opened RbShape
  import opened RbBalance

  // --------------------------------------------------------------- attaching

  /** The empty place on side `d` of `y` (of the header, in an empty tree) is where
      an element between positions `k - 1` and `k` belongs. */
  ghost predicate Vacant(m: Mem, nil: Node, hdr: Node, g: Layout, y: Node, d: Dir, k: int)
    requires y in m
  {
    && 0 <= k <= |g.order|
    && Kid(m, y, d) == nil
    && (y == hdr ==> g.order == [] && d == Left)
    && (y != hdr ==> y in g.at && From(g, y, d) == k == To(g, y, d))
    && (forall n {:trigger g.at[n]} :: n in g.at ==>
          && (g.at[n].lo == g.at[n].pos == k ==> n == y && d == Left)
          && (g.at[n].pos + 1 == g.at[n].hi == k ==> n == y && d == Right))
  }

  /** A descent has reached side `d` of `y`, which covers the positions `a .. b`. */
  ghost predicate Probing(m: Mem, nil: Node, hdr: Node, g: Layout, y: Node, d: Dir, a: int, b: int)
    requires y in m
  {
    && 0 <= a <= b <= |g.order|
    && (y == hdr ==> d == Left && a == 0 && b == |g.order|)
    && (y != hdr ==> y in g.at && a == From(g, y, d) && b == To(g, y, d))
    && (0 < a ==> g.order[a - 1] in g.at && if d == Left then g.at[g.order[a - 1]].hi > b else g.order[a - 1] == y)
    && (b < |g.order| ==> g.order[b] in g.at && if d == Left then g.order[b] == y else g.at[g.order[b]].lo < a)
  }

  lemma ProbeHere(m: Mem, nil: Node, hdr: Node, g: Layout, y: Node, d: Dir, a: int, b: int)
    requires Linked(m, nil, hdr, g) && y in m && Probing(m, nil, hdr, g, y, d, a, b)
    ensures var x := Kid(m, y, d);
            if a == b then x == nil
            else x in g.at && g.at[x].lo == a && g.at[x].hi == b && a <= g.at[x].pos < b && m[x].parent == y
  {
    if y in g.at {
      assert NodeOk(m, nil, hdr, g, y);
    }
    if a != b {
      assert SpotOk(g, Kid(m, y, d));
    }
  }

  lemma ProbeStep(m: Mem, nil: Node, hdr: Node, g: Layout, y: Node, d: Dir, a: int, b: int, e: Dir)
    requires Linked(m, nil, hdr, g) && y in m && Probing(m, nil, hdr, g, y, d, a, b) && a != b
    ensures var x := Kid(m, y, d); x in g.at && Probing(m, nil, hdr, g, x, e, From(g, x, e), To(g, x, e))
  {
    ProbeHere(m, nil, hdr, g, y, d, a, b);
    var x := Kid(m, y, d);
    assert SpotOk(g, x);
    if y in g.at {
      assert SpotOk(g, y);
    }
  }

  lemma ProbeVacant(m: Mem, nil: Node, hdr: Node, g: Layout, y: Node, d: Dir, k: int)
    requires Linked(m, nil, hdr, g) && y in m && Probing(m, nil, hdr, g, y, d, k, k)
    ensures Vacant(m, nil, hdr, g, y, d, k)
  {
    ProbeHere(m, nil, hdr, g, y, d, k, k);
    forall n | n in g.at
      ensures g.at[n].lo == g.at[n].pos == k ==> n == y && d == Left
      ensures g.at[n].pos + 1 == g.at[n].hi == k ==> n == y && d == Right
    {
      assert SpotOk(g, n);
    }
  }

  function ShiftUp(s: Spot, k: int): Spot {
    Spot(if s.pos >= k then s.pos + 1 else s.pos,
         if s.lo > k then s.lo + 1 else s.lo,
         if s.hi >= k then s.hi + 1 else s.hi,
         s.bh)
  }

  /** The layout with a red leaf `z` put at position `k`. */
  ghost function AttachLayout(g: Layout, k: int, z: Node): Layout
    requires 0 <= k <= |g.order|
  {
    Layout(g.order[..k] + [z] + g.order[k..],
           (map n | n in g.at :: ShiftUp(g.at[n], k))[z := Spot(k, k, k + 1, 0)])
  }

  function Attach(m: Mem, nil: Node, y: Node, d: Dir, z: Node): Mem
    requires y in m
  {
    SetKid(m, y, d, z)[z := Cell(true, y, nil, nil)]
  }

  lemma AttachSpot(g: Layout, k: int, z: Node, n: Node)
    requires Placed(g) && z !in g.at && 0 <= k <= |g.order| && (n in g.at || n == z)
    ensures n in AttachLayout(g, k, z).at && SpotOk(AttachLayout(g, k, z), n)
  {
    if n != z {
      assert SpotOk(g, n);
    }
  }

  lemma AttachPlaced(g: Layout, k: int, z: Node)
    requires Placed(g) && z !in g.at && 0 <= k <= |g.order|
    ensures Placed(AttachLayout(g, k, z))
  {
    var h := AttachLayout(g, k, z);
    forall n | n in h.at
      ensures SpotOk(h, n)
    {
      AttachSpot(g, k, z, n);
    }
    forall i | 0 <= i < |h.order|
      ensures h.order[i] in h.at && h.at[h.order[i]].pos == i
    {
      assert h.order[i] == if i < k then g.order[i] else if i == k then z else g.order[i - 1];
    }
  }

  lemma AttachSide(m: Mem, nil: Node, hdr: Node, g: Layout, y: Node, d: Dir, k: int, z: Node, n: Node, e: Dir)
    requires Linked(m, nil, hdr, g) && z !in m && y in m && Vacant(m, nil, hdr, g, y, d, k)
    requires n in g.at && NodeOk(m, nil, hdr, g, n)
    ensures SideOk(Attach(m, nil, y, d, z), nil, AttachLayout(g, k, z), n, e)
  {
    var h := AttachLayout(g, k, z);
    assert h.at[n] == ShiftUp(g.at[n], k);
    var c := Kid(m, n, e);
    if c in g.at {
      assert h.at[c] == ShiftUp(g.at[c], k);
      assert SpotOk(g, c);
    }
  }

  lemma AttachNode(m: Mem, nil: Node, hdr: Node, g: Layout, y: Node, d: Dir, k: int, z: Node, n: Node)
    requires Linked(m, nil, hdr, g) && z !in m && y in m && Vacant(m, nil, hdr, g, y, d, k)
    requires n in g.at || n == z
    ensures n in AttachLayout(g, k, z).at && NodeOk(Attach(m, nil, y, d, z), nil, hdr, AttachLayout(g, k, z), n)
  {
    AttachSpot(g, k, z, n);
    if n != z {
      assert NodeOk(m, nil, hdr, g, n);
      AttachSide(m, nil, hdr, g, y, d, k, z, n, Left);
      AttachSide(m, nil, hdr, g, y, d, k, z, n, Right);
    }
  }

  lemma AttachRoot(m: Mem, nil: Node, hdr: Node, g: Layout, y: Node, d: Dir, k: int, z: Node)
    requires Linked(m, nil, hdr, g) && z !in m && y in m && Vacant(m, nil, hdr, g, y, d, k)
    ensures var r := Attach(m, nil, y, d, z);
            hdr in r && r[hdr].right == nil && RootOk(r, nil, hdr, AttachLayout(g, k, z))
    ensures Attach(m, nil, y, d, z).Keys == AttachLayout(g, k, z).at.Keys + {nil, hdr}
  {
    if y in g.at {
      assert SpotOk(g, y);
    }
    if g.order != [] {
      assert AttachLayout(g, k, z).at[m[hdr].left] == ShiftUp(g.at[m[hdr].left], k);
    }
  }

  lemma AttachLinked(m: Mem, nil: Node, hdr: Node, g: Layout, y: Node, d: Dir, k: int, z: Node)
    requires Linked(m, nil, hdr, g) && z !in m && y in m && Vacant(m, nil, hdr, g, y, d, k)
    ensures Linked(Attach(m, nil, y, d, z), nil, hdr, AttachLayout(g, k, z))
  {
    var h := AttachLayout(g, k, z);
    var r := Attach(m, nil, y, d, z);
    AttachPlaced(g, k, z);
    AttachRoot(m, nil, hdr, g, y, d, k, z);
    forall n | n in h.at
      ensures NodeOk(r, nil, hdr, h, n)
    {
      AttachNode(m, nil, hdr, g, y, d, k, z, n);
    }
  }

  lemma AttachRules(m: Mem, nil: Node, hdr: Node, g: Layout, y: Node, d: Dir, k: int, z: Node, n: Node)
    requires Linked(m, nil, hdr, g) && z !in m && y in m && Vacant(m, nil, hdr, g, y, d, k) && !m[nil].red
    requires n in g.at && NodeOk(m, nil, hdr, g, n) && HeightOk(m, g, NoHole, n) && ColorOk(m, nil, n)
    ensures var r := Attach(m, nil, y, d, z); HeightOk(r, AttachLayout(g, k, z), NoHole, n) && ColorOk(r, z, n)
  {
    var h := AttachLayout(g, k, z);
    assert forall c {:trigger Height(h, c)} :: c != z ==> Height(h, c) == Height(g, c);
  }

  /** Hanging a red leaf on the vacant place breaks no rule but perhaps the one
      against two reds in a row, and puts the leaf at position `k`. */
  lemma AttachRepairing(m: Mem, nil: Node, hdr: Node, g: Layout, y: Node, d: Dir, k: int, z: Node)
    requires RedBlack(m, nil, hdr, g) && z !in m && y in m && Vacant(m, nil, hdr, g, y, d, k)
    ensures Repairing(Attach(m, nil, y, d, z), nil, hdr, AttachLayout(g, k, z), z, NoHole)
  {
    var h := AttachLayout(g, k, z);
    var r := Attach(m, nil, y, d, z);
    AttachLinked(m, nil, hdr, g, y, d, k, z);
    forall n | n in h.at
      ensures HeightOk(r, h, NoHole, n) && ColorOk(r, z, n)
    {
      if n != z {
        assert NodeOk(m, nil, hdr, g, n) && HeightOk(m, g, NoHole, n) && ColorOk(m, nil, n);
        AttachRules(m, nil, hdr, g, y, d, k, z, n);
      }
    }
  }

  // --------------------------------------------------------------- detaching

  /** The only child of `y`, or the sentinel. */
  function OnlyKid(m: Mem, nil: Node, y: Node): Node
    requires y in m
  {
    if m[y].left != nil then m[y].left else m[y].right
  }

  /** The side of its parent on which `y` hangs. */
  function SideOf(m: Mem, y: Node): Dir
    requires y in m && m[y].parent in m
  {
    if m[m[y].parent].left == y then Left else Right
  }

  ghost predicate Spare(m: Mem, nil: Node, hdr: Node, g: Layout, y: Node)
  {
    Linked(m, nil, hdr, g) && y in g.at && (m[y].left == nil || m[y].right == nil)
  }

  /** The only child of `y` takes its place below its parent. The parent field is
      written even when that child is the sentinel. */
  function Detach(m: Mem, nil: Node, y: Node): Mem
    requires y in m && m[y].parent in m && OnlyKid(m, nil, y) in m
  {
    var x, p := OnlyKid(m, nil, y), m[y].parent;
    SetKid(SetParent(m, x, p), p, SideOf(m, y), x) - {y}
  }

  function ShiftDown(s: Spot, k: int): Spot {
    Spot(if s.pos > k then s.pos - 1 else s.pos,
         if s.lo > k then s.lo - 1 else s.lo,
         if s.hi > k then s.hi - 1 else s.hi,
         s.bh)
  }

  ghost function DetachLayout(g: Layout, y: Node): Layout
    requires y in g.at && 0 <= g.at[y].pos < |g.order|
  {
    Layout(g.order[..g.at[y].pos] + g.order[g.at[y].pos + 1..],
           map n | n in g.at && n != y :: ShiftDown(g.at[n], g.at[y].pos))
  }

  lemma DetachSpot(g: Layout, y: Node, n: Node)
    requires Placed(g) && y in g.at && n in g.at && n != y && SpotOk(g, y)
    ensures SpotOk(DetachLayout(g, y), n)
  {
    assert SpotOk(g, n);
  }

  lemma DetachPlaced(g: Layout, y: Node)
    requires Placed(g) && y in g.at && SpotOk(g, y)
    ensures Placed(DetachLayout(g, y))
  {
    var h := DetachLayout(g, y);
    var k := g.at[y].pos;
    forall n | n in h.at
      ensures SpotOk(h, n)
    {
      DetachSpot(g, y, n);
    }
    forall i | 0 <= i < |h.order|
      ensures h.order[i] in h.at && h.at[h.order[i]].pos == i
    {
      assert h.order[i] == if i < k then g.order[i] else g.order[i + 1];
    }
  }

  /** The nodes involved in taking `y` out. */
  ghost predicate Detaching(m: Mem, nil: Node, hdr: Node, g: Layout, y: Node)
  {
    && nil != hdr && nil !in g.at && hdr !in g.at && m.Keys == g.at.Keys + {nil, hdr}
    && y in g.at && NodeOk(m, nil, hdr, g, y) && OnlyKid(m, nil, y) in m
    && (m[y].left == nil || m[y].right == nil)
    && m[y].parent != y && OnlyKid(m, nil, y) != y && OnlyKid(m, nil, y) != m[y].parent
    && ((m[m[y].parent].left == y) != (m[m[y].parent].right == y))
  }

  lemma DetachingNodes(m: Mem, nil: Node, hdr: Node, g: Layout, y: Node)
    requires Spare(m, nil, hdr, g, y)
    ensures Detaching(m, nil, hdr, g, y)
  {
    assert NodeOk(m, nil, hdr, g, y);
    var p := m[y].parent;
    if p in g.at {
      assert NodeOk(m, nil, hdr, g, p);
    }
  }

  lemma DetachSideAway(m: Mem, nil: Node, hdr: Node, g: Layout, y: Node, n: Node, e: Dir)
    requires Detaching(m, nil, hdr, g, y) && Placed(g)
    requires n in g.at && n != y && Kid(m, n, e) != y && NodeOk(m, nil, hdr, g, n)
    ensures SideOk(Detach(m, nil, y), nil, DetachLayout(g, y), n, e)
  {
    var h := DetachLayout(g, y);
    assert h.at[n] == ShiftDown(g.at[n], g.at[y].pos);
    var c := Kid(m, n, e);
    assert Kid(Detach(m, nil, y), n, e) == c;
    if c in g.at {
      assert SpotOk(g, c);
      assert h.at[c] == ShiftDown(g.at[c], g.at[y].pos);
    }
  }

  lemma DetachSideAt(m: Mem, nil: Node, hdr: Node, g: Layout, y: Node, n: Node, e: Dir)
    requires Detaching(m, nil, hdr, g, y) && Placed(g)
    requires n in g.at && n != y && Kid(m, n, e) == y && SideOk(m, nil, g, n, e)
    ensures SideOk(Detach(m, nil, y), nil, DetachLayout(g, y), n, e)
  {
    var h := DetachLayout(g, y);
    var x := OnlyKid(m, nil, y);
    assert h.at[n] == ShiftDown(g.at[n], g.at[y].pos);
    assert Kid(Detach(m, nil, y), n, e) == x;
    if x in g.at {
      assert h.at[x] == ShiftDown(g.at[x], g.at[y].pos);
      assert SpotOk(g, x);
    }
  }

  lemma DetachSide(m: Mem, nil: Node, hdr: Node, g: Layout, y: Node, n: Node, e: Dir)
    requires Detaching(m, nil, hdr, g, y) && Placed(g)
    requires n in g.at && n != y && NodeOk(m, nil, hdr, g, n)
    ensures SideOk(Detach(m, nil, y), nil, DetachLayout(g, y), n, e)
  {
    if Kid(m, n, e) == y {
      DetachSideAt(m, nil, hdr, g, y, n, e);
    } else {
      DetachSideAway(m, nil, hdr, g, y, n, e);
    }
  }

  lemma DetachUp(m: Mem, nil: Node, hdr: Node, g: Layout, y: Node, n: Node)
    requires Detaching(m, nil, hdr, g, y)
    requires n in g.at && n != y && NodeOk(m, nil, hdr, g, n)
    ensures UpOk(Detach(m, nil, y), hdr, DetachLayout(g, y), n)
  {
  }

  lemma DetachRoot(m: Mem, nil: Node, hdr: Node, g: Layout, y: Node)
    requires Detaching(m, nil, hdr, g, y) && Placed(g) && RootOk(m, nil, hdr, g) && m[hdr].right == nil
    ensures var r := Detach(m, nil, y);
            && r.Keys == DetachLayout(g, y).at.Keys + {nil, hdr}
            && r[hdr].right == nil && RootOk(r, nil, hdr, DetachLayout(g, y))
  {
    var h := DetachLayout(g, y);
    var t := m[hdr].left;
    assert SpotOk(g, t);
    if t != y {
      assert h.at[t] == ShiftDown(g.at[t], g.at[y].pos);
    } else {
      var x := OnlyKid(m, nil, y);
      if x in g.at {
        assert h.at[x] == ShiftDown(g.at[x], g.at[y].pos);
        assert SpotOk(g, x);
      }
    }
  }

  /** Taking out a node with at most one child keeps the rest linked, in order. */
  lemma DetachLinked(m: Mem, nil: Node, hdr: Node, g: Layout, y: Node)
    requires Spare(m, nil, hdr, g, y)
    ensures Detaching(m, nil, hdr, g, y) && Linked(Detach(m, nil, y), nil, hdr, DetachLayout(g, y))
  {
    DetachingNodes(m, nil, hdr, g, y);
    var h := DetachLayout(g, y);
    var r := Detach(m, nil, y);
    DetachPlaced(g, y);
    DetachRoot(m, nil, hdr, g, y);
    forall n | n in h.at
      ensures NodeOk(r, nil, hdr, h, n)
    {
      assert NodeOk(m, nil, hdr, g, n);
      DetachSpot(g, y, n);
      DetachSide(m, nil, hdr, g, y, n, Left);
      DetachSide(m, nil, hdr, g, y, n, Right);
      DetachUp(m, nil, hdr, g, y, n);
    }
  }

  /** What is missing once `y` is out: a black node on its side of its parent, if
      it was black. */
  function LeftBy(m: Mem, y: Node): Hole
    requires y in m && m[y].parent in m
  {
    if m[y].red then NoHole else Hole(m[y].parent, SideOf(m, y))
  }

  lemma DetachHeight(m: Mem, nil: Node, hdr: Node, g: Layout, y: Node, n: Node)
    requires Detaching(m, nil, hdr, g, y) && HeightOk(m, g, NoHole, y)
    requires n in g.at && n != y && NodeOk(m, nil, hdr, g, n) && HeightOk(m, g, NoHole, n)
    ensures HeightOk(Detach(m, nil, y), DetachLayout(g, y), LeftBy(m, y), n)
  {
    var h := DetachLayout(g, y);
    assert forall c {:trigger Height(h, c)} :: c != y ==> Height(h, c) == Height(g, c);
    if n == m[y].parent {
      assert SideHeight(Detach(m, nil, y), h, LeftBy(m, y), n, SideOf(m, y)) == Height(g, y);
    }
  }

  lemma DetachColor(m: Mem, nil: Node, hdr: Node, g: Layout, y: Node, n: Node)
    requires Detaching(m, nil, hdr, g, y) && !m[nil].red
    requires n in g.at && n != y && NodeOk(m, nil, hdr, g, n) && ColorOk(m, nil, n)
    ensures ColorOk(Detach(m, nil, y), OnlyKid(m, nil, y), n)
  {
  }

  lemma DetachRootColor(m: Mem, nil: Node, hdr: Node, g: Layout, y: Node)
    requires Detaching(m, nil, hdr, g, y) && !m[nil].red && !m[hdr].red
    requires m[hdr].right == nil && (m[hdr].left in m ==> !m[m[hdr].left].red)
    ensures var r := Detach(m, nil, y);
            && hdr in r && nil in r && !r[nil].red && !r[hdr].red
            && (r[hdr].left in r && r[r[hdr].left].red ==> r[hdr].left == OnlyKid(m, nil, y))
  {
  }

  /** Taking `y` out of a red-black tree leaves at most one black node missing, where
      `y` was, and at most one red node under a red one, the child of `y`. */
  lemma DetachRepairing(m: Mem, nil: Node, hdr: Node, g: Layout, y: Node)
    requires RedBlack(m, nil, hdr, g) && Spare(m, nil, hdr, g, y)
    ensures Detaching(m, nil, hdr, g, y)
    ensures Repairing(Detach(m, nil, y), nil, hdr, DetachLayout(g, y), OnlyKid(m, nil, y), LeftBy(m, y))
  {
    DetachLinked(m, nil, hdr, g, y);
    var h := DetachLayout(g, y);
    var r := Detach(m, nil, y);
    assert HeightOk(m, g, NoHole, y);
    DetachRootColor(m, nil, hdr, g, y);
    forall n | n in h.at
      ensures HeightOk(r, h, LeftBy(m, y), n) && ColorOk(r, OnlyKid(m, nil, y), n)
    {
      assert NodeOk(m, nil, hdr, g, n) && HeightOk(m, g, NoHole, n) && ColorOk(m, nil, n);
      DetachHeight(m, nil, hdr, g, y, n);
      DetachColor(m, nil, hdr, g, y, n);
    }
  }

  // --------------------------------------------------------------- replacing

  /** `y` takes over the fields of `z` and its neighbours point to `y` instead. The
      parent fields of both children are written, the sentinel's included. */
  function Replace(m: Mem, z: Node, y: Node): (r: Mem)
    requires z in m && m[z].parent in m && m[z].left in m && m[z].right in m
  {
    var m1 := SetKid(m, m[z].parent, SideOf(m, z), y);
    var m2 := SetParent(SetParent(m1, m[z].left, y), m[z].right, y);
    m2[y := m2[z]] - {z}
  }

  ghost function ReplaceLayout(g: Layout, z: Node, y: Node): Layout
    requires z in g.at && 0 <= g.at[z].pos < |g.order|
  {
    Layout(g.order[g.at[z].pos := y], g.at[y := g.at[z]] - {z})
  }

  function ReplaceHole(hole: Hole, z: Node, y: Node): Hole {
    if hole.Hole? && hole.p == z then Hole(y, hole.d) else hole
  }

  ghost predicate Replacing(m: Mem, nil: Node, hdr: Node, g: Layout, z: Node, y: Node)
  {
    && nil != hdr && nil !in g.at && hdr !in g.at && m.Keys == g.at.Keys + {nil, hdr}
    && z in g.at && y !in m && NodeOk(m, nil, hdr, g, z)
    && m[z].left in m && m[z].right in m && m[z].left != z && m[z].right != z && m[z].parent != z
    && m[z].left != m[z].parent && m[z].right != m[z].parent
    && ((m[m[z].parent].left == z) != (m[m[z].parent].right == z))
  }

  lemma ReplacingNodes(m: Mem, nil: Node, hdr: Node, g: Layout, z: Node, y: Node)
    requires Linked(m, nil, hdr, g) && z in g.at && y !in m
    ensures Replacing(m, nil, hdr, g, z, y)
  {
    assert NodeOk(m, nil, hdr, g, z);
    if m[z].parent in g.at {
      assert NodeOk(m, nil, hdr, g, m[z].parent);
    }
  }

  lemma ReplacePlaced(g: Layout, z: Node, y: Node)
    requires Placed(g) && z in g.at && SpotOk(g, z) && y !in g.at
    ensures Placed(ReplaceLayout(g, z, y))
  {
    var h := ReplaceLayout(g, z, y);
    forall n | n in h.at
      ensures SpotOk(h, n)
    {
      assert SpotOk(g, if n == y then z else n);
    }
  }

  lemma ReplaceSide(m: Mem, nil: Node, hdr: Node, g: Layout, z: Node, y: Node, n: Node, e: Dir)
    requires Replacing(m, nil, hdr, g, z, y)
    requires n in g.at && NodeOk(m, nil, hdr, g, n)
    ensures SideOk(Replace(m, z, y), nil, ReplaceLayout(g, z, y), if n == z then y else n, e)
  {
    var r := Replace(m, z, y);
    if n == z {
      assert Kid(r, y, e) == Kid(m, z, e);
    } else {
      assert Kid(r, n, e) == if Kid(m, n, e) == z then y else Kid(m, n, e);
    }
  }

  lemma ReplaceUp(m: Mem, nil: Node, hdr: Node, g: Layout, z: Node, y: Node, n: Node)
    requires Replacing(m, nil, hdr, g, z, y)
    requires n in g.at && NodeOk(m, nil, hdr, g, n)
    ensures UpOk(Replace(m, z, y), hdr, ReplaceLayout(g, z, y), if n == z then y else n)
  {
  }

  lemma ReplaceRoot(m: Mem, nil: Node, hdr: Node, g: Layout, z: Node, y: Node)
    requires Replacing(m, nil, hdr, g, z, y) && RootOk(m, nil, hdr, g) && m[hdr].right == nil
    ensures var r := Replace(m, z, y);
            && r.Keys == ReplaceLayout(g, z, y).at.Keys + {nil, hdr}
            && r[hdr].right == nil && RootOk(r, nil, hdr, ReplaceLayout(g, z, y))
  {
  }

  lemma ReplaceLinked(m: Mem, nil: Node, hdr: Node, g: Layout, z: Node, y: Node)
    requires Linked(m, nil, hdr, g) && z in g.at && y !in m
    ensures Replacing(m, nil, hdr, g, z, y) && Linked(Replace(m, z, y), nil, hdr, ReplaceLayout(g, z, y))
  {
    ReplacingNodes(m, nil, hdr, g, z, y);
    var h := ReplaceLayout(g, z, y);
    var r := Replace(m, z, y);
    ReplacePlaced(g, z, y);
    ReplaceRoot(m, nil, hdr, g, z, y);
    forall n | n in h.at
      ensures NodeOk(r, nil, hdr, h, n)
    {
      var o := if n == y then z else n;
      assert NodeOk(m, nil, hdr, g, o);
      assert SpotOk(h, n);
      ReplaceSide(m, nil, hdr, g, z, y, o, Left);
      ReplaceSide(m, nil, hdr, g, z, y, o, Right);
      ReplaceUp(m, nil, hdr, g, z, y, o);
    }
  }

  lemma ReplaceHeight(m: Mem, nil: Node, hdr: Node, g: Layout, z: Node, y: Node, hole: Hole, n: Node)
    requires Replacing(m, nil, hdr, g, z, y) && (hole.Hole? ==> hole.p in m)
    requires n in g.at && NodeOk(m, nil, hdr, g, n) && HeightOk(m, g, hole, n)
    ensures HeightOk(Replace(m, z, y), ReplaceLayout(g, z, y), ReplaceHole(hole, z, y), if n == z then y else n)
  {
    var h := ReplaceLayout(g, z, y);
    var r := Replace(m, z, y);
    assert forall c {:trigger Height(h, c)} :: c != y && c != z ==> Height(h, c) == Height(g, c);
    assert Height(h, y) == Height(g, z);
    if n == z {
      assert r[y].left == m[z].left && r[y].right == m[z].right && r[y].red == m[z].red;
    } else {
      assert r[n].left == (if m[n].left == z then y else m[n].left);
      assert r[n].right == (if m[n].right == z then y else m[n].right);
    }
  }

  lemma ReplaceColor(m: Mem, nil: Node, hdr: Node, g: Layout, z: Node, y: Node, e: Node, n: Node)
    requires Replacing(m, nil, hdr, g, z, y) && e != z
    requires n in g.at && NodeOk(m, nil, hdr, g, n) && ColorOk(m, e, n)
    ensures ColorOk(Replace(m, z, y), e, if n == z then y else n)
  {
  }

  lemma ReplaceRootColor(m: Mem, nil: Node, hdr: Node, g: Layout, z: Node, y: Node, e: Node)
    requires Replacing(m, nil, hdr, g, z, y) && e != z && !m[nil].red && !m[hdr].red && RootOk(m, nil, hdr, g)
    requires m[hdr].right == nil && (m[hdr].left in m && m[m[hdr].left].red ==> m[hdr].left == e)
    ensures var r := Replace(m, z, y);
            && hdr in r && nil in r && !r[nil].red && !r[hdr].red
            && (r[hdr].left in r && r[r[hdr].left].red ==> r[hdr].left == e)
  {
  }

  /** Replacing a node by another keeps the tree, with the new node in the old
      one's place in order, and moves along what was broken. */
  lemma ReplaceRepairing(m: Mem, nil: Node, hdr: Node, g: Layout, z: Node, y: Node, e: Node, hole: Hole)
    requires Repairing(m, nil, hdr, g, e, hole) && z in g.at && y !in m && e != z && (hole.Hole? ==> hole.p in m)
    ensures Replacing(m, nil, hdr, g, z, y)
    ensures Repairing(Replace(m, z, y), nil, hdr, ReplaceLayout(g, z, y), e, ReplaceHole(hole, z, y))
  {
    ReplaceLinked(m, nil, hdr, g, z, y);
    var h := ReplaceLayout(g, z, y);
    var r := Replace(m, z, y);
    ReplaceRootColor(m, nil, hdr, g, z, y, e);
    forall n | n in h.at
      ensures HeightOk(r, h, ReplaceHole(hole, z, y), n) && ColorOk(r, e, n)
    {
      var o := if n == y then z else n;
      assert NodeOk(m, nil, hdr, g, o) && HeightOk(m, g, hole, o) && ColorOk(m, e, o);
      ReplaceHeight(m, nil, hdr, g, z, y, hole, o);
      ReplaceColor(m, nil, hdr, g, z, y, e, o);
    }
  }
}
