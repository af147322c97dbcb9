/** The repair after an insertion, one lemma a branch. Between steps the only
    broken rule is that `x`, which is red, may have a red parent. */
module RbInsert {
  import opened RbShape
  import opened RbBalance

  ghost predicate Inserting(m: Mem, nil: Node, hdr: Node, g: Layout, x: Node)
  {
    Repairing(m, nil, hdr, g, x, NoHole) && x in g.at && m[x].red
  }

  /** A red parent is not the root, so the grandparent is a black node of the tree. */
  lemma Grandparent(m: Mem, nil: Node, hdr: Node, g: Layout, x: Node)
    requires Inserting(m, nil, hdr, g, x) && m[x].parent in m && m[m[x].parent].red
    ensures var p := m[x].parent;
            && p in g.at && p != x && (m[p].left == x || m[p].right == x)
            && m[p].parent in g.at && !m[m[p].parent].red && m[p].parent != p && m[p].parent != x
            && ((m[m[p].parent].left == p) != (m[m[p].parent].right == p))
  {
    var p := m[x].parent;
    assert NodeOk(m, nil, hdr, g, x);
    assert NodeOk(m, nil, hdr, g, p);
    assert ColorOk(m, x, p);
    var q := m[p].parent;
    if q in g.at {
      assert NodeOk(m, nil, hdr, g, q);
      assert ColorOk(m, x, q);
    }
  }

  ghost function Uncle(m: Mem, x: Node): Node
    requires x in m && m[x].parent in m && m[m[x].parent].parent in m
  {
    var p := m[x].parent;
    var q := m[p].parent;
    if m[q].left == p then m[q].right else m[q].left
  }

  function Recolor(m: Mem, p: Node, y: Node, q: Node): Mem
    requires p in m && y in m && q in m
  {
    SetRed(SetRed(SetRed(m, p, false), y, false), q, true)
  }

  /** `p` and `y` are the red children of the black `q`, and `x` is a child of `p`. */
  ghost predicate RedPair(m: Mem, g: Layout, x: Node, p: Node, y: Node, q: Node)
  {
    && g.at.Keys <= m.Keys && p in g.at && y in g.at && q in g.at && x in g.at
    && p != y && p != q && y != q && x != q && m[p].red && m[y].red && !m[q].red
    && m[p].parent == q && m[y].parent == q && m[x].parent == p
    && ((m[q].left == p && m[q].right == y) || (m[q].left == y && m[q].right == p))
  }

  ghost function RecolorLayout(g: Layout, p: Node, y: Node): (h: Layout)
    requires p in g.at && y in g.at
    ensures h.order == g.order && h.at.Keys == g.at.Keys
  {
    WithHeight(WithHeight(g, p, g.at[p].bh + 1), y, g.at[y].bh + 1)
  }

  lemma RecolorNode(m: Mem, nil: Node, hdr: Node, g: Layout, x: Node, p: Node, y: Node, q: Node, n: Node)
    requires nil !in g.at && RedPair(m, g, x, p, y, q)
    requires n in g.at && NodeOk(m, nil, hdr, g, n) && HeightOk(m, g, NoHole, n) && ColorOk(m, x, n)
    requires HeightOk(m, g, NoHole, p) && HeightOk(m, g, NoHole, q)
    ensures HeightOk(Recolor(m, p, y, q), RecolorLayout(g, p, y), NoHole, n)
    ensures ColorOk(Recolor(m, p, y, q), q, n)
  {
    var h := RecolorLayout(g, p, y);
    assert forall k {:trigger Height(h, k)} :: k != p && k != y ==> Height(h, k) == Height(g, k);
    if n == p || n == y || n == q {
    } else {
      assert m[n].left != p && m[n].right != p && m[n].left != y && m[n].right != y;
    }
  }

  lemma RecolorRules(m: Mem, nil: Node, hdr: Node, g: Layout, x: Node, p: Node, y: Node, q: Node)
    requires Inserting(m, nil, hdr, g, x) && RedPair(m, g, x, p, y, q)
    ensures Balanced(Recolor(m, p, y, q), RecolorLayout(g, p, y), NoHole)
    ensures forall n {:trigger ColorOk(Recolor(m, p, y, q), q, n)} :: n in g.at ==> ColorOk(Recolor(m, p, y, q), q, n)
  {
    var h := RecolorLayout(g, p, y);
    var r := Recolor(m, p, y, q);
    assert HeightOk(m, g, NoHole, p) && HeightOk(m, g, NoHole, q);
    forall n | n in g.at
      ensures HeightOk(r, h, NoHole, n) && ColorOk(r, q, n)
    {
      assert NodeOk(m, nil, hdr, g, n);
      assert HeightOk(m, g, NoHole, n) && ColorOk(m, x, n);
      RecolorNode(m, nil, hdr, g, x, p, y, q, n);
    }
  }

  lemma RecolorRoot(m: Mem, nil: Node, hdr: Node, g: Layout, x: Node, p: Node, y: Node, q: Node)
    requires Inserting(m, nil, hdr, g, x) && RedPair(m, g, x, p, y, q)
    ensures var r := Recolor(m, p, y, q);
            !r[nil].red && !r[hdr].red && (r[hdr].left in r && r[r[hdr].left].red ==> r[hdr].left == q)
  {
  }

  lemma RecolorLinked(m: Mem, nil: Node, hdr: Node, g: Layout, x: Node, p: Node, y: Node, q: Node)
    requires Linked(m, nil, hdr, g) && RedPair(m, g, x, p, y, q)
    ensures Linked(Recolor(m, p, y, q), nil, hdr, RecolorLayout(g, p, y))
  {
    SetRedLinked(m, nil, hdr, g, p, false);
    SetRedLinked(SetRed(m, p, false), nil, hdr, g, y, false);
    SetRedLinked(SetRed(SetRed(m, p, false), y, false), nil, hdr, g, q, true);
    WithHeightLinked(Recolor(m, p, y, q), nil, hdr, g, p, g.at[p].bh + 1);
    WithHeightLinked(Recolor(m, p, y, q), nil, hdr, WithHeight(g, p, g.at[p].bh + 1), y, g.at[y].bh + 1);
  }

  lemma RedUncle(m: Mem, nil: Node, hdr: Node, g: Layout, x: Node)
    requires Inserting(m, nil, hdr, g, x) && m[x].parent in m && m[m[x].parent].red
    requires m[m[x].parent].parent in m && Uncle(m, x) in m && m[Uncle(m, x)].red
    ensures var p := m[x].parent; RedPair(m, g, x, p, Uncle(m, x), m[p].parent)
    ensures var q := m[m[x].parent].parent; g.at[x].hi - g.at[x].lo < g.at[q].hi - g.at[q].lo
  {
    Grandparent(m, nil, hdr, g, x);
    var p := m[x].parent;
    assert NodeOk(m, nil, hdr, g, m[p].parent) && NodeOk(m, nil, hdr, g, p) && SpotOk(g, x);
  }

  /** Uncle red: recolouring moves the violation up to the grandparent, whose
      subtree is larger. */
  lemma RecolorStep(m: Mem, nil: Node, hdr: Node, g: Layout, x: Node, p: Node, y: Node, q: Node)
    requires Inserting(m, nil, hdr, g, x) && p == m[x].parent && p in m && m[p].red
    requires q == m[p].parent && q in m && y == Uncle(m, x) && y in m && m[y].red
    ensures p in g.at && q in g.at && y in g.at
    ensures Inserting(Recolor(m, p, y, q), nil, hdr, RecolorLayout(g, p, y), q)
    ensures Recolor(m, p, y, q)[q].parent in m
    ensures var h := RecolorLayout(g, p, y); h.at[q].hi - h.at[q].lo > g.at[x].hi - g.at[x].lo
  {
    RedUncle(m, nil, hdr, g, x);
    RecolorLinked(m, nil, hdr, g, x, p, y, q);
    RecolorRules(m, nil, hdr, g, x, p, y, q);
    RecolorRoot(m, nil, hdr, g, x, p, y, q);
    ParentIn(m, nil, hdr, g, q);
  }

  /** `x` on the inner side `d.Flip()` of its red parent `p`: rotating `p` towards `d`
      puts `p` below `x`, both still red. */
  lemma InnerStep(m: Mem, r: Mem, nil: Node, hdr: Node, g: Layout, d: Dir, x: Node)
    requires Inserting(m, nil, hdr, g, x) && m[x].parent in m && m[m[x].parent].red
    requires Kid(m, m[x].parent, d.Flip()) == x && m[m[x].parent].parent in m
    requires Rotated(m, r, nil, d, m[x].parent)
    ensures var p := m[x].parent;
            p in g.at && Inserting(r, nil, hdr, Rebalance(g, d, p, x, g.at[p].bh, g.at[x].bh), p)
  {
    var p := m[x].parent;
    Grandparent(m, nil, hdr, g, x);
    assert NodeOk(m, nil, hdr, g, p) && NodeOk(m, nil, hdr, g, x);
    assert HeightOk(m, g, NoHole, p) && HeightOk(m, g, NoHole, x);
    assert ColorOk(m, x, p) && ColorOk(m, x, x);
    InnerOthers(m, nil, hdr, g, x, p);
    RotateRepairs(m, r, nil, hdr, g, d, p, x, g.at[p].bh, g.at[x].bh, p, NoHole);
  }

  lemma InnerOthers(m: Mem, nil: Node, hdr: Node, g: Layout, x: Node, p: Node)
    requires Inserting(m, nil, hdr, g, x) && m[x].parent == p && p in g.at && m[p].parent in g.at
    ensures OthersOk(m, nil, hdr, g, p, x, p, NoHole)
  {
    assert NodeOk(m, nil, hdr, g, p) && NodeOk(m, nil, hdr, g, x);
    forall n | n in g.at && n != x && n != p
      ensures RedKidsAre(m, p, p, n) && HeightOk(m, g, NoHole, n)
    {
      assert NodeOk(m, nil, hdr, g, n) && ColorOk(m, x, n) && HeightOk(m, g, NoHole, n);
    }
  }

  /** `x` and its red parent `p` both hang on side `d`, and the uncle is black. */
  ghost predicate Outer(m: Mem, g: Layout, d: Dir, x: Node, p: Node, q: Node)
  {
    && g.at.Keys <= m.Keys && x in g.at && p in g.at && q in g.at && x != p && p != q && x != q
    && m[x].parent == p && m[p].parent == q && Kid(m, p, d) == x && Kid(m, q, d) == p
    && m[x].red && m[p].red && !m[q].red
    && Kid(m, q, d.Flip()) in m && !m[Kid(m, q, d.Flip())].red
  }

  lemma OuterHere(m: Mem, nil: Node, hdr: Node, g: Layout, d: Dir, x: Node, p: Node, q: Node)
    requires Inserting(m, nil, hdr, g, x) && p == m[x].parent && p in m && m[p].red && q == m[p].parent && q in m
    requires Kid(m, q, d) == p && Kid(m, p, d.Flip()) != x && Kid(m, q, d.Flip()) in m && !m[Kid(m, q, d.Flip())].red
    ensures Outer(m, g, d, x, p, q)
  {
    Grandparent(m, nil, hdr, g, x);
  }

  /** After the inner rotation the old `x` is the parent on the outer path. */
  lemma InnerGivesOuter(m: Mem, r: Mem, nil: Node, hdr: Node, g: Layout, d: Dir, x: Node, p: Node, q: Node)
    requires Inserting(m, nil, hdr, g, x) && p == m[x].parent && p in m && m[p].red && q == m[p].parent && q in m
    requires Kid(m, q, d) == p && Kid(m, p, d.Flip()) == x && Kid(m, q, d.Flip()) in m && !m[Kid(m, q, d.Flip())].red
    requires Rotated(m, r, nil, d, p)
    ensures p in g.at && x in g.at && Outer(r, Rebalance(g, d, p, x, g.at[p].bh, g.at[x].bh), d, p, x, q)
  {
    Grandparent(m, nil, hdr, g, x);
    assert NodeOk(m, nil, hdr, g, q) && NodeOk(m, nil, hdr, g, p) && NodeOk(m, nil, hdr, g, x);
  }

  lemma OuterOthers(m: Mem, nil: Node, hdr: Node, g: Layout, d: Dir, x: Node, p: Node, q: Node)
    requires Inserting(m, nil, hdr, g, x) && Outer(m, g, d, x, p, q)
    ensures OthersOk(Repaint(m, p, q), nil, hdr, g, q, p, x, NoHole)
  {
    var r := Repaint(m, p, q);
    forall n | n in g.at && n != p && n != q
      ensures RedKidsAre(r, x, q, n) && HeightOk(r, g, NoHole, n)
    {
      assert NodeOk(m, nil, hdr, g, n) && ColorOk(m, x, n) && HeightOk(m, g, NoHole, n);
    }
  }

  lemma OuterFits(m: Mem, nil: Node, hdr: Node, g: Layout, d: Dir, x: Node, p: Node, q: Node)
    requires Inserting(m, nil, hdr, g, x) && Outer(m, g, d, x, p, q)
    ensures var r := Repaint(m, p, q);
            && r[q].parent in r
            && ColorsFit(r, hdr, d.Flip(), q, p, x)
            && HeightsFit(r, g, d.Flip(), q, p, g.at[p].bh, g.at[q].bh, NoHole)
  {
    assert NodeOk(m, nil, hdr, g, p) && NodeOk(m, nil, hdr, g, q);
    assert HeightOk(m, g, NoHole, p) && HeightOk(m, g, NoHole, q);
    assert ColorOk(m, x, p) && ColorOk(m, x, q);
  }

  lemma OuterParent(m: Mem, r: Mem, nil: Node, hdr: Node, g: Layout, d: Dir, x: Node, p: Node, q: Node)
    requires Inserting(m, nil, hdr, g, x) && Outer(m, g, d, x, p, q) && m[q].parent in m
    requires Rotated(Repaint(m, p, q), r, nil, d.Flip(), q)
    ensures x in r && p in r && r[x].parent == p && r[x].red && !r[p].red
  {
    assert NodeOk(m, nil, hdr, g, p) && NodeOk(m, nil, hdr, g, q);
  }

  /** `x` on the outer side of its parent, uncle black: one repainting and one
      rotation of the grandparent leave no violation. */
  lemma OuterStep(m: Mem, r: Mem, nil: Node, hdr: Node, g: Layout, d: Dir, x: Node, p: Node, q: Node)
    requires Inserting(m, nil, hdr, g, x) && Outer(m, g, d, x, p, q) && m[q].parent in m
    requires Rotated(Repaint(m, p, q), r, nil, d.Flip(), q)
    ensures Inserting(r, nil, hdr, Rebalance(g, d.Flip(), q, p, g.at[p].bh, g.at[q].bh), x)
    ensures r[x].parent == p && !r[p].red
  {
    OuterParent(m, r, nil, hdr, g, d, x, p, q);
    OuterOthers(m, nil, hdr, g, d, x, p, q);
    OuterFits(m, nil, hdr, g, d, x, p, q);
    RepaintLinked(m, nil, hdr, g, p, q);
    RotateRepairs(Repaint(m, p, q), r, nil, hdr, g, d.Flip(), q, p, g.at[p].bh, g.at[q].bh, x, NoHole);
  }

  /** With a black parent above `x`, blackening the root restores every rule. */
  lemma BlackenRoot(m: Mem, nil: Node, hdr: Node, g: Layout, x: Node)
    requires Inserting(m, nil, hdr, g, x) && m[x].parent in m && !m[m[x].parent].red
    ensures m[hdr].left in g.at && RedBlack(SetRed(m, m[hdr].left, false), nil, hdr, BlackenLayout(m, g, m[hdr].left))
  {
    var t := m[hdr].left;
    assert NodeOk(m, nil, hdr, g, x);
    var r := SetRed(m, t, false);
    var h := BlackenLayout(m, g, t);
    assert Linked(r, nil, hdr, h) by {
      LinkedIgnoresBalance(m, r, nil, hdr, g, h);
    }
    forall n | n in g.at
      ensures ColorOk(r, nil, n) && HeightOk(r, h, NoHole, n)
    {
      assert NodeOk(m, nil, hdr, g, n) && ColorOk(m, x, n) && HeightOk(m, g, NoHole, n);
    }
  }

  lemma UncleHere(m: Mem, nil: Node, hdr: Node, g: Layout, d: Dir, x: Node, p: Node, q: Node)
    requires Inserting(m, nil, hdr, g, x) && p == m[x].parent && p in m && m[p].red && q == m[p].parent && q in m
    requires Kid(m, q, d) == p
    ensures Kid(m, q, d.Flip()) in m && Kid(m, q, d.Flip()) == Uncle(m, x)
  {
    Grandparent(m, nil, hdr, g, x);
    assert NodeOk(m, nil, hdr, g, q);
  }

  lemma ParentIn(m: Mem, nil: Node, hdr: Node, g: Layout, x: Node)
    requires Linked(m, nil, hdr, g) && x in g.at
    ensures m[x].parent in m
  {
    assert NodeOk(m, nil, hdr, g, x);
  }

  lemma InnerCan(m: Mem, nil: Node, hdr: Node, g: Layout, d: Dir, x: Node)
    requires Inserting(m, nil, hdr, g, x) && m[x].parent in m && m[m[x].parent].red
    requires Kid(m, m[x].parent, d.Flip()) == x
    ensures CanRotate(m, nil, hdr, g, d, m[x].parent)
  {
    Grandparent(m, nil, hdr, g, x);
  }

  lemma OuterCan(m: Mem, nil: Node, hdr: Node, g: Layout, d: Dir, x: Node, p: Node, q: Node)
    requires Inserting(m, nil, hdr, g, x) && Outer(m, g, d, x, p, q)
    ensures CanRotate(Repaint(m, p, q), nil, hdr, g, d.Flip(), q) && m[q].parent in m
  {
    RepaintLinked(m, nil, hdr, g, p, q);
    assert NodeOk(m, nil, hdr, g, q);
  }
}
