/** The repair after a deletion, one lemma a branch. Between steps the subtree `x`
    is one black node short and may be a red root under a red parent. */
module RbDelete {
  import opened RbShape
  import opened RbBalance
  import opened RbLink

  /** `x`, possibly the sentinel, hangs on side `hole.d` of `hole.p`, where a black
      node is missing. Its parent field is live. */
  ghost predicate Deleting(m: Mem, nil: Node, hdr: Node, g: Layout, x: Node, hole: Hole)
  {
    && Repairing(m, nil, hdr, g, x, hole)
    && hole.Hole? && x in m && hole.p in m
    && (hole.p in g.at || (hole.p == hdr && hole.d == Left))
    && (x == nil || x in g.at)
    && Kid(m, hole.p, hole.d) == x && m[x].parent == hole.p
  }

  /** Once `x` is black every rule holds. */
  ghost predicate Finishing(m: Mem, nil: Node, hdr: Node, g: Layout, x: Node)
  {
    x in m && RedBlack(SetRed(m, x, false), nil, hdr, g)
  }

  /** `x` and `w` are the children of `p` on side `d` and on the other side. */
  ghost predicate Siblings(m: Mem, g: Layout, d: Dir, x: Node, p: Node, w: Node)
  {
    && g.at.Keys <= m.Keys && p in g.at && w in g.at && x in m && x != p && x != w && p != w
    && Kid(m, p, d) == x && Kid(m, p, d.Flip()) == w && m[w].parent == p && m[p].parent in m
    && Kid(m, w, Left) in m && Kid(m, w, Right) in m
    && Kid(m, w, Left) != p && Kid(m, w, Right) != p && Kid(m, w, Left) != w && Kid(m, w, Right) != w
    && (Kid(m, w, Left) in g.at ==> Kid(m, w, Left) != x) && (Kid(m, w, Right) in g.at ==> Kid(m, w, Right) != x)
    && (Kid(m, w, Left) in g.at ==> Kid(m, w, Left) != Kid(m, w, Right))
    && m[p].parent != p && m[p].parent != w
    && g.at[w].bh == Height(g, x) + 1 && g.at[p].bh == Height(g, x) + 1 + (if m[p].red then 0 else 1)
    && 0 <= Height(g, x)
  }

  /** A node is missing on side `d` of `p`, so the other side is not empty. */
  lemma Sibling(m: Mem, nil: Node, hdr: Node, g: Layout, x: Node, hole: Hole)
    requires Deleting(m, nil, hdr, g, x, hole) && hole.p != hdr
    ensures Siblings(m, g, hole.d, x, hole.p, Kid(m, hole.p, hole.d.Flip()))
  {
    var p := hole.p;
    var w := Kid(m, p, hole.d.Flip());
    assert NodeOk(m, nil, hdr, g, p) && HeightOk(m, g, hole, p);
    if x in g.at {
      assert HeightOk(m, g, hole, x) && SpotOk(g, x);
    }
    assert w in g.at;
    assert NodeOk(m, nil, hdr, g, w);
    assert HeightOk(m, g, hole, w);
  }

  // ------------------------------------------------------------- red sibling

  lemma RedSiblingFits(m: Mem, nil: Node, hdr: Node, g: Layout, d: Dir, x: Node, p: Node, w: Node)
    requires Deleting(m, nil, hdr, g, x, Hole(p, d)) && Siblings(m, g, d, x, p, w) && m[w].red
    ensures !m[p].red
    ensures var r := Repaint(m, w, p);
            && ColorsFit(r, hdr, d, p, w, x)
            && HeightsFit(r, g, d, p, w, g.at[w].bh, g.at[p].bh, Hole(p, d))
  {
    assert HeightOk(m, g, Hole(p, d), p) && HeightOk(m, g, Hole(p, d), w);
    assert ColorOk(m, x, p) && ColorOk(m, x, w);
  }

  lemma RedSiblingOthers(m: Mem, nil: Node, hdr: Node, g: Layout, d: Dir, x: Node, p: Node, w: Node)
    requires Deleting(m, nil, hdr, g, x, Hole(p, d)) && Siblings(m, g, d, x, p, w)
    ensures OthersOk(Repaint(m, w, p), nil, hdr, g, p, w, x, Hole(p, d))
  {
    var r := Repaint(m, w, p);
    forall n | n in g.at && n != p && n != w
      ensures RedKidsAre(r, x, p, n) && HeightOk(r, g, Hole(p, d), n)
    {
      assert NodeOk(m, nil, hdr, g, n) && ColorOk(m, x, n) && HeightOk(m, g, Hole(p, d), n);
    }
  }

  lemma RedSiblingLinks(m: Mem, r: Mem, nil: Node, hdr: Node, g: Layout, d: Dir, x: Node, p: Node, w: Node)
    requires Deleting(m, nil, hdr, g, x, Hole(p, d)) && Siblings(m, g, d, x, p, w) && m[w].red
    requires Rotated(Repaint(m, w, p), r, nil, d, p)
    ensures r.Keys == m.Keys && Kid(r, p, d) == x && r[x].parent == p && r[p].red && r[p].parent == w
    ensures r[x].red == m[x].red
    ensures var v := Kid(r, p, d.Flip()); v == Kid(m, w, d) && v in r && !r[v].red
    ensures r[hdr].left == (if m[hdr].left == p then w else m[hdr].left)
  {
    assert NodeOk(m, nil, hdr, g, p) && NodeOk(m, nil, hdr, g, w) && ColorOk(m, x, w);
  }

  /** Sibling red: after repainting and rotating, `x` has a black sibling and a red
      parent. */
  lemma RedSiblingStep(m: Mem, r: Mem, nil: Node, hdr: Node, g: Layout, d: Dir, x: Node, p: Node, w: Node)
    requires Deleting(m, nil, hdr, g, x, Hole(p, d)) && Siblings(m, g, d, x, p, w) && m[w].red
    requires Rotated(Repaint(m, w, p), r, nil, d, p)
    ensures Deleting(r, nil, hdr, Rebalance(g, d, p, w, g.at[w].bh, g.at[p].bh), x, Hole(p, d))
    ensures r[p].red && r[x].red == m[x].red && Kid(r, p, d.Flip()) in r && !r[Kid(r, p, d.Flip())].red
    ensures r[hdr].left == (if m[hdr].left == p then w else m[hdr].left)
    ensures Size(Rebalance(g, d, p, w, g.at[w].bh, g.at[p].bh), x) == Size(g, x)
  {
    SizeKept(g, d, p, w, g.at[w].bh, g.at[p].bh, x);
    RedSiblingFits(m, nil, hdr, g, d, x, p, w);
    RedSiblingOthers(m, nil, hdr, g, d, x, p, w);
    RepaintLinked(m, nil, hdr, g, w, p);
    RedSiblingLinks(m, r, nil, hdr, g, d, x, p, w);
    RotateRepairs(Repaint(m, w, p), r, nil, hdr, g, d, p, w, g.at[w].bh, g.at[p].bh, x, Hole(p, d));
  }

  // ------------------------------------- black sibling with two black children

  ghost function LowerLayout(g: Layout, p: Node, w: Node, down: int): Layout
    requires p in g.at && w in g.at
  {
    WithHeight(WithHeight(g, w, g.at[w].bh - 1), p, g.at[p].bh - down)
  }

  ghost predicate BlackFamily(m: Mem, g: Layout, d: Dir, x: Node, p: Node, w: Node)
  {
    && Siblings(m, g, d, x, p, w) && !m[x].red && !m[w].red
    && !m[Kid(m, w, Left)].red && !m[Kid(m, w, Right)].red
  }

  lemma LowerHeight(m: Mem, nil: Node, hdr: Node, g: Layout, d: Dir, x: Node, p: Node, w: Node, n: Node)
    requires BlackFamily(m, g, d, x, p, w) && UpOk(m, hdr, g, p) && !m[p].red
    requires HeightOk(m, g, Hole(p, d), w) && HeightOk(m, g, Hole(p, d), p)
    requires ((m[m[p].parent].left == p) != (m[m[p].parent].right == p))
    requires nil !in g.at && hdr !in g.at && n in g.at && NodeOk(m, nil, hdr, g, n) && HeightOk(m, g, Hole(p, d), n)
    ensures HeightOk(SetRed(m, w, true), LowerLayout(g, p, w, 1),
        Hole(m[p].parent, if m[m[p].parent].left == p then Left else Right), n)
  {
    var h := LowerLayout(g, p, w, 1);
    assert forall c {:trigger Height(h, c)} :: c != p && c != w ==> Height(h, c) == Height(g, c);
    assert Height(h, p) == Height(g, p) - 1 && Height(h, w) == Height(g, w) - 1;
    var r := SetRed(m, w, true);
    var up := Hole(m[p].parent, if m[m[p].parent].left == p then Left else Right);
    if n == p {
      assert SideHeight(m, g, Hole(p, d), p, d) == Height(g, x) + 1;
      assert HeightOk(r, h, up, n);
    } else if n == w {
      assert HeightOk(r, h, up, n);
    } else if n == m[p].parent {
      assert m[n].left != w && m[n].right != w;
      assert HeightOk(r, h, up, n);
    } else {
      assert m[n].left != w && m[n].right != w;
      assert m[n].left != p && m[n].right != p;
      assert HeightOk(r, h, up, n);
    }
  }

  lemma LowerColor(m: Mem, nil: Node, hdr: Node, g: Layout, d: Dir, x: Node, p: Node, w: Node, n: Node)
    requires BlackFamily(m, g, d, x, p, w) && !m[p].red && nil !in g.at
    requires n in g.at && NodeOk(m, nil, hdr, g, n) && ColorOk(m, x, n)
    ensures ColorOk(SetRed(m, w, true), p, n)
  {
  }

  /** Sibling black with black children, parent black: painting the sibling red
      makes the whole of `p` one short. */
  lemma LowerStep(m: Mem, nil: Node, hdr: Node, g: Layout, d: Dir, x: Node, p: Node, w: Node)
    requires Deleting(m, nil, hdr, g, x, Hole(p, d)) && BlackFamily(m, g, d, x, p, w) && !m[p].red
    ensures Deleting(SetRed(m, w, true), nil, hdr, LowerLayout(g, p, w, 1), p,
                     Hole(m[p].parent, if m[m[p].parent].left == p then Left else Right))
  {
    var r := SetRed(m, w, true);
    var h := LowerLayout(g, p, w, 1);
    var up := Hole(m[p].parent, if m[m[p].parent].left == p then Left else Right);
    assert NodeOk(m, nil, hdr, g, p);
    assert (m[m[p].parent].left == p) != (m[m[p].parent].right == p) by {
      if m[p].parent in g.at {
        assert NodeOk(m, nil, hdr, g, m[p].parent);
      }
    }
    LowerLinked(m, nil, hdr, g, p, w, 1);
    LowerRules(m, nil, hdr, g, d, x, p, w);
  }

  lemma LowerLinked(m: Mem, nil: Node, hdr: Node, g: Layout, p: Node, w: Node, down: int)
    requires Linked(m, nil, hdr, g) && p in g.at && w in g.at
    ensures Linked(SetRed(m, w, true), nil, hdr, LowerLayout(g, p, w, down))
  {
    SetRedLinked(m, nil, hdr, g, w, true);
    WithHeightLinked(SetRed(m, w, true), nil, hdr, g, w, g.at[w].bh - 1);
    WithHeightLinked(SetRed(m, w, true), nil, hdr, WithHeight(g, w, g.at[w].bh - 1), p, g.at[p].bh - down);
  }

  lemma LowerRules(m: Mem, nil: Node, hdr: Node, g: Layout, d: Dir, x: Node, p: Node, w: Node)
    requires Deleting(m, nil, hdr, g, x, Hole(p, d)) && BlackFamily(m, g, d, x, p, w) && !m[p].red
    requires UpOk(m, hdr, g, p) && ((m[m[p].parent].left == p) != (m[m[p].parent].right == p))
    ensures Colored(SetRed(m, w, true), nil, hdr, g, p)
    ensures Balanced(SetRed(m, w, true), LowerLayout(g, p, w, 1),
        Hole(m[p].parent, if m[m[p].parent].left == p then Left else Right))
  {
    var r := SetRed(m, w, true);
    var h := LowerLayout(g, p, w, 1);
    var up := Hole(m[p].parent, if m[m[p].parent].left == p then Left else Right);
    assert HeightOk(m, g, Hole(p, d), p) && HeightOk(m, g, Hole(p, d), w);
    forall n | n in g.at
      ensures HeightOk(r, h, up, n) && ColorOk(r, p, n)
    {
      assert NodeOk(m, nil, hdr, g, n) && HeightOk(m, g, Hole(p, d), n) && ColorOk(m, x, n);
      LowerHeight(m, nil, hdr, g, d, x, p, w, n);
      LowerColor(m, nil, hdr, g, d, x, p, w, n);
    }
  }

  lemma AbsorbHeight(m: Mem, nil: Node, hdr: Node, g: Layout, d: Dir, x: Node, p: Node, w: Node, n: Node)
    requires BlackFamily(m, g, d, x, p, w) && m[p].red
    requires HeightOk(m, g, Hole(p, d), w) && HeightOk(m, g, Hole(p, d), p)
    requires nil !in g.at && n in g.at && NodeOk(m, nil, hdr, g, n) && HeightOk(m, g, Hole(p, d), n)
    ensures HeightOk(SetRed(SetRed(m, w, true), p, false), LowerLayout(g, p, w, 0), NoHole, n)
  {
    var h := LowerLayout(g, p, w, 0);
    var r := SetRed(SetRed(m, w, true), p, false);
    assert forall c {:trigger Height(h, c)} :: c != w ==> Height(h, c) == Height(g, c);
    assert Height(h, w) == Height(g, w) - 1;
    if n == p {
      assert SideHeight(m, g, Hole(p, d), p, d) == Height(g, x) + 1;
      assert HeightOk(r, h, NoHole, n);
    } else if n == w {
      assert HeightOk(r, h, NoHole, n);
    } else {
      assert m[n].left != w && m[n].right != w;
      assert HeightOk(r, h, NoHole, n);
    }
  }

  lemma AbsorbColor(m: Mem, nil: Node, hdr: Node, g: Layout, d: Dir, x: Node, p: Node, w: Node, n: Node)
    requires BlackFamily(m, g, d, x, p, w) && nil !in g.at && nil in m
    requires n in g.at && NodeOk(m, nil, hdr, g, n) && ColorOk(m, x, n)
    ensures ColorOk(SetRed(SetRed(m, w, true), p, false), nil, n)
  {
  }

  /** Sibling black with black children, parent red: painting the sibling red and
      then the parent black repairs the tree. */
  lemma AbsorbStep(m: Mem, nil: Node, hdr: Node, g: Layout, d: Dir, x: Node, p: Node, w: Node)
    requires Deleting(m, nil, hdr, g, x, Hole(p, d)) && BlackFamily(m, g, d, x, p, w) && m[p].red
    ensures Finishing(SetRed(m, w, true), nil, hdr, LowerLayout(g, p, w, 0), p)
  {
    var h := LowerLayout(g, p, w, 0);
    var r := SetRed(SetRed(m, w, true), p, false);
    assert Linked(r, nil, hdr, h) by {
      LowerLinked(m, nil, hdr, g, p, w, 0);
      SetRedLinked(SetRed(m, w, true), nil, hdr, h, p, false);
    }
    assert HeightOk(m, g, Hole(p, d), p) && HeightOk(m, g, Hole(p, d), w);
    forall n | n in g.at
      ensures HeightOk(r, h, NoHole, n) && ColorOk(r, nil, n)
    {
      assert NodeOk(m, nil, hdr, g, n) && HeightOk(m, g, Hole(p, d), n) && ColorOk(m, x, n);
      AbsorbHeight(m, nil, hdr, g, d, x, p, w, n);
      AbsorbColor(m, nil, hdr, g, d, x, p, w, n);
    }
  }

  // ------------------------------------------- black sibling, red inner child

  /** The sibling `w` is black, its inner child `v` red and its outer child black. */
  ghost predicate InnerRed(m: Mem, g: Layout, d: Dir, x: Node, p: Node, w: Node, v: Node)
  {
    && Siblings(m, g, d, x, p, w) && !m[x].red && !m[w].red
    && v == Kid(m, w, d) && v in g.at && v != p && v != x && m[v].parent == w && m[v].red
    && !m[Kid(m, w, d.Flip())].red
    && Kid(m, v, Left) in m && Kid(m, v, Right) in m && !m[Kid(m, v, Left)].red && !m[Kid(m, v, Right)].red
  }

  lemma InnerRedKid(m: Mem, nil: Node, hdr: Node, g: Layout, d: Dir, x: Node, p: Node, w: Node)
    requires Deleting(m, nil, hdr, g, x, Hole(p, d)) && Siblings(m, g, d, x, p, w) && !m[x].red && !m[w].red
    requires m[Kid(m, w, d)].red && !m[Kid(m, w, d.Flip())].red
    ensures InnerRed(m, g, d, x, p, w, Kid(m, w, d))
  {
    var v := Kid(m, w, d);
    assert NodeOk(m, nil, hdr, g, w);
    assert NodeOk(m, nil, hdr, g, v) && ColorOk(m, x, v);
  }

  lemma InnerRedFits(m: Mem, nil: Node, hdr: Node, g: Layout, d: Dir, x: Node, p: Node, w: Node, v: Node)
    requires Deleting(m, nil, hdr, g, x, Hole(p, d)) && InnerRed(m, g, d, x, p, w, v)
    ensures var r := Repaint(m, v, w);
            && ColorsFit(r, hdr, d.Flip(), w, v, x)
            && HeightsFit(r, g, d.Flip(), w, v, g.at[v].bh, g.at[w].bh, Hole(p, d))
  {
    assert HeightOk(m, g, Hole(p, d), w) && HeightOk(m, g, Hole(p, d), v);
    assert NodeOk(m, nil, hdr, g, w) && NodeOk(m, nil, hdr, g, v);
  }

  lemma InnerRedOthers(m: Mem, nil: Node, hdr: Node, g: Layout, d: Dir, x: Node, p: Node, w: Node, v: Node)
    requires Deleting(m, nil, hdr, g, x, Hole(p, d)) && InnerRed(m, g, d, x, p, w, v)
    ensures OthersOk(Repaint(m, v, w), nil, hdr, g, w, v, x, Hole(p, d))
  {
    var r := Repaint(m, v, w);
    forall n | n in g.at && n != w && n != v
      ensures RedKidsAre(r, x, w, n) && HeightOk(r, g, Hole(p, d), n)
    {
      assert NodeOk(m, nil, hdr, g, n) && ColorOk(m, x, n) && HeightOk(m, g, Hole(p, d), n);
    }
  }

  lemma InnerRedLinks(m: Mem, r: Mem, nil: Node, hdr: Node, g: Layout, d: Dir, x: Node, p: Node, w: Node, v: Node)
    requires Deleting(m, nil, hdr, g, x, Hole(p, d)) && InnerRed(m, g, d, x, p, w, v)
    requires Rotated(Repaint(m, v, w), r, nil, d.Flip(), w)
    ensures r.Keys == m.Keys && Kid(r, p, d) == x && r[x].parent == p && r[p].red == m[p].red
    ensures Kid(r, p, d.Flip()) == v && !r[v].red && Kid(r, v, d.Flip()) == w && r[w].red && r[x].red == m[x].red
    ensures r[hdr].left == m[hdr].left
  {
    assert NodeOk(m, nil, hdr, g, p) && NodeOk(m, nil, hdr, g, w) && NodeOk(m, nil, hdr, g, v);
  }

  /** Inner child red: after repainting and rotating, the new sibling `v` is black
      with a red outer child. */
  lemma InnerRedStep(m: Mem, r: Mem, nil: Node, hdr: Node, g: Layout, d: Dir, x: Node, p: Node, w: Node, v: Node)
    requires Deleting(m, nil, hdr, g, x, Hole(p, d)) && InnerRed(m, g, d, x, p, w, v)
    requires Rotated(Repaint(m, v, w), r, nil, d.Flip(), w)
    ensures Deleting(r, nil, hdr, Rebalance(g, d.Flip(), w, v, g.at[v].bh, g.at[w].bh), x, Hole(p, d))
    ensures Kid(r, p, d.Flip()) == v && !r[v].red && Kid(r, v, d.Flip()) == w && r[w].red && r[x].red == m[x].red
    ensures r[hdr].left == m[hdr].left
  {
    InnerRedFits(m, nil, hdr, g, d, x, p, w, v);
    InnerRedOthers(m, nil, hdr, g, d, x, p, w, v);
    RepaintLinked(m, nil, hdr, g, v, w);
    InnerRedLinks(m, r, nil, hdr, g, d, x, p, w, v);
    RotateRepairs(Repaint(m, v, w), r, nil, hdr, g, d.Flip(), w, v, g.at[v].bh, g.at[w].bh, x, Hole(p, d));
  }

  // ------------------------------------------- black sibling, red outer child

  ghost predicate OuterRed(m: Mem, g: Layout, d: Dir, x: Node, p: Node, w: Node, u: Node)
  {
    && Siblings(m, g, d, x, p, w) && !m[x].red && !m[w].red
    && u == Kid(m, w, d.Flip()) && u in g.at && m[u].red && m[u].parent == w && u != p && u != x
    && (m[p].red ==> !m[m[p].parent].red)
  }

  /** The sibling takes the parent's colour; the parent and the outer child turn black. */
  function Exchange(m: Mem, p: Node, w: Node, u: Node): Mem
    requires p in m && w in m && u in m
  {
    SetRed(SetRed(SetRed(m, w, m[p].red), p, false), u, false)
  }

  ghost function ExchangeLayout(g: Layout, u: Node): Layout
    requires u in g.at
  {
    WithHeight(g, u, g.at[u].bh + 1)
  }

  lemma OuterRedKid(m: Mem, nil: Node, hdr: Node, g: Layout, d: Dir, x: Node, p: Node, w: Node)
    requires Deleting(m, nil, hdr, g, x, Hole(p, d)) && Siblings(m, g, d, x, p, w) && !m[x].red && !m[w].red
    requires m[Kid(m, w, d.Flip())].red
    ensures OuterRed(m, g, d, x, p, w, Kid(m, w, d.Flip()))
  {
    assert NodeOk(m, nil, hdr, g, w) && NodeOk(m, nil, hdr, g, p);
    if m[p].parent in g.at {
      assert ColorOk(m, x, m[p].parent);
    }
  }

  lemma OuterRedFits(m: Mem, nil: Node, hdr: Node, g: Layout, d: Dir, x: Node, p: Node, w: Node, u: Node)
    requires Deleting(m, nil, hdr, g, x, Hole(p, d)) && OuterRed(m, g, d, x, p, w, u)
    ensures var r := Exchange(m, p, w, u);
            && ColorsFit(r, hdr, d, p, w, nil)
            && HeightsFit(r, ExchangeLayout(g, u), d, p, w, g.at[w].bh, g.at[p].bh, NoHole)
  {
    assert HeightOk(m, g, Hole(p, d), w) && HeightOk(m, g, Hole(p, d), p) && HeightOk(m, g, Hole(p, d), u);
    assert NodeOk(m, nil, hdr, g, w) && NodeOk(m, nil, hdr, g, p);
  }

  lemma OuterRedOthers(m: Mem, nil: Node, hdr: Node, g: Layout, d: Dir, x: Node, p: Node, w: Node, u: Node)
    requires Deleting(m, nil, hdr, g, x, Hole(p, d)) && OuterRed(m, g, d, x, p, w, u)
    ensures OthersOk(Exchange(m, p, w, u), nil, hdr, ExchangeLayout(g, u), p, w, nil, NoHole)
  {
    forall n | n in g.at && n != p && n != w
      ensures RedKidsAre(Exchange(m, p, w, u), nil, p, n)
      ensures HeightOk(Exchange(m, p, w, u), ExchangeLayout(g, u), NoHole, n)
    {
      assert NodeOk(m, nil, hdr, g, n) && ColorOk(m, x, n) && HeightOk(m, g, Hole(p, d), n);
      OuterRedOther(m, nil, hdr, g, d, x, p, w, u, n);
    }
  }

  lemma OuterRedOther(m: Mem, nil: Node, hdr: Node, g: Layout, d: Dir, x: Node, p: Node, w: Node, u: Node, n: Node)
    requires OuterRed(m, g, d, x, p, w, u) && nil !in g.at && nil in m && !m[nil].red
    requires n in g.at && n != p && n != w
    requires NodeOk(m, nil, hdr, g, n) && ColorOk(m, x, n) && HeightOk(m, g, Hole(p, d), n)
    ensures RedKidsAre(Exchange(m, p, w, u), nil, p, n)
    ensures HeightOk(Exchange(m, p, w, u), ExchangeLayout(g, u), NoHole, n)
  {
    var h := ExchangeLayout(g, u);
    assert forall c {:trigger Height(h, c)} :: c != u ==> Height(h, c) == Height(g, c);
    assert m[n].left != u && m[n].right != u;
  }

  lemma ExchangeLinked(m: Mem, nil: Node, hdr: Node, g: Layout, p: Node, w: Node, u: Node)
    requires Linked(m, nil, hdr, g) && p in g.at && w in g.at && u in g.at
    ensures Linked(Exchange(m, p, w, u), nil, hdr, ExchangeLayout(g, u))
  {
    SetRedLinked(m, nil, hdr, g, w, m[p].red);
    SetRedLinked(SetRed(m, w, m[p].red), nil, hdr, g, p, false);
    SetRedLinked(SetRed(SetRed(m, w, m[p].red), p, false), nil, hdr, g, u, false);
    WithHeightLinked(Exchange(m, p, w, u), nil, hdr, g, u, g.at[u].bh + 1);
  }

  /** Outer child red: one exchange of colours and one rotation repair the tree. */
  lemma OuterRedStep(m: Mem, r: Mem, nil: Node, hdr: Node, g: Layout, d: Dir, x: Node, p: Node, w: Node, u: Node)
    requires Deleting(m, nil, hdr, g, x, Hole(p, d)) && OuterRed(m, g, d, x, p, w, u)
    requires Rotated(Exchange(m, p, w, u), r, nil, d, p)
    ensures RedBlack(r, nil, hdr, Rebalance(ExchangeLayout(g, u), d, p, w, g.at[w].bh, g.at[p].bh))
    ensures !r[p].red
    ensures r[hdr].left == (if m[hdr].left == p then w else m[hdr].left)
  {
    OuterRedFits(m, nil, hdr, g, d, x, p, w, u);
    OuterRedOthers(m, nil, hdr, g, d, x, p, w, u);
    ExchangeLinked(m, nil, hdr, g, p, w, u);
    assert NodeOk(m, nil, hdr, g, p);
    RotateRepairs(Exchange(m, p, w, u), r, nil, hdr, ExchangeLayout(g, u), d, p, w, g.at[w].bh, g.at[p].bh, nil,
        NoHole);
  }

  // ------------------------------------------------------------------ the end

  /** A red `x` makes up for the missing node by turning black, and at the root
      nothing is missing. */
  lemma Blacken(m: Mem, nil: Node, hdr: Node, g: Layout, x: Node, hole: Hole)
    requires Deleting(m, nil, hdr, g, x, hole) && (m[x].red || m[hdr].left == x)
    ensures Finishing(m, nil, hdr, BlackenLayout(m, g, x), x)
  {
    var r := SetRed(m, x, false);
    var h := BlackenLayout(m, g, x);
    assert Linked(r, nil, hdr, h) by {
      LinkedIgnoresBalance(m, r, nil, hdr, g, h);
    }
    BlackenHole(m, nil, hdr, g, x, hole);
    forall n | n in g.at
      ensures HeightOk(r, h, NoHole, n) && ColorOk(r, nil, n)
    {
      assert NodeOk(m, nil, hdr, g, n) && HeightOk(m, g, hole, n) && ColorOk(m, x, n);
      BlackenNode(m, nil, hdr, g, x, hole, n);
    }
  }

  lemma BlackenHole(m: Mem, nil: Node, hdr: Node, g: Layout, x: Node, hole: Hole)
    requires Deleting(m, nil, hdr, g, x, hole) && (m[x].red || m[hdr].left == x)
    ensures m[x].red || hole.p == hdr
  {
    if hole.p in g.at {
      assert SpotOk(g, hole.p);
    }
  }

  lemma BlackenNode(m: Mem, nil: Node, hdr: Node, g: Layout, x: Node, hole: Hole, n: Node)
    requires nil !in g.at && hdr !in g.at && nil in m && x in m && !m[nil].red && g.at.Keys <= m.Keys
    requires hole.Hole? && hole.p in m && m[x].parent == hole.p && Kid(m, hole.p, hole.d) == x
    requires (x == nil || x in g.at)
    requires m[x].red || hole.p == hdr
    requires n in g.at && NodeOk(m, nil, hdr, g, n) && HeightOk(m, g, hole, n) && ColorOk(m, x, n)
    ensures HeightOk(SetRed(m, x, false), BlackenLayout(m, g, x), NoHole, n) && ColorOk(SetRed(m, x, false), nil, n)
  {
    var h := BlackenLayout(m, g, x);
    var r := SetRed(m, x, false);
    assert forall c {:trigger Height(h, c)} :: c != x ==> Height(h, c) == Height(g, c);
    if n == x {
      assert HeightOk(r, h, NoHole, n);
    } else if n == hole.p {
      assert HeightOk(r, h, NoHole, n);
    } else {
      assert x in g.at ==> m[n].left != x && m[n].right != x;
      assert HeightOk(r, h, NoHole, n);
    }
  }

  // ---------------------------------------------------------------- the start

  /** Nothing is broken if the exempted node is black. */
  lemma Unexempt(m: Mem, nil: Node, hdr: Node, g: Layout, e: Node)
    requires Repairing(m, nil, hdr, g, e, NoHole) && e in m && !m[e].red
    ensures RedBlack(m, nil, hdr, g)
  {
    forall n | n in g.at
      ensures ColorOk(m, nil, n)
    {
      assert ColorOk(m, e, n);
    }
  }

  /** A red node with at most one child leaves the rules intact. */
  lemma DetachRed(m: Mem, nil: Node, hdr: Node, g: Layout, y: Node)
    requires RedBlack(m, nil, hdr, g) && Spare(m, nil, hdr, g, y) && m[y].red
    ensures Detaching(m, nil, hdr, g, y) && RedBlack(Detach(m, nil, y), nil, hdr, DetachLayout(g, y))
  {
    DetachRepairing(m, nil, hdr, g, y);
    assert ColorOk(m, nil, y);
    Unexempt(Detach(m, nil, y), nil, hdr, DetachLayout(g, y), OnlyKid(m, nil, y));
  }

  /** Without a black node, its child stands where one is missing. */
  lemma DetachBlack(m: Mem, nil: Node, hdr: Node, g: Layout, y: Node)
    requires RedBlack(m, nil, hdr, g) && Spare(m, nil, hdr, g, y) && !m[y].red
    ensures Detaching(m, nil, hdr, g, y)
    ensures Deleting(Detach(m, nil, y), nil, hdr, DetachLayout(g, y), OnlyKid(m, nil, y), LeftBy(m, y))
  {
    DetachRepairing(m, nil, hdr, g, y);
  }

  /** Putting `y` in the place of `z` keeps the missing node in view. The parent
      field of the sentinel is overwritten only if it is `x` below `z`. */
  lemma ReplaceDeleting(m: Mem, nil: Node, hdr: Node, g: Layout, z: Node, y: Node, x: Node, hole: Hole)
    requires Deleting(m, nil, hdr, g, x, hole) && z in g.at && y !in m && x != z
    requires m[z].left != nil && (m[z].right == nil ==> hole.p == z)
    ensures Replacing(m, nil, hdr, g, z, y)
    ensures Deleting(Replace(m, z, y), nil, hdr, ReplaceLayout(g, z, y), x, ReplaceHole(hole, z, y))
  {
    ReplaceRepairing(m, nil, hdr, g, z, y, x, hole);
    ReplaceKid(m, nil, hdr, g, z, y, x, hole);
  }

  lemma ReplaceKid(m: Mem, nil: Node, hdr: Node, g: Layout, z: Node, y: Node, x: Node, hole: Hole)
    requires Deleting(m, nil, hdr, g, x, hole) && z in g.at && y !in m && x != z
    requires m[z].left != nil && (m[z].right == nil ==> hole.p == z) && Replacing(m, nil, hdr, g, z, y)
    ensures var r := Replace(m, z, y); var up := ReplaceHole(hole, z, y);
            x in r && up.p in r && Kid(r, up.p, up.d) == x && r[x].parent == up.p
  {
    assert NodeOk(m, nil, hdr, g, z);
    if hole.p in g.at {
      assert NodeOk(m, nil, hdr, g, hole.p);
    }
  }

  /** The successor's removal leaves `z` with its left child, and with its right
      one unless that was the successor. */
  lemma DetachKeepsKids(m: Mem, nil: Node, hdr: Node, g: Layout, z: Node, y: Node)
    requires Detaching(m, nil, hdr, g, y) && z in g.at && z != y && m[z].left != nil && m[z].right != nil
    requires m[z].left != y
    ensures var r := Detach(m, nil, y); z in r && r[z].left != nil && (r[z].right == nil ==> m[y].parent == z)
  {
  }

  /** With `y` next after `z`, taking `y` out and putting it in the place of `z`
      takes `z` out of the order. */
  lemma SuccessorOrder(g: Layout, z: Node, y: Node)
    requires Placed(g) && z in g.at && y in g.at && SpotOk(g, z) && SpotOk(g, y) && g.at[y].pos == g.at[z].pos + 1
    ensures z in DetachLayout(g, y).at && DetachLayout(g, y).at[z].pos == g.at[z].pos
    ensures ReplaceLayout(DetachLayout(g, y), z, y).order == DetachLayout(g, z).order
  {
  }

  // ------------------------------------------------ what the loop needs to know

  /** `x` tells its side of its parent even when it is the sentinel, since then the
      other side is not empty. */
  lemma HoleSide(m: Mem, nil: Node, hdr: Node, g: Layout, x: Node, hole: Hole)
    requires Deleting(m, nil, hdr, g, x, hole) && hole.p != hdr
    ensures hole == Hole(m[x].parent, if m[m[x].parent].left == x then Left else Right)
  {
    Sibling(m, nil, hdr, g, x, hole);
    match hole.d
    case Left =>
    case Right =>
  }

  /** The number of nodes below and including `x`. */
  ghost function Size(g: Layout, x: Node): int
  {
    if x in g.at then g.at[x].hi - g.at[x].lo else 0
  }

  lemma SizeBounds(m: Mem, nil: Node, hdr: Node, g: Layout, x: Node)
    requires Linked(m, nil, hdr, g)
    ensures 0 <= Size(g, x) <= |g.order|
  {
    if x in g.at {
      assert SpotOk(g, x);
    }
  }

  lemma SizeUp(m: Mem, nil: Node, hdr: Node, g: Layout, x: Node, hole: Hole)
    requires Deleting(m, nil, hdr, g, x, hole) && hole.p != hdr
    ensures Size(g, x) < Size(g, hole.p)
  {
    assert NodeOk(m, nil, hdr, g, hole.p);
    if x in g.at {
      assert SpotOk(g, x);
    }
  }

  lemma RedSiblingCan(m: Mem, nil: Node, hdr: Node, g: Layout, d: Dir, x: Node, p: Node, w: Node)
    requires Deleting(m, nil, hdr, g, x, Hole(p, d)) && Siblings(m, g, d, x, p, w)
    ensures CanRotate(Repaint(m, w, p), nil, hdr, g, d, p)
  {
    RepaintLinked(m, nil, hdr, g, w, p);
  }

  lemma InnerRedCan(m: Mem, nil: Node, hdr: Node, g: Layout, d: Dir, x: Node, p: Node, w: Node, v: Node)
    requires Deleting(m, nil, hdr, g, x, Hole(p, d)) && InnerRed(m, g, d, x, p, w, v)
    ensures CanRotate(Repaint(m, v, w), nil, hdr, g, d.Flip(), w)
  {
    RepaintLinked(m, nil, hdr, g, v, w);
  }

  lemma OuterRedCan(m: Mem, nil: Node, hdr: Node, g: Layout, d: Dir, x: Node, p: Node, w: Node, u: Node)
    requires Deleting(m, nil, hdr, g, x, Hole(p, d)) && OuterRed(m, g, d, x, p, w, u)
    ensures CanRotate(Exchange(m, p, w, u), nil, hdr, ExchangeLayout(g, u), d, p)
  {
    ExchangeLinked(m, nil, hdr, g, p, w, u);
  }

  /** Blackening a node that is black already changes nothing. */
  lemma AlreadyBlack(m: Mem, nil: Node, hdr: Node, g: Layout, x: Node)
    requires RedBlack(m, nil, hdr, g) && x in m && (!m[x].red || m[hdr].left == x)
    ensures Finishing(m, nil, hdr, g, x)
  {
    assert !m[x].red;
    assert SetRed(m, x, false) == m;
  }

  lemma SizeKept(g: Layout, d: Dir, p: Node, w: Node, hp: int, hw: int, x: Node)
    requires p in g.at && w in g.at && x != p && x != w
    ensures Size(Rebalance(g, d, p, w, hp, hw), x) == Size(g, x)
  {
  }
}
