/** The blocks of a buddy system, as values.

    Block `idx` of order k in a zone holds the pages whose index, halved k times,
    is `idx`. Blocks therefore form a binary tree, and "aligned" and "contained"
    are questions about halving. */
module BuddyBlocks {
  import opened Basics

  const MAX_ORDER: nat := 10

  datatype Block = Block(zone: nat, order: nat, idx: nat)

  predicate Holds(b: Block, zone: nat, i: nat) {
    zone == b.zone && Shr(i, b.order) == b.idx
  }

  predicate Inside(a: Block, b: Block) {
    a.zone == b.zone && a.order <= b.order && Shr(a.idx, b.order - a.order) == b.idx
  }

  predicate Overlap(a: Block, b: Block) {
    Inside(a, b) || Inside(b, a)
  }

  function Buddy(b: Block): Block {
    b.(idx := if b.idx % 2 == 0 then b.idx + 1 else b.idx - 1)
  }

  function Parent(b: Block): Block {
    Block(b.zone, b.order + 1, b.idx / 2)
  }

  function LowerHalf(b: Block): Block
    requires b.order > 0
  {
    Block(b.zone, b.order - 1, 2 * b.idx)
  }

  function UpperHalf(b: Block): Block
    requires b.order > 0
  {
    Block(b.zone, b.order - 1, 2 * b.idx + 1)
  }

  /** What every operation keeps of the set of free blocks: they do not overlap, and
      no two buddies that could be joined are both free. */
  ghost predicate Proper(f: set<Block>)
  {
    && (forall b :: b in f ==> b.order <= MAX_ORDER)
    && (forall a, b {:trigger Overlap(a, b)} :: a in f && b in f && Overlap(a, b) ==> a == b)
    && (forall b {:trigger Buddy(b)} :: b in f && b.order < MAX_ORDER ==> Buddy(b) !in f)
  }

  /** Page `i` of `zone` lies in a free block. */
  ghost predicate Covered(f: set<Block>, zone: nat, i: nat)
  {
    exists b :: b in f && Holds(b, zone, i)
  }

  ghost predicate AllCovered(f: set<Block>, b: Block)
  {
    forall i: nat {:trigger Shr(i, b.order)} :: Holds(b, b.zone, i) ==> Covered(f, b.zone, i)
  }

  // ---------------------------------------------------------------- halving

  lemma {:induction false} UpUp(j: nat, a: nat, b: nat)
    ensures Shr(Shr(j, a), b) == Shr(j, a + b)
  {
    if a > 0 {
      UpUp(j / 2, a - 1, b);
    }
  }

  lemma {:induction false} UpLast(j: nat, d: nat)
    ensures Shr(j, d + 1) == Shr(j, d) / 2
  {
    UpUp(j, d, 1);
    assert Shr(Shr(j, d), 1) == Shr(Shr(j, d) / 2, 0);
  }

  lemma {:induction false} HoldsInside(a: Block, b: Block, zone: nat, i: nat)
    requires Inside(a, b) && Holds(a, zone, i)
    ensures Holds(b, zone, i)
  {
    UpUp(i, a.order, b.order - a.order);
  }

  lemma {:induction false} HoldsOverlap(a: Block, b: Block, zone: nat, i: nat)
    requires Holds(a, zone, i) && Holds(b, zone, i)
    ensures Overlap(a, b)
  {
    if a.order <= b.order {
      UpUp(i, a.order, b.order - a.order);
    } else {
      UpUp(i, b.order, a.order - b.order);
    }
  }

  lemma {:induction false} InsideTransitive(a: Block, b: Block, c: Block)
    requires Inside(a, b) && Inside(b, c)
    ensures Inside(a, c)
  {
    UpUp(a.idx, b.order - a.order, c.order - b.order);
  }

  /** A block overlapping one inside another overlaps that other. */
  lemma {:induction false} OverlapOuter(a: Block, b: Block, c: Block)
    requires Inside(a, b) && Overlap(a, c)
    ensures Overlap(b, c)
  {
    if Inside(c, a) {
      InsideTransitive(c, a, b);
    } else if b.order <= c.order {
      UpUp(a.idx, b.order - a.order, c.order - b.order);
    } else {
      UpUp(a.idx, c.order - a.order, b.order - c.order);
    }
  }

  /** The page at which a block starts lies in it. */
  function First(b: Block): (i: nat)
    decreases b.order
  {
    if b.order == 0 then b.idx else First(LowerHalf(b))
  }

  lemma {:induction false} FirstHeld(b: Block)
    ensures Holds(b, b.zone, First(b))
    decreases b.order
  {
    if b.order > 0 {
      var a := LowerHalf(b);
      FirstHeld(a);
      UpLast(First(b), a.order);
    }
  }

  /** Overlapping is sharing a page. */
  lemma {:induction false} OverlapShares(a: Block, b: Block)
    ensures Overlap(a, b) <==> exists i: nat :: Holds(a, a.zone, i) && Holds(b, a.zone, i)
  {
    if Inside(a, b) {
      FirstHeld(a);
      HoldsInside(a, b, a.zone, First(a));
    } else if Inside(b, a) {
      FirstHeld(b);
      HoldsInside(b, a, b.zone, First(b));
    }
    if i: nat :| Holds(a, a.zone, i) && Holds(b, a.zone, i) {
      HoldsOverlap(a, b, a.zone, i);
    }
  }

  lemma {:induction false} HalfInside(b: Block, c: Block)
    requires Inside(b, c) && b.order < c.order
    ensures Inside(Parent(b), c) && Inside(b, Parent(b)) && Inside(Buddy(b), c)
  {
    assert Shr(b.idx, c.order - b.order) == Shr(b.idx / 2, c.order - b.order - 1);
    assert Buddy(b).idx / 2 == b.idx / 2;
    assert Shr(b.idx, 1) == Shr(b.idx / 2, 0);
  }

  // -------------------------------------------------------------- canonicity

  /** A block whose pages are all free lies inside one free block: free space is
      never split where it could be joined. */
  lemma {:induction false} WholeInside(f: set<Block>, b: Block) returns (c: Block)
    requires Proper(f) && b.order <= MAX_ORDER && AllCovered(f, b)
    ensures c in f && Inside(b, c)
    decreases b.order
  {
    if b.order == 0 {
      assert Holds(b, b.zone, b.idx);
      c :| c in f && Holds(c, b.zone, b.idx);
    } else {
      var l, r := Block(b.zone, b.order - 1, 2 * b.idx), Block(b.zone, b.order - 1, 2 * b.idx + 1);
      HalfCovered(f, b, l);
      HalfCovered(f, b, r);
      c := WholeInside(f, l);
      var e := WholeInside(f, r);
      assert Buddy(l) == r;
      if c.order > l.order {
        HalfInside(l, c);
      } else if e.order > r.order {
        HalfInside(r, e);
        c := e;
      } else {
        assert false;
      }
    }
  }

  lemma {:induction false} HalfCovered(f: set<Block>, b: Block, h: Block)
    requires b.order > 0 && h.order == b.order - 1 && h.zone == b.zone && h.idx / 2 == b.idx && AllCovered(f, b)
    ensures AllCovered(f, h)
  {
    forall i: nat | Holds(h, h.zone, i)
      ensures Covered(f, h.zone, i)
    {
      UpLast(i, h.order);
      assert Holds(b, b.zone, i);
    }
  }

  lemma {:induction false} InsideCovered(f: set<Block>, b: Block, c: Block)
    requires c in f && Inside(b, c)
    ensures AllCovered(f, b)
  {
    forall i: nat | Holds(b, b.zone, i)
      ensures Covered(f, b.zone, i)
    {
      HoldsInside(b, c, b.zone, i);
    }
  }

  /** The free blocks are exactly the maximal blocks with every page free. */
  lemma {:induction false} Canonical(f: set<Block>, b: Block)
    requires Proper(f)
    ensures b in f <==>
      && b.order <= MAX_ORDER
      && AllCovered(f, b)
      && (b.order == MAX_ORDER || !AllCovered(f, Parent(b)))
  {
    assert Shr(b.idx, 0) == b.idx;
    if b in f {
      InsideCovered(f, b, b);
      if b.order < MAX_ORDER && AllCovered(f, Parent(b)) {
        var c := WholeInside(f, Parent(b));
        assert Shr(b.idx, 1) == Shr(b.idx / 2, 0);
        InsideTransitive(b, Parent(b), c);
        assert Overlap(b, c);
        assert false;
      }
    } else if b.order <= MAX_ORDER && AllCovered(f, b) {
      var c := WholeInside(f, b);
      assert Shr(b.idx, 0) == b.idx;
      HalfInside(b, c);
      InsideCovered(f, Parent(b), c);
    }
  }

  lemma {:induction false} SameCovered(f: set<Block>, e: set<Block>, b: Block)
    requires forall zone: nat, i: nat :: Covered(f, zone, i) <==> Covered(e, zone, i)
    ensures AllCovered(f, b) <==> AllCovered(e, b)
  {
    forall i: nat | Holds(b, b.zone, i)
      ensures Covered(f, b.zone, i) <==> Covered(e, b.zone, i)
    {
    }
  }

  /** The set of free blocks is determined by the set of free pages. */
  lemma {:induction false} Determined(f: set<Block>, e: set<Block>)
    requires Proper(f) && Proper(e)
    requires forall zone: nat, i: nat :: Covered(f, zone, i) <==> Covered(e, zone, i)
    ensures f == e
  {
    forall b: Block
      ensures b in f <==> b in e
    {
      Canonical(f, b);
      Canonical(e, b);
      SameCovered(f, e, b);
      SameCovered(f, e, Parent(b));
    }
  }

  /** A free block of order k or more exists exactly when some aligned run of 2^k
      pages is wholly free. */
  lemma {:induction false} RunAvailable(f: set<Block>, k: nat)
    requires Proper(f) && k <= MAX_ORDER
    ensures (exists c :: c in f && c.order >= k) <==> (exists b: Block :: b.order == k && AllCovered(f, b))
  {
    if c :| c in f && c.order >= k {
      var b := Block(c.zone, k, First(Block(c.zone, c.order - k, c.idx)));
      FirstHeld(Block(c.zone, c.order - k, c.idx));
      InsideCovered(f, b, c);
    }
    if b: Block :| b.order == k && AllCovered(f, b) {
      var c := WholeInside(f, b);
    }
  }

  // ----------------------------------------------------------------- joining

  /** The free blocks after giving back `b`. */
  ghost function Merge(f: set<Block>, b: Block): set<Block>
    decreases MAX_ORDER - b.order
  {
    if b.order < MAX_ORDER && Buddy(b) in f then Merge(f - {Buddy(b)}, Parent(b)) else f + {b}
  }

  ghost predicate Apart(f: set<Block>, b: Block)
  {
    forall c {:trigger Overlap(b, c)} :: c in f ==> !Overlap(b, c)
  }

  lemma {:induction false} ParentApart(f: set<Block>, b: Block)
    requires Proper(f) && Apart(f, b) && b.order < MAX_ORDER && Buddy(b) in f
    ensures Proper(f - {Buddy(b)}) && Apart(f - {Buddy(b)}, Parent(b))
  {
    var e := Buddy(b);
    forall c | c in f - {e}
      ensures !Overlap(Parent(b), c)
    {
      assert !Overlap(b, c) && !Overlap(e, c);
      if Overlap(Parent(b), c) {
        ParentOverlap(b, c);
      }
    }
  }

  /** What overlaps a parent overlaps one of its halves. */
  lemma {:induction false} ParentOverlap(b: Block, c: Block)
    requires Overlap(Parent(b), c)
    ensures Overlap(b, c) || Overlap(Buddy(b), c)
  {
    var p := Parent(b);
    assert Shr(b.idx, 1) == Shr(b.idx / 2, 0);
    if Inside(p, c) {
      InsideTransitive(b, p, c);
    } else if c.order < p.order {
      var d := b.order - c.order;
      UpLast(c.idx, d);
      assert Shr(c.idx, d) == b.idx || Shr(c.idx, d) == Buddy(b).idx;
    }
  }

  lemma {:induction false} PageOfParent(b: Block, zone: nat, i: nat)
    ensures Holds(Parent(b), zone, i) <==> Holds(b, zone, i) || Holds(Buddy(b), zone, i)
  {
    UpLast(i, b.order);
  }

  /** Giving back a block keeps the free blocks proper and makes exactly its pages
      free. */
  lemma {:induction false} MergeProper(f: set<Block>, b: Block)
    requires Proper(f) && Apart(f, b) && b.order <= MAX_ORDER
    ensures Proper(Merge(f, b))
    ensures forall zone: nat, i: nat :: Covered(Merge(f, b), zone, i) <==> Covered(f, zone, i) || Holds(b, zone, i)
    decreases MAX_ORDER - b.order
  {
    if b.order < MAX_ORDER && Buddy(b) in f {
      var e := f - {Buddy(b)};
      ParentApart(f, b);
      MergeProper(e, Parent(b));
      forall zone: nat, i: nat
        ensures Covered(Merge(f, b), zone, i) <==> Covered(f, zone, i) || Holds(b, zone, i)
      {
        PageOfParent(b, zone, i);
        CoveredSplit(f, Buddy(b), zone, i);
      }
    } else {
      AddProper(f, b);
    }
  }

  lemma {:induction false} CoveredSplit(f: set<Block>, b: Block, zone: nat, i: nat)
    requires b in f
    ensures Covered(f, zone, i) <==> Covered(f - {b}, zone, i) || Holds(b, zone, i)
  {
    if c :| c in f && Holds(c, zone, i) {
      assert c == b || c in f - {b};
    }
  }

  /** A block apart from the others whose buddy is not free can be added. */
  lemma {:induction false} AddProper(f: set<Block>, b: Block)
    requires Proper(f) && Apart(f, b) && b.order <= MAX_ORDER && (b.order < MAX_ORDER ==> Buddy(b) !in f)
    ensures Proper(f + {b})
    ensures forall zone: nat, i: nat :: Covered(f + {b}, zone, i) <==> Covered(f, zone, i) || Holds(b, zone, i)
  {
    var e := f + {b};
    forall x, y | x in e && y in e && Overlap(x, y)
      ensures x == y
    {
      assert Overlap(y, x);
      assert y in f ==> !Overlap(b, y);
      assert x in f ==> !Overlap(b, x);
    }
    forall x | x in e && x.order < MAX_ORDER
      ensures Buddy(x) !in e
    {
      assert Buddy(Buddy(x)) == x;
    }
    forall zone: nat, i: nat
      ensures Covered(e, zone, i) <==> Covered(f, zone, i) || Holds(b, zone, i)
    {
      if c :| c in e && Holds(c, zone, i) {
        assert c == b || c in f;
      }
      if Holds(b, zone, i) {
        assert b in e;
      }
      if Covered(f, zone, i) {
        var c :| c in f && Holds(c, zone, i);
        assert c in e;
      }
    }
  }

  // --------------------------------------------------------------- splitting

  /** Cutting one level off a free block: its upper half stays free, its lower half
      is apart from what is free. */
  lemma {:induction false} HalveProper(f: set<Block>, b: Block)
    requires Proper(f) && Apart(f, b) && 0 < b.order <= MAX_ORDER
    ensures Proper(f + {UpperHalf(b)}) && Apart(f + {UpperHalf(b)}, LowerHalf(b))
    ensures forall zone: nat, i: nat ::
              Covered(f + {UpperHalf(b)}, zone, i) <==> Covered(f, zone, i) || Holds(UpperHalf(b), zone, i)
  {
    var l, u := LowerHalf(b), UpperHalf(b);
    assert Parent(l) == b && Parent(u) == b && Buddy(u) == l;
    assert Shr(u.idx, 1) == Shr(u.idx / 2, 0) && Shr(l.idx, 1) == Shr(l.idx / 2, 0);
    forall c | c in f
      ensures !Overlap(u, c) && !Overlap(l, c)
    {
      assert !Overlap(b, c);
      if Overlap(u, c) {
        OverlapOuter(u, b, c);
      }
      if Overlap(l, c) {
        OverlapOuter(l, b, c);
      }
    }
    assert Shr(l.idx, 0) == l.idx && Overlap(l, l);
    AddProper(f, u);
    assert !Overlap(l, u);
  }
}
