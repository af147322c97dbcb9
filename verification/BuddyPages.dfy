/** How page records and free lists represent a set of free blocks. */
module BuddyPages {
  import opened Basics
  import opened BuddyBlocks

  /** The part of a page record the buddy system uses. `head` is PG_property, and
      `order` is meaningful while it is set. */
  datatype Page = Page(reserved: bool, head: bool, order: nat, zone: nat)

  /** A zone: its first page, and how many pages it has. */
  datatype Zone = Zone(base: nat, len: nat)

  // ------------------------------------------------------- blocks as intervals

  lemma {:induction false} NextFirst(zone: nat, k: nat, j: nat)
    ensures First(Block(zone, k, j + 1)) == First(Block(zone, k, j)) + Pow2(k)
  {
    if k > 0 {
      NextFirst(zone, k - 1, 2 * j);
      NextFirst(zone, k - 1, 2 * j + 1);
      assert 2 * (j + 1) == 2 * j + 1 + 1;
    }
  }

  lemma {:induction false} HalfFirst(b: Block)
    requires b.order > 0
    ensures First(LowerHalf(b)) == First(b) && First(UpperHalf(b)) == First(b) + Pow2(b.order - 1)
  {
    NextFirst(b.zone, b.order - 1, 2 * b.idx);
    assert UpperHalf(b) == Block(b.zone, b.order - 1, 2 * b.idx + 1);
    assert LowerHalf(b) == Block(b.zone, b.order - 1, 2 * b.idx);
  }

  lemma {:induction false} BuddyFirst(b: Block)
    ensures First(Buddy(b)) == if b.idx % 2 == 0 then First(b) + Pow2(b.order) else First(b) - Pow2(b.order)
    ensures First(Parent(b)) == if b.idx % 2 == 0 then First(b) else First(b) - Pow2(b.order)
  {
    HalfFirst(Parent(b));
    assert b == if b.idx % 2 == 0 then LowerHalf(Parent(b)) else UpperHalf(Parent(b));
    assert Buddy(b) == if b.idx % 2 == 0 then UpperHalf(Parent(b)) else LowerHalf(Parent(b));
  }

  /** A block holds the `Pow2(order)` pages from its first one. */
  lemma {:induction false} HoldsIs(b: Block, i: nat)
    ensures Holds(b, b.zone, i) <==> First(b) <= i < First(b) + Pow2(b.order)
    decreases b.order
  {
    if b.order > 0 {
      HoldsIs(LowerHalf(b), i);
      HoldsIs(UpperHalf(b), i);
      HalfFirst(b);
      PageOfParent(LowerHalf(b), b.zone, i);
      assert Parent(LowerHalf(b)) == b && Buddy(LowerHalf(b)) == UpperHalf(b);
    }
  }

  // ------------------------------------------------------------ representation

  function PageOf(zones: seq<Zone>, b: Block): nat
    requires b.zone < |zones|
  {
    zones[b.zone].base + First(b)
  }

  ghost predicate InZone(zones: seq<Zone>, b: Block)
  {
    b.zone < |zones| && First(b) + Pow2(b.order) <= zones[b.zone].len
  }

  ghost predicate PageInZone(pages: seq<Page>, zones: seq<Zone>, p: nat)
    requires p < |pages|
  {
    var z := pages[p].zone;
    !pages[p].reserved ==> z < |zones| && zones[z].base <= p < zones[z].base + zones[z].len
  }

  ghost predicate ZoneHasPages(pages: seq<Page>, zones: seq<Zone>, z: nat)
    requires z < |zones|
  {
    && zones[z].base + zones[z].len <= |pages|
    && forall p {:trigger pages[p]} ::
         zones[z].base <= p < zones[z].base + zones[z].len ==> !pages[p].reserved && pages[p].zone == z
  }

  /** A page is out of the reserve exactly when it belongs to the zone it names. */
  ghost predicate Zoned(pages: seq<Page>, zones: seq<Zone>)
  {
    && (forall p {:trigger PageInZone(pages, zones, p)} :: 0 <= p < |pages| ==> PageInZone(pages, zones, p))
    && (forall z {:trigger ZoneHasPages(pages, zones, z)} :: 0 <= z < |zones| ==> ZoneHasPages(pages, zones, z))
  }

  /** Block `b` is in range and its first page is marked as its head. */
  ghost predicate Marked(pages: seq<Page>, zones: seq<Zone>, b: Block)
  {
    && InZone(zones, b)
    && PageOf(zones, b) < |pages|
    && pages[PageOf(zones, b)].head && pages[PageOf(zones, b)].order == b.order
    && pages[PageOf(zones, b)].zone == b.zone
  }

  /** A page marked as a head is the head of a free block. */
  ghost predicate HeadOk(pages: seq<Page>, zones: seq<Zone>, f: set<Block>, p: nat)
    requires p < |pages|
  {
    pages[p].head ==> exists b :: b in f && InZone(zones, b) && PageOf(zones, b) == p && b.order == pages[p].order
  }

  ghost predicate Heads(pages: seq<Page>, zones: seq<Zone>, f: set<Block>)
  {
    && (forall b {:trigger Marked(pages, zones, b)} :: b in f ==> Marked(pages, zones, b))
    && (forall p {:trigger HeadOk(pages, zones, f, p)} :: 0 <= p < |pages| ==> HeadOk(pages, zones, f, p))
  }

  /** The list of order `k` holds every head of that order once. */
  ghost predicate ListOk(pages: seq<Page>, lists: seq<seq<nat>>, k: nat)
    requires k < |lists|
  {
    && Distinct(lists[k])
    && forall p: nat {:trigger p in lists[k]} :: p in lists[k] <==> p < |pages| && pages[p].head && pages[p].order == k
  }

  ghost predicate Listed(pages: seq<Page>, lists: seq<seq<nat>>, nr: seq<nat>)
  {
    && |lists| == |nr| == MAX_ORDER + 1
    && forall k {:trigger ListOk(pages, lists, k)} ::
         0 <= k <= MAX_ORDER ==> ListOk(pages, lists, k) && nr[k] == |lists[k]|
  }

  // ------------------------------------------------------------------- updates

  lemma {:induction false} SameBlock(zones: seq<Zone>, b: Block, c: Block)
    requires InZone(zones, b) && InZone(zones, c) && b.zone == c.zone && b.order == c.order
    requires PageOf(zones, b) == PageOf(zones, c)
    ensures b == c
  {
    FirstHeld(b);
    FirstHeld(c);
  }

  function Mark(pages: seq<Page>, p: nat, k: nat): (r: seq<Page>)
    requires p < |pages|
    ensures |r| == |pages|
  {
    pages[p := pages[p].(head := true, order := k)]
  }

  function Unmark(pages: seq<Page>, p: nat): (r: seq<Page>)
    requires p < |pages|
    ensures |r| == |pages|
  {
    pages[p := pages[p].(head := false)]
  }

  lemma {:induction false} ZonedKept(pages: seq<Page>, r: seq<Page>, zones: seq<Zone>)
    requires Zoned(pages, zones) && |r| == |pages|
    requires forall p {:trigger r[p]} ::
               0 <= p < |pages| ==> r[p].zone == pages[p].zone && r[p].reserved == pages[p].reserved
    ensures Zoned(r, zones)
  {
    forall p | 0 <= p < |r|
      ensures PageInZone(r, zones, p)
    {
      assert PageInZone(pages, zones, p);
    }
    forall z | 0 <= z < |zones|
      ensures ZoneHasPages(r, zones, z)
    {
      assert ZoneHasPages(pages, zones, z);
    }
  }

  lemma {:induction false} SharedPage(zones: seq<Zone>, b: Block, c: Block, p: nat)
    requires b.zone < |zones| && c.zone == b.zone && PageOf(zones, c) == p
    requires PageOf(zones, b) <= p < PageOf(zones, b) + Pow2(b.order)
    ensures Overlap(b, c)
  {
    HoldsIs(b, First(c));
    FirstHeld(c);
    HoldsOverlap(b, c, b.zone, First(c));
  }

  /** A head page that a block could share belongs to no other free block. */
  lemma {:induction false} FreshHead(pages: seq<Page>, zones: seq<Zone>, f: set<Block>, b: Block, p: nat)
    requires Zoned(pages, zones) && Heads(pages, zones, f) && Apart(f, b) && InZone(zones, b)
    requires PageOf(zones, b) <= p < PageOf(zones, b) + Pow2(b.order)
    ensures p < |pages| && !pages[p].head && !pages[p].reserved && pages[p].zone == b.zone
  {
    assert ZoneHasPages(pages, zones, b.zone);
    assert HeadOk(pages, zones, f, p);
    if pages[p].head {
      var c :| c in f && InZone(zones, c) && PageOf(zones, c) == p && c.order == pages[p].order;
      assert Marked(pages, zones, c);
      SharedPage(zones, b, c, p);
    }
  }

  lemma {:induction false} MarkHeads(pages: seq<Page>, zones: seq<Zone>, f: set<Block>, b: Block)
    requires Zoned(pages, zones) && Heads(pages, zones, f) && Apart(f, b) && InZone(zones, b)
    ensures PageOf(zones, b) < |pages| && !pages[PageOf(zones, b)].head
    ensures Heads(Mark(pages, PageOf(zones, b), b.order), zones, f + {b})
  {
    var p := PageOf(zones, b);
    FreshHead(pages, zones, f, b, p);
    var r := Mark(pages, p, b.order);
    forall c | c in f + {b}
      ensures Marked(r, zones, c)
    {
      assert c in f ==> Marked(pages, zones, c);
    }
    forall q | 0 <= q < |r|
      ensures HeadOk(r, zones, f + {b}, q)
    {
      assert HeadOk(pages, zones, f, q);
      if q == p {
        assert b in f + {b};
      } else if r[q].head {
        var c :| c in f && InZone(zones, c) && PageOf(zones, c) == q && c.order == pages[q].order;
        assert c in f + {b};
      }
    }
  }

  lemma {:induction false} UnmarkHeads(pages: seq<Page>, zones: seq<Zone>, f: set<Block>, b: Block)
    requires Heads(pages, zones, f) && b in f
    ensures Marked(pages, zones, b) && Heads(Unmark(pages, PageOf(zones, b)), zones, f - {b})
  {
    assert Marked(pages, zones, b);
    var p := PageOf(zones, b);
    var r := Unmark(pages, p);
    forall c | c in f - {b}
      ensures Marked(r, zones, c)
    {
      assert Marked(pages, zones, c);
      if PageOf(zones, c) == p {
        SameBlock(zones, b, c);
      }
    }
    forall q | 0 <= q < |r|
      ensures HeadOk(r, zones, f - {b}, q)
    {
      assert HeadOk(pages, zones, f, q);
      if q != p && r[q].head {
        var c :| c in f && InZone(zones, c) && PageOf(zones, c) == q && c.order == pages[q].order;
        assert c in f - {b};
      }
    }
  }

  lemma {:induction false} MarkListed(pages: seq<Page>, lists: seq<seq<nat>>, nr: seq<nat>, p: nat, k: nat)
    requires Listed(pages, lists, nr) && p < |pages| && !pages[p].head && k <= MAX_ORDER
    ensures Listed(Mark(pages, p, k), lists[k := [p] + lists[k]], nr[k := nr[k] + 1])
  {
    var r, l := Mark(pages, p, k), lists[k := [p] + lists[k]];
    forall o | 0 <= o <= MAX_ORDER
      ensures ListOk(r, l, o) && nr[k := nr[k] + 1][o] == |l[o]|
    {
      assert ListOk(pages, lists, o);
      assert p !in lists[o];
    }
  }

  lemma {:induction false} UnmarkListed(pages: seq<Page>, lists: seq<seq<nat>>, nr: seq<nat>, p: nat, k: nat)
    requires Listed(pages, lists, nr) && p < |pages| && pages[p].head && pages[p].order == k && k <= MAX_ORDER
    ensures nr[k] > 0
    ensures Listed(Unmark(pages, p), lists[k := Remove(lists[k], p)], nr[k := nr[k] - 1])
  {
    var r, l := Unmark(pages, p), lists[k := Remove(lists[k], p)];
    assert ListOk(pages, lists, k);
    assert p in lists[k];
    DistinctRemove(lists[k], p);
    forall o | 0 <= o <= MAX_ORDER
      ensures ListOk(r, l, o) && nr[k := nr[k] - 1][o] == |l[o]|
    {
      assert ListOk(pages, lists, o);
    }
  }

  // ------------------------------------------------------------------ counting

  ghost function Span(b: Block): set<nat>
  {
    set i: nat | i < First(b) + Pow2(b.order) && InSpan(b, i)
  }

  ghost predicate InSpan(b: Block, i: nat)
  {
    First(b) <= i < First(b) + Pow2(b.order)
  }

  /** The free pages, each as its zone and its index there. */
  ghost function FreePages(f: set<Block>): set<(nat, nat)>
  {
    set b, i | b in f && i in Span(b) :: (b.zone, i)
  }

  /** Pages on all lists together, from their counters. */
  ghost function Total(nr: seq<nat>, k: nat): nat
    requires k <= |nr|
  {
    if k == 0 then 0 else Total(nr, k - 1) + nr[k - 1] * Pow2(k - 1)
  }

  lemma {:induction false} FreePagesAre(f: set<Block>, zone: nat, i: nat)
    ensures (zone, i) in FreePages(f) <==> Covered(f, zone, i)
  {
    if (zone, i) in FreePages(f) {
      var b, j :| b in f && j in Span(b) && (b.zone, j) == (zone, i);
      HoldsIs(b, i);
    }
    if Covered(f, zone, i) {
      var b :| b in f && Holds(b, zone, i);
      HoldsIs(b, i);
      assert i in Span(b);
    }
  }

  lemma {:induction false} IntervalSize(z: nat, from: nat, n: nat)
    ensures |set i: nat | from <= i < from + n :: (z, i)| == n
  {
    var s := set i: nat | from <= i < from + n :: (z, i);
    if n == 0 {
      assert s == {};
    } else {
      IntervalSize(z, from, n - 1);
      assert s == (set i: nat | from <= i < from + (n - 1) :: (z, i)) + {(z, from + n - 1)};
    }
  }

  ghost function PagesOf(b: Block): set<(nat, nat)>
  {
    set i: nat | First(b) <= i < First(b) + Pow2(b.order) :: (b.zone, i)
  }

  lemma {:induction false} FreePagesAdd(f: set<Block>, b: Block)
    ensures FreePages(f + {b}) == FreePages(f) + PagesOf(b)
  {
    forall q: (nat, nat)
      ensures q in FreePages(f + {b}) <==> q in FreePages(f) + PagesOf(b)
    {
      FreePagesAre(f + {b}, q.0, q.1);
      FreePagesAre(f, q.0, q.1);
      HoldsIs(b, q.1);
      CoveredSplit(f + {b}, b, q.0, q.1);
      if Covered(f, q.0, q.1) {
        var c :| c in f && Holds(c, q.0, q.1);
        assert c in f + {b};
      }
      if Covered(f + {b} - {b}, q.0, q.1) {
        var c :| c in f + {b} - {b} && Holds(c, q.0, q.1);
        assert c in f;
      }
    }
  }

  lemma {:induction false} FreePagesApart(f: set<Block>, b: Block)
    requires Apart(f, b)
    ensures FreePages(f) !! PagesOf(b)
  {
    forall q | q in FreePages(f)
      ensures q !in PagesOf(b)
    {
      FreePagesAre(f, q.0, q.1);
      var c :| c in f && Holds(c, q.0, q.1);
      assert !Overlap(b, c);
      HoldsIs(b, q.1);
      if q in PagesOf(b) {
        HoldsOverlap(b, c, b.zone, q.1);
      }
    }
  }

  lemma {:induction false} AddCount(f: set<Block>, b: Block)
    requires Apart(f, b)
    ensures |FreePages(f + {b})| == |FreePages(f)| + Pow2(b.order)
  {
    IntervalSize(b.zone, First(b), Pow2(b.order));
    FreePagesAdd(f, b);
    FreePagesApart(f, b);
  }

  lemma {:induction false} TotalStep(nr: seq<nat>, k: nat, v: nat, o: nat)
    requires o < k <= |nr|
    ensures Total(nr[o := v], k) == Total(nr, k) - nr[o] * Pow2(o) + v * Pow2(o)
    decreases k
  {
    if o < k - 1 {
      TotalStep(nr, k - 1, v, o);
    } else {
      TotalSame(nr, nr[o := v], k - 1);
    }
  }

  lemma {:induction false} TotalSame(a: seq<nat>, b: seq<nat>, k: nat)
    requires k <= |a| && k <= |b| && forall i :: 0 <= i < k ==> a[i] == b[i]
    ensures Total(a, k) == Total(b, k)
  {
    if k > 0 {
      TotalSame(a, b, k - 1);
    }
  }

  /** The counters agree with the number of free pages. */
  ghost predicate Counted(nr: seq<nat>, f: set<Block>)
  {
    |nr| == MAX_ORDER + 1 && Total(nr, MAX_ORDER + 1) == |FreePages(f)|
  }

  lemma {:induction false} PushCounted(nr: seq<nat>, f: set<Block>, b: Block)
    requires Counted(nr, f) && Apart(f, b) && b.order <= MAX_ORDER
    ensures Counted(nr[b.order := nr[b.order] + 1], f + {b})
  {
    AddCount(f, b);
    TotalStep(nr, MAX_ORDER + 1, nr[b.order] + 1, b.order);
    assert (nr[b.order] + 1) * Pow2(b.order) == nr[b.order] * Pow2(b.order) + Pow2(b.order);
  }

  lemma {:induction false} PullCounted(nr: seq<nat>, f: set<Block>, b: Block)
    requires Counted(nr, f) && b in f && Proper(f) && nr[b.order] > 0
    ensures Counted(nr[b.order := nr[b.order] - 1], f - {b})
  {
    forall c | c in f - {b}
      ensures !Overlap(b, c)
    {
    }
    AddCount(f - {b}, b);
    assert f - {b} + {b} == f;
    TotalStep(nr, MAX_ORDER + 1, nr[b.order] - 1, b.order);
    assert (nr[b.order] - 1) * Pow2(b.order) == nr[b.order] * Pow2(b.order) - Pow2(b.order);
  }
}
