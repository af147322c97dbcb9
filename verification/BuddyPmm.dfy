/** The buddy page allocator: page records and free lists changed in place, tied to
    the set of free blocks they represent. */
module BuddyPmm {
  import opened Basics
  import opened BuddyBlocks
  import opened BuddyPages

  const MAX_ZONES: nat := 10

  /** What a request for pages comes to. Asking for more than 2^MAX_ORDER pages stops
      the kernel. */
  datatype Answer = Panic | NoPages | Pages(first: nat)

  ghost predicate Represents(pages: seq<Page>, zones: seq<Zone>, lists: seq<seq<nat>>, nr: seq<nat>, f: set<Block>)
  {
    Zoned(pages, zones) && Heads(pages, zones, f) && Listed(pages, lists, nr) && Counted(nr, f)
  }

  lemma {:induction false} PushRepresents(pages: seq<Page>, zones: seq<Zone>, lists: seq<seq<nat>>, nr: seq<nat>,
      f: set<Block>, b: Block)
    requires Represents(pages, zones, lists, nr, f) && Apart(f, b) && InZone(zones, b) && b.order <= MAX_ORDER
    ensures PageOf(zones, b) < |pages|
    ensures Represents(Mark(pages, PageOf(zones, b), b.order), zones,
                       lists[b.order := [PageOf(zones, b)] + lists[b.order]], nr[b.order := nr[b.order] + 1], f + {b})
  {
    MarkHeads(pages, zones, f, b);
    MarkListed(pages, lists, nr, PageOf(zones, b), b.order);
    PushCounted(nr, f, b);
    ZonedKept(pages, Mark(pages, PageOf(zones, b), b.order), zones);
  }

  lemma {:induction false} PullRepresents(pages: seq<Page>, zones: seq<Zone>, lists: seq<seq<nat>>, nr: seq<nat>,
      f: set<Block>, b: Block)
    requires Represents(pages, zones, lists, nr, f) && Proper(f) && b in f
    ensures InZone(zones, b) && PageOf(zones, b) < |pages| && nr[b.order] > 0
    ensures PageOf(zones, b) in lists[b.order]
    ensures Represents(Unmark(pages, PageOf(zones, b)), zones,
                       lists[b.order := Remove(lists[b.order], PageOf(zones, b))],
                       nr[b.order := nr[b.order] - 1], f - {b})
  {
    UnmarkHeads(pages, zones, f, b);
    UnmarkListed(pages, lists, nr, PageOf(zones, b), b.order);
    PullCounted(nr, f, b);
    ZonedKept(pages, Unmark(pages, PageOf(zones, b)), zones);
    assert ListOk(pages, lists, b.order);
  }

  /** The pages `from .. from + n` of a zone, none of them free. */
  ghost predicate Taken(f: set<Block>, zone: nat, from: nat, n: nat)
  {
    forall i: nat {:trigger Covered(f, zone, i)} :: from <= i < from + n ==> !Covered(f, zone, i)
  }

  lemma {:induction false} TakenApart(f: set<Block>, b: Block, from: nat, n: nat)
    requires Taken(f, b.zone, from, n) && from <= First(b) && First(b) + Pow2(b.order) <= from + n
    ensures Apart(f, b)
  {
    forall c | c in f
      ensures !Overlap(b, c)
    {
      OverlapShares(b, c);
      if Overlap(b, c) {
        var i: nat :| Holds(b, b.zone, i) && Holds(c, b.zone, i);
        HoldsIs(b, i);
        assert Covered(f, b.zone, i);
      }
    }
  }

  class Pmm {
    const pages: array<Page>
    var zones: seq<Zone>
    var lists: seq<seq<nat>>
    var nr: seq<nat>
    ghost var blocks: set<Block>

    ghost predicate Valid()
      reads this, pages
    {
      Represents(pages[..], zones, lists, nr, blocks) && Proper(blocks) && |zones| <= MAX_ZONES
    }

    constructor (npage: nat)
      ensures Valid() && fresh(pages) && pages.Length == npage && zones == [] && blocks == {}
      ensures forall p :: 0 <= p < npage ==> pages[p].reserved
    {
      pages := new Page[npage](_ => Page(true, false, 0, 0));
      zones, blocks := [], {};
      lists := seq(MAX_ORDER + 1, _ => []);
      nr := seq(MAX_ORDER + 1, _ => 0);
      new;
      NothingCounted(nr, MAX_ORDER + 1);
      forall k | 0 <= k <= MAX_ORDER
        ensures ListOk(pages[..], lists, k) && nr[k] == |lists[k]|
      {
      }
      forall p | 0 <= p < |pages[..]|
        ensures PageInZone(pages[..], zones, p) && HeadOk(pages[..], zones, blocks, p)
      {
      }
    }

    method SetPage(p: nat, v: Page)
      requires p < pages.Length
      modifies pages
      ensures pages[..] == old(pages[..])[p := v]
    {
      pages[p] := v;
    }

    /** Marks page `p` as the head of a free block of order `k` and puts it first on
        that order's list. */
    method Push(p: nat, k: nat)
      requires p < pages.Length && k < |lists| && k < |nr|
      modifies this`lists, this`nr, pages
      ensures pages[..] == Mark(old(pages[..]), p, k)
      ensures lists == old(lists)[k := [p] + old(lists)[k]] && nr == old(nr)[k := old(nr)[k] + 1]
    {
      SetPage(p, pages[p].(head := true, order := k));
      lists := lists[k := [p] + lists[k]];
      nr := nr[k := nr[k] + 1];
    }

    /** Takes head `p` off the list of order `k` and clears its mark. */
    method Pull(p: nat, k: nat)
      requires p < pages.Length && k < |lists| && k < |nr| && nr[k] > 0
      modifies this`lists, this`nr, pages
      ensures pages[..] == Unmark(old(pages[..]), p)
      ensures lists == old(lists)[k := Remove(old(lists)[k], p)] && nr == old(nr)[k := old(nr)[k] - 1]
    {
      nr := nr[k := nr[k] - 1];
      lists := lists[k := Remove(lists[k], p)];
      SetPage(p, pages[p].(head := false));
    }

    predicate PageIsBuddy(p: nat, k: nat, zone: nat)
      reads pages
    {
      IsBuddy(pages[..], p, k, zone)
    }

    /** Resets the flags of the pages of a block about to be given back; none is
        reserved or the head of a free block. */
    method ClearFlags(base: nat, order: nat, ghost b: Block)
      requires Valid() && InZone(zones, b) && PageOf(zones, b) == base && b.order == order && Apart(blocks, b)
      modifies pages
      ensures pages[..] == old(pages[..])
    {
      ghost var was := pages[..];
      var p := base;
      while p != base + Pow2(order)
        invariant base <= p <= base + Pow2(order)
        invariant pages[..] == was
        decreases base + Pow2(order) - p
      {
        FreshHead(was, zones, blocks, b, p);
        assert !pages[p].reserved && !pages[p].head;
        SetPage(p, pages[p].(reserved := false, head := false));
        p := p + 1;
      }
    }

    /** Gives back one block. Its buddy joins it as long as that is free too. */
    method FreeSub(base: nat, order0: nat, ghost b: Block)
      requires Valid() && InZone(zones, b) && PageOf(zones, b) == base && b.order == order0 <= MAX_ORDER
      requires Apart(blocks, b)
      modifies this`lists, this`nr, this`blocks, pages
      ensures Valid() && blocks == Merge(old(blocks), b)
    {
      FreshHead(pages[..], zones, blocks, b, base);
      var zone := pages[base].zone;
      var pageIdx := base - zones[zone].base;
      FirstHeld(b);
      assert First(Block(zone, order0, Shr(pageIdx, order0))) == pageIdx;
      ClearFlags(base, order0, b);
      var order := order0;
      ghost var c := b;
      while order < MAX_ORDER
        invariant Represents(pages[..], zones, lists, nr, blocks) && Proper(blocks)
        invariant c.order == order <= MAX_ORDER && c.zone == zone && First(c) == pageIdx && InZone(zones, c)
        invariant Apart(blocks, c) && Merge(blocks, c) == Merge(old(blocks), b)
      {
        BuddyIndex(c);
        var buddyIdx := FlipBit(pageIdx, order);
        var buddy := zones[zone].base + buddyIdx;
        BuddyFree(pages[..], zones, lists, nr, blocks, c);
        if !PageIsBuddy(buddy, order, zone) {
          break;
        }
        TakeBuddy(buddy, order, c);
        pageIdx := if pageIdx < buddyIdx then pageIdx else buddyIdx;
        order := order + 1;
        c := Parent(c);
      }
      Give(zones[zone].base + pageIdx, order, c);
    }

    /** Takes the free buddy of `c` off its list, to be joined with `c`. */
    method TakeBuddy(buddy: nat, order: nat, ghost c: Block)
      requires Represents(pages[..], zones, lists, nr, blocks) && Proper(blocks) && Apart(blocks, c) && InZone(zones, c)
      requires c.order == order < MAX_ORDER && Buddy(c) in blocks && buddy == PageOf(zones, Buddy(c))
      modifies this`lists, this`nr, this`blocks, pages
      ensures blocks == old(blocks) - {Buddy(c)}
      ensures Represents(pages[..], zones, lists, nr, blocks) && Proper(blocks)
      ensures Apart(blocks, Parent(c)) && InZone(zones, Parent(c)) && Merge(blocks, Parent(c)) == Merge(old(blocks), c)
    {
      JoinRepresents(pages[..], zones, lists, nr, blocks, c);
      Pull(buddy, order);
      blocks := blocks - {Buddy(c)};
    }

    /** Adds `c`, whose buddy is not free, to the free blocks. */
    method Give(page: nat, order: nat, ghost c: Block)
      requires Represents(pages[..], zones, lists, nr, blocks) && Proper(blocks) && Apart(blocks, c) && InZone(zones, c)
      requires c.order == order <= MAX_ORDER && (order == MAX_ORDER || Buddy(c) !in blocks) && page == PageOf(zones, c)
      modifies this`lists, this`nr, this`blocks, pages
      ensures Represents(pages[..], zones, lists, nr, blocks) && Proper(blocks)
      ensures blocks == old(blocks) + {c} == Merge(old(blocks), c)
    {
      PushRepresents(pages[..], zones, lists, nr, blocks, c);
      MergeProper(blocks, c);
      Push(page, order);
      blocks := blocks + {c};
    }

    // -------------------------------------------------------------- allocation

    /** Takes the first block of the smallest sufficient order and cuts it down to
        2^order pages; the upper halves stay free. */
    method AllocSub(order: nat) returns (r: Option<nat>, ghost b: Block, ghost c: Block)
      requires Valid() && order <= MAX_ORDER
      modifies this`lists, this`nr, this`blocks, pages
      ensures Valid()
      ensures r == None <==> forall c :: c in old(blocks) ==> c.order < order
      ensures r == None ==> pages[..] == old(pages[..]) && lists == old(lists) && nr == old(nr) && blocks == old(blocks)
      ensures r != None ==> InZone(zones, b) && PageOf(zones, b) == r.value && b.order == order
      ensures r != None ==> Apart(blocks, b) && Freeing(blocks, old(blocks), b)
      ensures r != None ==>
                && c in old(blocks) && order <= c.order < |old(lists)| && old(lists)[c.order] != []
                && InZone(zones, c) && PageOf(zones, c) == r.value == old(lists)[c.order][0]
                && forall d :: d in old(blocks) && order <= d.order ==> c.order <= d.order
    {
      var cur := order;
      b, c := Block(0, 0, 0), Block(0, 0, 0);
      while cur <= MAX_ORDER
        invariant order <= cur <= MAX_ORDER + 1
        invariant pages[..] == old(pages[..]) && lists == old(lists) && nr == old(nr) && blocks == old(blocks)
        invariant forall c :: c in blocks ==> c.order < order || cur <= c.order
      {
        if lists[cur] != [] {
          var page;
          page, b, c := Split(cur, order);
          return Some(page), b, c;
        }
        EmptyList(pages[..], zones, lists, nr, blocks, cur);
        cur := cur + 1;
      }
      return None, b, c;
    }

    /** Cuts the first block of one order, `c`, down to another order. */
    method Split(cur0: nat, order: nat) returns (page: nat, ghost b: Block, ghost c: Block)
      requires Valid() && order <= cur0 <= MAX_ORDER && lists[cur0] != []
      modifies this`lists, this`nr, this`blocks, pages
      ensures Valid()
      ensures c in old(blocks) && c.order == cur0 && InZone(zones, c) && PageOf(zones, c) == page == old(lists)[cur0][0]
      ensures InZone(zones, b) && PageOf(zones, b) == page && b.order == order
      ensures Apart(blocks, b) && Freeing(blocks, old(blocks), b)
    {
      var cur := cur0;
      page := lists[cur][0];
      b := FirstListed(pages[..], zones, lists, nr, blocks, cur);
      c := b;
      nr := nr[cur := nr[cur] - 1];
      lists := lists[cur := lists[cur][1..]];
      blocks := blocks - {b};
      while cur > order
        invariant order <= cur <= MAX_ORDER && page < pages.Length
        invariant Represents(Unmark(pages[..], page), zones, lists, nr, blocks) && Proper(blocks)
        invariant InZone(zones, b) && PageOf(zones, b) == page && b.order == cur
        invariant Apart(blocks, b) && Freeing(blocks, old(blocks), b)
      {
        cur := cur - 1;
        b := Halve(page, cur, b, old(blocks));
      }
      SetPage(page, pages[page].(head := false));
    }

    /** Makes the upper half of `b` a free block; the mark on its first page stays. */
    method Halve(page: nat, cur: nat, ghost b: Block, ghost was: set<Block>) returns (ghost l: Block)
      requires page < pages.Length && InZone(zones, b) && PageOf(zones, b) == page && b.order == cur + 1 <= MAX_ORDER
      requires Represents(Unmark(pages[..], page), zones, lists, nr, blocks) && Proper(blocks)
      requires Apart(blocks, b) && Freeing(blocks, was, b)
      modifies this`lists, this`nr, this`blocks, pages
      ensures Represents(Unmark(pages[..], page), zones, lists, nr, blocks) && Proper(blocks)
      ensures InZone(zones, l) && PageOf(zones, l) == page && l.order == cur
      ensures Apart(blocks, l) && Freeing(blocks, was, l)
    {
      var buddy := page + Pow2(cur);
      HalveRepresents(pages[..], zones, lists, nr, blocks, was, b);
      Push(buddy, cur);
      blocks := blocks + {UpperHalf(b)};
      l := LowerHalf(b);
    }

    /** The least order whose blocks have `n` pages. */
    static method GetOrder(n: nat) returns (r: Option<nat>)
      ensures r == None <==> n > Pow2(MAX_ORDER)
      ensures r != None ==> r.value <= MAX_ORDER && n <= Pow2(r.value) && forall k: nat :: n <= Pow2(k) ==> r.value <= k
    {
      var order, size := 0, 1;
      while order <= MAX_ORDER
        invariant order <= MAX_ORDER + 1 && size == Pow2(order)
        invariant forall k: nat :: k < order ==> Pow2(k) < n
      {
        if n <= size {
          return Some(order);
        }
        order, size := order + 1, 2 * size;
      }
      assert Pow2(MAX_ORDER) < n;
      return None;
    }

    // ----------------------------------------------------------------- freeing

    /** The pages `base .. base + n` exist and lie in one zone. */
    ghost predicate OneZone(base: nat, n: nat)
      reads this, pages
    {
      && base < pages.Length && !pages[base].reserved && pages[base].zone < |zones|
      && zones[pages[base].zone].base <= base
      && base + n <= zones[pages[base].zone].base + zones[pages[base].zone].len
    }

    /** Gives back `n` pages from `base` on, none of them free and all in one zone: the
        range is cut into aligned blocks, growing first and shrinking then. */
    method Free(base0: nat, n0: nat)
      requires Valid() && 0 < n0 < Pow2(MAX_ORDER + 1) && OneZone(base0, n0)
      requires Taken(blocks, pages[base0].zone, base0 - zones[pages[base0].zone].base, n0)
      modifies this`lists, this`nr, this`blocks, pages
      ensures Valid()
      ensures var z := old(pages[base0].zone); Filled(old(blocks), blocks, z, base0 - zones[z].base, n0)
      ensures |FreePages(blocks)| == old(|FreePages(blocks)|) + n0
    {
      ghost var z := pages[base0].zone;
      ghost var from := base0 - zones[z].base;
      if n0 == 1 {
        FreeOne(base0, 0, z, from, n0, 0, blocks);
        FilledCount(old(blocks), blocks, z, from, n0);
        return;
      }
      var base: nat, n: nat, order: nat, size: nat := base0, n0, 0, 1;
      while n >= size
        invariant Valid() && n <= n0 && base == base0 + (n0 - n)
        invariant size == Pow2(order) && order <= MAX_ORDER + 1
        invariant Aligned(from + (n0 - n), order) && Filled(old(blocks), blocks, z, from, n0 - n)
        decreases MAX_ORDER + 1 - order
      {
        SizeGrows(order, MAX_ORDER + 1);
        assert order <= MAX_ORDER;
        base, n := FreeOdd(base, n, order, size, z, from, n0, old(blocks));
        order, size := order + 1, 2 * size;
      }
      FreeRest(base, n, order, size, z, from, n0, old(blocks));
      FilledCount(old(blocks), blocks, z, from, n0);
    }

    /** Gives back one block of `size` pages if the base is not a multiple of twice that. */
    method FreeOdd(base0: nat, n1: nat, order: nat, size: nat, ghost z: nat, ghost from: nat, ghost n0: nat,
        ghost f: set<Block>)
      returns (base: nat, n: nat)
      requires Valid() && size == Pow2(order) <= n1 <= n0 && order <= MAX_ORDER
      requires z < |zones| && from + n0 <= zones[z].len && Taken(f, z, from, n0)
      requires base0 == zones[z].base + from + (n0 - n1)
      requires Aligned(from + (n0 - n1), order) && Filled(f, blocks, z, from, n0 - n1)
      modifies this`lists, this`nr, this`blocks, pages
      ensures Valid() && n <= n1 && base == base0 + (n1 - n)
      ensures Aligned(from + (n0 - n), order + 1) && Filled(f, blocks, z, from, n0 - n)
    {
      base, n := base0, n1;
      ghost var at := from + (n0 - n1);
      AlignedNext(at, order);
      PageZone(pages[..], zones, z, base);
      assert base - zones[pages[base].zone].base == at;
      if Shr(base - zones[pages[base].zone].base, order) % 2 != 0 {
        FreeOne(base, order, z, from, n0, n0 - n, f);
        base, n := base + size, n - size;
        assert from + (n0 - n) == at + Pow2(order) && n0 - n == n0 - n1 + Pow2(order);
      } else {
        assert Aligned(at, order + 1);
      }
    }

    /** The second half of `Free`: the aligned rest, largest blocks first. */
    method FreeRest(base1: nat, n1: nat, order1: nat, size1: nat, ghost z: nat, ghost from: nat, ghost n0: nat,
        ghost f: set<Block>)
      requires Valid() && n1 <= n0 && z < |zones| && from + n0 <= zones[z].len && Taken(f, z, from, n0)
      requires size1 == Pow2(order1) && order1 <= MAX_ORDER + 1 && n1 < size1
      requires base1 == zones[z].base + from + (n0 - n1)
      requires Aligned(from + (n0 - n1), order1) && Filled(f, blocks, z, from, n0 - n1)
      modifies this`lists, this`nr, this`blocks, pages
      ensures Valid() && Filled(f, blocks, z, from, n0)
    {
      var base: nat, n: nat, order: nat, size: nat := base1, n1, order1, size1;
      while n != 0
        invariant Valid() && n <= n0 && base == zones[z].base + from + (n0 - n)
        invariant size == Pow2(order) && (order <= MAX_ORDER || (order == MAX_ORDER + 1 && n < size))
        invariant Aligned(from + (n0 - n), order) && Filled(f, blocks, z, from, n0 - n)
        decreases n
      {
        base, n, order, size := FreeNext(base, n, order, size, z, from, n0, f);
      }
    }

    /** Gives back the largest block that fits. */
    method FreeNext(base1: nat, n1: nat, order1: nat, size1: nat, ghost z: nat, ghost from: nat, ghost n0: nat,
        ghost f: set<Block>)
      returns (base: nat, n: nat, order: nat, size: nat)
      requires Valid() && 0 < n1 <= n0 && size1 == Pow2(order1)
      requires (order1 <= MAX_ORDER || (order1 == MAX_ORDER + 1 && n1 < size1))
      requires z < |zones| && from + n0 <= zones[z].len && Taken(f, z, from, n0)
      requires base1 == zones[z].base + from + (n0 - n1)
      requires Aligned(from + (n0 - n1), order1) && Filled(f, blocks, z, from, n0 - n1)
      modifies this`lists, this`nr, this`blocks, pages
      ensures Valid() && n < n1 && base == base1 + (n1 - n) && size == Pow2(order) && order <= MAX_ORDER
      ensures Aligned(from + (n0 - n), order) && Filled(f, blocks, z, from, n0 - n)
    {
      order, size := StepDown(n1, order1, size1, from + (n0 - n1));
      FreeOne(base1, order, z, from, n0, n0 - n1, f);
      AlignedAdd(from + (n0 - n1), order);
      base, n := base1 + size, n1 - size;
      assert from + (n0 - n) == from + (n0 - n1) + Pow2(order);
    }

    /** The largest block size not above `n`, going down from `size0`. */
    static method StepDown(n: nat, order0: nat, size0: nat, ghost i: nat) returns (order: nat, size: nat)
      requires n > 0 && size0 == Pow2(order0) && Aligned(i, order0)
      ensures order <= order0 && size == Pow2(order) <= n && Aligned(i, order)
      ensures n < size0 ==> order < order0
    {
      order, size := order0, size0;
      while n < size
        invariant size == Pow2(order) && order <= order0 && Aligned(i, order)
        invariant n < size0 && n >= size ==> order < order0
        decreases order
      {
        AlignedLess(i, order);
        order, size := order - 1, size / 2;
      }
    }

    /** Gives back the next block of a range of which `done` pages are free already. */
    method FreeOne(base: nat, order: nat, ghost z: nat, ghost from: nat, ghost n0: nat, ghost done: nat,
        ghost f: set<Block>)
      requires Valid() && order <= MAX_ORDER && z < |zones| && from + n0 <= zones[z].len && done + Pow2(order) <= n0
      requires base == zones[z].base + from + done && Aligned(from + done, order)
      requires Taken(f, z, from, n0) && Filled(f, blocks, z, from, done)
      modifies this`lists, this`nr, this`blocks, pages
      ensures Valid() && Filled(f, blocks, z, from, done + Pow2(order))
    {
      ghost var b := Block(z, order, Shr(from + done, order));
      TakenRest(f, blocks, z, from, n0, done);
      AlignedFirst(from + done, order, z);
      TakenApart(blocks, b, from + done, n0 - done);
      ghost var was := blocks;
      MergeProper(blocks, b);
      FreeSub(base, order, b);
      FilledMore(f, was, blocks, b, z, from, done);
    }

    // ---------------------------------------------------------- initialisation

    /** Takes `n` reserved pages from `base` on into a new zone, as the largest aligned
        blocks that fit, from the left. */
    method InitMemmap(base: nat, n: nat)
      requires Valid() && n > 0 && |zones| < MAX_ZONES && base + n <= pages.Length
      requires forall p :: base <= p < base + n ==> pages[p].reserved
      modifies this, pages
      ensures Valid() && zones == old(zones) + [Zone(base, n)]
      ensures Filled(old(blocks), blocks, |old(zones)|, 0, n)
    {
      ghost var z, f := |zones|, blocks;
      NoneYet(pages[..], zones, blocks, n);
      AddZone(base, n);
      var p: nat, rest: nat, order: int, size: nat := base, n, MAX_ORDER, Pow2(MAX_ORDER);
      while rest != 0
        invariant Valid() && z < |zones| && zones[z] == Zone(base, n) && zones == old(zones) + [Zone(base, n)]
        invariant rest <= n && p == base + (n - rest) && order <= MAX_ORDER && (order < 0 ==> rest == 0)
        invariant order >= 0 ==> size == Pow2(order) && Aligned(n - rest, order) && Stair(blocks, z, order, rest, size)
        invariant Filled(f, blocks, z, 0, n - rest)
        decreases order + 1
      {
        rest, p := InitOrder(p, rest, order, size, z, base, n, f);
        if order > 0 {
          AlignedLess(n - rest, order);
        }
        order, size := order - 1, size / 2;
      }
    }

    /** The blocks of one order: as many as fit for the largest, at most one below. */
    method InitOrder(p0: nat, rest0: nat, order: nat, size: nat, ghost z: nat, ghost base: nat, ghost n: nat,
        ghost f: set<Block>)
      returns (rest: nat, p: nat)
      requires Valid() && z < |zones| && zones[z] == Zone(base, n) && Taken(f, z, 0, n)
      requires 0 < rest0 <= n && p0 == base + (n - rest0) && order <= MAX_ORDER && size == Pow2(order)
      requires Aligned(n - rest0, order) && Stair(blocks, z, order, rest0, size) && Filled(f, blocks, z, 0, n - rest0)
      modifies this`lists, this`nr, this`blocks, pages
      ensures Valid() && rest <= rest0 && p == base + (n - rest) && rest < size
      ensures Aligned(n - rest, order) && Filled(f, blocks, z, 0, n - rest)
      ensures forall c :: c in blocks && c.zone == z ==> order <= c.order
    {
      rest, p := rest0, p0;
      while rest >= size
        invariant Valid() && rest <= rest0 && p == base + (n - rest)
        invariant Aligned(n - rest, order) && Filled(f, blocks, z, 0, n - rest)
        invariant order < MAX_ORDER && rest >= size ==> Stair(blocks, z, order, rest, size)
        invariant forall c :: c in blocks && c.zone == z ==> order <= c.order
      {
        InitNext(p, rest, order, size, z, base, n, f);
        rest, p := rest - size, p + size;
      }
    }

    method InitNext(p: nat, rest: nat, order: nat, size: nat, ghost z: nat, ghost base: nat, ghost n: nat,
        ghost f: set<Block>)
      requires Valid() && z < |zones| && zones[z] == Zone(base, n) && Taken(f, z, 0, n)
      requires size <= rest <= n && p == base + (n - rest) && order <= MAX_ORDER && size == Pow2(order)
      requires Aligned(n - rest, order) && Filled(f, blocks, z, 0, n - rest)
      requires order < MAX_ORDER ==> Stair(blocks, z, order, rest, size)
      requires forall c :: c in blocks && c.zone == z ==> order <= c.order
      modifies this`lists, this`nr, this`blocks, pages
      ensures Valid() && Aligned(n - (rest - size), order) && Filled(f, blocks, z, 0, n - (rest - size))
      ensures forall c :: c in blocks && c.zone == z ==> order <= c.order
    {
      InitBlock(p, order, z, base, n, n - rest, f);
      AlignedAdd(n - rest, order);
      assert n - (rest - size) == (n - rest) + Pow2(order);
    }

    method InitBlock(p: nat, order: nat, ghost z: nat, ghost base: nat, ghost n: nat, ghost done: nat,
        ghost f: set<Block>)
      requires Valid() && z < |zones| && zones[z] == Zone(base, n) && Taken(f, z, 0, n) && order <= MAX_ORDER
      requires done + Pow2(order) <= n && p == base + done && Aligned(done, order) && Filled(f, blocks, z, 0, done)
      requires order < MAX_ORDER ==> forall c :: c in blocks && c.zone == z ==> order < c.order
      modifies this`lists, this`nr, this`blocks, pages
      ensures Valid() && Filled(f, blocks, z, 0, done + Pow2(order))
      ensures forall c :: c in blocks ==> c in old(blocks) || (c.zone == z && c.order == order)
    {
      ghost var b := Block(z, order, Shr(done, order));
      ghost var was := blocks;
      TakenRest(f, blocks, z, 0, n, done);
      AlignedFirst(done, order, z);
      TakenApart(blocks, b, done, n - done);
      MergeProper(blocks, b);
      Give(p, order, b);
      FilledMore(f, was, blocks, b, z, 0, done);
    }

    /** Takes the pages out of the reserve and records the zone. */
    method AddZone(base: nat, n: nat)
      requires Valid() && n > 0 && |zones| < MAX_ZONES && base + n <= pages.Length
      requires forall p :: base <= p < base + n ==> pages[p].reserved
      modifies this`zones, pages
      ensures Valid() && zones == old(zones) + [Zone(base, n)]
    {
      ghost var was := pages[..];
      var p := base;
      while p != base + n
        invariant base <= p <= base + n && zones == old(zones)
        invariant forall q :: 0 <= q < pages.Length ==>
                    pages[q] == if base <= q < p then Page(false, false, 0, |zones|) else was[q]
        decreases base + n - p
      {
        assert pages[p].reserved;
        pages[p] := Page(false, false, 0, |zones|);
        p := p + 1;
      }
      ZoneAdded(was, pages[..], zones, lists, nr, blocks, base, n);
      zones := zones + [Zone(base, n)];
    }

    // ------------------------------------------------------------- the interface

    /** Allocates `n` consecutive pages: a block of the least sufficient order, cut down
        to exactly `n` pages by giving back its tail. It fails exactly when no aligned
        run of that size is wholly free. */
    method Alloc(n: nat) returns (r: Answer, ghost k: nat)
      requires Valid() && n > 0
      modifies this`lists, this`nr, this`blocks, pages
      ensures Valid()
      ensures r == Panic <==> n > Pow2(MAX_ORDER)
      ensures r != Panic ==> k <= MAX_ORDER && n <= Pow2(k) && forall j: nat :: n <= Pow2(j) ==> k <= j
      ensures r == NoPages <==> n <= Pow2(MAX_ORDER) && !exists b: Block :: b.order == k && AllCovered(old(blocks), b)
      ensures !r.Pages? ==> blocks == old(blocks) && lists == old(lists) && nr == old(nr) && pages[..] == old(pages[..])
      ensures r.Pages? ==>
                && OneZone(r.first, n)
                && var z := pages[r.first].zone;
                   var from := r.first - zones[z].base;
                   Taken(blocks, z, from, n) && Filled(blocks, old(blocks), z, from, n)
      ensures r.Pages? ==> |FreePages(blocks)| == old(|FreePages(blocks)|) - n
    {
      k := 0;
      var order := GetOrder(n);
      if order == None {
        return Panic, k;
      }
      k := order.value;
      RunAvailable(blocks, k);
      var page;
      ghost var b, cut;
      page, b, cut := AllocSub(order.value);
      if page == None {
        return NoPages, k;
      }
      ghost var was := old(blocks);
      assert exists c: Block :: c.order == k && AllCovered(was, c);
      Trim(page.value, n, order.value, b, was);
      FilledCount(blocks, was, b.zone, First(b), n);
      return Pages(page.value), k;
    }

    method Trim(page: nat, n: nat, order: nat, ghost b: Block, ghost was: set<Block>)
      requires Valid() && 0 < n <= Pow2(order) && order <= MAX_ORDER
      requires InZone(zones, b) && PageOf(zones, b) == page && b.order == order && Apart(blocks, b)
      requires Freeing(blocks, was, b)
      modifies this`lists, this`nr, this`blocks, pages
      ensures Valid() && OneZone(page, n) && pages[page].zone == b.zone
      ensures Taken(blocks, b.zone, First(b), n) && Filled(blocks, was, b.zone, First(b), n)
    {
      ApartTaken(blocks, b);
      var size := Pow2(order);
      ghost var mid := blocks;
      if n != size {
        TrimRange(pages[..], zones, b, n);
        SizeGrows(order, MAX_ORDER + 1);
        Free(page + n, size - n);
      }
      TrimPages(was, mid, blocks, b, n);
      TrimRange(pages[..], zones, b, 0);
    }

    /** The number of free pages, from the counters. */
    method NrFreePages() returns (ret: nat)
      requires Valid()
      ensures ret == |FreePages(blocks)|
    {
      ret := 0;
      var order := 0;
      while order <= MAX_ORDER
        invariant order <= MAX_ORDER + 1 && ret == Total(nr, order)
      {
        ret := ret + nr[order] * Pow2(order);
        order := order + 1;
      }
    }
  }

  predicate IsBuddy(pages: seq<Page>, p: nat, k: nat, zone: nat) {
    p < |pages| && pages[p].zone == zone && !pages[p].reserved && pages[p].head && pages[p].order == k
  }

  /** Flipping bit `k` of a page index, as exclusive or does. */
  function FlipBit(idx: nat, k: nat): (r: nat)
    requires Shr(idx, k) % 2 == 1 ==> idx >= Pow2(k)
  {
    if Shr(idx, k) % 2 == 0 then idx + Pow2(k) else idx - Pow2(k)
  }

  /** The index with bit `order` flipped is where the buddy starts; the smaller of the
      two is where both together start. */
  lemma {:induction false} BuddyIndex(c: Block)
    ensures Shr(First(c), c.order) == c.idx
    ensures c.idx % 2 == 1 ==> First(c) >= Pow2(c.order)
    ensures FlipBit(First(c), c.order) == First(Buddy(c))
    ensures First(Parent(c)) == if First(c) < First(Buddy(c)) then First(c) else First(Buddy(c))
  {
    FirstHeld(c);
    BuddyFirst(c);
  }

  /** The page test finds the buddy free exactly when it is a free block. */
  lemma {:induction false} BuddyFree(pages: seq<Page>, zones: seq<Zone>, lists: seq<seq<nat>>, nr: seq<nat>,
      f: set<Block>, c: Block)
    requires Represents(pages, zones, lists, nr, f) && InZone(zones, c)
    ensures IsBuddy(pages, zones[c.zone].base + First(Buddy(c)), c.order, c.zone) <==> Buddy(c) in f
  {
    var e := Buddy(c);
    var p := zones[c.zone].base + First(e);
    if e in f {
      assert Marked(pages, zones, e);
      assert ZoneHasPages(pages, zones, e.zone);
    }
    if p < |pages| {
      assert HeadOk(pages, zones, f, p);
      if IsBuddy(pages, p, c.order, c.zone) {
        var d :| d in f && InZone(zones, d) && PageOf(zones, d) == p && d.order == pages[p].order;
        assert Marked(pages, zones, d);
        FirstHeld(d);
        FirstHeld(e);
        assert d == e;
      }
    }
  }

  lemma {:induction false} JoinRepresents(pages: seq<Page>, zones: seq<Zone>, lists: seq<seq<nat>>, nr: seq<nat>,
      f: set<Block>, c: Block)
    requires Represents(pages, zones, lists, nr, f) && Proper(f) && Apart(f, c) && InZone(zones, c)
    requires c.order < MAX_ORDER && Buddy(c) in f
    ensures var p := PageOf(zones, Buddy(c));
            && p < |pages| && nr[c.order] > 0
            && Represents(Unmark(pages, p), zones, lists[c.order := Remove(lists[c.order], p)],
                          nr[c.order := nr[c.order] - 1], f - {Buddy(c)})
    ensures Proper(f - {Buddy(c)}) && Apart(f - {Buddy(c)}, Parent(c)) && InZone(zones, Parent(c))
    ensures Merge(f, c) == Merge(f - {Buddy(c)}, Parent(c))
  {
    PullRepresents(pages, zones, lists, nr, f, Buddy(c));
    ParentApart(f, c);
    BuddyFirst(c);
  }

  // -------------------------------------------------- what the steps do to pages

  /** `g` has the free pages of `f` and those of `b`. */
  ghost predicate Freeing(f: set<Block>, g: set<Block>, b: Block)
  {
    forall zone: nat, i: nat {:trigger Covered(g, zone, i)} ::
      Covered(g, zone, i) <==> Covered(f, zone, i) || Holds(b, zone, i)
  }

  lemma {:induction false} EmptyList(pages: seq<Page>, zones: seq<Zone>, lists: seq<seq<nat>>, nr: seq<nat>,
      f: set<Block>, k: nat)
    requires Represents(pages, zones, lists, nr, f) && k <= MAX_ORDER && lists[k] == []
    ensures forall c :: c in f ==> c.order != k
  {
    forall c | c in f
      ensures c.order != k
    {
      assert Marked(pages, zones, c) && ListOk(pages, lists, k);
      assert PageOf(zones, c) !in lists[k];
    }
  }

  /** The first page on a list is the head of a free block of that order. */
  lemma {:induction false} FirstListed(pages: seq<Page>, zones: seq<Zone>, lists: seq<seq<nat>>, nr: seq<nat>,
      f: set<Block>, k: nat) returns (b: Block)
    requires Represents(pages, zones, lists, nr, f) && Proper(f) && k <= MAX_ORDER && lists[k] != []
    ensures b in f && b.order == k && InZone(zones, b) && PageOf(zones, b) == lists[k][0] < |pages| && nr[k] > 0
    ensures Represents(Unmark(pages, lists[k][0]), zones, lists[k := lists[k][1..]], nr[k := nr[k] - 1], f - {b})
    ensures Proper(f - {b}) && Apart(f - {b}, b) && Freeing(f - {b}, f, b)
  {
    var p := lists[k][0];
    assert ListOk(pages, lists, k);
    assert p in lists[k];
    assert HeadOk(pages, zones, f, p);
    b :| b in f && InZone(zones, b) && PageOf(zones, b) == p && b.order == pages[p].order;
    PullRepresents(pages, zones, lists, nr, f, b);
    DistinctRemove(lists[k], lists[k][0]);
    forall zone: nat, i: nat
      ensures Covered(f, zone, i) <==> Covered(f - {b}, zone, i) || Holds(b, zone, i)
    {
      CoveredSplit(f, b, zone, i);
    }
  }

  /** One cut: the upper half of `b` joins the free blocks, the lower half is kept. */
  lemma {:induction false} HalveRepresents(pages: seq<Page>, zones: seq<Zone>, lists: seq<seq<nat>>, nr: seq<nat>,
      f: set<Block>, g: set<Block>, b: Block)
    requires InZone(zones, b) && 0 < b.order <= MAX_ORDER && PageOf(zones, b) < |pages|
    requires Represents(Unmark(pages, PageOf(zones, b)), zones, lists, nr, f) && Proper(f)
    requires Apart(f, b) && Freeing(f, g, b)
    ensures var k, p := b.order - 1, PageOf(zones, b);
            && InZone(zones, LowerHalf(b)) && PageOf(zones, LowerHalf(b)) == p && p + Pow2(k) < |pages|
            && Represents(Unmark(Mark(pages, p + Pow2(k), k), p), zones, lists[k := [p + Pow2(k)] + lists[k]],
                          nr[k := nr[k] + 1], f + {UpperHalf(b)})
    ensures Proper(f + {UpperHalf(b)}) && Apart(f + {UpperHalf(b)}, LowerHalf(b))
    ensures Freeing(f + {UpperHalf(b)}, g, LowerHalf(b))
  {
    var k, p, u := b.order - 1, PageOf(zones, b), UpperHalf(b);
    HalfFirst(b);
    HalveProper(f, b);
    UpperApart(f, b);
    PushRepresents(Unmark(pages, p), zones, lists, nr, f, u);
    assert Unmark(Mark(pages, p + Pow2(k), k), p) == Mark(Unmark(pages, p), p + Pow2(k), k);
    forall zone: nat, i: nat
      ensures Covered(g, zone, i) <==> Covered(f + {u}, zone, i) || Holds(LowerHalf(b), zone, i)
    {
      PageOfParent(u, zone, i);
      assert Parent(u) == b && Buddy(u) == LowerHalf(b);
    }
  }

  lemma {:induction false} UpperApart(f: set<Block>, b: Block)
    requires Apart(f, b) && b.order > 0
    ensures Apart(f, UpperHalf(b))
  {
    var u := UpperHalf(b);
    assert Shr(u.idx, 1) == Shr(u.idx / 2, 0);
    forall c | c in f
      ensures !Overlap(u, c)
    {
      assert !Overlap(b, c);
      if Overlap(u, c) {
        OverlapOuter(u, b, c);
      }
    }
  }

  /** `g` has the free pages of `f` and the pages `from .. from + n` of zone `z`. */
  ghost predicate Filled(f: set<Block>, g: set<Block>, z: nat, from: nat, n: nat)
  {
    forall zone: nat, i: nat {:trigger Covered(g, zone, i)} ::
      Covered(g, zone, i) <==> Covered(f, zone, i) || (zone == z && from <= i < from + n)
  }

  lemma {:induction false} TakenRest(f: set<Block>, g: set<Block>, z: nat, from: nat, n: nat, done: nat)
    requires Taken(f, z, from, n) && Filled(f, g, z, from, done) && done <= n
    ensures Taken(g, z, from + done, n - done)
  {
    forall i: nat | from + done <= i < from + n
      ensures !Covered(g, z, i)
    {
      assert !Covered(f, z, i);
    }
  }

  lemma {:induction false} FilledMore(f: set<Block>, g: set<Block>, h: set<Block>, b: Block, z: nat, from: nat,
      done: nat)
    requires Filled(f, g, z, from, done) && Freeing(g, h, b) && b.zone == z && First(b) == from + done
    ensures Filled(f, h, z, from, done + Pow2(b.order))
  {
    forall zone: nat, i: nat
      ensures Covered(h, zone, i) <==> Covered(f, zone, i) || (zone == z && from <= i < from + done + Pow2(b.order))
    {
      HoldsIs(b, i);
      assert Covered(g, zone, i) <==> Covered(f, zone, i) || (zone == z && from <= i < from + done);
    }
  }

  lemma {:induction false} PageZone(pages: seq<Page>, zones: seq<Zone>, z: nat, p: nat)
    requires Zoned(pages, zones) && z < |zones| && zones[z].base <= p < zones[z].base + zones[z].len
    ensures p < |pages| && pages[p].zone == z && !pages[p].reserved
  {
    assert ZoneHasPages(pages, zones, z);
  }

  /** The low `k` bits of `i` are zero. */
  ghost predicate Aligned(i: nat, k: nat)
  {
    First(Block(0, k, Shr(i, k))) == i
  }

  lemma {:induction false} FirstAnyZone(b: Block, z: nat)
    ensures First(b.(zone := z)) == First(b)
    decreases b.order
  {
    if b.order > 0 {
      FirstAnyZone(LowerHalf(b), z);
      assert LowerHalf(b).(zone := z) == LowerHalf(b.(zone := z));
    }
  }

  lemma {:induction false} AlignedFirst(i: nat, k: nat, z: nat)
    requires Aligned(i, k)
    ensures First(Block(z, k, Shr(i, k))) == i
  {
    FirstAnyZone(Block(0, k, Shr(i, k)), z);
  }

  lemma {:induction false} AlignedAt(j: nat, k: nat)
    ensures Aligned(First(Block(0, k, j)), k) && Shr(First(Block(0, k, j)), k) == j
  {
    FirstHeld(Block(0, k, j));
  }

  lemma {:induction false} AlignedNext(i: nat, k: nat)
    requires Aligned(i, k)
    ensures if Shr(i, k) % 2 == 0 then Aligned(i, k + 1) else Aligned(i + Pow2(k), k + 1)
  {
    var j := Shr(i, k);
    UpLast(i, k);
    if j % 2 == 0 {
      assert LowerHalf(Block(0, k + 1, j / 2)) == Block(0, k, j);
    } else {
      NextFirst(0, k, j);
      AlignedAt((j + 1) / 2, k + 1);
      assert LowerHalf(Block(0, k + 1, (j + 1) / 2)) == Block(0, k, j + 1);
    }
  }

  lemma {:induction false} AlignedLess(i: nat, k: nat)
    requires Aligned(i, k) && k > 0
    ensures Aligned(i, k - 1) && Pow2(k) / 2 == Pow2(k - 1)
  {
    AlignedAt(2 * Shr(i, k), k - 1);
    assert LowerHalf(Block(0, k, Shr(i, k))) == Block(0, k - 1, 2 * Shr(i, k));
  }

  lemma {:induction false} AlignedAdd(i: nat, k: nat)
    requires Aligned(i, k)
    ensures Aligned(i + Pow2(k), k)
  {
    NextFirst(0, k, Shr(i, k));
    AlignedAt(Shr(i, k) + 1, k);
  }

  lemma {:induction false} SizeGrows(a: nat, b: nat)
    ensures a <= b ==> Pow2(a) <= Pow2(b)
    ensures a < b ==> Pow2(a) < Pow2(b)
    ensures Pow2(a) <= Pow2(b) - 1 ==> a < b
    decreases b
  {
    if a < b {
      SizeGrows(a, b - 1);
    } else if b < a {
      PowGrows(b, a);
    }
  }

  lemma {:induction false} NothingCounted(nr: seq<nat>, k: nat)
    requires k <= |nr| && forall i :: 0 <= i < |nr| ==> nr[i] == 0
    ensures Total(nr, k) == 0 && FreePages({}) == {}
  {
    if k > 0 {
      NothingCounted(nr, k - 1);
    }
  }

  lemma {:induction false} ApartTaken(f: set<Block>, b: Block)
    requires Apart(f, b)
    ensures Taken(f, b.zone, First(b), Pow2(b.order))
  {
    forall i: nat | First(b) <= i < First(b) + Pow2(b.order)
      ensures !Covered(f, b.zone, i)
    {
      if Covered(f, b.zone, i) {
        var c :| c in f && Holds(c, b.zone, i);
        assert !Overlap(b, c);
        HoldsIs(b, i);
        HoldsOverlap(b, c, b.zone, i);
      }
    }
  }

  lemma {:induction false} TrimRange(pages: seq<Page>, zones: seq<Zone>, b: Block, n: nat)
    requires Zoned(pages, zones) && InZone(zones, b) && n < Pow2(b.order)
    ensures var p := PageOf(zones, b) + n; p < |pages| && pages[p].zone == b.zone && !pages[p].reserved
  {
    PageZone(pages, zones, b.zone, PageOf(zones, b) + n);
  }

  /** Cutting the first `n` pages out of `b` and giving back the rest. */
  lemma {:induction false} TrimPages(was: set<Block>, mid: set<Block>, f: set<Block>, b: Block, n: nat)
    requires Freeing(mid, was, b) && Taken(mid, b.zone, First(b), Pow2(b.order)) && n <= Pow2(b.order)
    requires if n == Pow2(b.order) then f == mid else Filled(mid, f, b.zone, First(b) + n, Pow2(b.order) - n)
    ensures Taken(f, b.zone, First(b), n) && Filled(f, was, b.zone, First(b), n)
  {
    forall i: nat | First(b) <= i < First(b) + n
      ensures !Covered(f, b.zone, i)
    {
      assert !Covered(mid, b.zone, i);
    }
    forall zone: nat, i: nat
      ensures Covered(was, zone, i) <==> Covered(f, zone, i) || (zone == b.zone && First(b) <= i < First(b) + n)
    {
      HoldsIs(b, i);
      assert Covered(f, zone, i) <==>
          Covered(mid, zone, i) || (zone == b.zone && First(b) + n <= i < First(b) + Pow2(b.order));
    }
  }

  /** Making `n` taken pages free adds exactly `n` to the count. */
  lemma {:induction false} FilledCount(f: set<Block>, g: set<Block>, z: nat, from: nat, n: nat)
    requires Filled(f, g, z, from, n) && Taken(f, z, from, n)
    ensures |FreePages(g)| == |FreePages(f)| + n
  {
    var s := set i: nat | from <= i < from + n :: (z, i);
    IntervalSize(z, from, n);
    forall q: (nat, nat)
      ensures q in FreePages(g) <==> q in FreePages(f) + s
      ensures !(q in FreePages(f) && q in s)
    {
      FreePagesAre(g, q.0, q.1);
      FreePagesAre(f, q.0, q.1);
      assert Covered(g, q.0, q.1) <==> Covered(f, q.0, q.1) || (q.0 == z && from <= q.1 < from + n);
    }
    assert FreePages(g) == FreePages(f) + s;
    assert FreePages(f) !! s;
  }

  // ------------------------------------------------------------ a zone is added

  /** Below the largest order, at most one more block of this order fits, and zone `z`
      has none yet. */
  ghost predicate Stair(f: set<Block>, z: nat, order: nat, rest: nat, size: nat)
  {
    (order < MAX_ORDER ==> rest < 2 * size) && forall c :: c in f && c.zone == z ==> order < c.order
  }

  lemma {:induction false} ZoneAdded(was: seq<Page>, now: seq<Page>, zones: seq<Zone>, lists: seq<seq<nat>>,
      nr: seq<nat>, f: set<Block>, base: nat, n: nat)
    requires Represents(was, zones, lists, nr, f) && |now| == |was| && base + n <= |was|
    requires forall p :: base <= p < base + n ==> was[p].reserved
    requires forall p ::
               0 <= p < |was| ==> now[p] == if base <= p < base + n then Page(false, false, 0, |zones|) else was[p]
    ensures Represents(now, zones + [Zone(base, n)], lists, nr, f)
  {
    var all := zones + [Zone(base, n)];
    forall p | 0 <= p < |now|
      ensures PageInZone(now, all, p) && (was[p].reserved ==> !was[p].head) && HeadOk(now, all, f, p)
    {
      assert PageInZone(was, zones, p) && HeadOk(was, zones, f, p);
      ReservedNoHead(was, zones, f, p);
    }
    forall z | 0 <= z < |all|
      ensures ZoneHasPages(now, all, z)
    {
      if z < |zones| {
        assert ZoneHasPages(was, zones, z);
        forall p | zones[z].base <= p < zones[z].base + zones[z].len
          ensures now[p] == was[p]
        {
          assert !was[p].reserved;
        }
      }
    }
    forall b | b in f
      ensures Marked(now, all, b)
    {
      assert Marked(was, zones, b) && ZoneHasPages(was, zones, b.zone);
    }
    forall k | 0 <= k <= MAX_ORDER
      ensures ListOk(now, lists, k) && nr[k] == |lists[k]|
    {
      assert ListOk(was, lists, k);
    }
  }

  /** A zone yet to come has no free pages. */
  lemma {:induction false} NoneYet(pages: seq<Page>, zones: seq<Zone>, f: set<Block>, n: nat)
    requires Heads(pages, zones, f)
    ensures forall c :: c in f ==> c.zone < |zones|
    ensures Taken(f, |zones|, 0, n) && Filled(f, f, |zones|, 0, 0) && Aligned(0, MAX_ORDER)
  {
    forall c | c in f
      ensures c.zone < |zones|
    {
      assert Marked(pages, zones, c);
    }
    assert Aligned(0, MAX_ORDER);
  }

  lemma {:induction false} ReservedNoHead(pages: seq<Page>, zones: seq<Zone>, f: set<Block>, p: nat)
    requires Zoned(pages, zones) && Heads(pages, zones, f) && p < |pages|
    ensures pages[p].reserved ==> !pages[p].head
  {
    assert HeadOk(pages, zones, f, p);
    if pages[p].head {
      var b :| b in f && InZone(zones, b) && PageOf(zones, b) == p && b.order == pages[p].order;
      assert ZoneHasPages(pages, zones, b.zone);
    }
  }

  /** Allocating pages and freeing them again: the same blocks are free as before. */
  method AllocThenFree(pmm: Pmm, n: nat) returns (r: Answer)
    requires pmm.Valid() && 0 < n
    modifies pmm`lists, pmm`nr, pmm`blocks, pmm.pages
    ensures pmm.Valid() && pmm.blocks == old(pmm.blocks)
    ensures r == Panic <==> n > Pow2(MAX_ORDER)
  {
    ghost var before, k := pmm.blocks, 0;
    r, k := pmm.Alloc(n);
    if r.Pages? {
      ghost var between, z := pmm.blocks, pmm.pages[r.first].zone;
      ghost var from := r.first - pmm.zones[z].base;
      PowGrows(MAX_ORDER, MAX_ORDER + 1);
      pmm.Free(r.first, n);
      FreeUndoesAlloc(before, between, pmm.blocks, z, from, n);
    }
  }

  /** Freeing the pages an allocation took brings back the very blocks there were before,
      however they were split in between. */
  lemma {:induction false} FreeUndoesAlloc(before: set<Block>, between: set<Block>, after: set<Block>, z: nat,
      from: nat, n: nat)
    requires Proper(before) && Proper(after) && Filled(between, before, z, from, n)
    requires Filled(between, after, z, from, n)
    ensures after == before
  {
    Determined(before, after);
  }
}
