/** The object allocator: caches that grow by slabs of pages and shrink when a slab has no
    object left in use. */
module Kmalloc {
  import opened Basics
  import opened SlabConfig
  import opened Slabs
  import opened SlabSteps

  ghost predicate IsUser(g: Book, o: Obj) {
    o in g.live && g.live[o] == User
  }

  // ------------------------------------------------------------------- addresses

  lemma {:induction false} ShrMul(i: nat, s: nat)
    ensures Shr(i * Pow2(s), s) == i
  {
    if s > 0 {
      assert i * Pow2(s) == 2 * (i * Pow2(s - 1));
      assert i * Pow2(s) / 2 == i * Pow2(s - 1);
      ShrMul(i, s - 1);
    }
  }

  /** Objects of a slab lie behind one another, inside its pages and behind its header. */
  lemma Inside(c: nat, i: nat, j: nat)
    requires c < CACHES && i < Config(c).num && j < i
    ensures var k := Config(c);
            k.offset + i * k.objsize + k.objsize <= SlabPages(c) * PGSIZE && j * k.objsize + k.objsize <= i * k.objsize
  {
    Powers();
  }

  lemma Bounded(c: nat, i: nat)
    requires c < CACHES && i < Config(c).num
    ensures var k := Config(c); 0 <= i * k.objsize && k.offset + i * k.objsize + k.objsize <= SlabPages(c) * PGSIZE
  {
    Powers();
  }

  lemma PageOfAddress(b: nat, x: nat, n: nat)
    requires x < n * PGSIZE
    ensures b <= (b * PGSIZE + x) / PGSIZE < b + n
  {
  }

  /** From the address of an object, its page tells the slab and a shift the index. */
  lemma {:induction false} Locate(m: Mem, g: Book, limbo: set<nat>, o: Obj)
    requires Ok(m, g, limbo, {}) && o in g.live
    ensures o.b in m.slabs && m.slabs[o.b].c < CACHES && o.i < Config(m.slabs[o.b].c).num
    ensures var a, k := Addr(m.slabs[o.b].c, o), Config(m.slabs[o.b].c);
            && PageOf(m, a / PGSIZE, o.b)
            && a >= o.b * PGSIZE + k.offset && Shr(a - o.b * PGSIZE - k.offset, k.shift) == o.i
  {
    assert LiveOk(m, g, o);
    var c := m.slabs[o.b].c;
    var k := Config(c);
    assert SlabOk(m, g, o.b);
    Bounded(c, o.i);
    PageOfAddress(o.b, k.offset + o.i * k.objsize, SlabPages(c));
    Layout(c);
    ShrMul(o.i, k.shift);
  }

  /** The bytes of an object. */
  ghost predicate InObj(c: nat, o: Obj, a: nat)
    requires c < CACHES
  {
    Addr(c, o) <= a < Addr(c, o) + Config(c).objsize
  }

  /** The bytes of a header inside a slab. */
  ghost predicate InHeader(c: nat, b: nat, a: nat)
    requires c < CACHES
  {
    !Config(c).off && b * PGSIZE <= a < b * PGSIZE + HEADER + Config(c).num * ENTRY
  }

  lemma {:induction false} ObjPage(m: Mem, g: Book, limbo: set<nat>, o: Obj, a: nat)
    requires Ok(m, g, limbo, {}) && o in g.live && o.b in m.slabs && m.slabs[o.b].c < CACHES
    requires InObj(m.slabs[o.b].c, o, a)
    ensures PageOf(m, a / PGSIZE, o.b)
  {
    assert LiveOk(m, g, o);
    var c := m.slabs[o.b].c;
    assert SlabOk(m, g, o.b);
    Bounded(c, o.i);
    PageOfAddress(o.b, a - o.b * PGSIZE, SlabPages(c));
  }

  /** No byte belongs to two objects that are handed out, nor to one and to a header. */
  lemma {:induction false} NoOverlap(m: Mem, g: Book, limbo: set<nat>, o: Obj, q: Obj, x: nat, a: nat)
    requires Ok(m, g, limbo, {}) && o in g.live && q in g.live && o != q && x in m.slabs
    ensures o.b in m.slabs && q.b in m.slabs && m.slabs[o.b].c < CACHES && m.slabs[q.b].c < CACHES
    ensures m.slabs[x].c < CACHES
    ensures !(InObj(m.slabs[o.b].c, o, a) && InObj(m.slabs[q.b].c, q, a))
    ensures !(InObj(m.slabs[o.b].c, o, a) && InHeader(m.slabs[x].c, x, a))
  {
    assert LiveOk(m, g, o) && LiveOk(m, g, q) && SlabOk(m, g, x);
    var c, d := m.slabs[o.b].c, m.slabs[q.b].c;
    if InObj(c, o, a) {
      ObjPage(m, g, limbo, o, a);
      if InObj(d, q, a) {
        ObjPage(m, g, limbo, q, a);
        assert o.b == q.b;
        if o.i < q.i {
          Inside(c, q.i, o.i);
        } else {
          Inside(c, o.i, q.i);
        }
        assert false;
      }
      if InHeader(m.slabs[x].c, x, a) {
        Layout(m.slabs[x].c);
        Bounded(m.slabs[x].c, 0);
        PageOfAddress(x, a - x * PGSIZE, SlabPages(m.slabs[x].c));
        assert PageOf(m, a / PGSIZE, x);
        Bounded(c, o.i);
        assert false;
      }
    }
  }

  lemma {:induction false} Missing(s: seq<nat>, n: nat) returns (i: nat)
    requires Distinct(s) && |s| < n
    ensures i < n && i !in s
  {
    var t := SetOf(s);
    var all := Below(n);
    assert all == all * t + (all - t) && t == all * t + (t - all);
    i :| i in all - t;
  }

  lemma {:induction false} SomeObj(m: Mem, g: Book, b: nat) returns (o: Obj)
    requires Ok(m, g, {}, {}) && b in m.slabs
    ensures o in g.live && o.b == b
  {
    assert SlabOk(m, g, b);
    var i := Missing(g.chain[b], Config(m.slabs[b].c).num);
    o := Obj(b, i);
  }

  lemma HeaderCaches()
    ensures forall c {:trigger Config(c)} :: 0 <= c < CACHES && Config(c).off ==> !Config(Config(c).header).off
  {
  }

  /** Behind every slab there is an object that a caller has. */
  lemma {:induction false} SomeUser(m: Mem, g: Book, b: nat) returns (o: Obj)
    requires Ok(m, g, {}, {}) && b in m.slabs
    ensures IsUser(g, o)
  {
    o := SomeObj(m, g, b);
    assert LiveOk(m, g, o);
    if g.live[o].Header? {
      var x := g.live[o].b;
      assert SlabOk(m, g, x);
      o := SomeObj(m, g, x);
      assert LiveOk(m, g, o);
      assert g.live[o].Header? ==> SlabOk(m, g, g.live[o].b);
      HeaderCaches();
    }
  }

  /** When no caller has an object any more, there is no slab, and all pages, whether free
      before or in slabs, are with the page allocator. */
  lemma {:induction false} AllGivenBack(m: Mem, g: Book, all: set<nat>)
    requires Ok(m, g, {}, {}) && (forall o :: !IsUser(g, o)) && all == m.free + m.page.Keys
    ensures m.slabs == map[] && m.page == map[] && m.free == all
    ensures forall c :: 0 <= c < CACHES ==> m.full[c] == [] && m.notfull[c] == []
  {
    forall p | p in m.page
      ensures m.page[p] in m.slabs
    {
      assert PageOk(m, p);
    }
    forall c | 0 <= c < CACHES
      ensures m.full[c] == [] || m.full[c][0] in m.slabs
      ensures m.notfull[c] == [] || m.notfull[c][0] in m.slabs
    {
      assert ListOk(m, c);
    }
    forall b | b in m.slabs
      ensures false
    {
      var o := SomeUser(m, g, b);
    }
  }

  // -------------------------------------------------------------------- allocator

  /** The callers' objects are those of `g` and `o`. */
  ghost predicate Gained(g: Book, h: Book, o: Obj) {
    forall q {:trigger IsUser(h, q)} {:trigger IsUser(g, q)} :: IsUser(h, q) <==> IsUser(g, q) || q == o
  }

  ghost predicate Lost(g: Book, h: Book, o: Obj) {
    forall q {:trigger IsUser(h, q)} {:trigger IsUser(g, q)} :: IsUser(h, q) <==> IsUser(g, q) && q != o
  }

  ghost predicate SameUsers(g: Book, h: Book) {
    forall q {:trigger IsUser(h, q)} {:trigger IsUser(g, q)} :: IsUser(h, q) <==> IsUser(g, q)
  }

  /** There are `n` free pages in a row. */
  ghost predicate HasRun(free: set<nat>, npage: nat, n: nat) {
    exists b: nat {:trigger Run(b, n)} :: b < npage && Run(b, n) <= free
  }

  /** Where the first such run from `b` on starts; `npage` stands for none. */
  ghost function RunFrom(free: set<nat>, npage: nat, n: nat, b: nat): (r: nat)
    requires b <= npage
    ensures r <= npage && (r < npage ==> b <= r && Run(r, n) <= free)
    ensures forall x: nat {:trigger Run(x, n)} :: b <= x < r ==> !(Run(x, n) <= free)
    decreases npage - b
  {
    if b == npage || Run(b, n) <= free then b else RunFrom(free, npage, n, b + 1)
  }

  /** A slab can be made for cache `c`: there is a run of pages for it and, if its header
      lies elsewhere, an object for that, from a slab with room or on a second run. */
  ghost predicate CanGrow(notfull: seq<seq<nat>>, free: set<nat>, npage: nat, c: nat)
    requires c < CACHES == |notfull|
  {
    var k, first := Config(c), RunFrom(free, npage, SlabPages(c), 0);
    && HasRun(free, npage, SlabPages(c))
    && (k.off && k.header < CACHES ==>
          notfull[k.header] != [] || HasRun(free - Run(first, SlabPages(c)), npage, SlabPages(k.header)))
  }

  /** Cache `c` is the one with the smallest objects that have room. */
  ghost predicate Serves(c: nat, size: nat) {
    c < CACHES && size <= Config(c).objsize && (c > 0 ==> Config(c - 1).objsize < size)
  }

  lemma OneServes(c: nat, d: nat, size: nat)
    requires Serves(c, size) && Serves(d, size)
    ensures c == d
  {
    SizesOf(c);
    SizesOf(d);
    if c < d {
      PowGrows(c + 5, d + 4);
    } else if d < c {
      PowGrows(d + 5, c + 4);
    }
  }

  /** An object of cache `c` can be had. */
  ghost predicate CanAlloc(notfull: seq<seq<nat>>, free: set<nat>, npage: nat, c: nat)
    requires c < CACHES == |notfull|
  {
    notfull[c] != [] || CanGrow(notfull, free, npage, c)
  }

  /** What a request for memory comes to. */
  datatype Answer = Panic | NoMemory | Object(addr: nat)

  class Allocator {
    const npage: nat
    var slabs: map<nat, Slab>
    var full: seq<seq<nat>>
    var notfull: seq<seq<nat>>
    var page: map<nat, nat>
    var free: set<nat>
    ghost var book: Book

    ghost function State(): Mem
      reads this
    {
      Mem(slabs, full, notfull, page, free)
    }

    /** All pages of memory that slabs and the page allocator have. */
    ghost function AllPages(): set<nat>
      reads this
    {
      free + page.Keys
    }

    constructor (npage: nat)
      ensures Ok(State(), book, {}, {}) && this.npage == npage && slabs == map[] && book.live == map[]
      ensures AllPages() == Run(0, npage)
    {
      this.npage := npage;
      slabs, page := map[], map[];
      full, notfull := seq(CACHES, _ => []), seq(CACHES, _ => []);
      free := Run(0, npage);
      book := Book(map[], map[], map[]);
    }

    /** Stands for alloc_pages: the first run of free pages, if there is one. */
    method AllocPages(n: nat) returns (ok: bool, b: nat)
      modifies this`free
      ensures ok <==> HasRun(old(free), npage, n)
      ensures b == RunFrom(old(free), npage, n, 0)
      ensures ok ==> Run(b, n) <= old(free) && free == old(free) - Run(b, n)
      ensures !ok ==> free == old(free)
    {
      b := 0;
      while b < npage
        invariant b <= npage && free == old(free) && RunFrom(free, npage, n, b) == RunFrom(free, npage, n, 0)
      {
        var k := 0;
        while k < n && b + k in free
          invariant 0 <= k <= n && forall p :: b <= p < b + k ==> p in free
        {
          k := k + 1;
        }
        if k == n {
          assert Run(b, n) <= free && HasRun(free, npage, n);
          free := free - Run(b, n);
          return true, b;
        }
        assert b + k in Run(b, n);
        b := b + 1;
      }
      assert RunFrom(free, npage, n, b) == b;
      assert !HasRun(free, npage, n);
      ok := false;
    }

    /** kmem_cache_alloc_one: the first free object of a slab. */
    method AllocOne(c: nat, b: nat, ghost limbo: set<nat>, ghost empty: set<nat>) returns (addr: nat, ghost o: Obj)
      requires Takeable(State(), book, limbo, empty, b) && slabs[b].c == c
      modifies this`slabs, this`full, this`notfull, this`book
      ensures Ok(State(), book, limbo, empty - {b})
      ensures o !in old(book).live && Gained(old(book), book, o) && o in book.live && o.b == b && addr == Addr(c, o)
      ensures forall x :: x in old(slabs) ==> x in slabs && slabs[x].c == old(slabs)[x].c
    {
      ghost var m, g := State(), book;
      TakeOk(m, g, limbo, empty, b);
      var s := slabs[b];
      o := Obj(b, s.next);
      addr := b * PGSIZE + Config(c).offset + s.next * Config(c).objsize;
      var t := s.(inuse := s.inuse + 1, next := s.bufctl[s.next]);
      slabs := slabs[b := t];
      if t.next == END {
        full, notfull := full[c := [b] + Remove(full[c], b)], notfull[c := Remove(notfull[c], b)];
      }
      book := TakeBook(m, g, b);
      assert State() == TakeObj(m, b);
    }

    /** The second part of kmem_cache_grow: marks the pages, threads the free chain and
        lists the slab. */
    method Install(c: nat, first: nat, header: nat, ghost limbo: set<nat>, ghost o: Obj)
      requires Growable(State(), book, limbo, c, first, header, o)
      modifies this`slabs, this`full, this`notfull, this`page, this`book
      ensures Ok(State(), book, limbo - RunOf(first, c), {first}) && book == AddBook(old(book), c, first, o)
      ensures page.Keys == old(page).Keys + RunOf(first, c)
      ensures first in slabs && slabs[first].c == c && slabs[first].inuse == 0 && notfull[c] != []
      ensures notfull[c][0] == first
    {
      ghost var m1, g1 := State(), book;
      AddSlabOk(m1, g1, limbo, c, first, header, o);
      page := Mark(page, first, c);
      slabs := slabs[first := Slab(c, 0, 0, Fresh(Config(c).num), header)];
      full, notfull := full[c := Remove(full[c], first)], notfull[c := [first] + Remove(notfull[c], first)];
      book := AddBook(g1, c, first, o);
      assert State() == AddSlab(m1, c, first, header);
    }

    /** kmem_cache_grow: a slab for cache `c`, with its header. */
    method Grow(c: nat, ghost limbo: set<nat>) returns (ok: bool, ghost b: nat)
      requires Ok(State(), book, limbo, {}) && c < CACHES
      modifies this
      ensures ok ==>
                && Ok(State(), book, limbo, {b}) && SameUsers(old(book), book) && AllPages() == old(AllPages())
                && b in slabs && slabs[b].c == c && slabs[b].inuse == 0 && notfull[c] != [] && notfull[c][0] == b
      ensures !ok ==> State() == old(State()) && book == old(book)
      ensures ok <==> CanGrow(old(notfull), old(free), npage, c)
      decreases if Config(c).off then 1 else 0, 0
    {
      ghost var m, g := State(), book;
      var first;
      ok, first := AllocPages(SlabPages(c));
      b := first;
      if !ok {
        return;
      }
      ghost var run := RunOf(first, c);
      LimboOk(m, g, limbo, run);
      var header := 0;
      ghost var o := Obj(0, 0);
      if Config(c).off {
        Layout(c);
        ok, header, o := CacheAlloc(Config(c).header, limbo + run);
        if !ok {
          free := free + Run(first, SlabPages(c));
          assert free == m.free;
          return;
        }
      }
      ghost var g1 := book;
      assert free + page.Keys == m.free - run + m.page.Keys;
      Install(c, first, header, limbo + run, o);
      LimboBack(m, limbo, run);
      GrownUsers(g, g1, book, c, first, o);
    }

    /** kmem_cache_alloc: an object of cache `c`, from a new slab if need be. */
    method CacheAlloc(c: nat, ghost limbo: set<nat>) returns (ok: bool, addr: nat, ghost o: Obj)
      requires Ok(State(), book, limbo, {}) && c < CACHES
      modifies this
      ensures Ok(State(), book, limbo, {}) && AllPages() == old(AllPages())
      ensures ok ==>
                && !IsUser(old(book), o)
                && Gained(old(book), book, o)
                && IsUser(book, o)
                && o.b in slabs
                && slabs[o.b].c == c
                && addr == Addr(c, o)
      ensures !ok ==> State() == old(State()) && book == old(book)
      ensures ok <==> CanAlloc(old(notfull), old(free), npage, c)
      decreases if Config(c).off then 1 else 0, 1
    {
      ghost var empty: set<nat> := {};
      o := Obj(0, 0);
      if notfull[c] == [] {
        ghost var b;
        ok, b := Grow(c, limbo);
        addr := 0;
        if !ok {
          return;
        }
        empty := {b};
      }
      var first := notfull[c][0];
      FirstTakeable(State(), book, limbo, empty, c);
      ghost var g := book;
      addr, o := AllocOne(c, first, limbo, empty);
      assert empty - {first} == {};
      ok := true;
    }

    /** kmalloc: an object of the smallest cache that has room. Asking for more than the
        largest object stops the kernel. */
    method Kmalloc(size: nat) returns (r: Answer, ghost o: Obj)
      requires Ok(State(), book, {}, {}) && size > 0
      modifies this
      ensures Ok(State(), book, {}, {}) && AllPages() == old(AllPages())
      ensures r == Panic <==> size > MAX_SIZE
      ensures forall c {:trigger Serves(c, size)} :: Serves(c, size) ==>
                r != Panic && (r == NoMemory <==> !CanAlloc(old(notfull), old(free), npage, c))
      ensures r.Object? ==>
                && !IsUser(old(book), o) && Gained(old(book), book, o) && IsUser(book, o) && o.b in slabs
                && Serves(slabs[o.b].c, size) && r.addr == Addr(slabs[o.b].c, o)
      ensures !r.Object? ==> State() == old(State()) && book == old(book)
    {
      o := Obj(0, 0);
      var order := GetOrder(size);
      if order == None {
        forall d: nat | Serves(d, size)
          ensures false
        {
          SizesOf(d);
          PowGrows(d + 5, 17);
        }
        return Panic, o;
      }
      var c := order.value - MIN_SIZE_ORDER;
      Layout(c);
      SizesOf(c);
      forall d: nat | Serves(d, size)
        ensures d == c
      {
        OneServes(c, d, size);
      }
      var ok, addr;
      ok, addr, o := CacheAlloc(c, {});
      r := if ok then Object(addr) else NoMemory;
    }

    /** An object goes back to a slab that keeps others in use. */
    method PutBack(b: nat, objnr: nat, ghost limbo: set<nat>)
      requires Puttable(State(), book, limbo, b, objnr) && slabs[b].inuse > 1
      modifies this`slabs, this`full, this`notfull, this`book
      ensures Ok(State(), book, limbo, {}) && Lost(old(book), book, Obj(b, objnr))
    {
      ghost var m, g := State(), book;
      PutOk(m, g, limbo, b, objnr);
      var s := slabs[b];
      var c := s.c;
      var t := s.(inuse := s.inuse - 1, next := objnr, bufctl := s.bufctl[objnr := s.next]);
      slabs := slabs[b := t];
      if t.inuse == Config(c).num - 1 {
        full, notfull := full[c := Remove(full[c], b)], notfull[c := [b] + Remove(notfull[c], b)];
      }
      book := PutBook(g, b, objnr);
      assert State() == PutObj(m, b, objnr);
    }

    /** kmem_slab_destroy, up to the header: the pages go back. */
    method Destroy(b: nat, ghost i: nat, ghost limbo: set<nat>)
      requires Puttable(State(), book, limbo, b, i) && slabs[b].inuse == 1
      modifies this`slabs, this`full, this`notfull, this`page, this`free, this`book
      ensures Ok(State(), book, limbo, {}) && AllPages() == old(AllPages())
      ensures State() == DropSlab(old(State()), b) && SlabOk(old(State()), old(book), b)
      ensures book == DropBook(old(State()), old(book), b, i)
    {
      ghost var m, g := State(), book;
      DropOk(m, g, limbo, b, i);
      DropPages(m, g, limbo, b);
      var c := slabs[b].c;
      var run := Run(b, SlabPages(c));
      full, notfull := full[c := Remove(full[c], b)], notfull[c := Remove(notfull[c], b)];
      page := page - run;
      free := free + run;
      slabs := slabs - {b};
      book := DropBook(m, g, b, i);
      assert State() == DropSlab(m, b);
    }

    /** kmem_cache_free: the page tells the slab, a shift the object; a slab with nothing
        left in use goes, and its header with it. */
    method CacheFree(addr: nat, ghost limbo: set<nat>, ghost o: Obj)
      requires Ok(State(), book, limbo, {}) && IsUser(book, o) && o.b in slabs && slabs[o.b].c < CACHES
      requires addr == Addr(slabs[o.b].c, o)
      modifies this
      ensures Ok(State(), book, limbo, {}) && AllPages() == old(AllPages()) && Lost(old(book), book, o)
      decreases if Config(slabs[o.b].c).off then 1 else 0
    {
      ghost var m, g := State(), book;
      Locate(m, g, limbo, o);
      assert SlabOk(m, g, o.b);
      var b := page[addr / PGSIZE];
      var s := slabs[b];
      var k := Config(s.c);
      var objnr := Shr(addr - b * PGSIZE - k.offset, k.shift);
      if s.inuse > 1 {
        PutBack(b, objnr, limbo);
      } else {
        Destroy(b, objnr, limbo);
        ghost var g1 := book;
        if k.off {
          HeaderReady(m, g, limbo, b, objnr);
          CacheFree(s.header, limbo, g.hdr[b]);
        }
        DropUsers(m, g, g1, book, b, objnr);
      }
    }
  }

  /** The last object given back takes all slabs with it. */
  method FreeLast(a: Allocator, addr: nat, ghost o: Obj)
    requires Ok(a.State(), a.book, {}, {}) && IsUser(a.book, o) && forall q :: IsUser(a.book, q) ==> q == o
    requires o.b in a.slabs && a.slabs[o.b].c < CACHES && addr == Addr(a.slabs[o.b].c, o)
    modifies a
    ensures Ok(a.State(), a.book, {}, {}) && a.slabs == map[] && a.free == old(a.AllPages())
  {
    a.CacheFree(addr, {}, o);
    AllGivenBack(a.State(), a.book, a.AllPages());
  }

  lemma SizesOf(c: nat)
    requires c < CACHES
    ensures Config(c).objsize == Pow2(c + 5) && (c > 0 ==> Config(c - 1).objsize == Pow2(c + 4))
  {
    Powers();
  }

  /** The header of a slab that is gone is an object for the caller to free. */
  lemma {:induction false} HeaderReady(m: Mem, g: Book, limbo: set<nat>, b: nat, i: nat)
    requires Puttable(m, g, limbo, b, i) && m.slabs[b].inuse == 1 && SlabOk(m, g, b) && Config(m.slabs[b].c).off
    ensures var n, h, o := DropSlab(m, b), DropBook(m, g, b, i), g.hdr[b];
            && IsUser(h, o) && o.b in n.slabs && n.slabs[o.b].c == Config(m.slabs[b].c).header
            && n.slabs[o.b].c < CACHES && !Config(n.slabs[o.b].c).off && m.slabs[b].header == Addr(n.slabs[o.b].c, o)
  {
    Layout(m.slabs[b].c);
    HeaderApart(m, g, b);
  }

  lemma {:induction false} DropUsers(m: Mem, g: Book, g1: Book, h: Book, b: nat, i: nat)
    requires b in m.slabs && m.slabs[b].c < CACHES && HeaderOk(m, g, b) && IsUser(g, Obj(b, i))
    requires g1 == DropBook(m, g, b, i) && if Config(m.slabs[b].c).off then Lost(g1, h, g.hdr[b]) else h == g1
    ensures Lost(g, h, Obj(b, i))
  {
    var c := m.slabs[b].c;
    forall q
      ensures IsUser(h, q) <==> IsUser(g, q) && q != Obj(b, i)
    {
      if Config(c).off {
        HeaderApart(m, g, b);
        assert IsUser(h, q) <==> IsUser(g1, q) && q != g.hdr[b];
        assert !IsUser(g, g.hdr[b]);
      }
    }
  }

  lemma {:induction false} LimboOk(m: Mem, g: Book, limbo: set<nat>, run: set<nat>)
    requires Ok(m, g, limbo, {}) && run <= m.free
    ensures Ok(m.(free := m.free - run), g, limbo + run, {})
  {
    var n := m.(free := m.free - run);
    forall p | p in n.page
      ensures PageOk(n, p) && p !in limbo + run
    {
      assert PageOk(m, p);
    }
    forall b | b in n.slabs
      ensures SlabOk(n, g, b) && n.slabs[b].inuse > 0
    {
      assert SlabOk(m, g, b);
      assert Pages(n, b, m.slabs[b].c) by {
        assert forall p {:trigger PageOf(n, p, b)} :: PageOf(n, p, b) == PageOf(m, p, b);
      }
      assert HeaderOk(n, g, b);
      assert Listed(n, b, m.slabs[b].c, Config(m.slabs[b].c).num, m.slabs[b].inuse);
    }
    forall o | o in g.live
      ensures LiveOk(n, g, o)
    {
      assert LiveOk(m, g, o);
    }
    forall c | 0 <= c < CACHES
      ensures ListOk(n, c)
    {
      assert ListOk(m, c);
    }
  }

  lemma {:induction false} LimboBack(m: Mem, limbo: set<nat>, run: set<nat>)
    requires run <= m.free && m.free !! limbo
    ensures limbo + run - run == limbo && m.free - run + (m.page.Keys + run) == m.free + m.page.Keys
    ensures m.free - run + m.page.Keys + run == m.free + m.page.Keys
  {
  }

  lemma {:induction false} GrownUsers(g: Book, g1: Book, h: Book, c: nat, b: nat, o: Obj)
    requires c < CACHES && h == AddBook(g1, c, b, o)
    requires if Config(c).off then !IsUser(g, o) && Gained(g, g1, o) else g1 == g
    ensures SameUsers(g, h)
  {
    forall q
      ensures IsUser(h, q) <==> IsUser(g, q)
    {
      assert Config(c).off ==> (IsUser(g1, q) <==> IsUser(g, q) || q == o);
    }
  }

  lemma {:induction false} FirstTakeable(m: Mem, g: Book, limbo: set<nat>, empty: set<nat>, c: nat)
    requires Ok(m, g, limbo, empty) && c < CACHES && m.notfull[c] != []
    ensures Takeable(m, g, limbo, empty, m.notfull[c][0]) && m.slabs[m.notfull[c][0]].c == c
  {
    var b := m.notfull[c][0];
    assert b in m.notfull[c];
    assert ListOk(m, c);
    assert SlabOk(m, g, b);
  }
}
