/** The four things that happen to a slab: an object is taken, an object comes back, a
    slab is made, a slab is given up. */
module SlabSteps {
  import opened Basics
  import opened SlabConfig
  import opened Slabs

  /** `m` with slab `b` on the given list of cache `c`, or on none. */
  datatype Place = Full | Notfull | Nowhere

  function Relist(m: Mem, c: nat, b: nat, at: Place): (n: Mem)
    requires |m.full| == CACHES && |m.notfull| == CACHES && c < CACHES
    ensures n == m.(full := n.full, notfull := n.notfull)
    ensures |n.full| == CACHES && |n.notfull| == CACHES && OtherLists(m, n, b)
    ensures forall d {:trigger n.full[d]} ::
              0 <= d < CACHES ==> (b in n.full[d] <==> if d == c then at == Full else b in m.full[d])
    ensures forall d {:trigger n.notfull[d]} ::
              0 <= d < CACHES ==> (b in n.notfull[d] <==> if d == c then at == Notfull else b in m.notfull[d])
  {
    var f, n := Remove(m.full[c], b), Remove(m.notfull[c], b);
    m.(full := m.full[c := if at == Full then [b] + f else f],
        notfull := m.notfull[c := if at == Notfull then [b] + n else n])
  }

  lemma {:induction false} RelistOk(m: Mem, c: nat, b: nat, at: Place, d: nat, slabs: map<nat, Slab>)
    requires |m.full| == CACHES && |m.notfull| == CACHES && c < CACHES && d < CACHES && ListOk(m, c) && ListOk(m, d)
    requires forall x :: x in m.slabs && x != b ==> x in slabs
    requires at != Nowhere ==> b in slabs
    requires at == Nowhere && c != d ==> b !in m.full[d] && b !in m.notfull[d]
    ensures ListOk(Relist(m, c, b, at).(slabs := slabs), d)
  {
    DistinctRemove(m.full[c], b);
    DistinctRemove(m.notfull[c], b);
    assert b !in Remove(m.full[c], b) && b !in Remove(m.notfull[c], b);
    var n := Relist(m, c, b, at);
    forall x | x in n.full[d] || x in n.notfull[d]
      ensures x in slabs
    {
      if x != b {
        assert x in m.full[d] || x in m.notfull[d];
      }
    }
  }

  // ------------------------------------------------------------ an object is taken

  /** kmem_cache_alloc_one. */
  function TakeObj(m: Mem, b: nat): (n: Mem)
    requires b in m.slabs && m.slabs[b].c < CACHES && |m.full| == CACHES && |m.notfull| == CACHES
    requires m.slabs[b].next < |m.slabs[b].bufctl|
  {
    var s := m.slabs[b];
    var t := s.(inuse := s.inuse + 1, next := s.bufctl[s.next]);
    if t.next == END then Relist(m, s.c, b, Full).(slabs := m.slabs[b := t]) else m.(slabs := m.slabs[b := t])
  }

  ghost function TakeBook(m: Mem, g: Book, b: nat): Book
    requires b in m.slabs && b in g.chain && g.chain[b] != []
  {
    g.(chain := g.chain[b := g.chain[b][1..]], live := g.live[Obj(b, m.slabs[b].next) := User])
  }

  ghost predicate Takeable(m: Mem, g: Book, limbo: set<nat>, empty: set<nat>, b: nat)
  {
    Ok(m, g, limbo, empty) && b in m.slabs && m.slabs[b].c < CACHES && m.slabs[b].inuse < Config(m.slabs[b].c).num
  }

  lemma {:induction false} TakeReady(m: Mem, g: Book, limbo: set<nat>, empty: set<nat>, b: nat)
    requires Takeable(m, g, limbo, empty, b)
    ensures SlabOk(m, g, b) && g.chain[b] != [] && m.slabs[b].next < |m.slabs[b].bufctl|
    ensures Obj(b, m.slabs[b].next) !in g.live
    ensures m.slabs[b].next == g.chain[b][0] && m.slabs[b].next !in g.chain[b][1..]
    ensures Chained(m.slabs[b].bufctl[m.slabs[b].next], m.slabs[b].bufctl, g.chain[b][1..])
    ensures m.slabs[b].bufctl[m.slabs[b].next] == END <==> g.chain[b][1..] == []
  {
    assert SlabOk(m, g, b);
    var s := m.slabs[b];
    ChainPop(s.next, s.bufctl, g.chain[b]);
    ChainShort(s.bufctl[s.next], s.bufctl, g.chain[b][1..]);
  }

  lemma {:induction false} TakeSlab(m: Mem, g: Book, limbo: set<nat>, empty: set<nat>, b: nat)
    requires Takeable(m, g, limbo, empty, b) && SlabOk(m, g, b) && g.chain[b] != []
    requires m.slabs[b].next < |m.slabs[b].bufctl|
    ensures var n, h := TakeObj(m, b), TakeBook(m, g, b);
            b in n.slabs && |n.full| == CACHES && |n.notfull| == CACHES && SlabOk(n, h, b)
  {
    TakeReady(m, g, limbo, empty, b);
    var n, h, s := TakeObj(m, b), TakeBook(m, g, b), m.slabs[b];
    var ch := g.chain[b];
    assert ch == [ch[0]] + ch[1..];
    forall i | 0 <= i < Config(s.c).num
      ensures Obj(b, i) in h.live <==> i !in h.chain[b]
    {
      assert Obj(b, i) in g.live <==> i !in g.chain[b];
    }
    assert Pages(n, b, s.c) by {
      assert forall p {:trigger PageOf(n, p, b)} :: PageOf(n, p, b) == PageOf(m, p, b);
    }
    assert HeaderOk(n, h, b);
    assert Listed(m, b, s.c, Config(s.c).num, s.inuse);
    assert Listed(n, b, s.c, Config(s.c).num, s.inuse + 1) by {
      ListedMove(m, n, b, s.c, Config(s.c).num, s.inuse, s.inuse + 1);
    }
  }

  lemma {:induction false} ListedMove(m: Mem, n: Mem, b: nat, c: nat, num: nat, inuse: nat, inuse2: nat)
    requires |m.full| == CACHES && |m.notfull| == CACHES && c < CACHES && inuse <= num && inuse2 <= num
    requires Listed(m, b, c, num, inuse)
    requires var r := Relist(m, c, b, if inuse2 == num then Full else Notfull);
             || (n.full == r.full && n.notfull == r.notfull)
             || (n.full == m.full && n.notfull == m.notfull && (inuse == num <==> inuse2 == num))
    ensures |n.full| == CACHES && |n.notfull| == CACHES && Listed(n, b, c, num, inuse2)
  {
    forall d | 0 <= d < CACHES
      ensures (b in n.full[d] <==> d == c && inuse2 == num) && (b in n.notfull[d] <==> d == c && inuse2 < num)
    {
      var was1, was2 := m.full[d], m.notfull[d];
    }
  }

  lemma {:induction false} TakeNear(m: Mem, g: Book, limbo: set<nat>, empty: set<nat>, b: nat)
    requires Takeable(m, g, limbo, empty, b) && SlabOk(m, g, b) && g.chain[b] != []
    requires m.slabs[b].next < |m.slabs[b].bufctl| && Obj(b, m.slabs[b].next) !in g.live
    ensures Near(m, TakeObj(m, b), g, TakeBook(m, g, b), b)
  {
    var n, h := TakeObj(m, b), TakeBook(m, g, b);
    assert OtherPages(m, n, b) by {
      assert forall p, x {:trigger PageOf(n, p, x)} :: PageOf(n, p, x) == PageOf(m, p, x);
    }
    assert OtherLists(m, n, b);
    assert OtherLive(g, h, b);
  }

  lemma {:induction false} SamePages(m: Mem, n: Mem)
    requires forall p {:trigger PageOk(m, p)} :: p in m.page ==> PageOk(m, p)
    requires n.page == m.page && n.free == m.free
    requires forall x {:trigger x in n.slabs} {:trigger n.slabs[x]} ::
               x in m.slabs ==> x in n.slabs && n.slabs[x].c == m.slabs[x].c
    ensures forall p {:trigger PageOk(n, p)} :: p in n.page ==> PageOk(n, p)
  {
    forall p | p in n.page
      ensures PageOk(n, p)
    {
      assert PageOk(m, p);
    }
  }

  lemma {:induction false} TakeOk(m: Mem, g: Book, limbo: set<nat>, empty: set<nat>, b: nat)
    requires Takeable(m, g, limbo, empty, b)
    ensures SlabOk(m, g, b) && g.chain[b] != [] && m.slabs[b].next < |m.slabs[b].bufctl|
    ensures Obj(b, m.slabs[b].next) !in g.live
    ensures Ok(TakeObj(m, b), TakeBook(m, g, b), limbo, empty - {b})
  {
    TakeReady(m, g, limbo, empty, b);
    TakeSlab(m, g, limbo, empty, b);
    TakeNear(m, g, limbo, empty, b);
    var n, h, c := TakeObj(m, b), TakeBook(m, g, b), m.slabs[b].c;
    SamePages(m, n);
    forall d | 0 <= d < CACHES
      ensures ListOk(n, d)
    {
      assert ListOk(m, d) && ListOk(m, c);
      RelistOk(m, c, b, Full, d, n.slabs);
    }
    forall o | o in h.live
      ensures o.b in n.slabs && (Concerns(h, o, b) ==> LiveOk(n, h, o))
    {
      if o in g.live {
        assert LiveOk(m, g, o);
      }
    }
    NearOk(m, n, g, h, b, limbo, empty, limbo, empty - {b});
  }

  // -------------------------------------------------------- an object comes back

  /** kmem_cache_free_one for a slab that keeps objects in use. */
  function PutObj(m: Mem, b: nat, i: nat): (n: Mem)
    requires b in m.slabs && m.slabs[b].c < CACHES && |m.full| == CACHES && |m.notfull| == CACHES
    requires i < |m.slabs[b].bufctl| && m.slabs[b].inuse > 0
  {
    var s := m.slabs[b];
    var t := s.(inuse := s.inuse - 1, next := i, bufctl := s.bufctl[i := s.next]);
    if t.inuse == Config(s.c).num - 1 then Relist(m, s.c, b, Notfull).(slabs := m.slabs[b := t])
    else m.(slabs := m.slabs[b := t])
  }

  ghost function PutBook(g: Book, b: nat, i: nat): Book
    requires b in g.chain
  {
    g.(chain := g.chain[b := [i] + g.chain[b]], live := g.live - {Obj(b, i)})
  }

  ghost predicate Puttable(m: Mem, g: Book, limbo: set<nat>, b: nat, i: nat)
  {
    && Ok(m, g, limbo, {}) && b in m.slabs && m.slabs[b].c < CACHES && i < Config(m.slabs[b].c).num
    && Obj(b, i) in g.live && g.live[Obj(b, i)] == User
  }

  lemma {:induction false} PutSlab(m: Mem, g: Book, limbo: set<nat>, b: nat, i: nat)
    requires Puttable(m, g, limbo, b, i) && SlabOk(m, g, b) && m.slabs[b].inuse > 1
    ensures var n, h := PutObj(m, b, i), PutBook(g, b, i);
            b in n.slabs && |n.full| == CACHES && |n.notfull| == CACHES && SlabOk(n, h, b)
  {
    var n, h, s := PutObj(m, b, i), PutBook(g, b, i), m.slabs[b];
    assert i !in g.chain[b];
    ChainPush(s.next, s.bufctl, g.chain[b], i);
    forall j | 0 <= j < Config(s.c).num
      ensures Obj(b, j) in h.live <==> j !in h.chain[b]
    {
      assert Obj(b, j) in g.live <==> j !in g.chain[b];
    }
    assert Pages(n, b, s.c) by {
      assert forall p {:trigger PageOf(n, p, b)} :: PageOf(n, p, b) == PageOf(m, p, b);
    }
    assert HeaderOk(n, h, b);
    assert Listed(n, b, s.c, Config(s.c).num, s.inuse - 1) by {
      ListedMove(m, n, b, s.c, Config(s.c).num, s.inuse, s.inuse - 1);
    }
  }

  lemma {:induction false} PutNear(m: Mem, g: Book, limbo: set<nat>, b: nat, i: nat)
    requires Puttable(m, g, limbo, b, i) && SlabOk(m, g, b) && m.slabs[b].inuse > 1
    ensures Near(m, PutObj(m, b, i), g, PutBook(g, b, i), b)
  {
    var n, h := PutObj(m, b, i), PutBook(g, b, i);
    assert OtherPages(m, n, b) by {
      assert forall p, x {:trigger PageOf(n, p, x)} :: PageOf(n, p, x) == PageOf(m, p, x);
    }
    assert OtherLists(m, n, b);
    assert OtherLive(g, h, b);
  }

  lemma {:induction false} PutOk(m: Mem, g: Book, limbo: set<nat>, b: nat, i: nat)
    requires Puttable(m, g, limbo, b, i) && m.slabs[b].inuse > 1
    ensures SlabOk(m, g, b) && Ok(PutObj(m, b, i), PutBook(g, b, i), limbo, {})
  {
    assert SlabOk(m, g, b);
    PutSlab(m, g, limbo, b, i);
    PutNear(m, g, limbo, b, i);
    var n, h, c := PutObj(m, b, i), PutBook(g, b, i), m.slabs[b].c;
    SamePages(m, n);
    forall d | 0 <= d < CACHES
      ensures ListOk(n, d)
    {
      assert ListOk(m, d) && ListOk(m, c);
      RelistOk(m, c, b, Notfull, d, n.slabs);
    }
    forall o | o in h.live
      ensures o.b in n.slabs && (Concerns(h, o, b) ==> LiveOk(n, h, o))
    {
      assert LiveOk(m, g, o);
    }
    NearOk(m, n, g, h, b, limbo, {}, limbo, {});
  }

  // ------------------------------------------------------------- a slab is made

  function Run(b: nat, n: nat): (r: set<nat>)
    ensures forall p :: p in r <==> b <= p < b + n
  {
    if n == 0 then {} else Run(b, n - 1) + {b + n - 1}
  }

  /** The pages of a slab. */
  function RunOf(b: nat, c: nat): (r: set<nat>)
    requires c < CACHES
    ensures forall p :: p in r <==> b <= p < b + SlabPages(c)
  {
    Run(b, SlabPages(c))
  }

  /** SET_PAGE_SLAB for `n` pages. */
  function MarkRun(page: map<nat, nat>, b: nat, n: nat): (r: map<nat, nat>)
    ensures r.Keys == page.Keys + Run(b, n)
    ensures forall p {:trigger r[p]} :: p in r ==> r[p] == if b <= p < b + n then b else page[p]
  {
    if n == 0 then page else MarkRun(page, b, n - 1)[b + n - 1 := b]
  }

  function Mark(page: map<nat, nat>, b: nat, c: nat): (r: map<nat, nat>)
    requires c < CACHES
    ensures r.Keys == page.Keys + RunOf(b, c)
    ensures forall p {:trigger r[p]} :: p in r ==> r[p] == if b <= p < b + SlabPages(c) then b else page[p]
  {
    MarkRun(page, b, SlabPages(c))
  }

  /** kmem_cache_grow, after the pages and the header were had. */
  ghost function AddSlab(m: Mem, c: nat, b: nat, header: nat): (n: Mem)
    requires c < CACHES && |m.full| == CACHES && |m.notfull| == CACHES
  {
    var slab := Slab(c, 0, 0, Fresh(Config(c).num), header);
    Relist(m, c, b, Notfull).(slabs := m.slabs[b := slab], page := Mark(m.page, b, c))
  }

  ghost function AddBook(g: Book, c: nat, b: nat, o: Obj): Book
    requires c < CACHES
  {
    var chain := g.chain[b := Upto(Config(c).num)];
    if Config(c).off then g.(chain := chain, live := g.live[o := Header(b)], hdr := g.hdr[b := o])
    else g.(chain := chain, hdr := g.hdr - {b})
  }

  /** The pages are at hand, and a header object if one is needed. */
  ghost predicate Growable(m: Mem, g: Book, limbo: set<nat>, c: nat, b: nat, header: nat, o: Obj)
  {
    && Ok(m, g, limbo, {}) && c < CACHES && RunOf(b, c) <= limbo
    && (Config(c).off ==>
          && o in g.live && g.live[o] == User && o.b in m.slabs && m.slabs[o.b].c == Config(c).header
          && header == Addr(Config(c).header, o))
  }

  /** A slab on new pages is a new slab. */
  lemma {:induction false} NewSlab(m: Mem, g: Book, limbo: set<nat>, c: nat, b: nat, header: nat, o: Obj)
    requires Growable(m, g, limbo, c, b, header, o)
    ensures b !in m.slabs && (forall p {:trigger PageOf(m, p, b)} :: !PageOf(m, p, b))
    ensures forall d :: 0 <= d < CACHES ==> b !in m.full[d] && b !in m.notfull[d]
    ensures forall i :: Obj(b, i) !in g.live
    ensures forall q {:trigger g.live[q]} :: q in g.live ==> g.live[q] != Header(b)
  {
    Layout(c);
    assert b in RunOf(b, c);
    forall x | x in m.slabs
      ensures x != b
    {
      assert SlabOk(m, g, x);
      Layout(m.slabs[x].c);
      assert PageOf(m, x, x);
      assert PageOk(m, x);
    }
    forall p | p in m.page
      ensures m.page[p] != b
    {
      assert PageOk(m, p);
    }
    forall d | 0 <= d < CACHES
      ensures b !in m.full[d] && b !in m.notfull[d]
    {
      assert ListOk(m, d);
    }
    forall q | q in g.live
      ensures q.b != b && g.live[q] != Header(b)
    {
      assert LiveOk(m, g, q);
    }
  }

  lemma {:induction false} AddSlabSlab(m: Mem, g: Book, limbo: set<nat>, c: nat, b: nat, header: nat, o: Obj)
    requires Growable(m, g, limbo, c, b, header, o) && b !in m.slabs
    requires forall d :: 0 <= d < CACHES ==> b !in m.full[d] && b !in m.notfull[d]
    requires forall i :: Obj(b, i) !in g.live
    ensures var n, h := AddSlab(m, c, b, header), AddBook(g, c, b, o);
            b in n.slabs && |n.full| == CACHES && |n.notfull| == CACHES && SlabOk(n, h, b)
  {
    Layout(c);
    var n, h, num := AddSlab(m, c, b, header), AddBook(g, c, b, o), Config(c).num;
    ChainFresh(num);
    forall i | 0 <= i < num
      ensures Obj(b, i) in h.live <==> i !in h.chain[b]
    {
      assert Upto(num)[i] == i;
      assert Obj(b, i) !in g.live;
    }
    assert Pages(n, b, c) by {
      forall p | b <= p < b + SlabPages(c)
        ensures PageOf(n, p, b)
      {
        assert p in RunOf(b, c);
      }
    }
    assert HeaderOk(n, h, b);
    assert Listed(n, b, c, num, 0);
  }

  lemma {:induction false} AddSlabNear(m: Mem, g: Book, limbo: set<nat>, c: nat, b: nat, header: nat, o: Obj)
    requires Growable(m, g, limbo, c, b, header, o) && b !in m.slabs
    ensures Near(m, AddSlab(m, c, b, header), g, AddBook(g, c, b, o), b)
  {
    var n, h := AddSlab(m, c, b, header), AddBook(g, c, b, o);
    forall p, x | x != b
      ensures PageOf(n, p, x) <==> PageOf(m, p, x)
    {
      if p in m.page {
        assert PageOk(m, p);
      }
    }
    assert OtherPages(m, n, b);
    assert OtherLists(m, n, b);
    assert OtherLive(g, h, b);
  }

  lemma {:induction false} AddSlabPages(m: Mem, g: Book, limbo: set<nat>, c: nat, b: nat, header: nat, o: Obj)
    requires Growable(m, g, limbo, c, b, header, o) && b !in m.slabs
    ensures AddSlab(m, c, b, header).page.Keys !! limbo - RunOf(b, c)
    ensures forall p {:trigger PageOk(AddSlab(m, c, b, header), p)} ::
              p in AddSlab(m, c, b, header).page ==> PageOk(AddSlab(m, c, b, header), p)
  {
    var n := AddSlab(m, c, b, header);
    forall p | p in n.page
      ensures PageOk(n, p) && p !in limbo - RunOf(b, c)
    {
      if p !in RunOf(b, c) {
        assert PageOk(m, p);
      }
    }
  }

  lemma {:induction false} AddSlabOk(m: Mem, g: Book, limbo: set<nat>, c: nat, b: nat, header: nat, o: Obj)
    requires Growable(m, g, limbo, c, b, header, o)
    ensures b !in m.slabs && Ok(AddSlab(m, c, b, header), AddBook(g, c, b, o), limbo - RunOf(b, c), {b})
  {
    NewSlab(m, g, limbo, c, b, header, o);
    AddSlabSlab(m, g, limbo, c, b, header, o);
    AddSlabNear(m, g, limbo, c, b, header, o);
    AddSlabPages(m, g, limbo, c, b, header, o);
    var n, h := AddSlab(m, c, b, header), AddBook(g, c, b, o);
    forall d | 0 <= d < CACHES
      ensures ListOk(n, d)
    {
      assert ListOk(m, d) && ListOk(m, c);
      RelistOk(m, c, b, Notfull, d, n.slabs);
    }
    forall q | q in h.live
      ensures q.b in n.slabs && (Concerns(h, q, b) ==> LiveOk(n, h, q))
    {
      assert q in g.live;
      assert LiveOk(m, g, q);
    }
    NearOk(m, n, g, h, b, limbo, {}, limbo - RunOf(b, c), {b});
  }

  // -------------------------------------------------------- a slab is given up

  /** kmem_slab_destroy, up to the header. */
  ghost function DropSlab(m: Mem, b: nat): (n: Mem)
    requires b in m.slabs && m.slabs[b].c < CACHES && |m.full| == CACHES && |m.notfull| == CACHES
  {
    var run := RunOf(b, m.slabs[b].c);
    Relist(m, m.slabs[b].c, b, Nowhere).(slabs := m.slabs - {b}, page := m.page - run, free := m.free + run)
  }

  /** Its header object, if it has one, is then a caller's to free. */
  ghost function DropBook(m: Mem, g: Book, b: nat, i: nat): Book
    requires b in m.slabs && m.slabs[b].c < CACHES && (Config(m.slabs[b].c).off ==> b in g.hdr)
  {
    var live := g.live - {Obj(b, i)};
    var still := if Config(m.slabs[b].c).off then live[g.hdr[b] := User] else live;
    g.(chain := g.chain - {b}, hdr := g.hdr - {b}, live := still)
  }

  lemma {:induction false} LastObj(m: Mem, g: Book, limbo: set<nat>, b: nat, i: nat)
    requires Puttable(m, g, limbo, b, i) && m.slabs[b].inuse == 1
    ensures SlabOk(m, g, b)
    ensures forall o {:trigger g.live[o]} :: o in g.live && o.b == b ==> o == Obj(b, i)
    ensures forall o {:trigger g.live[o]} :: o in g.live && g.live[o] == Header(b) ==> b in g.hdr && o == g.hdr[b]
  {
    assert SlabOk(m, g, b);
    var s := m.slabs[b];
    assert i !in g.chain[b];
    ChainPush(s.next, s.bufctl, g.chain[b], i);
    ChainShort(i, s.bufctl[i := s.next], [i] + g.chain[b]);
    forall o | o in g.live
      ensures o.b == b ==> o == Obj(b, i)
      ensures g.live[o] == Header(b) ==> b in g.hdr && o == g.hdr[b]
    {
      assert LiveOk(m, g, o);
      if o.b == b {
        assert o == Obj(b, o.i);
        assert o.i in [i] + g.chain[b];
      }
    }
  }

  lemma {:induction false} DropNear(m: Mem, g: Book, limbo: set<nat>, b: nat, i: nat)
    requires Puttable(m, g, limbo, b, i) && m.slabs[b].inuse == 1 && SlabOk(m, g, b)
    ensures Near(m, DropSlab(m, b), g, DropBook(m, g, b, i), b)
  {
    var n, h, c := DropSlab(m, b), DropBook(m, g, b, i), m.slabs[b].c;
    forall p, x | x != b
      ensures PageOf(n, p, x) <==> PageOf(m, p, x)
    {
      if p in RunOf(b, c) {
        assert PageOf(m, p, b);
      }
    }
    assert OtherPages(m, n, b);
    assert OtherLists(m, n, b);
    if Config(c).off {
      HeaderApart(m, g, b);
    }
    assert OtherLive(g, h, b);
  }

  /** The header of a slab lies in another slab. */
  lemma {:induction false} HeaderApart(m: Mem, g: Book, b: nat)
    requires b in m.slabs && m.slabs[b].c < CACHES && HeaderOk(m, g, b) && Config(m.slabs[b].c).off
    ensures b in g.hdr && g.hdr[b].b != b
  {
    Layout(m.slabs[b].c);
  }

  lemma {:induction false} DropPages(m: Mem, g: Book, limbo: set<nat>, b: nat)
    requires Ok(m, g, limbo, {}) && b in m.slabs && m.slabs[b].c < CACHES
    ensures DropSlab(m, b).free !! limbo && RunOf(b, m.slabs[b].c) <= m.page.Keys
    ensures forall p {:trigger PageOk(DropSlab(m, b), p)} :: p in DropSlab(m, b).page ==> PageOk(DropSlab(m, b), p)
    ensures DropSlab(m, b).page.Keys !! limbo
  {
    var n, c := DropSlab(m, b), m.slabs[b].c;
    assert SlabOk(m, g, b);
    forall p | p in RunOf(b, c)
      ensures p in m.page && p !in limbo
    {
      assert PageOf(m, p, b);
      assert PageOk(m, p);
    }
    forall p | p in n.page
      ensures PageOk(n, p) && p !in limbo
    {
      assert PageOk(m, p);
    }
  }

  lemma {:induction false} DropOk(m: Mem, g: Book, limbo: set<nat>, b: nat, i: nat)
    requires Puttable(m, g, limbo, b, i) && m.slabs[b].inuse == 1
    ensures SlabOk(m, g, b) && Ok(DropSlab(m, b), DropBook(m, g, b, i), limbo, {})
  {
    LastObj(m, g, limbo, b, i);
    DropNear(m, g, limbo, b, i);
    DropPages(m, g, limbo, b);
    var n, h, c := DropSlab(m, b), DropBook(m, g, b, i), m.slabs[b].c;
    forall d | 0 <= d < CACHES
      ensures ListOk(n, d)
    {
      assert ListOk(m, d) && ListOk(m, c);
      var was1, was2 := m.full[d], m.notfull[d];
      RelistOk(m, c, b, Nowhere, d, n.slabs);
    }
    if Config(c).off {
      HeaderApart(m, g, b);
    }
    forall o | o in h.live
      ensures o.b in n.slabs && !Concerns(h, o, b)
    {
      assert o in g.live;
      var u := g.live[o];
      assert LiveOk(m, g, o);
    }
    NearOk(m, n, g, h, b, limbo, {}, limbo, {});
  }
}
