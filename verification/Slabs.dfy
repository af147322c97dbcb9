/** Slabs and their objects as values: the free chain through the bufctl array, the lists
    of full and other slabs, the pages slabs lie in, and the headers that some slabs keep
    in another cache. */
module Slabs {
  import opened Basics
  import opened SlabConfig

  const END: nat := 0xFFFF_FFFF

  /** A slab, found by the number of its first page. `next` is its field `free`; `header`
      is the address of a header kept in another cache. */
  datatype Slab = Slab(c: nat, inuse: nat, next: nat, bufctl: seq<nat>, header: nat)

  /** `page` tells the slab of every page marked as a slab page; `free` are the pages the
      page allocator has. */
  datatype Mem = Mem(slabs: map<nat, Slab>, full: seq<seq<nat>>, notfull: seq<seq<nat>>,
                     page: map<nat, nat>, free: set<nat>)

  /** Object `i` of slab `b`. */
  datatype Obj = Obj(b: nat, i: nat)

  /** Who has an object: a caller, or slab `b` for its header. */
  datatype Use = User | Header(b: nat)

  /** The free chain of each slab, the objects handed out, and the header object of each
      slab that has one. */
  datatype Book = Book(chain: map<nat, seq<nat>>, live: map<Obj, Use>, hdr: map<nat, Obj>)

  function Addr(c: nat, o: Obj): nat
    requires c < CACHES
  {
    o.b * PGSIZE + Config(c).offset + o.i * Config(c).objsize
  }

  function At(s: seq<nat>, i: nat): nat {
    if i < |s| then s[i] else END
  }

  // -------------------------------------------------------------------- free chain

  ghost predicate Linked(bufctl: seq<nat>, ch: seq<nat>, j: nat)
  {
    j < |ch| && ch[j] < |bufctl| && bufctl[ch[j]] == At(ch, j + 1)
  }

  /** From `next`, the array leads through `ch` to the end mark. */
  ghost predicate Chained(next: nat, bufctl: seq<nat>, ch: seq<nat>)
  {
    && Distinct(ch) && next == At(ch, 0)
    && forall j {:trigger Linked(bufctl, ch, j)} :: 0 <= j < |ch| ==> Linked(bufctl, ch, j)
  }

  /** Taking the first free index off. */
  lemma {:induction false} ChainPop(next: nat, bufctl: seq<nat>, ch: seq<nat>)
    requires Chained(next, bufctl, ch) && ch != []
    ensures next < |bufctl| && next == ch[0] && next !in ch[1..] && Chained(bufctl[next], bufctl, ch[1..])
  {
    assert Linked(bufctl, ch, 0);
    forall j | 0 <= j < |ch[1..]|
      ensures Linked(bufctl, ch[1..], j)
    {
      assert Linked(bufctl, ch, j + 1);
    }
  }

  /** Putting an index back in front. */
  lemma {:induction false} ChainPush(next: nat, bufctl: seq<nat>, ch: seq<nat>, i: nat)
    requires Chained(next, bufctl, ch) && i < |bufctl| && i !in ch
    ensures Chained(i, bufctl[i := next], [i] + ch)
  {
    var to, s := bufctl[i := next], [i] + ch;
    forall j | 0 <= j < |s|
      ensures Linked(to, s, j)
    {
      if j > 0 {
        assert Linked(bufctl, ch, j - 1);
        assert ch[j - 1] in ch;
      }
    }
  }

  function Fresh(n: nat): (s: seq<nat>)
    ensures |s| == n && forall i :: 0 <= i < n ==> s[i] == if i == n - 1 then END else i + 1
  {
    seq(n, i => if i == n - 1 then END else i + 1)
  }

  function Upto(n: nat): (s: seq<nat>)
    ensures |s| == n && forall i :: 0 <= i < n ==> s[i] == i
  {
    seq(n, i => i)
  }

  lemma {:induction false} ChainFresh(n: nat)
    requires 0 < n
    ensures Chained(0, Fresh(n), Upto(n))
  {
    forall j | 0 <= j < n
      ensures Linked(Fresh(n), Upto(n), j)
    {
    }
  }

  lemma {:induction false} ChainShort(next: nat, bufctl: seq<nat>, ch: seq<nat>)
    requires Chained(next, bufctl, ch)
    ensures |ch| <= |bufctl| && (forall i :: i in ch ==> i < |bufctl|)
    ensures |ch| == |bufctl| ==> forall i :: 0 <= i < |bufctl| ==> i in ch
    ensures |bufctl| < END ==> (next == END <==> ch == [])
  {
    forall i | i in ch
      ensures i < |bufctl|
    {
      var j :| 0 <= j < |ch| && ch[j] == i;
      assert Linked(bufctl, ch, j);
    }
    Pigeons(ch, |bufctl|);
    if ch != [] {
      assert Linked(bufctl, ch, 0);
    }
  }

  ghost function Below(n: nat): (s: set<nat>)
    ensures |s| == n && forall i :: i in s <==> 0 <= i < n
  {
    if n == 0 then {} else Below(n - 1) + {n - 1}
  }

  lemma {:induction false} SetOf(s: seq<nat>) returns (t: set<nat>)
    requires Distinct(s)
    ensures |t| == |s| && forall i :: i in t <==> i in s
  {
    if s == [] {
      t := {};
    } else {
      var u := SetOf(s[1..]);
      assert s[0] !in s[1..];
      t := u + {s[0]};
      forall i
        ensures i in t <==> i in s
      {
        assert s == [s[0]] + s[1..];
      }
    }
  }

  lemma {:induction false} Pigeons(s: seq<nat>, n: nat)
    requires Distinct(s) && forall i :: i in s ==> i < n
    ensures |s| <= n && (|s| == n ==> forall i :: 0 <= i < n ==> i in s)
  {
    var t := SetOf(s);
    var all := Below(n);
    assert t <= all;
    assert all == t + (all - t);
    if |s| == n {
      assert |all - t| == 0;
      assert all - t == {};
    }
  }

  // -------------------------------------------------------------------- invariant

  ghost predicate PageOf(m: Mem, p: nat, b: nat) {
    p in m.page && m.page[p] == b
  }

  ghost predicate Pages(m: Mem, b: nat, c: nat)
    requires c < CACHES
  {
    forall p {:trigger PageOf(m, p, b)} :: b <= p < b + SlabPages(c) ==> PageOf(m, p, b)
  }

  ghost predicate Listed(m: Mem, b: nat, c: nat, num: nat, inuse: nat)
    requires |m.full| == CACHES && |m.notfull| == CACHES
  {
    forall d {:trigger m.full[d]} {:trigger m.notfull[d]} :: 0 <= d < CACHES ==>
      (b in m.full[d] <==> d == c && inuse == num) && (b in m.notfull[d] <==> d == c && inuse < num)
  }

  ghost predicate HeaderOk(m: Mem, g: Book, b: nat)
    requires b in m.slabs && m.slabs[b].c < CACHES
  {
    var k := Config(m.slabs[b].c);
    if k.off then
      && b in g.hdr && g.hdr[b] in g.live && g.live[g.hdr[b]] == Header(b) && g.hdr[b].b in m.slabs
      && m.slabs[g.hdr[b].b].c == k.header && m.slabs[b].header == Addr(k.header, g.hdr[b])
    else b !in g.hdr
  }

  ghost predicate SlabOk(m: Mem, g: Book, b: nat)
    requires b in m.slabs && |m.full| == CACHES && |m.notfull| == CACHES
  {
    var s := m.slabs[b];
    && s.c < CACHES && b in g.chain
    && var num := Config(s.c).num;
    && |s.bufctl| == num && s.inuse + |g.chain[b]| == num
    && Chained(s.next, s.bufctl, g.chain[b])
    && (forall i {:trigger Obj(b, i)} :: 0 <= i < num ==> (Obj(b, i) in g.live <==> i !in g.chain[b]))
    && Listed(m, b, s.c, num, s.inuse)
    && Pages(m, b, s.c)
    && HeaderOk(m, g, b)
  }

  ghost predicate LiveOk(m: Mem, g: Book, o: Obj)
    requires o in g.live
  {
    && o.b in m.slabs && m.slabs[o.b].c < CACHES && o.i < Config(m.slabs[o.b].c).num
    && (g.live[o].Header? ==> g.live[o].b in m.slabs && g.live[o].b in g.hdr && g.hdr[g.live[o].b] == o)
  }

  ghost predicate PageOk(m: Mem, p: nat)
    requires p in m.page
  {
    && p !in m.free && m.page[p] in m.slabs && m.slabs[m.page[p]].c < CACHES
    && m.page[p] <= p < m.page[p] + SlabPages(m.slabs[m.page[p]].c)
  }

  ghost predicate ListOk(m: Mem, c: nat)
    requires c < |m.full| && c < |m.notfull|
  {
    && Distinct(m.full[c]) && Distinct(m.notfull[c])
    && (forall b :: b in m.full[c] || b in m.notfull[c] ==> b in m.slabs)
  }

  /** `limbo` are pages taken from the page allocator that no slab has yet; slabs in
      `empty` may have no object handed out. */
  ghost predicate Ok(m: Mem, g: Book, limbo: set<nat>, empty: set<nat>)
  {
    && |m.full| == CACHES && |m.notfull| == CACHES
    && (forall b {:trigger SlabOk(m, g, b)} :: b in m.slabs ==> SlabOk(m, g, b))
    && (forall b {:trigger m.slabs[b]} :: b in m.slabs && b !in empty ==> m.slabs[b].inuse > 0)
    && (forall o {:trigger LiveOk(m, g, o)} :: o in g.live ==> LiveOk(m, g, o))
    && (forall p {:trigger PageOk(m, p)} :: p in m.page ==> PageOk(m, p)) && m.page.Keys !! limbo
    && (forall c {:trigger ListOk(m, c)} :: 0 <= c < CACHES ==> ListOk(m, c))
    && m.free !! limbo
  }

  // ------------------------------------------------------------ changes to one slab

  ghost predicate OtherLists(m: Mem, n: Mem, b: nat) {
    && |m.full| == CACHES && |m.notfull| == CACHES && |n.full| == CACHES && |n.notfull| == CACHES
    && forall c, x {:trigger x in n.full[c]} {:trigger x in n.notfull[c]} :: 0 <= c < CACHES && x != b ==>
         (x in n.full[c] <==> x in m.full[c]) && (x in n.notfull[c] <==> x in m.notfull[c])
  }

  ghost predicate OtherPages(m: Mem, n: Mem, b: nat) {
    forall p, x {:trigger PageOf(n, p, x)} {:trigger PageOf(m, p, x)} ::
      x != b ==> (PageOf(n, p, x) <==> PageOf(m, p, x))
  }

  ghost predicate OtherLive(g: Book, h: Book, b: nat) {
    && (forall o: Obj {:trigger o in h.live} {:trigger o in g.live} :: o.b != b ==> (o in h.live <==> o in g.live))
    && (forall o: Obj {:trigger h.live[o]} {:trigger g.live[o]} ::
          (o in g.live && g.live[o].Header? && g.live[o].b != b ==> o in h.live && h.live[o] == g.live[o]) &&
          (o in h.live && h.live[o].Header? && h.live[o].b != b ==> o in g.live && g.live[o] == h.live[o]))
  }

  /** Only slab `b`, its objects, pages and header change. */
  ghost predicate Near(m: Mem, n: Mem, g: Book, h: Book, b: nat)
  {
    && (forall x {:trigger n.slabs[x]} {:trigger x in n.slabs} ::
          x != b ==> (x in n.slabs <==> x in m.slabs) && (x in m.slabs ==> n.slabs[x] == m.slabs[x]))
    && (forall x {:trigger x in h.chain} {:trigger h.chain[x]} ::
          x != b && x in g.chain ==> x in h.chain && h.chain[x] == g.chain[x])
    && (forall x {:trigger x in h.hdr} {:trigger h.hdr[x]} ::
          x != b ==> (x in h.hdr <==> x in g.hdr) && (x in g.hdr ==> h.hdr[x] == g.hdr[x]))
    && (b in m.slabs && b in n.slabs ==> m.slabs[b].c == n.slabs[b].c)
    && OtherLists(m, n, b) && OtherPages(m, n, b) && OtherLive(g, h, b)
  }

  lemma {:induction false} OtherSlab(m: Mem, n: Mem, g: Book, h: Book, b: nat, x: nat)
    requires Near(m, n, g, h, b) && x != b && x in m.slabs && SlabOk(m, g, x)
    requires forall o: Obj {:trigger o in h.live} :: o in h.live ==> o.b in n.slabs
    ensures x in n.slabs && SlabOk(n, h, x)
  {
    var s := m.slabs[x];
    assert n.slabs[x] == s && x in h.chain;
    assert Pages(n, x, s.c) by {
      OtherPagesSlab(m, n, b, x, s.c);
    }
    assert Listed(n, x, s.c, Config(s.c).num, s.inuse) by {
      OtherListed(m, n, b, x, s.c, Config(s.c).num, s.inuse);
    }
    OtherHeader(m, n, g, h, b, x);
  }

  lemma {:induction false} OtherPagesSlab(m: Mem, n: Mem, b: nat, x: nat, c: nat)
    requires c < CACHES && Pages(m, x, c) && OtherPages(m, n, b) && x != b
    ensures Pages(n, x, c)
  {
    forall p | x <= p < x + SlabPages(c)
      ensures PageOf(n, p, x)
    {
      assert PageOf(m, p, x);
    }
  }

  lemma {:induction false} OtherListed(m: Mem, n: Mem, b: nat, x: nat, c: nat, num: nat, inuse: nat)
    requires |m.full| == CACHES && |m.notfull| == CACHES && OtherLists(m, n, b) && x != b && Listed(m, x, c, num, inuse)
    ensures Listed(n, x, c, num, inuse)
  {
    forall d | 0 <= d < CACHES
      ensures (x in n.full[d] <==> d == c && inuse == num) && (x in n.notfull[d] <==> d == c && inuse < num)
    {
      var old1, old2 := m.full[d], m.notfull[d];
      assert x in n.full[d] <==> x in m.full[d];
      assert x in n.notfull[d] <==> x in m.notfull[d];
    }
  }

  lemma {:induction false} OtherHeader(m: Mem, n: Mem, g: Book, h: Book, b: nat, x: nat)
    requires Near(m, n, g, h, b) && x != b && x in m.slabs && m.slabs[x].c < CACHES && HeaderOk(m, g, x)
    requires forall o: Obj {:trigger o in h.live} :: o in h.live ==> o.b in n.slabs
    ensures x in n.slabs && HeaderOk(n, h, x)
  {
    assert n.slabs[x] == m.slabs[x];
    if Config(m.slabs[x].c).off {
      var o := g.hdr[x];
      assert h.live[o] == g.live[o];
      assert x in h.hdr && h.hdr[x] == o;
      assert o.b in n.slabs;
    } else {
      assert x !in h.hdr;
    }
  }

  ghost predicate Concerns(g: Book, o: Obj, b: nat)
    requires o in g.live
  {
    o.b == b || g.live[o] == Header(b)
  }

  lemma {:induction false} OtherObj(m: Mem, n: Mem, g: Book, h: Book, b: nat, o: Obj)
    requires Near(m, n, g, h, b) && o in h.live && !Concerns(h, o, b) && o in g.live && LiveOk(m, g, o)
    ensures LiveOk(n, h, o)
  {
    assert n.slabs[o.b] == m.slabs[o.b];
    if h.live[o].Header? {
      var x := h.live[o].b;
      assert g.live[o] == h.live[o];
      assert x in n.slabs && x in h.hdr && h.hdr[x] == g.hdr[x];
    }
  }

  /** It remains to look at the slab itself. */
  lemma {:induction false} NearOk(m: Mem, n: Mem, g: Book, h: Book, b: nat, limbo: set<nat>, empty: set<nat>,
      limbo2: set<nat>, empty2: set<nat>)
    requires Ok(m, g, limbo, empty) && Near(m, n, g, h, b)
    requires b in n.slabs ==> SlabOk(n, h, b) && (b !in empty2 ==> n.slabs[b].inuse > 0)
    requires empty <= empty2 + {b} && n.free !! limbo2
    requires forall o {:trigger LiveOk(n, h, o)} :: o in h.live && Concerns(h, o, b) ==> LiveOk(n, h, o)
    requires forall o: Obj {:trigger o in h.live} :: o in h.live ==> o.b in n.slabs
    requires forall p {:trigger PageOk(n, p)} :: p in n.page ==> PageOk(n, p)
    requires n.page.Keys !! limbo2
    requires forall c {:trigger ListOk(n, c)} :: 0 <= c < CACHES ==> ListOk(n, c)
    ensures Ok(n, h, limbo2, empty2)
  {
    forall x | x in n.slabs
      ensures SlabOk(n, h, x) && (x !in empty2 ==> n.slabs[x].inuse > 0)
    {
      if x != b {
        assert SlabOk(m, g, x);
        OtherSlab(m, n, g, h, b, x);
        assert n.slabs[x] == m.slabs[x];
      }
    }
    forall o | o in h.live
      ensures LiveOk(n, h, o)
    {
      if !Concerns(h, o, b) {
        assert o in g.live;
        assert LiveOk(m, g, o);
        OtherObj(m, n, g, h, b, o);
      }
    }
  }
}
