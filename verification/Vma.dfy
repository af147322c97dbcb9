/** The memory areas of an address space: a sorted list with the area found last kept in a
    cache, and the check of user memory ranges against it. */
module Vma {
  import opened Basics

  const PGSIZE: nat := 4096
  const WORD: nat := 0x1_0000_0000
  const USERBASE: nat := 0x1000_0000
  const USERTOP: nat := 0x8000_0000
  const E_INVAL: int := 3
  const E_NO_MEM: int := 4

  /** An area [start, end) with its permissions. */
  datatype Area = Area(start: nat, end: nat, read: bool, write: bool, stack: bool)

  ghost predicate Proper(v: Area) {
    v.start < v.end
  }

  ghost predicate Apart(l: seq<Area>, i: int, j: int) {
    0 <= i < j < |l| && l[i].end <= l[j].start
  }

  /** Sorted and disjoint. */
  ghost predicate Ordered(l: seq<Area>) {
    && (forall v {:trigger v in l} {:trigger Proper(v)} :: v in l ==> Proper(v))
    && (forall i, j {:trigger Apart(l, i, j)} :: 0 <= i < j < |l| ==> Apart(l, i, j))
  }

  /** The first area that ends above the address, by a walk over the list. */
  function FirstAbove(l: seq<Area>, addr: nat): (r: Option<Area>)
    ensures r.Some? ==> r.value in l && addr < r.value.end
    ensures r.None? ==> forall v :: v in l ==> v.end <= addr
  {
    if l == [] then None else if addr < l[0].end then Some(l[0]) else FirstAbove(l[1..], addr)
  }

  lemma {:induction false} FirstAboveAt(l: seq<Area>, addr: nat, i: nat)
    requires i < |l| && addr < l[i].end && forall j :: 0 <= j < i ==> l[j].end <= addr
    ensures FirstAbove(l, addr) == Some(l[i])
  {
    if i > 0 {
      FirstAboveAt(l[1..], addr, i - 1);
    }
  }

  /** An area that contains the address is the first that ends above it. */
  lemma {:induction false} ContainsFirst(l: seq<Area>, addr: nat, v: Area)
    requires Ordered(l) && v in l && v.start <= addr < v.end
    ensures FirstAbove(l, addr) == Some(v)
  {
    var i :| 0 <= i < |l| && l[i] == v;
    forall j | 0 <= j < i
      ensures l[j].end <= addr
    {
      assert Apart(l, j, i);
    }
    FirstAboveAt(l, addr, i);
  }

  // -------------------------------------------------------------------- insertion

  /** The place behind all areas that do not start above `start`. */
  function PlaceOf(l: seq<Area>, start: nat): (k: nat)
    ensures k <= |l| && (forall i :: 0 <= i < k ==> l[i].start <= start) && (k < |l| ==> l[k].start > start)
  {
    if l == [] || l[0].start > start then 0 else 1 + PlaceOf(l[1..], start)
  }

  ghost predicate Overlap(v: Area, start: nat, end: nat) {
    v.start < end && start < v.end
  }

  /** A range that overlaps no area fits between its neighbours. */
  lemma {:induction false} InsertOrdered(l: seq<Area>, v: Area)
    requires Ordered(l) && Proper(v) && forall w :: w in l ==> !Overlap(w, v.start, v.end)
    ensures var k := PlaceOf(l, v.start);
            && (k > 0 ==> l[k - 1].end <= v.start) && (k < |l| ==> v.end <= l[k].start)
            && Ordered(l[..k] + [v] + l[k..])
  {
    var k := PlaceOf(l, v.start);
    forall i | 0 <= i < |l|
      ensures Proper(l[i]) && (i < k ==> l[i].end <= v.start) && (i >= k ==> v.end <= l[i].start)
    {
      assert l[i] in l;
      if k <= i {
        assert l[k] in l && (k < i ==> Apart(l, k, i));
      }
    }
    var r := l[..k] + [v] + l[k..];
    forall i, j | 0 <= i < j < |r|
      ensures Apart(r, i, j)
    {
      Between(l, v, k, i, j);
    }
  }

  lemma {:induction false} Between(l: seq<Area>, v: Area, k: nat, i: int, j: int)
    requires Ordered(l) && k <= |l| && 0 <= i < j <= |l|
    requires i < k && j == k ==> l[i].end <= v.start
    requires i == k ==> v.end <= l[j - 1].start
    ensures Apart(l[..k] + [v] + l[k..], i, j)
  {
    var r := l[..k] + [v] + l[k..];
    var a, b := if i < k then i else i - 1, if j < k then j else j - 1;
    if i != k && j != k {
      assert r[i] == l[a] && r[j] == l[b] && Apart(l, a, b);
    } else if i == k {
      assert r[j] == l[b];
    } else {
      assert r[i] == l[a];
    }
  }

  lemma {:induction false} InsertMembers(l: seq<Area>, k: nat, v: Area)
    requires k <= |l|
    ensures var r := l[..k] + [v] + l[k..]; |r| == |l| + 1 && forall w {:trigger w in r} :: w in r <==> w == v || w in l
  {
    assert l == l[..k] + l[k..];
  }

  // ------------------------------------------------------------------ range check

  /** A read, or a write, at one address is allowed: the address lies in an area with the
      permission and, for writes, not in the first page of a stack. */
  ghost predicate Allowed(l: seq<Area>, a: nat, write: bool) {
    exists v :: v in l && v.start <= a < v.end && Permits(v, a, write)
  }

  predicate Permits(v: Area, a: nat, write: bool) {
    if write then v.write && (v.stack ==> a >= v.start + PGSIZE) else v.read
  }

  ghost predicate RangeAllowed(l: seq<Area>, lo: nat, hi: nat, write: bool) {
    forall a {:trigger Allowed(l, a, write)} :: lo <= a < hi ==> Allowed(l, a, write)
  }

  /** The area that decides over an address. */
  lemma {:induction false} AllowedBy(l: seq<Area>, a: nat, write: bool)
    requires Ordered(l)
    ensures Allowed(l, a, write) <==>
              FirstAbove(l, a).Some? && FirstAbove(l, a).value.start <= a && Permits(FirstAbove(l, a).value, a, write)
  {
    if Allowed(l, a, write) {
      var v :| v in l && v.start <= a < v.end && Permits(v, a, write);
      ContainsFirst(l, a, v);
    }
  }

  /** Inside one area, the first address decides for all. */
  lemma {:induction false} AreaAllows(l: seq<Area>, v: Area, lo: nat, hi: nat, write: bool)
    requires v in l && v.start <= lo && hi <= v.end && Permits(v, lo, write)
    ensures RangeAllowed(l, lo, hi, write)
  {
    forall a | lo <= a < hi
      ensures Allowed(l, a, write)
    {
      assert Permits(v, a, write);
    }
  }

  predicate UserAccess(start: nat, end: nat) {
    USERBASE <= start < end <= USERTOP
  }

  /** ROUNDDOWN_2N and ROUNDUP_2N to pages, on 32-bit addresses. */
  function RoundDown(a: nat): nat {
    a % WORD / PGSIZE * PGSIZE
  }

  function RoundUp(a: nat): nat {
    RoundDown(a + PGSIZE - 1)
  }

  class Mm {
    var list: seq<Area>
    var mmapCache: Option<Area>
    var mapCount: nat

    ghost predicate Valid()
      reads this
    {
      && Ordered(list) && mapCount == |list|
      && (mmapCache.Some? ==> mmapCache.value in list)
      && (forall v :: v in list ==> v.end <= USERTOP)
    }

    constructor ()
      ensures Valid() && list == []
    {
      list, mmapCache, mapCount := [], None, 0;
    }

    /** find_vma: with the cache or without, the first area that ends above the address. */
    method FindVma(addr: nat) returns (vma: Option<Area>)
      requires Valid()
      modifies this`mmapCache
      ensures Valid() && vma == FirstAbove(list, addr)
      ensures mmapCache == if vma.Some? then vma else old(mmapCache)
    {
      vma := mmapCache;
      if !(vma.Some? && vma.value.start <= addr && vma.value.end > addr) {
        var i := 0;
        vma := None;
        while i < |list|
          invariant 0 <= i <= |list| && vma == None && forall j :: 0 <= j < i ==> list[j].end <= addr
        {
          if addr < list[i].end {
            vma := Some(list[i]);
            FirstAboveAt(list, addr, i);
            break;
          }
          i := i + 1;
        }
      } else {
        ContainsFirst(list, addr, vma.value);
      }
      if vma.Some? {
        mmapCache := vma;
      }
    }

    /** insert_vma_struct; its overlap checks hold for an area that overlaps no other. */
    method InsertVma(vma: Area)
      requires Valid() && Proper(vma) && vma.end <= USERTOP && forall v :: v in list ==> !Overlap(v, vma.start, vma.end)
      modifies this`list, this`mapCount
      ensures Valid() && mapCount == old(mapCount) + 1
      ensures list == var k := PlaceOf(old(list), vma.start); old(list)[..k] + [vma] + old(list)[k..]
    {
      var prev := 0;
      while prev < |list| && list[prev].start <= vma.start
        invariant 0 <= prev <= PlaceOf(list, vma.start)
      {
        prev := prev + 1;
      }
      InsertOrdered(list, vma);
      InsertMembers(list, prev, vma);
      if prev > 0 {
        assert list[prev - 1] in list;
        assert Proper(list[prev - 1]) && list[prev - 1].end <= vma.start && Proper(vma);
      }
      if prev < |list| {
        assert list[prev] in list;
        assert Proper(vma) && vma.end <= list[prev].start && Proper(list[prev]);
      }
      list := list[..prev] + [vma] + list[prev..];
      mapCount := mapCount + 1;
    }

    /** mm_map: maps the pages of a range unless it overlaps an area. `mem` tells whether
        there is memory for the new area. */
    method MmMap(addr: nat, len: nat, flags: Area, mem: bool) returns (ret: int)
      requires Valid() && addr < WORD && len < WORD
      modifies this
      ensures Valid()
      ensures var start, end := RoundDown(addr), RoundUp(addr + len);
              && (ret == -E_INVAL <==> !UserAccess(start, end) || exists v :: v in old(list) && Overlap(v, start, end))
              && (ret == 0 <==> ret != -E_INVAL && mem)
              && (ret == 0 ==>
                    list ==
                      var k := PlaceOf(old(list), start);
                      old(list)[..k] + [flags.(start := start, end := end)] + old(list)[k..])
              && (ret != 0 ==> list == old(list))
    {
      var start, end := RoundDown(addr), RoundUp(addr + len);
      if !UserAccess(start, end) {
        return -E_INVAL;
      }
      var vma := FindVma(start);
      NoOverlapWith(list, start, end);
      if vma.Some? && end > vma.value.start {
        return -E_INVAL;
      }
      if !mem {
        return -E_NO_MEM;
      }
      InsertVma(flags.(start := start, end := end));
      ret := 0;
    }

    /** user_mem_check: true iff the range is a user range, not empty, and every address of
        it may be accessed. */
    method UserMemCheck(addr: nat, len: nat, write: bool) returns (ok: bool)
      requires Valid() && addr < WORD && len < WORD
      modifies this`mmapCache
      ensures Valid()
      ensures ok <==> UserAccess(addr, addr + len) && RangeAllowed(list, addr, addr + len, write)
    {
      var end := (addr + len) % WORD;
      if !UserAccess(addr, end) {
        return false;
      }
      var start := addr;
      while start < end
        invariant Valid() && addr <= start && RangeAllowed(list, addr, if start < end then start else end, write)
        decreases end - start
      {
        var vma := FindVma(start);
        AllowedBy(list, start, write);
        if vma.None? || start < vma.value.start {
          return false;
        }
        var v := vma.value;
        if !(if write then v.write else v.read) {
          return false;
        }
        if write && v.stack {
          if start < v.start + PGSIZE {
            return false;
          }
        }
        AreaAllows(list, v, start, if v.end < end then v.end else end, write);
        start := v.end;
      }
      return true;
    }
  }

  /** Looking at the first area that ends above the start is enough to see an overlap. */
  lemma {:induction false} NoOverlapWith(l: seq<Area>, start: nat, end: nat)
    requires Ordered(l) && start < end
    ensures (exists v :: v in l && Overlap(v, start, end)) <==>
              FirstAbove(l, start).Some? && end > FirstAbove(l, start).value.start
  {
    if exists v :: v in l && Overlap(v, start, end) {
      var v :| v in l && Overlap(v, start, end);
      assert FirstAbove(l, start).Some?;
      FirstIsFirst(l, start, v);
    } else if FirstAbove(l, start).Some? {
      assert !Overlap(FirstAbove(l, start).value, start, end);
    }
  }

  lemma {:induction false} FirstIsFirst(l: seq<Area>, addr: nat, v: Area)
    requires Ordered(l) && v in l && addr < v.end
    ensures FirstAbove(l, addr).Some? && FirstAbove(l, addr).value.start <= v.start
  {
    if addr >= l[0].end {
      assert v in l[1..];
      forall i, j | 0 <= i < j < |l[1..]|
        ensures Apart(l[1..], i, j)
      {
        assert Apart(l, i + 1, j + 1);
      }
      FirstIsFirst(l[1..], addr, v);
    } else {
      var i :| 0 <= i < |l| && l[i] == v;
      assert i > 0 ==> Apart(l, 0, i);
      assert l[0] in l;
    }
  }
}
