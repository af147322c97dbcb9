/** The thirteen object caches: how large their slabs are, how many objects a slab holds,
    and where its header lies. */
module SlabConfig {
  import opened Basics

  const PGSIZE: nat := 4096
  const MIN_SIZE_ORDER: nat := 5
  const MAX_SIZE_ORDER: nat := 17
  const CACHES: nat := 13
  /** The largest object, 2^MAX_SIZE_ORDER bytes. */
  const MAX_SIZE: nat := 0x2_0000
  const KMALLOC_MAX_ORDER: nat := 10
  /** sizeof(slab_t), and of one entry of the free chain. */
  const HEADER: nat := 24
  const ENTRY: nat := 4

  /** ROUNDUP_2N to 16. */
  function RoundUp16(n: nat): nat {
    (n + 15) / 16 * 16
  }

  function MgmtSize(num: nat): nat {
    RoundUp16(HEADER + num * ENTRY)
  }

  /** What init_kmem_cache leaves in a cache; `header` is the cache the headers of an
      off-slab cache come from. */
  datatype Cache = Cache(objsize: nat, shift: nat, num: nat, offset: nat, off: bool, order: nat, header: nat)

  function Config(c: nat): Cache
    requires c < CACHES
  {
    if c == 0 then Cache(32, 5, 113, 480, false, 0, 0)
    else if c == 1 then Cache(64, 6, 59, 272, false, 0, 0)
    else if c == 2 then Cache(128, 7, 30, 144, false, 0, 0)
    else if c == 3 then Cache(256, 8, 15, 96, false, 0, 0)
    else if c == 4 then Cache(512, 9, 8, 0, true, 0, 1)
    else if c == 5 then Cache(1024, 10, 4, 0, true, 0, 1)
    else if c == 6 then Cache(2048, 11, 2, 0, true, 0, 0)
    else if c == 7 then Cache(4096, 12, 1, 0, true, 0, 0)
    else if c == 8 then Cache(8192, 13, 1, 0, true, 1, 0)
    else if c == 9 then Cache(16384, 14, 1, 0, true, 2, 0)
    else if c == 10 then Cache(32768, 15, 1, 0, true, 3, 0)
    else if c == 11 then Cache(65536, 16, 1, 0, true, 4, 0)
    else Cache(131072, 17, 1, 0, true, 5, 0)
  }

  function SlabPages(c: nat): (n: nat)
    requires c < CACHES
  {
    Pow2(Config(c).order)
  }

  /** The objects and, in front of them, the header fit into the slab; or the header fits
      into an object of a cache that keeps its own headers inside. */
  lemma Layout(c: nat)
    requires c < CACHES
    ensures var k := Config(c);
            && k.objsize == Pow2(k.shift) && k.num > 0
            && k.offset + k.num * k.objsize <= SlabPages(c) * PGSIZE
            && (!k.off ==> HEADER + k.num * ENTRY <= k.offset)
            && (k.off ==>
                  k.header < CACHES && !Config(k.header).off && HEADER + k.num * ENTRY <= Config(k.header).objsize)
  {
    assert Pow2(5) == 32;
    assert Pow2(10) == 32 * Pow2(5);
    assert Pow2(15) == 32 * Pow2(10);
  }

  // -------------------------------------------------------------- how it comes about

  /** The precomputed first guess for slabs of one page. */
  function Guess(shift: nat): nat
    requires 5 <= shift < 9
  {
    [113, 59, 30, 15][shift - 5]
  }

  lemma {:induction false} ShrPow(a: nat, n: nat)
    ensures Shr(Pow2(a), n) == if n <= a then Pow2(a - n) else 0
  {
    if n > 0 && a > 0 {
      assert Pow2(a) / 2 == Pow2(a - 1);
      ShrPow(a - 1, n - 1);
    } else if n > 0 {
      ShrZero(n - 1);
    }
  }

  lemma {:induction false} ShrZero(n: nat)
    ensures Shr(0, n) == 0
  {
    if n > 0 {
      ShrZero(n - 1);
    }
  }

  /** How many objects of 2^shift bytes a slab of 2^order pages without header holds. */
  function Whole(order: nat, shift: nat): nat {
    if shift <= 12 + order then Pow2(12 + order - shift) else 0
  }

  predicate Fit(num: nat, objsize: nat, slabSize: nat) {
    MgmtSize(num) + num * objsize <= slabSize
  }

  /** cache_estimate. The guesses are there for one page and small objects only. */
  method CacheEstimate(order: nat, shift: nat, off: bool) returns (remainder: nat, num: nat)
    requires order <= KMALLOC_MAX_ORDER && 5 <= shift <= MAX_SIZE_ORDER && (!off ==> order == 0 && shift < 9)
    ensures off ==> num == Whole(order, shift) && remainder == PGSIZE * Pow2(order) - num * Pow2(shift)
    ensures !off ==>
              && num <= Guess(shift)
              && Fit(num, Pow2(shift), PGSIZE)
              && remainder == PGSIZE - num * Pow2(shift) - MgmtSize(num)
    ensures !off ==> num == Guess(shift) || !Fit(num + 1, Pow2(shift), PGSIZE)
  {
    Powers();
    PowSum(12, order);
    var slabSize := PGSIZE * Pow2(order);
    var objsize := Pow2(shift);
    if off {
      num := Shr(slabSize, shift);
      ShrPow(12 + order, shift);
      if shift <= 12 + order {
        PowSum(12 + order - shift, shift);
      }
      remainder := slabSize - num * objsize;
    } else {
      num := Guess(shift);
      while MgmtSize(num) + num * objsize > slabSize
        invariant num <= Guess(shift) && (num == Guess(shift) || !Fit(num + 1, objsize, slabSize))
        decreases num
      {
        num := num - 1;
      }
      remainder := slabSize - num * objsize - MgmtSize(num);
    }
  }

  /** The guesses need no correction. */
  lemma GuessFits(shift: nat, n: nat)
    requires 5 <= shift < 9 && n <= Guess(shift)
    ensures Fit(n, Pow2(shift), PGSIZE)
  {
    Powers();
    if shift == 5 {
    } else if shift == 6 {
    } else if shift == 7 {
    } else {
    }
  }

  /** calculate_slab_order: the first order that wastes at most an eighth. It never gives
      up, and an off-slab header never outgrows an object. */
  method CalculateSlabOrder(shift: nat, off: bool) returns (num: nat, order: nat, leftOver: nat)
    requires 5 <= shift <= MAX_SIZE_ORDER && (off <==> shift >= 9)
    ensures var k := Config(shift - 5); num == k.num && order == k.order
    ensures off ==> leftOver == 0
  {
    Powers();
    order := 0;
    while order <= KMALLOC_MAX_ORDER
      invariant order <= (if shift <= 12 then 0 else shift - 12)
    {
      var remainder;
      remainder, num := CacheEstimate(order, shift, off);
      if !off {
        GuessFits(shift, if num < Guess(shift) then num + 1 else num);
      } else if shift <= 12 + order {
        PowSum(12 + order - shift, shift);
        PowSum(12, order);
      }
      if num != 0 {
        assert off ==> num <= (Pow2(shift) - HEADER) / ENTRY;
        if remainder * 8 <= PGSIZE * Pow2(order) {
          leftOver := remainder;
          return;
        }
      }
      order := order + 1;
    }
    assert false;
  }

  /** The order of the smallest cache whose objects have room for `n` bytes; there is none
      for more than MAX_SIZE. */
  method GetOrder(n: nat) returns (r: Option<nat>)
    ensures r == None <==> n > MAX_SIZE
    ensures r != None ==> MIN_SIZE_ORDER <= r.value <= MAX_SIZE_ORDER && n <= Pow2(r.value)
    ensures r != None ==> r.value == MIN_SIZE_ORDER || Pow2(r.value - 1) < n
  {
    Powers();
    var order := MIN_SIZE_ORDER;
    var orderSize := 32;
    while order <= MAX_SIZE_ORDER
      invariant MIN_SIZE_ORDER <= order <= MAX_SIZE_ORDER + 1 && orderSize == Pow2(order)
      invariant order == MIN_SIZE_ORDER || Pow2(order - 1) < n
    {
      if n <= orderSize {
        PowGrows(order, MAX_SIZE_ORDER);
        return Some(order);
      }
      order, orderSize := order + 1, orderSize * 2;
    }
    r := None;
  }

  /** init_kmem_cache yields the table above. */
  method InitCache(c: nat) returns (k: Cache)
    requires c < CACHES
    ensures k == Config(c)
  {
    Powers();
    var objsize := RoundUp16(Pow2(c + MIN_SIZE_ORDER));
    var off := objsize >= PGSIZE / 8;
    var found := GetOrder(objsize);
    Objects(c);
    var shift := found.value;
    ShiftOf(c, shift);
    var num, order, leftOver := CalculateSlabOrder(shift, off);
    var mgmtSize := MgmtSize(num);
    if off && leftOver >= mgmtSize {
      off := false;
    }
    if off {
      var h := GetOrder(mgmtSize);
      HeaderOrder(c, h.value);
      k := Cache(objsize, shift, num, 0, true, order, h.value - MIN_SIZE_ORDER);
    } else {
      k := Cache(objsize, shift, num, mgmtSize, false, order, 0);
    }
  }

  lemma Objects(c: nat)
    requires c < CACHES
    ensures RoundUp16(Pow2(c + 5)) <= MAX_SIZE
  {
    Powers();
  }

  lemma ShiftOf(c: nat, shift: nat)
    requires c < CACHES && 5 <= shift <= 17 && RoundUp16(Pow2(c + 5)) <= Pow2(shift)
    requires (shift == 5 || Pow2(shift - 1) < RoundUp16(Pow2(c + 5)))
    ensures shift == c + 5 && RoundUp16(Pow2(c + 5)) == Pow2(c + 5)
  {
    Powers();
  }

  lemma HeaderOrder(c: nat, h: nat)
    requires 4 <= c < CACHES && 5 <= h <= 17 && MgmtSize(Config(c).num) <= Pow2(h)
    requires (h == 5 || Pow2(h - 1) < MgmtSize(Config(c).num))
    ensures h == Config(c).header + 5
  {
    Powers();
  }

  lemma Powers()
    ensures Pow2(0) == 1 && Pow2(1) == 2 && Pow2(2) == 4 && Pow2(3) == 8 && Pow2(4) == 16 && Pow2(5) == 32
    ensures Pow2(6) == 64 && Pow2(7) == 128 && Pow2(8) == 256 && Pow2(9) == 512 && Pow2(10) == 1024
    ensures Pow2(11) == 2048 && Pow2(12) == 4096 && Pow2(13) == 8192 && Pow2(14) == 16384 && Pow2(15) == 32768
    ensures Pow2(16) == 65536 && Pow2(17) == 131072
  {
    assert Pow2(5) == 32;
    assert Pow2(9) == 512;
    assert Pow2(13) == 8192;
  }
}
