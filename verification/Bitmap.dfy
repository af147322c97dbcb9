/** The free map as words of 32 bits, changed bit by bit; a set bit is a free block. Words
    are numbers below 2^32, and the bit operations are given by recursion over the bits. */
module Bitmap {
  import opened Basics
  import opened SfsDisk

  const WORD_BITS: nat := 32

  /** Whether bit `k` is set: w & (1 << k). */
  predicate Bit(w: nat, k: nat)
  {
    if k == 0 then w % 2 == 1 else Bit(w / 2, k - 1)
  }

  /** w ^ (1 << k) */
  function Xor(w: nat, k: nat): (r: nat)
  {
    if k == 0 then (if w % 2 == 1 then w - 1 else w + 1) else 2 * Xor(w / 2, k - 1) + w % 2
  }

  /** w | (1 << k) */
  function Or(w: nat, k: nat): (r: nat)
  {
    if k == 0 then (if w % 2 == 1 then w else w + 1) else 2 * Or(w / 2, k - 1) + w % 2
  }

  lemma {:induction false} XorBit(w: nat, k: nat, j: nat)
    ensures Bit(Xor(w, k), j) == if j == k then !Bit(w, k) else Bit(w, j)
    decreases k
  {
    if k > 0 {
      assert Xor(w, k) / 2 == Xor(w / 2, k - 1) && Xor(w, k) % 2 == w % 2;
      if j > 0 {
        XorBit(w / 2, k - 1, j - 1);
      }
    } else if j > 0 {
      assert Xor(w, 0) / 2 == w / 2;
    }
  }

  lemma {:induction false} OrBit(w: nat, k: nat, j: nat)
    ensures Bit(Or(w, k), j) == (j == k || Bit(w, j))
    decreases k
  {
    if k > 0 {
      assert Or(w, k) / 2 == Or(w / 2, k - 1) && Or(w, k) % 2 == w % 2;
      if j > 0 {
        OrBit(w / 2, k - 1, j - 1);
      }
    } else if j > 0 {
      assert Or(w, 0) / 2 == w / 2;
    }
  }

  /** The results are words again. */
  lemma {:induction false} StaysWord(w: nat, k: nat, n: nat)
    requires w < Pow2(n) && k < n
    ensures Xor(w, k) < Pow2(n) && Or(w, k) < Pow2(n)
  {
    if k > 0 {
      StaysWord(w / 2, k - 1, n - 1);
    } else {
      assert Pow2(n) == 2 * Pow2(n - 1);
    }
  }

  lemma {:induction false} ZeroBit(k: nat)
    ensures !Bit(0, k)
  {
    if k > 0 {
      ZeroBit(k - 1);
    }
  }

  /** A word other than 0 has a bit set. */
  lemma {:induction false} SomeBit(w: nat, n: nat) returns (k: nat)
    requires 0 < w < Pow2(n)
    ensures k < n && Bit(w, k)
  {
    if w % 2 == 1 {
      k := 0;
    } else {
      k := SomeBit(w / 2, n - 1);
      k := k + 1;
    }
  }

  lemma {:induction false} AllOnes(n: nat, k: nat)
    requires k < n
    ensures Bit(Pow2(n) - 1, k)
  {
    assert (Pow2(n) - 1) / 2 == Pow2(n - 1) - 1;
    if k > 0 {
      AllOnes(n - 1, k - 1);
    }
  }

  // -------------------------------------------------------------- words and bits

  function BitsOf(words: seq<nat>): (bits: seq<bool>)
    ensures |bits| == |words| * WORD_BITS
    ensures forall i {:trigger bits[i]} :: 0 <= i < |bits| ==> bits[i] == Bit(words[i / WORD_BITS], i % WORD_BITS)
  {
    seq(|words| * WORD_BITS, i requires 0 <= i < |words| * WORD_BITS => Bit(words[i / WORD_BITS], i % WORD_BITS))
  }

  ghost predicate Wordy(words: seq<nat>) {
    forall i {:trigger words[i]} :: 0 <= i < |words| ==> words[i] < Pow2(WORD_BITS)
  }

  lemma {:induction false} PlaceOf(ix: nat, k: nat)
    requires k < WORD_BITS
    ensures (ix * WORD_BITS + k) / WORD_BITS == ix && (ix * WORD_BITS + k) % WORD_BITS == k
  {
  }

  /** Changing a word by a mask is changing one of the bits. */
  lemma {:induction false} ChangeBit(words: seq<nat>, ix: nat, k: nat)
    requires ix < |words| && k < WORD_BITS && Wordy(words)
    ensures ix * WORD_BITS + k < |words| * WORD_BITS && BitsOf(words)[ix * WORD_BITS + k] == Bit(words[ix], k)
    ensures BitsOf(words[ix := Xor(words[ix], k)]) == BitsOf(words)[ix * WORD_BITS + k := !Bit(words[ix], k)]
    ensures BitsOf(words[ix := Or(words[ix], k)]) == BitsOf(words)[ix * WORD_BITS + k := true]
    ensures Wordy(words[ix := Xor(words[ix], k)]) && Wordy(words[ix := Or(words[ix], k)])
  {
    PlaceOf(ix, k);
    StaysWord(words[ix], k, WORD_BITS);
    var bits, xor, or := BitsOf(words), BitsOf(words[ix := Xor(words[ix], k)]), BitsOf(words[ix := Or(words[ix], k)]);
    forall i | 0 <= i < |bits|
      ensures xor[i] == bits[ix * WORD_BITS + k := !Bit(words[ix], k)][i]
      ensures or[i] == bits[ix * WORD_BITS + k := true][i]
    {
      if i / WORD_BITS == ix {
        XorBit(words[ix], k, i % WORD_BITS);
        OrBit(words[ix], k, i % WORD_BITS);
        assert i == ix * WORD_BITS + i % WORD_BITS;
      }
    }
  }

  class Map {
    var nbits: nat
    var nwords: nat
    var words: array<nat>

    ghost predicate Valid()
      reads this, words
    {
      0 < nbits && nwords == (nbits + WORD_BITS - 1) / WORD_BITS && words.Length == nwords && Wordy(words[..])
    }

    function Bits(): (bits: seq<bool>)
      reads this, words
    {
      BitsOf(words[..])
    }

    /** bitmap_create: all blocks free, but no bit beyond `nbits` set. */
    constructor (nbits: nat)
      requires nbits > 0
      ensures Valid() && fresh(words) && this.nbits == nbits
      ensures forall i :: 0 <= i < |Bits()| ==> (Bits()[i] <==> i < nbits)
    {
      this.nbits := nbits;
      nwords := (nbits + WORD_BITS - 1) / WORD_BITS;
      words := new nat[(nbits + WORD_BITS - 1) / WORD_BITS](_ => Pow2(WORD_BITS) - 1);
      new;
      forall i | 0 <= i < nwords * WORD_BITS
        ensures Bits()[i]
      {
        AllOnes(WORD_BITS, i % WORD_BITS);
      }
      if nbits != nwords * WORD_BITS {
        var ix := nwords - 1;
        forall k | 0 <= k < WORD_BITS
          ensures Bit(words[ix], k)
        {
          AllOnes(WORD_BITS, k);
        }
        ClearTail(ix, nbits - ix * WORD_BITS);
      }
    }

    /** Marks the leftover bits of the last word as in use. */
    method ClearTail(ix: nat, from: nat)
      requires Valid() && ix < nwords && 0 < from < WORD_BITS
      requires forall k :: from <= k < WORD_BITS ==> Bit(words[ix], k)
      modifies words
      ensures Valid()
      ensures forall i ::
                0 <= i < |Bits()| ==>
                  Bits()[i] == if ix * WORD_BITS + from <= i < (ix + 1) * WORD_BITS then false else old(Bits())[i]
    {
      var overbits := from;
      while overbits < WORD_BITS
        invariant from <= overbits <= WORD_BITS && Valid()
        invariant forall i ::
                    0 <= i < |Bits()| ==>
                      Bits()[i] ==
                        if ix * WORD_BITS + from <= i < ix * WORD_BITS + overbits then false else old(Bits())[i]
      {
        PlaceOf(ix, overbits);
        FlipAt(ix, overbits);
        overbits := overbits + 1;
      }
    }

    method FlipAt(ix: nat, k: nat)
      requires Valid() && ix < nwords && k < WORD_BITS
      modifies words
      ensures Valid() && Bits() == old(Bits())[ix * WORD_BITS + k := !old(Bits())[ix * WORD_BITS + k]]
    {
      ghost var was := words[..];
      ChangeBit(was, ix, k);
      words[ix] := Xor(words[ix], k);
      assert words[..] == was[ix := Xor(was[ix], k)];
    }

    /** bitmap_alloc: the first set bit is taken. */
    method Alloc() returns (ok: bool, index: nat)
      requires Valid()
      modifies words
      ensures Valid() && ok == (First(old(Bits())) < |old(Bits())|)
      ensures ok ==> index == First(old(Bits())) && Bits() == old(Bits())[index := false]
      ensures !ok ==> Bits() == old(Bits())
    {
      var ix := 0;
      while ix < nwords
        invariant 0 <= ix <= nwords && forall i :: 0 <= i < ix ==> words[i] == 0
      {
        if words[ix] != 0 {
          var offset := LowestBit(words[ix]);
          index := ix * WORD_BITS + offset;
          FirstBit(words[..], ix, offset);
          FlipAt(ix, offset);
          return true, index;
        }
        ix := ix + 1;
      }
      NoneSet(words[..]);
      ok, index := false, 0;
    }

    /** bitmap_test. */
    method Test(index: nat) returns (b: bool)
      requires Valid() && index < nbits
      ensures index < |Bits()| && b == Bits()[index]
    {
      b := Bit(words[index / WORD_BITS], index % WORD_BITS);
    }

    /** bitmap_free. */
    method Free(index: nat)
      requires Valid() && index < nbits && !Bits()[index]
      modifies words
      ensures Valid() && Bits() == old(Bits())[index := true]
    {
      ghost var was := words[..];
      var ix, k := index / WORD_BITS, index % WORD_BITS;
      ChangeBit(was, ix, k);
      words[ix] := Or(words[ix], k);
      assert words[..] == was[ix := Or(was[ix], k)];
    }
  }

  /** The inner loop of bitmap_alloc; its last assertion never fails. */
  method LowestBit(w: nat) returns (offset: nat)
    requires 0 < w < Pow2(WORD_BITS)
    ensures offset < WORD_BITS && Bit(w, offset) && forall k :: 0 <= k < offset ==> !Bit(w, k)
  {
    ghost var some := SomeBit(w, WORD_BITS);
    offset := 0;
    while offset < WORD_BITS
      invariant 0 <= offset <= some && forall k :: 0 <= k < offset ==> !Bit(w, k)
    {
      if Bit(w, offset) {
        return;
      }
      offset := offset + 1;
    }
    assert false;
  }

  lemma {:induction false} FirstBit(words: seq<nat>, ix: nat, k: nat)
    requires ix < |words| && k < WORD_BITS && Bit(words[ix], k)
    requires forall i :: 0 <= i < ix ==> words[i] == 0
    requires forall j :: 0 <= j < k ==> !Bit(words[ix], j)
    ensures First(BitsOf(words)) == ix * WORD_BITS + k && BitsOf(words)[ix * WORD_BITS + k]
  {
    PlaceOf(ix, k);
    var bits := BitsOf(words);
    assert bits[ix * WORD_BITS + k];
    forall i | 0 <= i < ix * WORD_BITS + k
      ensures !bits[i]
    {
      ZeroBit(i % WORD_BITS);
    }
  }

  lemma {:induction false} NoneSet(words: seq<nat>)
    requires forall i :: 0 <= i < |words| ==> words[i] == 0
    ensures First(BitsOf(words)) == |BitsOf(words)|
  {
    var f := First(BitsOf(words));
    ZeroBit(f % WORD_BITS);
  }
}
