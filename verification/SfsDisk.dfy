/** The blocks of an SFS disk as values: bytes, the 32-bit words an indirect block holds,
    the free map, and the block maps of the inodes. */
module SfsDisk {

  const BLKSIZE: nat := 4096
  const NDIRECT: nat := 12
  const NENTRY: nat := BLKSIZE / 4
  /** Blocks a file can have through the direct and the indirect tier. */
  const TIERS: nat := NDIRECT + NENTRY

  newtype Byte = x: int | 0 <= x < 256
  type Block = seq<Byte>

  const WORDS: nat := 0x1_0000_0000

  // ------------------------------------------------------------------------ words

  /** The little-endian word at index `i`. */
  function GetWord(b: Block, i: nat): (w: nat)
    requires |b| == BLKSIZE && i < NENTRY
    ensures w < WORDS
  {
    b[4 * i] as nat + 0x100 * b[4 * i + 1] as nat + 0x1_0000 * b[4 * i + 2] as nat + 0x100_0000 * b[4 * i + 3] as nat
  }

  /** The k-th byte of a word. */
  function ByteOf(w: nat, k: nat): Byte
    requires k < 4
  {
    (if k == 0 then w % 0x100
     else if k == 1 then w / 0x100 % 0x100
     else if k == 2 then w / 0x1_0000 % 0x100
     else w / 0x100_0000 % 0x100) as Byte
  }

  function PutWord(b: Block, i: nat, w: nat): (r: Block)
    requires |b| == BLKSIZE && i < NENTRY
    ensures |r| == BLKSIZE
  {
    b[4 * i := ByteOf(w, 0)][4 * i + 1 := ByteOf(w, 1)][4 * i + 2 := ByteOf(w, 2)][4 * i + 3 := ByteOf(w, 3)]
  }

  lemma Digits(w: nat)
    requires w < WORDS
    ensures w % 0x100 + 0x100 * (w / 0x100 % 0x100) + 0x1_0000 * (w / 0x1_0000 % 0x100) +
            0x100_0000 * (w / 0x100_0000 % 0x100) == w
  {
    assert w / 0x1_0000 == w / 0x100 / 0x100;
    assert w / 0x100_0000 == w / 0x1_0000 / 0x100;
    assert w / 0x100_0000 < 0x100;
  }

  lemma {:induction false} PutGet(b: Block, i: nat, w: nat, j: nat)
    requires |b| == BLKSIZE && i < NENTRY && j < NENTRY && w < WORDS
    ensures GetWord(PutWord(b, i, w), j) == if i == j then w else GetWord(b, j)
  {
    if i == j {
      Digits(w);
    } else {
      PutOther(b, i, w, j);
    }
  }

  lemma {:induction false} PutOther(b: Block, i: nat, w: nat, j: nat)
    requires |b| == BLKSIZE && i < NENTRY && j < NENTRY && j != i
    ensures GetWord(PutWord(b, i, w), j) == GetWord(b, j)
  {
    var r := PutWord(b, i, w);
    assert r[4 * j..4 * j + 4] == b[4 * j..4 * j + 4] by {
      assert 4 * j + 3 < 4 * i || 4 * i + 3 < 4 * j;
    }
  }

  function WordBytes(w: nat): (s: seq<Byte>)
    ensures |s| == 4
  {
    [ByteOf(w, 0), ByteOf(w, 1), ByteOf(w, 2), ByteOf(w, 3)]
  }

  function BytesWord(s: seq<Byte>): (w: nat)
    requires |s| == 4
  {
    s[0] as nat + 0x100 * s[1] as nat + 0x1_0000 * s[2] as nat + 0x100_0000 * s[3] as nat
  }

  function Zeros(): (b: Block)
    ensures |b| == BLKSIZE && forall i :: 0 <= i < BLKSIZE ==> b[i] == 0
  {
    seq(BLKSIZE, _ => 0)
  }

  lemma ZeroWord(i: nat)
    requires i < NENTRY
    ensures GetWord(Zeros(), i) == 0
  {
  }

  // --------------------------------------------------------------------- free map

  function Count(free: seq<bool>): (n: nat)
    ensures n <= |free|
  {
    if free == [] then 0 else (if free[0] then 1 else 0) + Count(free[1..])
  }

  lemma {:induction false} CountUpdate(free: seq<bool>, b: nat, v: bool)
    requires b < |free|
    ensures Count(free[b := v]) == Count(free) - (if free[b] then 1 else 0) + (if v then 1 else 0)
  {
    if b == 0 {
      assert free[0 := v][1..] == free[1..];
    } else {
      CountUpdate(free[1..], b - 1, v);
      assert free[b := v][1..] == free[1..][b - 1 := v];
    }
  }

  lemma {:induction false} CountZero(free: seq<bool>)
    ensures Count(free) == 0 <==> forall b :: 0 <= b < |free| ==> !free[b]
  {
    if free != [] {
      CountZero(free[1..]);
      assert forall b :: 0 < b < |free| ==> free[b] == free[1..][b - 1];
    }
  }

  /** bitmap_alloc finds the first set bit. */
  function First(free: seq<bool>): (b: nat)
    ensures b <= |free| && (b < |free| ==> free[b]) && forall c :: 0 <= c < b ==> !free[c]
  {
    if free == [] || free[0] then 0 else 1 + First(free[1..])
  }

  lemma FirstExists(free: seq<bool>)
    ensures First(free) < |free| <==> Count(free) > 0
  {
    CountZero(free);
  }
}
