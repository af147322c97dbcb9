/** The bytes of a file, seen through its blocks. */
module SfsBytes {
  import opened SfsDisk

  /** `s` with `data` written at place `at`. */
  function Splice(s: seq<Byte>, at: nat, data: seq<Byte>): (r: seq<Byte>)
    requires at + |data| <= |s|
    ensures |r| == |s|
  {
    s[..at] + data + s[at + |data|..]
  }

  /** `s` with zeros after it up to length `n`. */
  function Pad(s: seq<Byte>, n: nat): (r: seq<Byte>)
    requires |s| <= n
    ensures |r| == n
  {
    s + seq(n - |s|, _ => 0)
  }

  ghost predicate Full(bs: seq<Block>) {
    forall i {:trigger bs[i]} :: 0 <= i < |bs| ==> |bs[i]| == BLKSIZE
  }

  function Flat(bs: seq<Block>): (s: seq<Byte>)
  {
    if bs == [] then [] else Flat(bs[..|bs| - 1]) + bs[|bs| - 1]
  }

  lemma {:induction false} FlatSize(bs: seq<Block>)
    requires Full(bs)
    ensures |Flat(bs)| == BLKSIZE * |bs|
  {
    if bs != [] {
      assert Full(bs[..|bs| - 1]);
      FlatSize(bs[..|bs| - 1]);
    }
  }

  lemma {:induction false} FlatMore(bs: seq<Block>, b: Block)
    ensures Flat(bs + [b]) == Flat(bs) + b
  {
    assert (bs + [b])[..|bs|] == bs;
  }

  /** The i-th block is its piece of the bytes. */
  lemma {:induction false} FlatBlock(bs: seq<Block>, i: nat)
    requires Full(bs) && i < |bs|
    ensures |Flat(bs)| == BLKSIZE * |bs| && Flat(bs)[i * BLKSIZE..(i + 1) * BLKSIZE] == bs[i]
  {
    FlatSize(bs);
    var n := |bs| - 1;
    var front := bs[..n];
    assert Full(front);
    FlatSize(front);
    assert Flat(bs) == Flat(front) + bs[n];
    if i < n {
      FlatBlock(front, i);
      assert front[i] == bs[i];
      assert (i + 1) * BLKSIZE <= n * BLKSIZE;
      Within(Flat(front), bs[n], i * BLKSIZE, (i + 1) * BLKSIZE);
    } else {
      After(Flat(front), bs[n]);
    }
  }

  lemma {:induction false} FlatPrefix(bs: seq<Block>, n: nat)
    requires Full(bs) && n <= |bs|
    ensures BLKSIZE * n <= |Flat(bs)| && Flat(bs[..n]) == Flat(bs)[..BLKSIZE * n]
  {
    FlatSize(bs);
    if n == |bs| {
      assert bs[..n] == bs;
    } else {
      var front := bs[..|bs| - 1];
      assert Full(front);
      FlatPrefix(front, n);
      assert front[..n] == bs[..n];
    }
  }

  lemma {:induction false} Within(a: seq<Byte>, b: seq<Byte>, lo: nat, hi: nat)
    requires lo <= hi <= |a|
    ensures (a + b)[lo..hi] == a[lo..hi]
  {
  }

  lemma {:induction false} After(a: seq<Byte>, b: seq<Byte>)
    ensures (a + b)[|a|..|a| + |b|] == b
  {
  }

  lemma {:induction false} SpliceFront(a: seq<Byte>, b: seq<Byte>, at: nat, data: seq<Byte>)
    requires at + |data| <= |a|
    ensures Splice(a + b, at, data) == Splice(a, at, data) + b
  {
  }

  lemma {:induction false} SpliceBack(a: seq<Byte>, b: seq<Byte>, at: nat, data: seq<Byte>)
    requires at + |data| <= |b|
    ensures Splice(a + b, |a| + at, data) == a + Splice(b, at, data)
  {
  }

  /** Writing inside a block is writing at its place among the bytes. */
  lemma {:induction false} FlatSplice(bs: seq<Block>, i: nat, off: nat, data: seq<Byte>)
    requires Full(bs) && i < |bs| && off + |data| <= BLKSIZE
    ensures i * BLKSIZE + off + |data| <= |Flat(bs)|
    ensures Flat(bs[i := Splice(bs[i], off, data)]) == Splice(Flat(bs), i * BLKSIZE + off, data)
  {
    var n := |bs| - 1;
    var front := bs[..n];
    assert Full(front);
    FlatSize(front);
    assert Flat(bs) == Flat(front) + bs[n];
    var to := bs[i := Splice(bs[i], off, data)];
    if i < n {
      FlatSplice(front, i, off, data);
      assert to[..n] == front[i := Splice(front[i], off, data)];
      SpliceFront(Flat(front), bs[n], i * BLKSIZE + off, data);
    } else {
      assert to[..n] == front;
      SpliceBack(Flat(front), bs[n], off, data);
    }
  }

  /** Writing on from where the last write stopped, perhaps behind the old end. */
  lemma {:induction false} SpliceMore(raw: seq<Byte>, n: nat, m: nat, at: nat, a: seq<Byte>, b: seq<Byte>)
    requires |raw| <= n <= m && at + |a| <= n && at + |a| + |b| <= m
    ensures Splice(Pad(Splice(Pad(raw, n), at, a), m), at + |a|, b) == Splice(Pad(raw, m), at, a + b)
  {
    assert Pad(Splice(Pad(raw, n), at, a), m) == Splice(Pad(raw, m), at, a);
    SpliceTwice(Pad(raw, m), at, a, b);
  }

  lemma {:induction false} SpliceTwice(s: seq<Byte>, at: nat, a: seq<Byte>, b: seq<Byte>)
    requires at + |a| + |b| <= |s|
    ensures Splice(Splice(s, at, a), at + |a|, b) == Splice(s, at, a + b)
  {
    var t := Splice(s, at, a);
    assert t[..at + |a|] == s[..at] + a;
    assert t[at + |a| + |b|..] == s[at + |a| + |b|..];
  }
}
