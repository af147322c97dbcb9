/** How far an input or output operation has come, in bytes. */
module SfsIo {
  import opened SfsDisk
  import opened SfsMap
  import opened SfsBytes
  import opened SfsView

  function Max(a: int, b: int): int {
    if a < b then b else a
  }

  /** One piece inside one block, perhaps a new block of zeros behind the last: a read gets
      its bytes, a write puts them. */
  ghost predicate Piece(s: Fs, r: Fs, f: nat, write: bool, blkno: nat, off: nat, data: seq<Byte>)
  {
    && Has(s, f) && Has(r, f) && Others(s, r, f) && off + |data| <= BLKSIZE
    && |Raw(s, f)| == BLKSIZE * s.files[f].blocks && |Raw(r, f)| == BLKSIZE * r.files[f].blocks
    && r.files[f].size == s.files[f].size
    && blkno <= s.files[f].blocks && r.files[f].blocks == Max(s.files[f].blocks, blkno + 1)
    && if write then
         Raw(r, f) == Splice(Pad(Raw(s, f), |Raw(r, f)|), blkno * BLKSIZE + off, data)
       else
         && Raw(r, f) == Pad(Raw(s, f), |Raw(r, f)|)
         && data == Raw(r, f)[blkno * BLKSIZE + off..blkno * BLKSIZE + off + |data|]
  }

  /** The first |data| bytes at `offset` are done. */
  ghost predicate Progress(s: Fs, r: Fs, f: nat, write: bool, offset: nat, data: seq<Byte>)
  {
    && Has(s, f) && Has(r, f) && Others(s, r, f)
    && |Raw(s, f)| == BLKSIZE * s.files[f].blocks && |Raw(r, f)| == BLKSIZE * r.files[f].blocks
    && r.files[f].size == s.files[f].size
    && if data == [] then
         Raw(r, f) == Raw(s, f) && r.files[f].blocks == s.files[f].blocks
       else
         && r.files[f].blocks == Max(s.files[f].blocks, Ceil(offset + |data|))
         && offset + |data| <= |Raw(r, f)|
         && if write then
              Raw(r, f) == Splice(Pad(Raw(s, f), |Raw(r, f)|), offset, data)
            else
              Raw(r, f) == Pad(Raw(s, f), |Raw(r, f)|) && data == Raw(r, f)[offset..offset + |data|]
  }

  lemma CeilPiece(blkno: nat, off: nat, k: nat)
    requires 0 < k && off + k <= BLKSIZE
    ensures Ceil(blkno * BLKSIZE + off + k) == blkno + 1
  {
  }

  lemma {:induction false} ProgressStep(s: Fs, m: Fs, r: Fs, f: nat, write: bool, offset: nat, done: seq<Byte>,
      blkno: nat, off: nat, data: seq<Byte>)
    requires Progress(s, m, f, write, offset, done) && Piece(m, r, f, write, blkno, off, data) && data != []
    requires blkno * BLKSIZE + off == offset + |done|
    ensures Progress(s, r, f, write, offset, done + data)
  {
    OthersTrans(s, m, r, f);
    CeilPiece(blkno, off, |data|);
    if write {
      WriteStep(s, m, r, f, offset, done, blkno, off, data);
    } else {
      ReadBytes(Raw(s, f), Raw(m, f), Raw(r, f), offset, done, data);
    }
  }

  lemma {:induction false} WriteStep(s: Fs, m: Fs, r: Fs, f: nat, offset: nat, done: seq<Byte>, blkno: nat, off: nat,
      data: seq<Byte>)
    requires Progress(s, m, f, true, offset, done) && Piece(m, r, f, true, blkno, off, data) && data != []
    requires blkno * BLKSIZE + off == offset + |done| && Ceil(offset + |done| + |data|) == blkno + 1
    ensures r.files[f].blocks == Max(s.files[f].blocks, Ceil(offset + |done + data|))
    ensures Raw(r, f) == Splice(Pad(Raw(s, f), |Raw(r, f)|), offset, done + data)
  {
    WriteBytes(Raw(s, f), Raw(m, f), Raw(r, f), offset, done, data);
  }

  lemma {:induction false} ReadBytes(raw: seq<Byte>, mid: seq<Byte>, end: seq<Byte>, offset: nat, done: seq<Byte>,
      data: seq<Byte>)
    requires |raw| <= |mid| <= |end| && mid == Pad(raw, |mid|) && end == Pad(mid, |end|)
    requires offset + |done| + |data| <= |end| && data == end[offset + |done|..offset + |done| + |data|]
    requires done == [] || (offset + |done| <= |mid| && done == mid[offset..offset + |done|])
    ensures end == Pad(raw, |end|) && done + data == end[offset..offset + |done + data|]
  {
    assert done == [] || done == end[offset..offset + |done|];
  }

  lemma {:induction false} WriteBytes(raw: seq<Byte>, mid: seq<Byte>, end: seq<Byte>, offset: nat, done: seq<Byte>,
      data: seq<Byte>)
    requires |raw| <= |mid| <= |end| && offset + |done| + |data| <= |end|
    requires end == Splice(Pad(mid, |end|), offset + |done|, data)
    requires if done == [] then mid == raw else offset + |done| <= |mid| && mid == Splice(Pad(raw, |mid|), offset, done)
    ensures end == Splice(Pad(raw, |end|), offset, done + data)
  {
    if done == [] {
      assert done + data == data;
    } else {
      SpliceMore(raw, |mid|, |end|, offset, done, data);
    }
  }

  // ------------------------------------------------------------- what a reader sees

  /** The bytes of a file: zeros where it has no block. */
  ghost function Bytes(fs: Fs, f: nat): (s: seq<Byte>)
    requires Has(fs, f)
    ensures |s| == fs.files[f].size
  {
    Seen(Raw(fs, f), fs.files[f].size)
  }

  function Seen(raw: seq<Byte>, size: nat): (s: seq<Byte>)
    ensures |s| == size
    ensures size <= |raw| ==> s == raw[..size]
  {
    if size <= |raw| then raw[..size] else Pad(raw, size)
  }

  /** The bytes with `data` written at `offset`, which may lie at the end. */
  function Written(s: seq<Byte>, offset: nat, data: seq<Byte>): (r: seq<Byte>)
    requires offset <= |s|
  {
    s[..offset] + data + if offset + |data| < |s| then s[offset + |data|..] else []
  }

  lemma CeilMax(a: nat, b: nat)
    ensures Ceil(Max(a, b)) == Max(Ceil(a), Ceil(b)) && BLKSIZE * Ceil(a) >= a
  {
  }

  /** In terms of what a reader sees, a write is a write. */
  lemma {:induction false} WriteSeen(s: Fs, r: Fs, t: Fs, f: nat, offset: nat, data: seq<Byte>)
    requires Progress(s, r, f, true, offset, data) && offset <= s.files[f].size
    requires Has(t, f) && Raw(t, f) == Raw(r, f) && t.files[f].size == Max(s.files[f].size, offset + |data|)
    ensures Bytes(t, f) == Written(Bytes(s, f), offset, data)
  {
    if data != [] {
      SeenBytes(Raw(s, f), s.files[f].size, |Raw(r, f)|, offset, data);
    }
  }

  lemma {:induction false} SeenBytes(raw: seq<Byte>, size: nat, n: nat, offset: nat, data: seq<Byte>)
    requires offset <= size && |raw| <= n && offset + |data| <= n
    ensures Seen(Splice(Pad(raw, n), offset, data), Max(size, offset + |data|)) ==
              Written(Seen(raw, size), offset, data)
  {
  }

  /** Zeros behind the blocks are not seen. */
  lemma {:induction false} SeenPad(raw: seq<Byte>, n: nat, size: nat)
    requires |raw| <= n
    ensures Seen(Pad(raw, n), size) == Seen(raw, size)
  {
  }

  /** A read after a write, anywhere, gives the new bytes where it was written and the old
      ones elsewhere. */
  lemma {:induction false} ReadAfterWrite(s: seq<Byte>, offset: nat, data: seq<Byte>, lo: nat, hi: nat)
    requires offset <= |s| && lo <= hi <= |Written(s, offset, data)|
    ensures |Written(s, offset, data)| == Max(|s|, offset + |data|)
    ensures forall p {:trigger Written(s, offset, data)[lo..hi][p]} ::
              0 <= p < hi - lo ==>
                Written(s, offset, data)[lo..hi][p] ==
                  if offset <= lo + p < offset + |data| then data[lo + p - offset] else s[lo + p]
  {
  }
}
