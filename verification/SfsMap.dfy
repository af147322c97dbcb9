/** Block maps and block accounting: each inode reaches its blocks through twelve direct
    entries and one indirect block; the free map and the count of unused blocks agree with
    what the inodes own. */
module SfsMap {
  import opened SfsDisk

  /** An inode as it is on disk. */
  datatype Din = Din(size: nat, blocks: nat, direct: seq<nat>, indirect: nat)

  datatype Fs = Fs(disk: seq<Block>, free: seq<bool>, unused: nat, files: map<nat, Din>)

  /** What a block in use is used for. */
  datatype Use = System | Node(f: nat) | Table(f: nat) | Data(f: nat, i: nat)
  type Owners = map<nat, Use>

  function Ceil(size: nat): nat {
    (size + BLKSIZE - 1) / BLKSIZE
  }

  ghost predicate Shaped(fs: Fs) {
    && (forall b {:trigger fs.disk[b]} :: 0 <= b < |fs.disk| ==> |fs.disk[b]| == BLKSIZE)
    && 0 < |fs.disk| <= |fs.free| && |fs.disk| <= WORDS
  }

  ghost predicate DinShaped(fs: Fs, d: Din) {
    |d.direct| == NDIRECT && d.indirect < |fs.disk|
  }

  /** The number of the i-th block of a file, or 0. */
  function Bmap(fs: Fs, d: Din, i: nat): nat
    requires Shaped(fs) && DinShaped(fs, d) && i < TIERS
  {
    if i < NDIRECT then d.direct[i]
    else if d.indirect == 0 then 0
    else GetWord(fs.disk[d.indirect], i - NDIRECT)
  }

  // -------------------------------------------------------------------- invariant

  ghost predicate Owned(own: Owners, b: nat, u: Use) {
    b in own && own[b] == u
  }

  ghost predicate SlotOk(fs: Fs, own: Owners, f: nat, d: Din, i: nat)
    requires Shaped(fs) && DinShaped(fs, d) && i < TIERS
  {
    if i < d.blocks then Owned(own, Bmap(fs, d, i), Data(f, i)) else Bmap(fs, d, i) == 0
  }

  ghost predicate FileOk(fs: Fs, own: Owners, f: nat, d: Din)
    requires Shaped(fs)
  {
    && DinShaped(fs, d) && d.blocks <= TIERS
    && Owned(own, f, Node(f))
    && (d.indirect != 0 ==> Owned(own, d.indirect, Table(f)))
    && (forall i {:trigger SlotOk(fs, own, f, d, i)} :: 0 <= i < TIERS ==> SlotOk(fs, own, f, d, i))
  }

  /** A block has an owner that really has it. */
  ghost predicate UseOk(fs: Fs, own: Owners, b: nat)
    requires Shaped(fs) && b in own
  {
    match own[b]
    case System => true
    case Node(f) => f == b && f in fs.files
    case Table(f) => f in fs.files && fs.files[f].indirect == b
    case Data(f, i) =>
      && f in fs.files && i < fs.files[f].blocks && i < TIERS
      && DinShaped(fs, fs.files[f]) && Bmap(fs, fs.files[f], i) == b
  }

  /** A block of the disk is free iff nobody owns it; bits beyond the disk are not set. */
  ghost predicate FreeOk(fs: Fs, own: Owners, b: nat)
    requires b < |fs.free|
  {
    fs.free[b] <==> b < |fs.disk| && b !in own
  }

  ghost predicate Ok(fs: Fs, own: Owners)
  {
    && Shaped(fs) && fs.unused == Count(fs.free)
    && Owned(own, 0, System)
    && (forall b {:trigger FreeOk(fs, own, b)} :: 0 <= b < |fs.free| ==> FreeOk(fs, own, b))
    && (forall b {:trigger UseOk(fs, own, b)} :: b in own ==> 0 <= b < |fs.disk| && UseOk(fs, own, b))
    && (forall f {:trigger FileOk(fs, own, f, fs.files[f])} :: f in fs.files ==> FileOk(fs, own, f, fs.files[f]))
  }

  /** The bytes of the i-th block of a file. */
  function Content(fs: Fs, f: nat, i: nat): (b: Block)
    requires Shaped(fs) && f in fs.files && DinShaped(fs, fs.files[f]) && i < TIERS
  {
    var b := Bmap(fs, fs.files[f], i);
    if b < |fs.disk| then fs.disk[b] else []
  }

  // ----------------------------------------------------------- writing a data block

  function PutBlock(fs: Fs, b: nat, data: Block): (r: Fs)
    requires b < |fs.disk|
  {
    fs.(disk := fs.disk[b := data])
  }

  /** A block that is no indirect block does not carry the map of any file. */
  lemma {:induction false} PutKeepsMap(fs: Fs, own: Owners, b: nat, data: Block, f: nat, i: nat)
    requires Shaped(fs) && b < |fs.disk| && |data| == BLKSIZE && f in fs.files && FileOk(fs, own, f, fs.files[f])
    requires i < TIERS
    requires b !in own || !own[b].Table?
    ensures var r := PutBlock(fs, b, data);
            Shaped(r) && DinShaped(r, fs.files[f]) && Bmap(r, fs.files[f], i) == Bmap(fs, fs.files[f], i)
  {
  }

  lemma {:induction false} PutOk(fs: Fs, own: Owners, b: nat, data: Block)
    requires Ok(fs, own) && b < |fs.disk| && |data| == BLKSIZE && (b !in own || !own[b].Table?)
    ensures Ok(PutBlock(fs, b, data), own)
  {
    var r := PutBlock(fs, b, data);
    forall f | f in r.files
      ensures FileOk(r, own, f, r.files[f])
    {
      var d := fs.files[f];
      assert FileOk(fs, own, f, d);
      forall i | 0 <= i < TIERS
        ensures SlotOk(r, own, f, d, i)
      {
        assert SlotOk(fs, own, f, d, i);
        PutKeepsMap(fs, own, b, data, f, i);
      }
    }
    forall c | c in own
      ensures 0 <= c < |r.disk| && UseOk(r, own, c)
    {
      assert UseOk(fs, own, c);
      if own[c].Data? {
        assert FileOk(fs, own, own[c].f, fs.files[own[c].f]);
        PutKeepsMap(fs, own, b, data, own[c].f, own[c].i);
      }
    }
    forall c | 0 <= c < |r.free|
      ensures FreeOk(r, own, c)
    {
      assert FreeOk(fs, own, c);
    }
  }

  /** Two places in files share a block only if they are the same place. */
  lemma {:induction false} OwnedOnce(fs: Fs, own: Owners, f: nat, i: nat, g: nat, j: nat)
    requires Ok(fs, own) && f in fs.files && g in fs.files && i < fs.files[f].blocks && j < fs.files[g].blocks
    ensures i < TIERS && j < TIERS && DinShaped(fs, fs.files[f]) && DinShaped(fs, fs.files[g])
    ensures var b := Bmap(fs, fs.files[f], i);
            && 0 < b < |fs.disk| && !fs.free[b]
            && (b == Bmap(fs, fs.files[g], j) ==> f == g && i == j)
            && b != fs.files[g].indirect && b != g
  {
    var d, e := fs.files[f], fs.files[g];
    assert FileOk(fs, own, f, d) && FileOk(fs, own, g, e);
    assert SlotOk(fs, own, f, d, i) && SlotOk(fs, own, g, e, j);
    var b := Bmap(fs, d, i);
    assert UseOk(fs, own, b);
    assert FreeOk(fs, own, b);
  }
}
