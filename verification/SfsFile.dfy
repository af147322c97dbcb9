/** Block maps and file input/output of a mounted SFS. The device never fails here; what
    can fail is the allocation of a block. */
module SfsFile {
  import opened SfsDisk
  import opened SfsMap
  import opened SfsBlocks
  import opened SfsBytes
  import opened SfsView
  import opened SfsIo
  import opened Bitmap

  const E_NO_MEM: int := 4
  const MAX_FILE_SIZE: int := 1024 * 1024 * 128

  /** The free map agrees with the count, and only blocks of the disk are free. */
  ghost predicate Sound(fs: Fs) {
    && Shaped(fs) && fs.unused == Count(fs.free)
    && forall b {:trigger fs.free[b]} :: 0 <= b < |fs.free| && fs.free[b] ==> 0 < b < |fs.disk|
  }

  lemma {:induction false} OkSound(fs: Fs, own: Owners)
    requires Ok(fs, own)
    ensures Sound(fs)
  {
    forall b | 0 <= b < |fs.free| && fs.free[b]
      ensures 0 < b < |fs.disk|
    {
      Takeable(fs, own, b);
    }
  }

  lemma {:induction false} TakeSound(fs: Fs, b: nat)
    requires Sound(fs) && b < |fs.free| && fs.free[b]
    ensures fs.unused > 0 && b < |fs.disk| && Sound(Take(fs, b)) && Take(fs, b).unused == fs.unused - 1
  {
    CountZero(fs.free);
    CountUpdate(fs.free, b, false);
  }

  /** Giving back what was just taken leaves only the cleared block behind. */
  lemma {:induction false} GiveTaken(fs: Fs, b: nat)
    requires Sound(fs) && b < |fs.free| && fs.free[b]
    ensures fs.unused > 0 && b < |fs.disk| && Give(Take(fs, b), b) == PutBlock(fs, b, Zeros())
  {
    TakeSound(fs, b);
    assert fs.free[b := false][b := true] == fs.free;
  }

  /** A block taken and entered into a table. */
  ghost function Entered(fs: Fs, ent: nat, ino: nat, index: nat): Fs
    requires Sound(fs) && ent < |fs.disk| && ino < |fs.free| && fs.free[ino] && fs.unused > 0 && index < NENTRY
  {
    PutBlock(Take(fs, ino), ent, PutWord(Take(fs, ino).disk[ent], index, ino))
  }

  /** The word a slot of a table holds; no table, no block. */
  ghost function SlotWord(fs: Fs, ent: nat, index: nat): nat
    requires Shaped(fs) && ent < |fs.disk| && index < NENTRY
  {
    if ent == 0 then 0 else GetWord(fs.disk[ent], index)
  }

  /** Blocks that differ in one part of one block only. */
  lemma {:induction false} SpliceOnly(disk: seq<Block>, to: seq<Block>, b: nat, off: nat, data: seq<Byte>)
    requires |to| == |disk| && b < |disk| && |disk[b]| == |to[b]| == BLKSIZE && off + |data| <= BLKSIZE
    requires forall c {:trigger to[c]} :: 0 <= c < |disk| && c != b ==> to[c] == disk[c]
    requires forall p {:trigger to[b][p]} ::
               0 <= p < BLKSIZE ==> to[b][p] == if off <= p < off + |data| then data[p - off] else disk[b][p]
    ensures to == disk[b := Splice(disk[b], off, data)]
  {
    assert to[b] == Splice(disk[b], off, data);
  }

  lemma {:induction false} WordSplice(b: Block, index: nat, w: nat)
    requires |b| == BLKSIZE && index < NENTRY
    ensures Splice(b, 4 * index, WordBytes(w)) == PutWord(b, index, w)
  {
  }

  /** Whether the next block of a file needs a table first. */
  ghost predicate NeedsTable(fs: Fs, f: nat)
    requires f in fs.files
  {
    fs.files[f].blocks >= NDIRECT && fs.files[f].indirect == 0
  }

  ghost predicate Enough(fs: Fs, f: nat)
    requires f in fs.files
  {
    fs.unused > if NeedsTable(fs, f) then 1 else 0
  }

  /** One block more, and if need be a table. */
  ghost function Appended(fs: Fs, own: Owners, f: nat): (r: Fs)
    requires Ok(fs, own) && f in fs.files && fs.files[f].blocks < TIERS && Enough(fs, f)
  {
    AppendReady(fs, own, f);
    if NeedsTable(fs, f) then
      var t := AddTable(fs, f, First(fs.free));
      AddBlock(t, f, First(t.free))
    else AddBlock(fs, f, First(fs.free))
  }

  /** The number of the block it gets. */
  ghost function NewBlock(fs: Fs, f: nat): nat
    requires f in fs.files
  {
    var e := First(fs.free);
    if NeedsTable(fs, f) && e < |fs.free| then First(fs.free[e := false]) else e
  }

  ghost function AppendedOwners(fs: Fs, own: Owners, f: nat): (r: Owners)
    requires f in fs.files
  {
    var n, e := fs.files[f].blocks, First(fs.free);
    if NeedsTable(fs, f) then own[e := Table(f)][NewBlock(fs, f) := Data(f, n)] else own[e := Data(f, n)]
  }

  /** The file has a block of zeros more at its end; nothing else is seen. */
  lemma {:induction false} AppendedView(fs: Fs, own: Owners, f: nat)
    requires Ok(fs, own) && f in fs.files && fs.files[f].blocks < TIERS && Enough(fs, f)
    ensures Has(fs, f) && Ok(Appended(fs, own, f), AppendedOwners(fs, own, f))
    ensures var r := Appended(fs, own, f);
            && Others(fs, r, f) && Has(r, f) && Blocks(r, f) == Blocks(fs, f) + [Zeros()]
            && r.files[f].size == fs.files[f].size && r.files[f].blocks == fs.files[f].blocks + 1
            && r.unused == fs.unused - (if NeedsTable(fs, f) then 2 else 1)
            && (r.files[f].indirect == 0 <==> fs.files[f].indirect == 0 && !NeedsTable(fs, f))
  {
    AppendReady(fs, own, f);
    OkHas(fs, own, f);
    var r := Appended(fs, own, f);
    if NeedsTable(fs, f) {
      var e := First(fs.free);
      var t, own2 := AddTable(fs, f, e), own[e := Table(f)];
      AddTableOk(fs, own, f, e);
      AddTableView(fs, own, f, e);
      AddBlockOk(t, own2, f, First(t.free));
      AddBlockView(t, own2, f, First(t.free));
      OthersTrans(fs, t, r, f);
    } else {
      AddBlockOk(fs, own, f, First(fs.free));
      AddBlockView(fs, own, f, First(fs.free));
    }
  }

  lemma {:induction false} AppendReady(fs: Fs, own: Owners, f: nat)
    requires Ok(fs, own) && f in fs.files && fs.files[f].blocks < TIERS && Enough(fs, f)
    ensures FileOk(fs, own, f, fs.files[f])
    ensures var e := First(fs.free);
            e < |fs.free| && e < |fs.disk| && fs.free[e] && e != 0 && e !in own && fs.unused > 0
    ensures NeedsTable(fs, f) ==> fs.files[f].blocks == NDIRECT
    ensures NeedsTable(fs, f) ==>
              var t := AddTable(fs, f, First(fs.free)); var b := First(t.free);
              Shaped(t) && DinShaped(t, t.files[f]) && b < |t.free| && b < |t.disk| && t.free[b] && t.unused > 0
              && Roomy(t, own[First(fs.free) := Table(f)], f)
    ensures !NeedsTable(fs, f) ==> Roomy(fs, own, f)
  {
    assert FileOk(fs, own, f, fs.files[f]);
    FirstExists(fs.free);
    Takeable(fs, own, First(fs.free));
    if NeedsTable(fs, f) {
      assert SlotOk(fs, own, f, fs.files[f], NDIRECT);
      var e := First(fs.free);
      AddTableOk(fs, own, f, e);
      var t := AddTable(fs, f, e);
      assert FileOk(t, own[e := Table(f)], f, t.files[f]);
      FirstExists(t.free);
      Takeable(t, own[e := Table(f)], First(t.free));
    }
  }

  lemma {:induction false} GetReady(fs: Fs, own: Owners, f: nat, index: nat)
    requires Ok(fs, own) && f in fs.files && index < TIERS
    ensures Sound(fs) && Has(fs, f) && (fs.files[f].indirect != 0 ==> !fs.free[fs.files[f].indirect])
    ensures index >= fs.files[f].blocks ==> Bmap(fs, fs.files[f], index) == 0
  {
    OkSound(fs, own);
    OkHas(fs, own, f);
    assert FileOk(fs, own, f, fs.files[f]);
    assert SlotOk(fs, own, f, fs.files[f], index);
    assert FreeOk(fs, own, fs.files[f].indirect);
  }

  /** What is written where by an append. */
  lemma {:induction false} AppendedForm(fs: Fs, own: Owners, f: nat)
    requires Ok(fs, own) && f in fs.files && fs.files[f].blocks < TIERS && Enough(fs, f)
    requires Sound(fs) && DinShaped(fs, fs.files[f]) && First(fs.free) < |fs.free| && fs.unused > 0
    ensures var r, d, b := Appended(fs, own, f), fs.files[f], First(fs.free); var n := d.blocks;
            if n < NDIRECT then
              r == Take(fs, b).(files := fs.files[f := d.(direct := d.direct[n := b], blocks := n + 1)])
            else if d.indirect != 0 then
              r == Entered(fs, d.indirect, b, n - NDIRECT).(files := fs.files[f := d.(blocks := n + 1)])
            else
              var t := Take(fs, b);
              && Sound(t) && NewBlock(fs, f) < |t.free| && t.free[NewBlock(fs, f)] && t.unused > 0
              && var e := Entered(t, b, NewBlock(fs, f), n - NDIRECT);
                 r == e.(files := fs.files[f := d.(indirect := b, blocks := n + 1)])
  {
    AppendReady(fs, own, f);
    TakeSound(fs, First(fs.free));
  }

  class Sfs {
    var disk: seq<Block>
    var free: seq<bool>
    var unused: nat
    var files: map<nat, Din>
    ghost var own: Owners

    ghost function State(): Fs
      reads this
    {
      Fs(disk, free, unused, files)
    }

    /** Mounting a consistent disk. */
    constructor (disk: seq<Block>, free: seq<bool>, unused: nat, files: map<nat, Din>, ghost own: Owners)
      requires Ok(Fs(disk, free, unused, files), own)
      ensures State() == Fs(disk, free, unused, files) && this.own == own && Ok(State(), own)
    {
      this.disk, this.free, this.unused, this.files, this.own := disk, free, unused, files, own;
    }

    // ---------------------------------------------------------------------- blocks

    /** sfs_block_alloc: the first free block, cleared. */
    method BlockAlloc() returns (ret: int, b: nat)
      requires Sound(State())
      modifies this`disk, this`free, this`unused
      ensures ret == 0 <==> old(unused) > 0
      ensures ret == 0 ==>
                && b == First(old(free))
                && b < |old(free)|
                && old(free)[b]
                && 0 < b < |old(disk)|
                && State() == Take(old(State()), b)
      ensures ret != 0 ==> ret == -E_NO_MEM && State() == old(State())
    {
      FirstExists(free);
      b := First(free);
      if b == |free| {
        return -E_NO_MEM, b;
      }
      free := free[b := false];
      assert unused > 0;
      unused := unused - 1;
      disk := disk[b := Zeros()];
      ret := 0;
    }

    /** sfs_block_free. */
    method BlockFree(b: nat)
      requires b < |free| && !free[b]
      modifies this`free, this`unused
      ensures State() == Give(old(State()), b)
    {
      free := free[b := true];
      unused := unused + 1;
    }

    /** sfs_wbuf: reads the block, changes a part, writes it. */
    method Wbuf(data: seq<Byte>, b: nat, off: nat)
      requires 0 < b < |disk| && |disk[b]| == BLKSIZE && off < BLKSIZE && off + |data| <= BLKSIZE
      modifies this`disk
      ensures |disk| == |old(disk)| && |disk[b]| == BLKSIZE
      ensures forall c {:trigger disk[c]} :: 0 <= c < |disk| && c != b ==> disk[c] == old(disk)[c]
      ensures forall p {:trigger disk[b][p]} ::
                0 <= p < BLKSIZE ==> disk[b][p] == if off <= p < off + |data| then data[p - off] else old(disk)[b][p]
    {
      var buffer := disk[b];
      buffer := Splice(buffer, off, data);
      disk := disk[b := buffer];
    }

    /** sfs_rbuf. */
    method Rbuf(len: nat, b: nat, off: nat) returns (data: seq<Byte>)
      requires 0 < b < |disk| && |disk[b]| == BLKSIZE && off < BLKSIZE && off + len <= BLKSIZE
      ensures data == disk[b][off..off + len]
    {
      var buffer := disk[b];
      data := buffer[off..off + len];
    }

    // ------------------------------------------------------------------- block maps

    /** sfs_bmap_get_sub_nolock: the block in a slot of the table `entp`. With `create`,
        a missing block is taken, and before it a missing table; if there is space for the
        table only, it is given back. */
    method GetSub(entp: nat, index: nat, create: bool) returns (ret: int, ent: nat, ino: nat)
      requires Sound(State()) && index < NENTRY && entp < |disk| && (entp != 0 ==> !free[entp])
      modifies this`disk, this`free, this`unused
      ensures !create || SlotWord(old(State()), entp, index) != 0 ==>
                ret == 0 && State() == old(State()) && ent == entp && ino == SlotWord(State(), entp, index)
      ensures create && SlotWord(old(State()), entp, index) == 0 ==>
                (ret == 0 <==> old(unused) > (if entp == 0 then 1 else 0))
      ensures ret != 0 ==>
                && ret == -E_NO_MEM
                && (State() == old(State())
                    || (entp == 0 && First(old(free)) < |old(free)| && First(old(free)) < |old(disk)|
                        && State() == PutBlock(old(State()), First(old(free)), Zeros())))
      ensures ret == 0 && create && SlotWord(old(State()), entp, index) == 0 && entp != 0 ==>
                && ent == entp && ino == First(old(free)) && ino < |old(free)| && old(free)[ino] && old(unused) > 0
                && State() == Entered(old(State()), ent, ino, index)
      ensures ret == 0 && create && entp == 0 ==>
                && ent == First(old(free)) && 0 < ent < |old(disk)| && old(free)[ent] && old(unused) > 1
                && Sound(Take(old(State()), ent))
                && ino == First(old(free)[ent := false]) && ino < |old(free)| && old(free)[ent := false][ino]
                && State() == Entered(Take(old(State()), ent), ent, ino, index)
    {
      ghost var s0 := State();
      ret, ent, ino := 0, entp, 0;
      if ent != 0 {
        var word := Rbuf(4, ent, 4 * index);
        ino := BytesWord(word);
        if ino != 0 || !create {
          return;
        }
      } else {
        if !create {
          return;
        }
        ret, ent := BlockAlloc();
        if ret != 0 {
          return;
        }
        TakeSound(s0, ent);
      }
      ghost var s1 := State();
      ret, ino := BlockAlloc();
      if ret != 0 {
        if ent != entp {
          BlockFree(ent);
          GiveTaken(s0, ent);
        }
        return;
      }
      TakeSound(s1, ino);
      ghost var was := disk;
      Wbuf(WordBytes(ino), ent, 4 * index);
      SpliceOnly(was, disk, ent, 4 * index, WordBytes(ino));
      WordSplice(Take(s1, ino).disk[ent], index, ino);
    }

    /** The direct tier of sfs_bmap_get_nolock. */
    method GetDirect(f: nat, index: nat, create: bool) returns (ret: int, ino: nat)
      requires Sound(State()) && f in files && index < NDIRECT && |files[f].direct| == NDIRECT
      modifies this`disk, this`free, this`unused, this`files
      ensures !create || old(files)[f].direct[index] != 0 ==>
                ret == 0 && State() == old(State()) && ino == old(files)[f].direct[index]
      ensures create && old(files)[f].direct[index] == 0 ==> (ret == 0 <==> old(unused) > 0)
      ensures create && old(files)[f].direct[index] == 0 && ret == 0 ==>
                var d := old(files)[f];
                && ino == First(old(free)) && 0 < ino < |old(disk)| && old(unused) > 0
                && State() == Take(old(State()), ino).(files := old(files)[f := d.(direct := d.direct[index := ino])])
      ensures ret != 0 ==> ret == -E_NO_MEM && State() == old(State())
    {
      ret, ino := 0, files[f].direct[index];
      if ino == 0 && create {
        ret, ino := BlockAlloc();
        if ret != 0 {
          return;
        }
        files := files[f := files[f].(direct := files[f].direct[index := ino])];
      }
    }

    /** The indirect tier of sfs_bmap_get_nolock. */
    method GetIndirect(f: nat, index: nat, create: bool) returns (ret: int, ino: nat)
      requires Sound(State()) && f in files && index < NENTRY && files[f].indirect < |disk|
      requires (files[f].indirect != 0 ==> !free[files[f].indirect])
      requires create ==> SlotWord(State(), files[f].indirect, index) == 0
      modifies this`disk, this`free, this`unused, this`files
      ensures !create ==> ret == 0 && State() == old(State()) && ino == SlotWord(State(), old(files)[f].indirect, index)
      ensures create ==> (ret == 0 <==> old(unused) > (if old(files)[f].indirect == 0 then 1 else 0))
      ensures ret != 0 ==>
                && ret == -E_NO_MEM
                && (State() == old(State())
                    || (First(old(free)) < |old(free)| && First(old(free)) < |old(disk)|
                        && State() == PutBlock(old(State()), First(old(free)), Zeros())))
      ensures create && ret == 0 && old(files)[f].indirect != 0 ==>
                && ino == First(old(free)) && ino < |old(free)| && old(free)[ino] && old(unused) > 0
                && State() == Entered(old(State()), old(files)[f].indirect, ino, index)
      ensures create && ret == 0 && old(files)[f].indirect == 0 ==>
                var ent := First(old(free));
                && 0 < ent < |old(disk)| && old(free)[ent] && old(unused) > 1
                && Sound(Take(old(State()), ent))
                && ino == First(old(free)[ent := false]) && ino < |old(free)| && old(free)[ent := false][ino]
                && var e := Entered(Take(old(State()), ent), ent, ino, index);
                   State() == e.(files := old(files)[f := old(files)[f].(indirect := ent)])
    {
      var ent;
      ret, ent, ino := GetSub(files[f].indirect, index, create);
      if ret != 0 {
        return;
      }
      if ent != files[f].indirect {
        files := files[f := files[f].(indirect := ent)];
      }
    }

    /** sfs_bmap_get_nolock. `create` asks for the block behind the last one. */
    method BmapGet(f: nat, index: nat, create: bool) returns (ret: int, ino: nat)
      requires Ok(State(), own) && f in files && index < TIERS
      requires create ==> index == files[f].blocks
      modifies this`disk, this`free, this`unused, this`files
      ensures !create ==>
                ret == 0 && State() == old(State()) && Has(State(), f) && ino == Bmap(State(), files[f], index)
      ensures create ==> (ret == 0 <==> Enough(old(State()), f))
      ensures create && ret == 0 ==>
                && f in files
                && State().(files := files[f := files[f].(blocks := files[f].blocks + 1)]) ==
                     Appended(old(State()), own, f)
                && ino == NewBlock(old(State()), f)
      ensures create && ret != 0 ==>
                && ret == -E_NO_MEM
                && (State() == old(State())
                    || (First(old(free)) < |old(free)| && First(old(free)) < |old(disk)|
                        && State() == PutBlock(old(State()), First(old(free)), Zeros())))
    {
      ghost var s0 := State();
      GetReady(s0, own, f, index);
      if create && Enough(s0, f) {
        AppendReady(s0, own, f);
        AppendedForm(s0, own, f);
      }
      if index < NDIRECT {
        ret, ino := GetDirect(f, index, create);
      } else {
        ret, ino := GetIndirect(f, index - NDIRECT, create);
      }
    }

    /** sfs_bmap_load_nolock: the number of a block, taking a new one right behind the end. */
    method BmapLoad(f: nat, index: nat) returns (ret: int, ino: nat)
      requires Ok(State(), own) && f in files && index < TIERS && index <= files[f].blocks
      modifies this
      ensures Ok(State(), own) && Others(old(State()), State(), f) && Has(old(State()), f) && Has(State(), f)
      ensures index < old(files)[f].blocks ==> ret == 0 && State() == old(State()) && own == old(own)
      ensures index == old(files)[f].blocks ==> (ret == 0 <==> Enough(old(State()), f))
      ensures index == old(files)[f].blocks && ret == 0 ==>
                && Blocks(State(), f) == Blocks(old(State()), f) + [Zeros()]
                && files[f].size == old(files)[f].size && files[f].blocks == index + 1
                && unused == old(unused) - (if NeedsTable(old(State()), f) then 2 else 1)
                && (files[f].indirect == 0 <==> old(files)[f].indirect == 0 && !NeedsTable(old(State()), f))
      ensures ret == 0 ==> index < files[f].blocks && ino == Bmap(State(), files[f], index)
      ensures ret != 0 ==>
                ret == -E_NO_MEM && Kept(old(State()), State(), f) && unused == old(unused) && own == old(own)
    {
      ghost var s0 := State();
      OkHas(s0, own, f);
      var create := index == files[f].blocks;
      if create && Enough(s0, f) {
        AppendedView(s0, own, f);
      }
      ret, ino := BmapGet(f, index, create);
      if ret != 0 {
        Unseen(s0, own, State(), f);
        return;
      }
      if create {
        files := files[f := files[f].(blocks := files[f].blocks + 1)];
        own := AppendedOwners(s0, own, f);
        AppendedLast(s0, old(own), f);
      } else {
        Unseen(s0, own, State(), f);
      }
    }

    /** sfs_bmap_truncate_nolock: the last block goes. */
    method BmapTruncate(f: nat)
      requires Ok(State(), own) && f in files && files[f].blocks > 0
      modifies this
      ensures Ok(State(), own) && Others(old(State()), State(), f) && Has(old(State()), f) && Has(State(), f)
      ensures Blocks(State(), f) == Blocks(old(State()), f)[..old(files)[f].blocks - 1]
      ensures files[f].size == old(files)[f].size && files[f].blocks == old(files)[f].blocks - 1
      ensures unused == old(unused) + 1
    {
      ghost var s0 := State();
      LastBlock(s0, own, f);
      DropBlockOk(s0, own, f);
      DropBlockView(s0, own, f);
      var index := files[f].blocks - 1;
      own := own - {Bmap(s0, files[f], index)};
      if index < NDIRECT {
        var ino := files[f].direct[index];
        if ino != 0 {
          BlockFree(ino);
          files := files[f := files[f].(direct := files[f].direct[index := 0])];
        }
      } else {
        var ent := files[f].indirect;
        if ent != 0 {
          FreeSub(ent, index - NDIRECT);
        }
      }
      files := files[f := files[f].(blocks := files[f].blocks - 1)];
      assert State() == DropBlock(s0, f);
    }

    /** sfs_bmap_free_sub_nolock. */
    method FreeSub(ent: nat, index: nat)
      requires Shaped(State()) && 0 < ent < |disk| && index < NENTRY
      requires var b := GetWord(disk[ent], index); b != 0 ==> b < |free| && !free[b]
      modifies this`disk, this`free, this`unused
      ensures var b := GetWord(old(disk)[ent], index);
              if b == 0 then State() == old(State())
              else State() == Give(PutBlock(old(State()), ent, PutWord(old(disk)[ent], index, 0)), b)
    {
      var word := Rbuf(4, ent, 4 * index);
      var ino := BytesWord(word);
      if ino != 0 {
        WordSplice(disk[ent], index, 0);
        ghost var was := disk;
        Wbuf(WordBytes(0), ent, 4 * index);
        SpliceOnly(was, disk, ent, 4 * index, WordBytes(0));
        BlockFree(ino);
      }
    }

    // ------------------------------------------------------------- input and output

    /** One piece of sfs_io_nolock: finds or makes the block, and reads or writes in it. */
    method Transfer(f: nat, blkno: nat, off: nat, size: nat, write: bool, data: seq<Byte>)
      returns (ret: int, got: seq<Byte>)
      requires Ok(State(), own) && f in files && blkno < TIERS && blkno <= files[f].blocks
      requires off < BLKSIZE && off + size <= BLKSIZE && (write ==> |data| == size)
      modifies this
      ensures Ok(State(), own) && f in files && (!write && blkno < old(files)[f].blocks ==> State() == old(State()))
      ensures blkno < old(files)[f].blocks ==> unused == old(unused) && files[f] == old(files)[f]
      ensures ret == 0 <==> blkno < old(files)[f].blocks || Enough(old(State()), f)
      ensures ret == 0 ==>
                |got| == size && (write ==> got == data) && Piece(old(State()), State(), f, write, blkno, off, got)
      ensures ret != 0 ==>
                && ret == -E_NO_MEM
                && Others(old(State()), State(), f)
                && Kept(old(State()), State(), f)
                && unused == old(unused)
    {
      ghost var s0 := State();
      OkHas(s0, own, f);
      var ino;
      ret, ino := BmapLoad(f, blkno);
      if ret != 0 {
        got := [];
        return;
      }
      ghost var s1 := State();
      OkHas(s1, own, f);
      LoadRaw(s0, s1, f, blkno);
      BlockBytes(s1, own, f, blkno, off, size);
      if write {
        PieceWritten(s1, own, f, blkno, off, data);
        Wbuf(data, ino, off);
        SpliceOnly(s1.disk, disk, ino, off, data);
        got := data;
        WritePiece(s0, s1, State(), f, blkno, off, data);
      } else {
        Unseen(s1, own, s1, f);
        got := Rbuf(size, ino, off);
      }
    }

    /** One piece more of an operation that began in state `s0`. */
    method More(ghost s0: Fs, f: nat, blkno: nat, off: nat, size: nat, write: bool, data: seq<Byte>, offset: nat,
        done: seq<Byte>)
      returns (ret: int, got: seq<Byte>)
      requires Ok(State(), own) && f in files && blkno < TIERS && blkno <= files[f].blocks
      requires 0 < size && off < BLKSIZE && off + size <= BLKSIZE
      requires write ==> |done| + size <= |data| && done == data[..|done|]
      requires Progress(s0, State(), f, write, offset, done) && blkno * BLKSIZE + off == offset + |done|
      modifies this
      ensures Ok(State(), own) && f in files && Progress(s0, State(), f, write, offset, got)
      ensures write ==> |got| <= |data| && got == data[..|got|]
      ensures ret == 0 <==> blkno < old(files)[f].blocks || Enough(old(State()), f)
      ensures ret == 0 ==> |got| == |done| + size && files[f].blocks == Max(old(files)[f].blocks, blkno + 1)
      ensures ret != 0 ==>
                && ret == -E_NO_MEM
                && got == done
                && !Enough(State(), f)
                && files[f].blocks == old(files)[f].blocks == blkno
      ensures !write && blkno < old(files)[f].blocks ==> State() == old(State())
      ensures Took(old(State()), State(), f, blkno + 1)
    {
      ghost var s1 := State();
      var chunk := if write then data[|done|..|done| + size] else [];
      ghost var more := done + chunk;
      if write {
        PrefixMore(data, |done|, size);
      }
      assert write ==> more == data[..|more|];
      ret, got := Transfer(f, blkno, off, size, write, chunk);
      if ret == 0 {
        ProgressStep(s0, s1, State(), f, write, offset, done, blkno, off, got);
        got := done + got;
      } else {
        got := done;
        ProgressKept(s0, s1, State(), f, write, offset, done);
      }
    }

    /** The whole blocks in the middle of sfs_io_nolock. */
    method WholeBlocks(ghost s0: Fs, f: nat, write: bool, data: seq<Byte>, offset: nat, first: nat, count: nat,
        done: seq<Byte>)
      returns (ret: int, got: seq<Byte>)
      requires Ok(State(), own) && f in files && first + count <= TIERS && first <= files[f].blocks
      requires Progress(s0, State(), f, write, offset, done) && first * BLKSIZE == offset + |done|
      requires write ==> |done| + count * BLKSIZE <= |data| && done == data[..|done|]
      modifies this
      ensures Ok(State(), own) && f in files && Progress(s0, State(), f, write, offset, got)
      ensures write ==> |got| <= |data| && got == data[..|got|]
      ensures ret == 0 ==> |got| == |done| + count * BLKSIZE && first + count <= files[f].blocks
      ensures ret != 0 ==> ret == -E_NO_MEM && !Enough(State(), f)
                           && |got| < |done| + count * BLKSIZE && files[f].blocks * BLKSIZE == offset + |got|
      ensures !write && first + count <= old(files)[f].blocks ==> State() == old(State())
      ensures Took(old(State()), State(), f, first + count)
      ensures |got| >= |done|
    {
      ret, got := 0, done;
      ghost var s1 := State();
      var blkno, nblks := first, count;
      while nblks != 0
        invariant 0 <= nblks && blkno + nblks == first + count && blkno * BLKSIZE == offset + |got|
        invariant Ok(State(), own) && f in files && Progress(s0, State(), f, write, offset, got)
        invariant blkno <= files[f].blocks
        invariant write ==> |got| <= |data| && got == data[..|got|]
        invariant !write && blkno <= old(files)[f].blocks ==> State() == old(State())
        invariant Took(s1, State(), f, blkno) && ret == 0 && |got| >= |done|
      {
        ghost var s2 := State();
        ret, got := More(s0, f, blkno, 0, BLKSIZE, write, data, offset, got);
        TookMore(s1, s2, State(), f, blkno, blkno + 1, first + count);
        if ret != 0 {
          return;
        }
        blkno, nblks := blkno + 1, nblks - 1;
      }
    }

    /** The piece of the last block, when the range ends inside it. */
    method LastPiece(ghost s0: Fs, f: nat, write: bool, data: seq<Byte>, offset: nat, endpos: nat, blkno: nat,
        done: seq<Byte>)
      returns (ret: int, got: seq<Byte>)
      requires Ok(State(), own) && f in files && endpos <= TIERS * BLKSIZE
      requires blkno == endpos / BLKSIZE <= files[f].blocks
      requires Progress(s0, State(), f, write, offset, done) && blkno * BLKSIZE == offset + |done|
      requires write ==> endpos - offset <= |data| && done == data[..|done|]
      modifies this
      ensures Ok(State(), own) && f in files && Progress(s0, State(), f, write, offset, got)
      ensures write ==> |got| <= |data| && got == data[..|got|]
      ensures ret == 0 <==> endpos % BLKSIZE == 0 || blkno < old(files)[f].blocks || Enough(old(State()), f)
      ensures ret == 0 ==> |got| == endpos - offset
      ensures ret != 0 ==>
                && ret == -E_NO_MEM
                && got == done
                && !Enough(State(), f)
                && files[f].blocks == old(files)[f].blocks == blkno
      ensures !write && endpos <= BLKSIZE * old(files)[f].blocks ==> State() == old(State())
      ensures Took(old(State()), State(), f, Ceil(endpos))
    {
      ret, got := 0, done;
      var size := endpos % BLKSIZE;
      if size != 0 {
        ret, got := More(s0, f, blkno, 0, size, write, data, offset, done);
      }
    }

    /** From a block boundary on: whole blocks and a piece of the last one. */
    method FromBoundary(ghost s0: Fs, f: nat, write: bool, data: seq<Byte>, offset: nat, endpos: nat, first: nat,
        done: seq<Byte>)
      returns (ret: int, got: seq<Byte>)
      requires Ok(State(), own) && f in files && offset < endpos <= TIERS * BLKSIZE && first <= files[f].blocks
      requires Progress(s0, State(), f, write, offset, done) && first * BLKSIZE == offset + |done| <= endpos
      requires write ==> endpos - offset <= |data| && done == data[..|done|]
      modifies this
      ensures Ok(State(), own) && f in files && Progress(s0, State(), f, write, offset, got)
      ensures |got| <= endpos - offset && (write ==> got == data[..|got|])
      ensures ret == 0 ==> |got| == endpos - offset
      ensures ret != 0 ==>
                && ret == -E_NO_MEM
                && |got| < endpos - offset
                && !Enough(State(), f)
                && files[f].blocks * BLKSIZE == offset + |got|
      ensures !write && endpos <= BLKSIZE * old(files)[f].blocks ==> State() == old(State())
      ensures Took(old(State()), State(), f, Ceil(endpos))
      ensures |got| >= |done|
    {
      var nblks := endpos / BLKSIZE - first;
      ghost var s1 := State();
      ret, got := WholeBlocks(s0, f, write, data, offset, first, nblks, done);
      ghost var s2 := State();
      TookMore(s1, s2, s2, f, first + nblks, first + nblks, Ceil(endpos));
      if ret != 0 {
        return;
      }
      ret, got := LastPiece(s0, f, write, data, offset, endpos, first + nblks, got);
      TookMore(s1, s2, State(), f, first + nblks, Ceil(endpos), Ceil(endpos));
    }

    /** The block part of sfs_io_nolock: a piece of the first block comes before the rest. */
    method IoBlocks(f: nat, write: bool, data: seq<Byte>, offset: nat, endpos: nat) returns (ret: int, got: seq<Byte>)
      requires Ok(State(), own) && f in files
      requires offset < endpos <= TIERS * BLKSIZE && offset / BLKSIZE <= files[f].blocks
      requires write ==> endpos - offset <= |data|
      modifies this
      ensures Ok(State(), own) && f in files && Progress(old(State()), State(), f, write, offset, got)
      ensures |got| <= endpos - offset && (write ==> got == data[..|got|])
      ensures ret == 0 ==> |got| == endpos - offset
      ensures ret != 0 ==> ret == -E_NO_MEM && |got| < endpos - offset && !Enough(State(), f)
      ensures ret != 0 ==>
                && files[f].blocks == (offset + |got|) / BLKSIZE
                && (got != [] ==> files[f].blocks * BLKSIZE == offset + |got|)
      ensures !write && endpos <= BLKSIZE * old(files)[f].blocks ==> State() == old(State())
      ensures Took(old(State()), State(), f, Ceil(endpos))
      ensures |got| > 0 <==> offset / BLKSIZE < old(files)[f].blocks || Enough(old(State()), f)
    {
      ghost var s0 := State();
      ProgressNone(s0, own, f, write, offset);
      got := [];
      var blkno := offset / BLKSIZE;
      if offset % BLKSIZE != 0 {
        var nblks := endpos / BLKSIZE - blkno;
        ret, got := FirstPiece(s0, f, write, data, offset, endpos);
        TookMore(s0, State(), State(), f, blkno + 1, blkno + 1, Ceil(endpos));
        if ret != 0 || nblks == 0 {
          return;
        }
        blkno := blkno + 1;
      }
      ghost var s1 := State();
      ret, got := FromBoundary(s0, f, write, data, offset, endpos, blkno, got);
      TookMore(s0, s1, State(), f, blkno, Ceil(endpos), Ceil(endpos));
    }

    /** The piece of the first block, when the range begins inside it. */
    method FirstPiece(ghost s0: Fs, f: nat, write: bool, data: seq<Byte>, offset: nat, endpos: nat)
      returns (ret: int, got: seq<Byte>)
      requires Ok(State(), own) && f in files && Progress(s0, State(), f, write, offset, [])
      requires offset < endpos <= TIERS * BLKSIZE && offset / BLKSIZE <= files[f].blocks && offset % BLKSIZE != 0
      requires write ==> endpos - offset <= |data|
      modifies this
      ensures Ok(State(), own) && f in files && Progress(s0, State(), f, write, offset, got)
      ensures !write && offset / BLKSIZE < old(files)[f].blocks ==> State() == old(State())
      ensures Took(old(State()), State(), f, offset / BLKSIZE + 1)
      ensures files[f].blocks ==
                if ret == 0 then Max(old(files)[f].blocks, offset / BLKSIZE + 1) else old(files)[f].blocks
      ensures write ==> |got| <= |data| && got == data[..|got|]
      ensures ret == 0 <==> offset / BLKSIZE < old(files)[f].blocks || Enough(old(State()), f)
      ensures ret == 0 ==>
                offset / BLKSIZE < files[f].blocks && |got| == Min((offset / BLKSIZE + 1) * BLKSIZE, endpos) - offset
      ensures ret != 0 ==> ret == -E_NO_MEM && got == [] && !Enough(State(), f) && files[f].blocks == offset / BLKSIZE
    {
      var blkno := offset / BLKSIZE;
      var blkoff := offset % BLKSIZE;
      var size := if endpos / BLKSIZE != blkno then BLKSIZE - blkoff else endpos - offset;
      ret, got := More(s0, f, blkno, blkoff, size, write, data, offset, []);
    }

    /** The transfer and, after it, the size in the inode. */
    method IoRange(f: nat, write: bool, data: seq<Byte>, offset: nat, endpos: nat) returns (ret: int, got: seq<Byte>)
      requires Ok(State(), own) && Nearly(State(), f) && offset < endpos && offset / BLKSIZE <= files[f].blocks
      requires if write then endpos - offset <= |data| && endpos <= TIERS * BLKSIZE else endpos <= files[f].size
      modifies this
      ensures Ok(State(), own) && Others(old(State()), State(), f) && Has(old(State()), f) && Has(State(), f)
      ensures |got| <= endpos - offset && (write ==> got == data[..|got|])
      ensures write ==> Stored(old(State()), State(), f, offset, got)
      ensures !write ==> Fetched(old(State()), State(), f, offset, endpos, ret == 0, got)
      ensures !write && endpos <= BLKSIZE * old(files)[f].blocks ==> State() == old(State())
      ensures Nearly(State(), f) && (Covered(State(), f) <==> Covers(old(State()), f, offset, endpos))
      ensures ret == 0 <==> |got| == endpos - offset
      ensures ret != 0 ==> ret == -E_NO_MEM && !Enough(State(), f)
    {
      ghost var s0 := State();
      CeilMax(files[f].size, 0);
      ret, got := IoBlocks(f, write, data, offset, endpos);
      ghost var s1 := State();
      if offset + |got| > files[f].size {
        files := files[f := files[f].(size := offset + |got|)];
      }
      assert State() == Resized(s1, f, Max(s1.files[f].size, offset + |got|));
      RangeDone(s0, s1, State(), own, f, write, offset, endpos, ret == 0, got);
    }

    /** The checks at the start of sfs_io_nolock, and how far the transfer goes. */
    method Range(f: nat, write: bool, offset: int, len: nat) returns (ok: bool, endpos: int)
      requires f in files && -0x8000_0000 <= offset < 0x8000_0000 && len < WORDS
      ensures ok <==> Accepted(offset, len)
      ensures ok ==> endpos == Last(State(), f, write, offset, len)
    {
      endpos := Signed(offset + len);
      EndExact(offset, len);
      if offset < 0 || offset >= MAX_FILE_SIZE || offset > endpos {
        return false, offset;
      }
      if offset == endpos {
        return true, offset;
      }
      if endpos > MAX_FILE_SIZE {
        endpos := MAX_FILE_SIZE;
      }
      if !write {
        if offset >= files[f].size {
          return true, offset;
        }
        if endpos > files[f].size {
          endpos := files[f].size;
        }
      }
      ok := true;
    }

    /** sfs_io_nolock once it is known how far the transfer goes. */
    method IoUpTo(f: nat, write: bool, data: seq<Byte>, offset: nat, endpos: nat) returns (r: Ret, got: seq<Byte>)
      requires Ok(State(), own) && Nearly(State(), f) && offset < endpos
      requires if write then endpos - offset <= |data| && endpos <= TIERS * BLKSIZE else endpos <= files[f].size
      modifies this
      ensures Ok(State(), own) && Others(old(State()), State(), f) && Has(old(State()), f) && Has(State(), f)
      ensures Nearly(State(), f)
      ensures r != Invalid && (r == Fails <==> write && offset / BLKSIZE > old(files)[f].blocks)
      ensures r == Fails ==> State() == old(State()) && got == []
      ensures r != Fails ==>
                && |got| <= endpos - offset && (r == Done <==> |got| == endpos - offset)
                && (Covered(State(), f) <==> Covers(old(State()), f, offset, endpos))
      ensures r != Fails && write ==> Stored(old(State()), State(), f, offset, data[..|got|])
      ensures r != Fails && !write ==>
                && Fetched(old(State()), State(), f, offset, endpos, r == Done, got)
                && (endpos <= BLKSIZE * old(files)[f].blocks ==> State() == old(State()))
      ensures r == NoSpace ==> !Enough(State(), f)
    {
      if offset / BLKSIZE > files[f].blocks {
        GrownNone(State(), own, f);
        return Fails, [];
      }
      var ret;
      ret, got := IoRange(f, write, data, offset, endpos);
      r := if ret == 0 then Done else NoSpace;
    }

    /** sfs_io_nolock. `len` bytes at `offset` are read into `got` or written from `data`;
        `alen` of them are done, fewer than asked for at the end of the file or when no
        block is left. A write that would skip a block trips an assertion. A read may come to
        a block the file lacks: it is taken and holds zeros. */
    method Io(f: nat, write: bool, data: seq<Byte>, offset: int, len: nat) returns (r: Ret, alen: nat, got: seq<Byte>)
      requires Ok(State(), own) && Nearly(State(), f)
      requires -0x8000_0000 <= offset < 0x8000_0000 && len < WORDS && (write ==> |data| == len)
      requires write && len > 0 && Accepted(offset, len) ==> End(offset, len) <= TIERS * BLKSIZE
      modifies this
      ensures Ok(State(), own) && Others(old(State()), State(), f) && Has(old(State()), f) && Has(State(), f)
      ensures Nearly(State(), f)
      ensures r == Invalid <==> !Accepted(offset, len)
      ensures r == Fails <==> Accepted(offset, len) && write && len > 0 && offset / BLKSIZE > old(files)[f].blocks
      ensures r == Invalid || r == Fails ==> State() == old(State()) && alen == 0
      ensures r == Done || r == NoSpace ==>
                var last := Last(old(State()), f, write, offset, len);
                && alen <= last - offset && (r == Done <==> alen == last - offset)
                && (if offset < last then Covered(State(), f) <==> Covers(old(State()), f, offset, last)
                    else State() == old(State()))
      ensures (r == Done || r == NoSpace) && write && len > 0 ==> Stored(old(State()), State(), f, offset, data[..alen])
      ensures (r == Done || r == NoSpace) && !write ==>
                var last := Last(old(State()), f, write, offset, len);
                && alen == |got| && Fetched(old(State()), State(), f, offset, last, r == Done, got)
                && (last <= BLKSIZE * old(files)[f].blocks ==> State() == old(State()))
      ensures r == NoSpace ==> !Enough(State(), f)
    {
      NearlySelf(State(), own, f, offset);
      var ok, endpos := Range(f, write, offset, len);
      if !ok {
        return Invalid, 0, [];
      }
      if offset == endpos {
        return Done, 0, [];
      }
      r, got := IoUpTo(f, write, data, offset, endpos);
      alen := |got|;
    }

    /** A write inside the file or right behind it, and a read anywhere after it: the read
        gives the bytes written where it meets them, and the old bytes elsewhere. It gives all
        it is asked for if the file had its blocks before. */
    method WriteThenRead(f: nat, data: seq<Byte>, offset: nat, lo: nat, n: nat)
      returns (r: Ret, alen: nat, again: Ret, got: seq<Byte>)
      requires Ok(State(), own) && Nearly(State(), f) && offset <= files[f].size
      requires 0 < |data| && offset + |data| <= TIERS * BLKSIZE && lo + n < MAX_FILE_SIZE
      modifies this
      ensures Ok(State(), own) && Nearly(State(), f) && Others(old(State()), State(), f) && Has(old(State()), f)
      ensures (r == Done || r == NoSpace) && (again == Done || again == NoSpace)
      ensures alen <= |data| && (r == Done <==> alen == |data|)
      ensures files[f].size == Max(old(files)[f].size, offset + alen)
      ensures |got| <= Max(0, Min(lo + n, files[f].size) - lo)
      ensures (again == Done <==> |got| == Max(0, Min(lo + n, files[f].size) - lo))
      ensures Covered(old(State()), f) ==> again == Done && Covered(State(), f)
      ensures forall p {:trigger got[p]} :: 0 <= p < |got| ==>
                (if offset <= lo + p < offset + alen then got[p] == data[lo + p - offset]
                 else lo + p < old(files)[f].size && got[p] == Bytes(old(State()), f)[lo + p])
    {
      ghost var s0 := State();
      CeilMax(files[f].size, 0);
      OkHas(s0, own, f);
      var none;
      r, alen, none := Io(f, true, data, offset, |data|);
      ghost var s1 := State();
      var k;
      again, k, got := Io(f, false, [], lo, n);
      OthersTrans(s0, s1, State(), f);
      ReadStored(s0, s1, State(), f, offset, data, alen, lo, n, again == Done, got);
    }

    // -------------------------------------------------------------------- truncation

    /** The growing loop of sfs_truncfile. */
    method Grow(f: nat, tblks: nat) returns (ret: int)
      requires Ok(State(), own) && f in files && files[f].blocks <= tblks <= TIERS
      modifies this
      ensures Ok(State(), own) && Others(old(State()), State(), f) && Grown(old(State()), State(), f)
      ensures ret == 0 <==> Cost(old(State()), f, tblks) <= old(unused)
      ensures ret == 0 ==> files[f].blocks == tblks
      ensures ret != 0 ==> ret == -E_NO_MEM && files[f].blocks < tblks && Stopped(old(State()), State(), f)
    {
      ghost var s0 := State();
      GrownNone(s0, own, f);
      var nblks := files[f].blocks;
      ret := 0;
      while nblks != tblks
        invariant Ok(State(), own) && Others(s0, State(), f) && Grown(s0, State(), f) && ret == 0
        invariant nblks == files[f].blocks && s0.files[f].blocks <= nblks <= tblks
        invariant unused == s0.unused - Cost(s0, f, nblks)
        invariant files[f].indirect == 0 <==>
                    s0.files[f].indirect == 0 && (nblks <= NDIRECT || nblks == s0.files[f].blocks)
        invariant nblks == s0.files[f].blocks ==> State() == s0
        invariant nblks > s0.files[f].blocks ==> Enough(s0, f)
        decreases tblks - nblks
      {
        ghost var s1 := State();
        var ino;
        ret, ino := BmapLoad(f, nblks);
        OthersTrans(s0, s1, State(), f);
        if ret != 0 {
          GrownKept(s0, s1, State(), f);
          return;
        }
        GrownMore(s0, s1, own, State(), f);
        nblks := nblks + 1;
      }
    }

    /** The shrinking loop of sfs_truncfile. */
    method Shrink(f: nat, tblks: nat)
      requires Ok(State(), own) && f in files && tblks <= files[f].blocks
      modifies this
      ensures Ok(State(), own) && Others(old(State()), State(), f) && Has(old(State()), f) && Has(State(), f)
      ensures files[f].blocks == tblks && files[f].size == old(files)[f].size
      ensures Blocks(State(), f) == Blocks(old(State()), f)[..tblks]
      ensures unused == old(unused) + old(files)[f].blocks - tblks
    {
      ghost var s0 := State();
      OkHas(s0, own, f);
      Unseen(s0, own, s0, f);
      var nblks := files[f].blocks;
      while tblks != nblks
        invariant Ok(State(), own) && Others(s0, State(), f) && Has(State(), f)
        invariant tblks <= nblks == files[f].blocks <= s0.files[f].blocks && files[f].size == s0.files[f].size
        invariant Blocks(State(), f) == Blocks(s0, f)[..nblks] && unused == s0.unused + s0.files[f].blocks - nblks
        decreases nblks
      {
        ghost var s1 := State();
        BmapTruncate(f);
        OthersTrans(s0, s1, State(), f);
        nblks := nblks - 1;
      }
    }

    /** sfs_truncfile. When the blocks run out on the way, those taken so far stay with the
        file but its size does not change. For a file that has not as many blocks as its size
        needs, but more or one less, the current size as the new length trips an assertion. */
    method Truncfile(f: nat, len: int) returns (r: Ret)
      requires Ok(State(), own) && Nearly(State(), f)
      requires 0 <= len <= MAX_FILE_SIZE ==> Ceil(len) <= TIERS
      modifies this
      ensures Ok(State(), own) && Nearly(State(), f) && Others(old(State()), State(), f) && Has(old(State()), f)
      ensures Has(State(), f)
      ensures r == Invalid <==> !(0 <= len <= MAX_FILE_SIZE)
      ensures r == Fails <==> r != Invalid && len == old(files)[f].size && !Even(old(State()), f)
      ensures r == Done <==> r != Invalid && r != Fails && Fits(old(State()), f, Ceil(len))
      ensures r == Invalid || r == Fails ==> State() == old(State())
      ensures r == Done ==>
                && files[f].size == len && Cut(Raw(old(State()), f), Raw(State(), f), BLKSIZE * Ceil(len))
                && SeenCut(Bytes(old(State()), f), Bytes(State(), f), |Raw(old(State()), f)|)
      ensures r == NoSpace ==>
                && files[f].size == old(files)[f].size && Grown(old(State()), State(), f)
                && Bytes(State(), f) == Bytes(old(State()), f)
                && files[f].blocks < Ceil(len) && !Enough(State(), f)
      ensures r != Invalid ==> (Even(State(), f) <==> r == Done || (r == NoSpace && Stops(old(State()), f)))
      ensures r != Invalid ==>
                (Covered(State(), f) <==>
                   r == Done || Covered(old(State()), f) || (r == NoSpace && Enough(old(State()), f)))
      ensures r != Invalid && Covered(old(State()), f) ==>
                (Even(State(), f) <==> r == Done || (Even(old(State()), f) && !Enough(old(State()), f)))
    {
      ghost var s0 := State();
      GrownNone(s0, own, f);
      CeilMax(files[f].size, 0);
      if len < 0 || len > MAX_FILE_SIZE {
        return Invalid;
      }
      var tblks := Ceil(len);
      if files[f].size == len {
        if tblks != files[f].blocks {
          return Fails;
        }
        return Done;
      }
      var ret := Resize(f, tblks);
      if ret != 0 {
        GrownSeen(s0, State(), f);
        CountsNow(s0, State(), f, len, false);
        return NoSpace;
      }
      ghost var s1 := State();
      files := files[f := files[f].(size := len)];
      OkResized(s1, own, len, f);
      OthersTrans(s0, s1, State(), f);
      CutSeen(s0, State(), f, len);
      CountsNow(s0, State(), f, len, true);
      r := Done;
    }

    /** The two loops of sfs_truncfile. */
    method Resize(f: nat, tblks: nat) returns (ret: int)
      requires Ok(State(), own) && f in files && tblks <= TIERS
      modifies this
      ensures Ok(State(), own) && Others(old(State()), State(), f) && Has(old(State()), f) && Has(State(), f)
      ensures files[f].size == old(files)[f].size
      ensures ret == 0 <==> Fits(old(State()), f, tblks)
      ensures ret == 0 ==> files[f].blocks == tblks && Cut(Raw(old(State()), f), Raw(State(), f), BLKSIZE * tblks)
      ensures ret != 0 ==>
                && ret == -E_NO_MEM
                && Grown(old(State()), State(), f)
                && files[f].blocks < tblks
                && Stopped(old(State()), State(), f)
    {
      ghost var s0 := State();
      GrownNone(s0, own, f);
      ret := 0;
      if files[f].blocks < tblks {
        ret := Grow(f, tblks);
      } else if tblks < files[f].blocks {
        Shrink(f, tblks);
        OkHas(s0, old(own), f);
        FlatPrefix(Blocks(s0, f), tblks);
      }
    }

    /** Growing a file with space for some but not all of the blocks, and then truncating it
        to the size it still has: the second call trips the assertion. */
    method GrowTwice(f: nat, len: nat)
      requires Ok(State(), own) && f in files && Even(State(), f)
      requires Ceil(len) <= TIERS && !Fits(State(), f, Ceil(len)) && Enough(State(), f)
      modifies this
      ensures Ok(State(), own) && f in files && files[f].size == old(files)[f].size
      ensures files[f].blocks > Ceil(files[f].size)
    {
      CeilMax(files[f].size, len);
      CoveredNearly(State(), own, f);
      var first := Truncfile(f, len);
      assert first == NoSpace;
      var second := Truncfile(f, files[f].size);
      assert second == Fails;
    }

    /** A file is emptied while another descriptor has a position in it, as opening it to
        create or truncate it does, and then it is written there: past the first block the
        write trips the assertion that no block is skipped. */
    method WriteAfterTruncation(f: nat, data: seq<Byte>, pos: nat) returns (r: Ret, alen: nat)
      requires Ok(State(), own) && Nearly(State(), f) && files[f].size > 0
      requires 0 < |data| && pos + |data| <= TIERS * BLKSIZE
      modifies this
      ensures Ok(State(), own) && Nearly(State(), f) && Others(old(State()), State(), f)
      ensures r == Fails <==> pos >= BLKSIZE
      ensures r == Fails ==> files[f].size == 0 && files[f].blocks == 0
      ensures r == Done || r == NoSpace ==>
                alen <= |data| && files[f].size == pos + alen && (r == Done <==> alen == |data|)
    {
      ghost var s0 := State();
      var cut := Truncfile(f, 0);
      ghost var s1 := State();
      var none;
      r, alen, none := Io(f, true, data, pos, |data|);
      OthersTrans(s0, s1, State(), f);
    }
  }

  /** sfs_block_alloc with the free map in its words: it takes the block that
      `Sfs.BlockAlloc` takes, in the same cases. */
  method BlockAllocInMap(freemap: Map, disk0: seq<Block>, unused0: nat, ghost files: map<nat, Din>)
    returns (ret: int, b: nat, disk: seq<Block>, unused: nat)
    requires freemap.Valid() && Sound(Fs(disk0, freemap.Bits(), unused0, files))
    modifies freemap.words
    ensures freemap.Valid() && (ret == 0 <==> unused0 > 0)
    ensures ret == 0 ==>
              && b == First(old(freemap.Bits())) && b < |old(freemap.Bits())| && old(freemap.Bits())[b]
              && 0 < b < |disk0|
              && Fs(disk, freemap.Bits(), unused, files) == Take(Fs(disk0, old(freemap.Bits()), unused0, files), b)
    ensures ret != 0 ==> ret == -E_NO_MEM && disk == disk0 && unused == unused0 && freemap.Bits() == old(freemap.Bits())
  {
    ghost var bits := freemap.Bits();
    FirstExists(bits);
    disk, unused := disk0, unused0;
    var ok;
    ok, b := freemap.Alloc();
    if !ok {
      return -E_NO_MEM, b, disk, unused;
    }
    disk, unused, ret := disk[b := Zeros()], unused - 1, 0;
  }

  /** A file of length 0 on a disk with one free block: growing it to two blocks takes that
      block, and the next call fails. */
  method GrowthBreaks() returns (first: Ret, second: Ret, sfs: Sfs)
    ensures first == NoSpace && second == Fails
    ensures fresh(sfs) && Ok(sfs.State(), sfs.own) && 1 in sfs.files && sfs.files[1].size == 0
    ensures sfs.files[1].blocks == 1
  {
    ghost var fs, own := GrowthCanBreak();
    sfs := new Sfs([Zeros(), Zeros(), Zeros()], [false, false, true], 1, map[1 := Din(0, 0, Unset(), 0)], own);
    first := sfs.Truncfile(1, 8192);
    second := sfs.Truncfile(1, sfs.files[1].size);
  }

  /** A disk without a free block, with a file of length 0. */
  lemma {:induction false} FullDisk() returns (fs: Fs, own: Owners)
    ensures fs == Fs([Zeros(), Zeros()], [false, false], 0, map[1 := Din(0, 0, Unset(), 0)])
    ensures Ok(fs, own) && Even(fs, 1) && Nearly(fs, 1) && !Enough(fs, 1)
  {
    var d := Din(0, 0, Unset(), 0);
    fs := Fs([Zeros(), Zeros()], [false, false], 0, map[1 := d]);
    own := map[0 := System, 1 := Node(1)];
    assert [false, false][1..] == [false];
    assert Count([false]) == 0;
    assert forall i {:trigger SlotOk(fs, own, 1, d, i)} :: 0 <= i < TIERS ==> SlotOk(fs, own, 1, d, i);
    assert FileOk(fs, own, 1, d);
    assert UseOk(fs, own, 0) && UseOk(fs, own, 1);
    assert FreeOk(fs, own, 0) && FreeOk(fs, own, 1);
  }

  /** On it a byte written at place 5 finds no block, and yet the file has size 5 from then on.
      The byte before cannot be read, and truncating to the size it has trips an assertion. */
  method WriteBreaks() returns (first: Ret, second: Ret, third: Ret, sfs: Sfs)
    ensures first == NoSpace && second == NoSpace && third == Fails
    ensures fresh(sfs) && Ok(sfs.State(), sfs.own) && Nearly(sfs.State(), 1) && !Covered(sfs.State(), 1)
    ensures sfs.files[1].size == 5 && sfs.files[1].blocks == 0
  {
    ghost var fs, own := FullDisk();
    sfs := new Sfs([Zeros(), Zeros()], [false, false], 0, map[1 := Din(0, 0, Unset(), 0)], own);
    var alen, got;
    first, alen, got := sfs.Io(1, true, [7], 5, 1);
    second, alen, got := sfs.Io(1, false, [], 4, 1);
    third := sfs.Truncfile(1, 5);
  }

  /** A byte written at place 4096 would skip a block, and trips an assertion. */
  method WriteSkips() returns (r: Ret, sfs: Sfs)
    ensures r == Fails && fresh(sfs) && Ok(sfs.State(), sfs.own) && 1 in sfs.files && sfs.files[1].size == 0
  {
    ghost var fs, own := FullDisk();
    sfs := new Sfs([Zeros(), Zeros()], [false, false], 0, map[1 := Din(0, 0, Unset(), 0)], own);
    var alen, got;
    r, alen, got := sfs.Io(1, true, [7], 4096, 1);
  }

  /** `r` is `s` cut, or filled with zeros, to length `n`. */
  ghost predicate Cut(s: seq<Byte>, r: seq<Byte>, n: nat) {
    r == if n <= |s| then s[..n] else Pad(s, n)
  }

  /** The blocks for a length of `t` blocks are there or can be had. */
  ghost predicate Fits(fs: Fs, f: nat, t: nat)
    requires f in fs.files
  {
    t <= fs.files[f].blocks || Cost(fs, f, t) <= fs.unused
  }

  /** The file has the blocks its size needs, perhaps more. */
  ghost predicate Covered(fs: Fs, f: nat) {
    f in fs.files && fs.files[f].blocks >= Ceil(fs.files[f].size)
  }

  /** It has no more than those. */
  ghost predicate Even(fs: Fs, f: nat) {
    f in fs.files && fs.files[f].blocks == Ceil(fs.files[f].size)
  }

  /** It lacks at most the last of them, which its size does not fill, and all it needs are in
      the two tiers. */
  ghost predicate Nearly(fs: Fs, f: nat) {
    f in fs.files && fs.files[f].size / BLKSIZE <= fs.files[f].blocks && Ceil(fs.files[f].size) <= TIERS
  }

  /** A place behind all blocks of the file, and no block for it. */
  ghost predicate Beyond(fs: Fs, f: nat, offset: nat)
    requires f in fs.files
  {
    offset > BLKSIZE * fs.files[f].blocks && !Enough(fs, f)
  }

  /** When a file has the blocks its size needs after a transfer up to `last`: it had them and
      the transfer did not begin behind them in vain, or the transfer went beyond them and
      there was a block to be had. */
  ghost predicate Covers(fs: Fs, f: nat, offset: nat, last: nat)
    requires f in fs.files
  {
    (Covered(fs, f) && !Beyond(fs, f, offset)) || (Enough(fs, f) && last > BLKSIZE * fs.files[f].blocks)
  }

  /** Blocks run out when a file that grows has as many as its size needs: no more than those
      were there, and they can be had, but not one more. */
  ghost predicate Stops(fs: Fs, f: nat)
    requires f in fs.files
  {
    var n := Ceil(fs.files[f].size);
    fs.files[f].blocks <= n && Fits(fs, f, n) && !Fits(fs, f, n + 1)
  }

  /** A file took all the blocks there were. */
  ghost predicate Stopped(s: Fs, r: Fs, f: nat) {
    && f in s.files && f in r.files && !Enough(r, f)
    && s.files[f].blocks <= r.files[f].blocks && (r.files[f].blocks == s.files[f].blocks <==> !Enough(s, f))
    && Fits(s, f, r.files[f].blocks) && !Fits(s, f, r.files[f].blocks + 1)
  }

  /** Blocks and size after a truncation. */
  lemma {:induction false} CountsNow(s: Fs, t: Fs, f: nat, len: nat, done: bool)
    requires Nearly(s, f) && f in t.files && Ceil(len) <= TIERS
    requires if done then t.files[f].size == len && t.files[f].blocks == Ceil(len)
             else t.files[f].size == s.files[f].size && Stopped(s, t, f)
    ensures Nearly(t, f) && (Even(t, f) <==> done || Stops(s, f))
    ensures (Covered(t, f) <==> done || Covered(s, f) || Enough(s, f))
    ensures Covered(s, f) ==> (Even(t, f) <==> done || (Even(s, f) && !Enough(s, f)))
  {
    CeilMax(len, 0);
  }

  /** What a reader sees after a truncation: up to the shorter length the old bytes, and
      zeros from where the old blocks ended. */
  ghost predicate SeenCut(s: seq<Byte>, r: seq<Byte>, blocks: nat) {
    && (forall p {:trigger r[p]} :: 0 <= p < Min(|s|, |r|) ==> r[p] == s[p])
    && (forall p {:trigger r[p]} :: blocks <= p < |r| ==> r[p] == 0)
  }

  lemma {:induction false} CutSeen(s: Fs, t: Fs, f: nat, len: nat)
    requires Has(s, f) && Has(t, f) && t.files[f].size == len && Cut(Raw(s, f), Raw(t, f), BLKSIZE * Ceil(len))
    ensures SeenCut(Bytes(s, f), Bytes(t, f), |Raw(s, f)|)
  {
    CeilMax(len, 0);
  }

  lemma {:induction false} GrownSeen(s: Fs, r: Fs, f: nat)
    requires Grown(s, r, f)
    ensures Bytes(r, f) == Bytes(s, f)
  {
    SeenPad(Raw(s, f), |Raw(r, f)|, s.files[f].size);
  }

  function Unset(): (d: seq<nat>)
    ensures |d| == NDIRECT && forall i :: 0 <= i < NDIRECT ==> d[i] == 0
  {
    seq(NDIRECT, _ => 0)
  }

  /** A disk on which a file can get one block but not two. */
  lemma {:induction false} GrowthCanBreak() returns (fs: Fs, own: Owners)
    ensures fs == Fs([Zeros(), Zeros(), Zeros()], [false, false, true], 1, map[1 := Din(0, 0, Unset(), 0)])
    ensures Ok(fs, own) && Even(fs, 1) && !Fits(fs, 1, Ceil(8192)) && Enough(fs, 1)
  {
    var d := Din(0, 0, Unset(), 0);
    fs := Fs([Zeros(), Zeros(), Zeros()], [false, false, true], 1, map[1 := d]);
    own := map[0 := System, 1 := Node(1)];
    assert [false, false, true][1..] == [false, true] && [false, true][1..] == [true] && [true][1..] == [];
    assert Count([true]) == 1;
    assert Count([false, true]) == 1;
    assert forall i {:trigger SlotOk(fs, own, 1, d, i)} :: 0 <= i < TIERS ==> SlotOk(fs, own, 1, d, i);
    assert FileOk(fs, own, 1, d);
    assert UseOk(fs, own, 0) && UseOk(fs, own, 1);
    assert FreeOk(fs, own, 0) && FreeOk(fs, own, 1) && FreeOk(fs, own, 2);
  }

  /** How many blocks it takes to bring a file to `t` blocks. */
  ghost function Cost(fs: Fs, f: nat, t: nat): int
    requires f in fs.files
  {
    t - fs.files[f].blocks + if fs.files[f].indirect == 0 && t > NDIRECT && t > fs.files[f].blocks then 1 else 0
  }

  /** Zeros were put behind the bytes of a file. */
  ghost predicate Grown(s: Fs, r: Fs, f: nat) {
    && Has(s, f) && Has(r, f) && r.files[f].size == s.files[f].size && s.files[f].blocks <= r.files[f].blocks
    && |Raw(s, f)| == BLKSIZE * s.files[f].blocks && |Raw(r, f)| == BLKSIZE * r.files[f].blocks
    && Raw(r, f) == Pad(Raw(s, f), |Raw(r, f)|)
  }

  lemma {:induction false} GrownNone(s: Fs, own: Owners, f: nat)
    requires Ok(s, own) && f in s.files
    ensures Others(s, s, f) && Grown(s, s, f)
  {
    OkHas(s, own, f);
    Unseen(s, own, s, f);
  }

  lemma {:induction false} GrownKept(s: Fs, m: Fs, r: Fs, f: nat)
    requires Grown(s, m, f) && Kept(m, r, f)
    ensures Grown(s, r, f)
  {
  }

  lemma {:induction false} GrownMore(s: Fs, m: Fs, own: Owners, r: Fs, f: nat)
    requires Grown(s, m, f) && Ok(r, own) && Has(r, f) && Blocks(r, f) == Blocks(m, f) + [Zeros()]
    requires r.files[f].size == m.files[f].size
    ensures Grown(s, r, f)
  {
    OkHas(r, own, f);
    FlatMore(Blocks(m, f), Zeros());
    assert Raw(r, f) == Pad(Raw(m, f), |Raw(r, f)|);
  }

  /** The first `n` blocks of a file were asked for, one after another: it got a new one iff
      it did not have them all and there was space for one. */
  ghost predicate Took(s: Fs, r: Fs, f: nat, n: nat) {
    && f in s.files && f in r.files && r.files[f].blocks >= s.files[f].blocks
    && (r.files[f].blocks > s.files[f].blocks <==> n > s.files[f].blocks && Enough(s, f))
    && (n <= s.files[f].blocks ==> r.unused == s.unused && r.files[f] == s.files[f])
  }

  /** Asking for more after `n` blocks were there, or after it failed. */
  lemma {:induction false} TookMore(s: Fs, m: Fs, r: Fs, f: nat, n: nat, k: nat, last: nat)
    requires Took(s, m, f, n) && n <= k <= last
    requires (Took(m, r, f, k) && n <= m.files[f].blocks) || r == m
    ensures r == m && n > m.files[f].blocks ==> Took(s, r, f, last)
    ensures Took(m, r, f, k) && n <= m.files[f].blocks ==>
              Took(s, r, f, k) && (r.files[f].blocks < k ==> Took(s, r, f, last))
  {
  }

  /** How a call ends: done, refused, out of blocks, or with an assertion that fails. */
  datatype Ret = Done | Invalid | NoSpace | Fails

  /** A 32-bit sum taken as a signed offset. */
  function Signed(x: int): (r: int) {
    var w := x % WORDS;
    if w < 0x8000_0000 then w else w - WORDS
  }

  function Min(a: int, b: int): int {
    if a < b then a else b
  }

  /** A transfer is taken on iff it starts inside the largest file and its end does not
      overflow. */
  predicate Accepted(offset: int, len: nat) {
    0 <= offset < MAX_FILE_SIZE && offset + len < 0x8000_0000
  }

  function End(offset: int, len: nat): int {
    Min(offset + len, MAX_FILE_SIZE)
  }

  lemma EndExact(offset: int, len: nat)
    requires -0x8000_0000 <= offset < 0x8000_0000 && len < WORDS
    ensures Accepted(offset, len) <==> 0 <= offset < MAX_FILE_SIZE && offset <= Signed(offset + len)
    ensures Accepted(offset, len) ==> Signed(offset + len) == offset + len
  {
  }

  lemma {:induction false} NearlySelf(s: Fs, own: Owners, f: nat, offset: int)
    requires Ok(s, own) && Nearly(s, f)
    ensures Others(s, s, f) && Has(s, f) && (offset >= 0 ==> Fetched(s, s, f, offset, offset, true, []))
  {
    GrownNone(s, own, f);
  }

  /** A file with the blocks its size needs. */
  lemma {:induction false} CoveredNearly(s: Fs, own: Owners, f: nat)
    requires Ok(s, own) && Covered(s, f)
    ensures Nearly(s, f)
  {
    OkHas(s, own, f);
  }

  /** Where a transfer ends: a read not behind the end of the file. */
  function Last(fs: Fs, f: nat, write: bool, offset: int, len: nat): int
    requires f in fs.files
  {
    if len == 0 then offset
    else if write then End(offset, len)
    else Max(offset, Min(End(offset, len), fs.files[f].size))
  }

  /** What a read leaves: the file has the same bytes, of which those up to `last` were read.
      Only where the file lacks a block, and there is none to be had, it stops before. */
  ghost predicate Fetched(s: Fs, t: Fs, f: nat, offset: nat, last: nat, whole: bool, data: seq<Byte>) {
    && Has(s, f) && Has(t, f) && t.files[f].size == s.files[f].size && Bytes(t, f) == Bytes(s, f)
    && (data != [] ==> offset + |data| <= s.files[f].size && data == Bytes(s, f)[offset..offset + |data|])
    && (whole <==> offset >= last || last <= BLKSIZE * s.files[f].blocks || Enough(s, f))
    && (!whole ==> |data| == Max(offset, BLKSIZE * s.files[f].blocks) - offset)
    && t.files[f].blocks ==
         s.files[f].blocks + (if offset < last && last > BLKSIZE * s.files[f].blocks && Enough(s, f) then 1 else 0)
  }

  lemma {:induction false} ReadFetched(s: Fs, r: Fs, t: Fs, f: nat, offset: nat, last: nat, whole: bool,
      data: seq<Byte>)
    requires Progress(s, r, f, false, offset, data) && Nearly(s, f) && offset / BLKSIZE <= s.files[f].blocks
    requires offset < last <= s.files[f].size && |data| <= last - offset && (whole <==> |data| == last - offset)
    requires Took(s, r, f, Ceil(last)) && (!whole ==> r.files[f].blocks == (offset + |data|) / BLKSIZE)
    requires !whole && data != [] ==> r.files[f].blocks * BLKSIZE == offset + |data|
    requires Has(t, f) && Raw(t, f) == Raw(r, f) && t.files[f] == r.files[f]
    ensures Fetched(s, t, f, offset, last, whole, data)
  {
    CeilMax(s.files[f].size, last);
    CeilMax(last, 0);
    SeenPad(Raw(s, f), |Raw(r, f)|, s.files[f].size);
    if data != [] {
      assert Seen(Raw(r, f), s.files[f].size)[offset..offset + |data|] == Raw(r, f)[offset..offset + |data|];
    }
  }

  /** What the transfer has come to once the size is set. */
  lemma {:induction false} RangeDone(s: Fs, r: Fs, t: Fs, own: Owners, f: nat, write: bool, offset: nat, last: nat,
      whole: bool, data: seq<Byte>)
    requires Ok(r, own) && Progress(s, r, f, write, offset, data) && Nearly(s, f)
    requires offset / BLKSIZE <= s.files[f].blocks
    requires offset < last && |data| <= last - offset && (whole <==> |data| == last - offset)
    requires if write then last <= TIERS * BLKSIZE else last <= s.files[f].size
    requires Took(s, r, f, Ceil(last)) && (!whole ==> r.files[f].blocks == (offset + |data|) / BLKSIZE)
    requires !whole && data != [] ==> r.files[f].blocks * BLKSIZE == offset + |data|
    requires data != [] <==> offset / BLKSIZE < s.files[f].blocks || Enough(s, f)
    requires t == Resized(r, f, Max(r.files[f].size, offset + |data|))
    ensures Ok(t, own) && Others(s, t, f) && Has(s, f) && Has(t, f)
    ensures Nearly(t, f) && (Covered(t, f) <==> Covers(s, f, offset, last))
    ensures if write then Stored(s, t, f, offset, data) else Fetched(s, t, f, offset, last, whole, data)
    ensures Enough(t, f) <==> Enough(r, f)
  {
    OkResized(r, own, t.files[f].size, f);
    if write {
      WriteStored(s, r, t, f, offset, data);
    } else {
      ReadFetched(s, r, t, f, offset, last, whole, data);
    }
    CeilMax(s.files[f].size, last);
    SizeCovers(s, r, t, f, offset, last, whole, data);
    OthersTrans(s, r, t, f);
  }

  /** What becomes of the blocks the size needs. */
  lemma {:induction false} SizeCovers(s: Fs, r: Fs, t: Fs, f: nat, offset: nat, last: nat, whole: bool, data: seq<Byte>)
    requires Nearly(s, f) && f in r.files && f in t.files && offset < last && |data| <= last - offset
    requires (whole <==> |data| == last - offset)
    requires offset / BLKSIZE <= s.files[f].blocks && last <= TIERS * BLKSIZE
    requires r.files[f].blocks ==
               (if data == [] then s.files[f].blocks else Max(s.files[f].blocks, Ceil(offset + |data|)))
    requires Took(s, r, f, Ceil(last)) && (!whole ==> r.files[f].blocks == (offset + |data|) / BLKSIZE)
    requires data != [] <==> offset / BLKSIZE < s.files[f].blocks || Enough(s, f)
    requires t.files[f].blocks == r.files[f].blocks && t.files[f].size == Max(s.files[f].size, offset + |data|)
    ensures Nearly(t, f) && (Covered(t, f) <==> Covers(s, f, offset, last))
  {
    CeilMax(s.files[f].size, offset + |data|);
  }

  /** What a write leaves: the bytes in the blocks with `data` at `offset`, the size, and,
      for a write that starts inside the file or right behind it, what a reader sees. */
  ghost predicate Stored(s: Fs, t: Fs, f: nat, offset: nat, data: seq<Byte>) {
    && Has(s, f) && Has(t, f) && |Raw(s, f)| <= |Raw(t, f)|
    && t.files[f].blocks == (if data == [] then s.files[f].blocks else Max(s.files[f].blocks, Ceil(offset + |data|)))
    && (data != [] ==> offset + |data| <= |Raw(t, f)| && Raw(t, f) == Splice(Pad(Raw(s, f), |Raw(t, f)|), offset, data))
    && (data == [] ==> Raw(t, f) == Raw(s, f))
    && t.files[f].size == Max(s.files[f].size, offset + |data|)
    && (offset <= s.files[f].size ==> Bytes(t, f) == Written(Bytes(s, f), offset, data))
    && (Even(s, f) ==> (Even(t, f) <==> Covered(t, f)))
  }

  lemma {:induction false} ReadStored(s: Fs, t: Fs, u: Fs, f: nat, offset: nat, data: seq<Byte>, alen: nat, lo: nat,
      n: nat, whole: bool, got: seq<Byte>)
    requires alen <= |data| && Stored(s, t, f, offset, data[..alen]) && offset <= s.files[f].size
    requires lo + n < MAX_FILE_SIZE
    requires Fetched(t, u, f, lo, Last(t, f, false, lo, n), whole, got)
    ensures forall p {:trigger got[p]} :: 0 <= p < |got| ==>
              (if offset <= lo + p < offset + alen then got[p] == data[lo + p - offset]
               else lo + p < s.files[f].size && got[p] == Bytes(s, f)[lo + p])
  {
    if got != [] {
      ReadAfterWrite(Bytes(s, f), offset, data[..alen], lo, lo + |got|);
    }
  }

  lemma {:induction false} WriteStored(s: Fs, r: Fs, t: Fs, f: nat, offset: nat, data: seq<Byte>)
    requires Progress(s, r, f, true, offset, data) && Nearly(s, f) && offset / BLKSIZE <= s.files[f].blocks
    requires Has(t, f) && Raw(t, f) == Raw(r, f) && t.files[f].blocks == r.files[f].blocks
    requires t.files[f].size == Max(s.files[f].size, offset + |data|)
    ensures Stored(s, t, f, offset, data)
  {
    CeilMax(s.files[f].size, offset + |data|);
    if offset <= s.files[f].size {
      WriteSeen(s, r, t, f, offset, data);
    }
  }

  ghost function Resized(s: Fs, f: nat, size: nat): Fs
    requires f in s.files
  {
    s.(files := s.files[f := s.files[f].(size := size)])
  }

  /** The size in the inode has no part in the accounting. */
  lemma {:induction false} OkResized(s: Fs, own: Owners, size: nat, f: nat)
    requires Ok(s, own) && f in s.files
    ensures var r := Resized(s, f, size);
            Ok(r, own) && Others(s, r, f) && Has(s, f) && Has(r, f) && Raw(r, f) == Raw(s, f)
  {
    var r, d := Resized(s, f, size), s.files[f];
    assert Near(s, r, own, own, f);
    assert FileOk(s, own, f, d);
    forall i | 0 <= i < TIERS
      ensures SlotOk(r, own, f, r.files[f], i)
    {
      assert SlotOk(s, own, f, d, i);
    }
    forall b | b in own && About(own[b], f)
      ensures 0 <= b < |r.disk| && UseOk(r, own, b)
    {
      assert UseOk(s, own, b);
    }
    forall b | 0 <= b < |r.free|
      ensures FreeOk(r, own, b)
    {
      assert FreeOk(s, own, b);
    }
    NearOk(s, r, own, own, f);
    NearOthers(s, r, own, own, f);
    assert Blocks(r, f) == Blocks(s, f) by {
      assert forall i :: 0 <= i < d.blocks ==> Content(r, f, i) == Content(s, f, i);
    }
  }

  lemma {:induction false} PrefixMore(data: seq<Byte>, n: nat, k: nat)
    requires n + k <= |data|
    ensures data[..n] + data[n..n + k] == data[..n + k]
  {
  }

  lemma {:induction false} ProgressNone(s: Fs, own: Owners, f: nat, write: bool, offset: nat)
    requires Ok(s, own) && f in s.files
    ensures Progress(s, s, f, write, offset, [])
  {
    Unseen(s, own, s, f);
    OkHas(s, own, f);
  }

  lemma {:induction false} ProgressKept(s: Fs, m: Fs, r: Fs, f: nat, write: bool, offset: nat, done: seq<Byte>)
    requires Progress(s, m, f, write, offset, done) && Others(m, r, f) && Kept(m, r, f)
    ensures Progress(s, r, f, write, offset, done)
  {
    OthersTrans(s, m, r, f);
  }

  /** The bytes after a block was found or made. */
  lemma {:induction false} LoadRaw(s: Fs, r: Fs, f: nat, blkno: nat)
    requires Has(s, f) && Has(r, f) && Full(Blocks(s, f)) && blkno <= s.files[f].blocks
    requires if blkno < s.files[f].blocks then r == s else Blocks(r, f) == Blocks(s, f) + [Zeros()]
    ensures |Raw(s, f)| == BLKSIZE * s.files[f].blocks && |Raw(r, f)| == BLKSIZE * r.files[f].blocks
    ensures r.files[f].blocks == Max(s.files[f].blocks, blkno + 1) && Raw(r, f) == Pad(Raw(s, f), |Raw(r, f)|)
  {
    FlatSize(Blocks(s, f));
    if blkno == s.files[f].blocks {
      FlatMore(Blocks(s, f), Zeros());
      assert Full(Blocks(r, f));
      FlatSize(Blocks(r, f));
    }
  }

  lemma {:induction false} BlockBytes(s: Fs, own: Owners, f: nat, n: nat, off: nat, size: nat)
    requires Ok(s, own) && f in s.files && n < s.files[f].blocks && off + size <= BLKSIZE
    ensures Has(s, f) && 0 < Bmap(s, s.files[f], n) < |s.disk| && n * BLKSIZE + off + size <= |Raw(s, f)|
    ensures s.disk[Bmap(s, s.files[f], n)][off..off + size] == Raw(s, f)[n * BLKSIZE + off..n * BLKSIZE + off + size]
  {
    OkHas(s, own, f);
    OwnedOnce(s, own, f, n, f, n);
    var bs := Blocks(s, f);
    FlatBlock(bs, n);
    var lo, raw := n * BLKSIZE, Raw(s, f);
    assert bs[n] == s.disk[Bmap(s, s.files[f], n)];
    assert raw[lo..lo + BLKSIZE][off..off + size] == raw[lo + off..lo + off + size];
  }

  lemma {:induction false} PieceWritten(s: Fs, own: Owners, f: nat, n: nat, off: nat, data: seq<Byte>)
    requires Ok(s, own) && f in s.files && n < s.files[f].blocks && off + |data| <= BLKSIZE
    ensures Has(s, f) && Bmap(s, s.files[f], n) < |s.disk| && |s.disk[Bmap(s, s.files[f], n)]| == BLKSIZE
    ensures var b := Bmap(s, s.files[f], n); var r := PutBlock(s, b, Splice(s.disk[b], off, data));
            && Ok(r, own) && Others(s, r, f) && Has(r, f)
            && n * BLKSIZE + off + |data| <= |Raw(s, f)| && Raw(r, f) == Splice(Raw(s, f), n * BLKSIZE + off, data)
  {
    OkHas(s, own, f);
    OwnedOnce(s, own, f, n, f, n);
    var b := Bmap(s, s.files[f], n);
    PutView(s, own, f, n, Splice(s.disk[b], off, data));
    assert Blocks(s, f)[n] == s.disk[b];
    FlatSplice(Blocks(s, f), n, off, data);
  }

  lemma {:induction false} WritePiece(s: Fs, m: Fs, r: Fs, f: nat, blkno: nat, off: nat, data: seq<Byte>)
    requires Has(s, f) && Has(m, f) && Has(r, f) && Others(s, m, f) && Others(m, r, f) && off + |data| <= BLKSIZE
    requires |Raw(s, f)| == BLKSIZE * s.files[f].blocks && |Raw(m, f)| == BLKSIZE * m.files[f].blocks
    requires blkno <= s.files[f].blocks && m.files[f].blocks == Max(s.files[f].blocks, blkno + 1)
    requires Raw(m, f) == Pad(Raw(s, f), |Raw(m, f)|)
    requires r.files[f] == m.files[f] && m.files[f].size == s.files[f].size
    requires blkno * BLKSIZE + off + |data| <= |Raw(m, f)|
    requires Raw(r, f) == Splice(Raw(m, f), blkno * BLKSIZE + off, data)
    ensures Piece(s, r, f, true, blkno, off, data)
  {
    OthersTrans(s, m, r, f);
  }

  /** Clearing a free block is not seen. */
  lemma {:induction false} Unseen(fs: Fs, own: Owners, r: Fs, f: nat)
    requires Ok(fs, own) && f in fs.files
    requires r ==
        fs || (First(fs.free) < |fs.free| && First(fs.free) < |fs.disk| && r == PutBlock(fs, First(fs.free), Zeros()))
    ensures Ok(r, own) && Others(fs, r, f) && Kept(fs, r, f)
  {
    if r == fs {
      forall g | g in fs.files
        ensures Kept(fs, r, g)
      {
        OkHas(fs, own, g);
      }
    } else {
      Takeable(fs, own, First(fs.free));
      ScratchView(fs, own, First(fs.free), Zeros());
    }
  }

  /** The number of the new block. */
  lemma {:induction false} AppendedLast(fs: Fs, own: Owners, f: nat)
    requires Ok(fs, own) && f in fs.files && fs.files[f].blocks < TIERS && Enough(fs, f)
    ensures Has(Appended(fs, own, f), f)
    ensures var r := Appended(fs, own, f);
            Bmap(r, r.files[f], fs.files[f].blocks) == NewBlock(fs, f)
  {
    AppendReady(fs, own, f);
    if NeedsTable(fs, f) {
      var e := First(fs.free);
      var t := AddTable(fs, f, e);
      AddBlockView(t, own[e := Table(f)], f, First(t.free));
    } else {
      AddBlockView(fs, own, f, First(fs.free));
    }
  }
}
