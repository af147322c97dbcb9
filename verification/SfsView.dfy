/** What the block operations do to the contents of files. */
module SfsView {
  import opened SfsDisk
  import opened SfsMap
  import opened SfsBlocks
  import opened SfsBytes

  ghost predicate Has(fs: Fs, f: nat) {
    Shaped(fs) && f in fs.files && DinShaped(fs, fs.files[f]) && fs.files[f].blocks <= TIERS
  }

  /** The blocks of a file, as bytes. */
  ghost function Blocks(fs: Fs, f: nat): (bs: seq<Block>)
    requires Has(fs, f)
    ensures |bs| == fs.files[f].blocks
  {
    seq(fs.files[f].blocks, i requires 0 <= i < fs.files[f].blocks => Content(fs, f, i))
  }

  /** All bytes in the blocks of a file, also those behind its end. */
  ghost function Raw(fs: Fs, f: nat): (s: seq<Byte>)
    requires Has(fs, f)
  {
    Flat(Blocks(fs, f))
  }

  lemma {:induction false} OkHas(fs: Fs, own: Owners, f: nat)
    requires Ok(fs, own) && f in fs.files
    ensures Has(fs, f) && Full(Blocks(fs, f)) && |Raw(fs, f)| == BLKSIZE * fs.files[f].blocks
  {
    var d := fs.files[f];
    assert FileOk(fs, own, f, d);
    forall i | 0 <= i < d.blocks
      ensures |Content(fs, f, i)| == BLKSIZE
    {
      assert SlotOk(fs, own, f, d, i);
      assert UseOk(fs, own, Bmap(fs, d, i));
    }
    FlatSize(Blocks(fs, f));
  }

  /** A file is as it was. */
  ghost predicate Kept(fs: Fs, r: Fs, g: nat) {
    Has(fs, g) && Has(r, g) && r.files[g] == fs.files[g] && Blocks(r, g) == Blocks(fs, g)
  }

  /** All files but `f` are as they were. */
  ghost predicate Others(fs: Fs, r: Fs, f: nat) {
    r.files.Keys == fs.files.Keys && forall g {:trigger Kept(fs, r, g)} :: g in fs.files && g != f ==> Kept(fs, r, g)
  }

  lemma {:induction false} OthersTrans(a: Fs, b: Fs, c: Fs, f: nat)
    requires Others(a, b, f) && Others(b, c, f)
    ensures Others(a, c, f)
  {
    forall g | g in a.files && g != f
      ensures Kept(a, c, g)
    {
      assert Kept(a, b, g) && Kept(b, c, g);
    }
  }

  lemma {:induction false} NearOthers(fs: Fs, r: Fs, own: Owners, own2: Owners, f: nat)
    requires Ok(fs, own) && Near(fs, r, own, own2, f)
    ensures Others(fs, r, f)
  {
    forall g | g in fs.files && g != f
      ensures Kept(fs, r, g)
    {
      OkHas(fs, own, g);
      NearSame(fs, r, own, own2, f, g);
    }
  }

  lemma {:induction false} AddBlockView(fs: Fs, own: Owners, f: nat, b: nat)
    requires Roomy(fs, own, f) && b < |fs.free| && fs.free[b]
    ensures Has(fs, f) && b < |fs.disk| && fs.unused > 0
    ensures var r := AddBlock(fs, f, b);
            && Others(fs, r, f) && Has(r, f) && Blocks(r, f) == Blocks(fs, f) + [Zeros()]
            && r.files[f].size == fs.files[f].size && r.files[f].blocks == fs.files[f].blocks + 1
            && Bmap(r, r.files[f], fs.files[f].blocks) == b && r.unused == fs.unused - 1
  {
    OkHas(fs, own, f);
    AddBlockNear(fs, own, f, b);
    NearOthers(fs, AddBlock(fs, f, b), own, own[b := Data(f, fs.files[f].blocks)], f);
    AddBlockContent(fs, own, f, b);
    AddBlockMap(fs, own, f, b, fs.files[f].blocks);
  }

  /** A new table is not seen in any file. */
  lemma {:induction false} AddTableView(fs: Fs, own: Owners, f: nat, e: nat)
    requires Ok(fs, own) && f in fs.files && fs.files[f].indirect == 0 && fs.files[f].blocks <= NDIRECT
    requires e < |fs.free| && fs.free[e]
    ensures Has(fs, f) && e < |fs.disk| && fs.unused > 0
    ensures var r := AddTable(fs, f, e);
            Others(fs, r, f) && Has(r, f) && Blocks(r, f) == Blocks(fs, f) && r.unused == fs.unused - 1
  {
    OkHas(fs, own, f);
    AddTableNear(fs, own, f, e);
    AddTableOk(fs, own, f, e);
    var r, d := AddTable(fs, f, e), fs.files[f];
    OkHas(r, own[e := Table(f)], f);
    NearOthers(fs, r, own, own[e := Table(f)], f);
    assert FileOk(fs, own, f, d);
    forall i | 0 <= i < d.blocks
      ensures Content(r, f, i) == Content(fs, f, i)
    {
      assert SlotOk(fs, own, f, d, i);
      assert own[Bmap(fs, d, i)] == Data(f, i);
    }
    assert Blocks(r, f) == Blocks(fs, f);
  }

  lemma {:induction false} DropBlockView(fs: Fs, own: Owners, f: nat)
    requires Droppable(fs, own, f)
    ensures Has(fs, f) && Bmap(fs, fs.files[f], fs.files[f].blocks - 1) < |fs.disk|
    ensures var r, n := DropBlock(fs, f), fs.files[f].blocks - 1;
            && Others(fs, r, f) && Has(r, f) && Blocks(r, f) == Blocks(fs, f)[..n]
            && r.files[f].size == fs.files[f].size && r.files[f].blocks == n && r.unused == fs.unused + 1
  {
    OkHas(fs, own, f);
    DropBlockNear(fs, own, f);
    var b := Bmap(fs, fs.files[f], fs.files[f].blocks - 1);
    NearOthers(fs, DropBlock(fs, f), own, own - {b}, f);
    DropBlockContent(fs, own, f);
    DropBlockMap(fs, own, f, 0);
  }

  /** Overwriting a block nobody owns. */
  lemma {:induction false} ScratchView(fs: Fs, own: Owners, b: nat, data: Block)
    requires Ok(fs, own) && b < |fs.disk| && |data| == BLKSIZE && b !in own
    ensures var r := PutBlock(fs, b, data);
            Ok(r, own) && forall g {:trigger Kept(fs, r, g)} :: g in fs.files ==> Kept(fs, r, g)
  {
    var r := PutBlock(fs, b, data);
    PutOk(fs, own, b, data);
    forall g | g in fs.files
      ensures Kept(fs, r, g)
    {
      OkHas(fs, own, g);
      OkHas(r, own, g);
      var d := fs.files[g];
      assert FileOk(fs, own, g, d);
      forall i | 0 <= i < d.blocks
        ensures Content(r, g, i) == Content(fs, g, i)
      {
        PutKeepsMap(fs, own, b, data, g, i);
        assert SlotOk(fs, own, g, d, i);
      }
      assert Blocks(r, g) == Blocks(fs, g);
    }
  }

  lemma {:induction false} PutContent(fs: Fs, own: Owners, f: nat, n: nat, data: Block, g: nat, i: nat)
    requires Ok(fs, own) && f in fs.files && n < fs.files[f].blocks && |data| == BLKSIZE
    requires g in fs.files && i < fs.files[g].blocks && Has(fs, f) && Has(fs, g)
    ensures var b := Bmap(fs, fs.files[f], n);
            && b < |fs.disk| && Owned(own, b, Data(f, n)) && Has(PutBlock(fs, b, data), g)
            && Content(PutBlock(fs, b, data), g, i) == if g == f && i == n then data else Content(fs, g, i)
  {
    var b := Bmap(fs, fs.files[f], n);
    OwnedOnce(fs, own, f, n, g, i);
    OwnedOnce(fs, own, g, i, f, n);
    assert FileOk(fs, own, f, fs.files[f]) && FileOk(fs, own, g, fs.files[g]);
    assert SlotOk(fs, own, f, fs.files[f], n);
    PutKeepsMap(fs, own, b, data, g, i);
  }

  /** Overwriting the n-th block of a file. */
  lemma {:induction false} PutView(fs: Fs, own: Owners, f: nat, n: nat, data: Block)
    requires Ok(fs, own) && f in fs.files && n < fs.files[f].blocks && |data| == BLKSIZE
    ensures Has(fs, f) && Bmap(fs, fs.files[f], n) < |fs.disk|
    ensures var r := PutBlock(fs, Bmap(fs, fs.files[f], n), data);
            Ok(r, own) && Others(fs, r, f) && Has(r, f) && Blocks(r, f) == Blocks(fs, f)[n := data]
  {
    OkHas(fs, own, f);
    PutContent(fs, own, f, n, data, f, n);
    var b := Bmap(fs, fs.files[f], n);
    var r := PutBlock(fs, b, data);
    PutOk(fs, own, b, data);
    forall g | g in fs.files
      ensures Has(fs, g) && Has(r, g) && Blocks(r, g) == if g == f then Blocks(fs, f)[n := data] else Blocks(fs, g)
    {
      OkHas(fs, own, g);
      OkHas(r, own, g);
      var want := if g == f then Blocks(fs, f)[n := data] else Blocks(fs, g);
      forall i | 0 <= i < fs.files[g].blocks
        ensures Blocks(r, g)[i] == want[i]
      {
        PutContent(fs, own, f, n, data, g, i);
      }
    }
    assert forall g :: g in fs.files && g != f ==> Kept(fs, r, g);
  }
}
