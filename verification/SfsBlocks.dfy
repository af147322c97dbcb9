/** Taking blocks for a file and giving them back keeps the accounting right and leaves
    the other blocks of all files as they are. */
module SfsBlocks {
  import opened SfsDisk
  import opened SfsMap

  // --------------------------------------------------------- changes to one file

  ghost predicate About(u: Use, f: nat) {
    (u.Table? || u.Data?) && u.f == f
  }

  /** Between `fs` and `r` only file `f` and its blocks change. */
  ghost predicate Near(fs: Fs, r: Fs, own: Owners, own2: Owners, f: nat)
  {
    && Shaped(fs) && Shaped(r) && |r.disk| == |fs.disk| && |r.free| == |fs.free|
    && f in fs.files && r.files.Keys == fs.files.Keys
    && (forall g {:trigger r.files[g]} :: g in fs.files && g != f ==> r.files[g] == fs.files[g])
    && (forall b {:trigger own[b]} {:trigger own2[b]} ::
          b in own && !About(own[b], f) ==> b in own2 && own2[b] == own[b])
    && (forall b {:trigger own[b]} {:trigger own2[b]} ::
          b in own2 && !About(own2[b], f) ==> b in own && own[b] == own2[b])
    && (forall b {:trigger r.disk[b]} ::
          0 <= b < |fs.disk| && b in own && !About(own[b], f) ==> r.disk[b] == fs.disk[b])
  }

  lemma {:induction false} OtherMap(fs: Fs, r: Fs, own: Owners, own2: Owners, f: nat, g: nat, i: nat)
    requires Near(fs, r, own, own2, f) && g in fs.files && g != f && FileOk(fs, own, g, fs.files[g]) && i < TIERS
    ensures DinShaped(r, fs.files[g]) && Bmap(r, fs.files[g], i) == Bmap(fs, fs.files[g], i)
  {
    var e := fs.files[g].indirect;
    if e != 0 {
      assert Owned(own, e, Table(g));
      assert r.disk[e] == fs.disk[e];
    }
  }

  lemma {:induction false} OtherFile(fs: Fs, r: Fs, own: Owners, own2: Owners, f: nat, g: nat)
    requires Near(fs, r, own, own2, f) && g in fs.files && g != f && FileOk(fs, own, g, fs.files[g])
    ensures FileOk(r, own2, g, r.files[g])
  {
    var d := fs.files[g];
    assert r.files[g] == d;
    assert own[g] == Node(g);
    assert d.indirect != 0 ==> own[d.indirect] == Table(g);
    forall i | 0 <= i < TIERS
      ensures SlotOk(r, own2, g, d, i)
    {
      assert SlotOk(fs, own, g, d, i);
      OtherMap(fs, r, own, own2, f, g, i);
      assert i < d.blocks ==> own[Bmap(fs, d, i)] == Data(g, i);
    }
  }

  lemma {:induction false} OtherUse(fs: Fs, r: Fs, own: Owners, own2: Owners, f: nat, b: nat)
    requires Ok(fs, own) && Near(fs, r, own, own2, f) && b in own2 && !About(own2[b], f)
    ensures b < |r.disk| && UseOk(r, own2, b)
  {
    assert own[b] == own2[b];
    assert UseOk(fs, own, b);
    if own[b].Data? {
      var g, i := own[b].f, own[b].i;
      assert FileOk(fs, own, g, fs.files[g]);
      assert r.files[g] == fs.files[g];
      OtherMap(fs, r, own, own2, f, g, i);
    } else if own[b].Table? {
      assert r.files[own[b].f] == fs.files[own[b].f];
    }
  }

  lemma {:induction false} NearOk(fs: Fs, r: Fs, own: Owners, own2: Owners, f: nat)
    requires Ok(fs, own) && Near(fs, r, own, own2, f) && r.unused == Count(r.free)
    requires FileOk(r, own2, f, r.files[f])
    requires forall b {:trigger UseOk(r, own2, b)} ::
               b in own2 && About(own2[b], f) ==> 0 <= b < |r.disk| && UseOk(r, own2, b)
    requires forall b {:trigger FreeOk(r, own2, b)} :: 0 <= b < |r.free| ==> FreeOk(r, own2, b)
    ensures Ok(r, own2)
  {
    assert own[0] == System;
    forall g | g in r.files
      ensures FileOk(r, own2, g, r.files[g])
    {
      if g != f {
        assert FileOk(fs, own, g, fs.files[g]);
        OtherFile(fs, r, own, own2, f, g);
      }
    }
    forall b | b in own2
      ensures 0 <= b < |r.disk| && UseOk(r, own2, b)
    {
      if !About(own2[b], f) {
        OtherUse(fs, r, own, own2, f, b);
      } else {
        assert UseOk(r, own2, b);
      }
    }
  }

  /** The blocks a file has keep their bytes. */
  ghost predicate Same(fs: Fs, r: Fs, g: nat, n: nat)
    requires Shaped(fs) && Shaped(r) && g in fs.files && g in r.files && DinShaped(fs, fs.files[g])
    requires DinShaped(r, r.files[g])
  {
    forall i {:trigger Content(r, g, i)} {:trigger Content(fs, g, i)} ::
      0 <= i < n && i < TIERS ==> Content(r, g, i) == Content(fs, g, i)
  }

  lemma {:induction false} NearSame(fs: Fs, r: Fs, own: Owners, own2: Owners, f: nat, g: nat)
    requires Ok(fs, own) && Near(fs, r, own, own2, f) && g in fs.files && g != f
    ensures DinShaped(fs, fs.files[g]) && r.files[g] == fs.files[g] && DinShaped(r, r.files[g])
    ensures Same(fs, r, g, fs.files[g].blocks)
  {
    var d := fs.files[g];
    assert FileOk(fs, own, g, d);
    forall i | 0 <= i < d.blocks && i < TIERS
      ensures DinShaped(r, r.files[g]) && Content(r, g, i) == Content(fs, g, i)
    {
      OtherMap(fs, r, own, own2, f, g, i);
      assert SlotOk(fs, own, g, d, i);
      assert own[Bmap(fs, d, i)] == Data(g, i);
      assert UseOk(fs, own, Bmap(fs, d, i));
      assert r.disk[Bmap(fs, d, i)] == fs.disk[Bmap(fs, d, i)];
    }
    OtherMap(fs, r, own, own2, f, g, 0);
  }

  // ----------------------------------------------------------- taking and giving back

  /** sfs_block_alloc of block `b`, which is cleared. */
  function Take(fs: Fs, b: nat): (r: Fs)
    requires b < |fs.free| && b < |fs.disk| && fs.unused > 0
  {
    fs.(free := fs.free[b := false], unused := fs.unused - 1, disk := fs.disk[b := Zeros()])
  }

  /** sfs_block_free. */
  function Give(fs: Fs, b: nat): (r: Fs)
    requires b < |fs.free|
  {
    fs.(free := fs.free[b := true], unused := fs.unused + 1)
  }

  /** What can be taken, given the free map of a consistent disk. */
  lemma {:induction false} Takeable(fs: Fs, own: Owners, b: nat)
    requires Ok(fs, own) && b < |fs.free| && fs.free[b]
    ensures b < |fs.disk| && b !in own && b != 0 && fs.unused > 0
    ensures Shaped(Take(fs, b)) && Take(fs, b).unused == Count(Take(fs, b).free)
  {
    assert FreeOk(fs, own, b) && FreeOk(fs, own, 0);
    CountZero(fs.free);
    CountUpdate(fs.free, b, false);
  }

  /** A table for the indirect tier: its entries are all zero, so no slot changes. */
  function AddTable(fs: Fs, f: nat, e: nat): (r: Fs)
    requires e < |fs.free| && e < |fs.disk| && fs.unused > 0 && f in fs.files
  {
    Take(fs, e).(files := fs.files[f := fs.files[f].(indirect := e)])
  }

  lemma {:induction false} AddTableNear(fs: Fs, own: Owners, f: nat, e: nat)
    requires Ok(fs, own) && f in fs.files && e < |fs.free| && fs.free[e]
    ensures e < |fs.disk| && fs.unused > 0 && e !in own && e != 0
    ensures Near(fs, AddTable(fs, f, e), own, own[e := Table(f)], f)
    ensures AddTable(fs, f, e).unused == Count(AddTable(fs, f, e).free)
    ensures forall b {:trigger FreeOk(AddTable(fs, f, e), own[e := Table(f)], b)} ::
              0 <= b < |fs.free| ==> FreeOk(AddTable(fs, f, e), own[e := Table(f)], b)
  {
    Takeable(fs, own, e);
    var r, own2 := AddTable(fs, f, e), own[e := Table(f)];
    forall b | 0 <= b < |fs.free|
      ensures FreeOk(r, own2, b)
    {
      assert FreeOk(fs, own, b);
    }
  }

  lemma {:induction false} AddTableFile(fs: Fs, own: Owners, f: nat, e: nat)
    requires Ok(fs, own) && f in fs.files && e < |fs.free| && e < |fs.disk| && fs.unused > 0 && e !in own && e != 0
    requires fs.files[f].indirect == 0 && fs.files[f].blocks <= NDIRECT && Shaped(AddTable(fs, f, e))
    ensures var r, own2 := AddTable(fs, f, e), own[e := Table(f)]; FileOk(r, own2, f, r.files[f])
  {
    var r, own2, d := AddTable(fs, f, e), own[e := Table(f)], fs.files[f];
    assert FileOk(fs, own, f, d);
    forall i | 0 <= i < TIERS
      ensures SlotOk(r, own2, f, r.files[f], i)
    {
      assert SlotOk(fs, own, f, d, i);
      if i >= NDIRECT {
        ZeroWord(i - NDIRECT);
      }
    }
  }

  lemma {:induction false} AddTableOk(fs: Fs, own: Owners, f: nat, e: nat)
    requires Ok(fs, own) && f in fs.files && fs.files[f].indirect == 0 && fs.files[f].blocks <= NDIRECT
    requires e < |fs.free| && fs.free[e]
    ensures e < |fs.disk| && fs.unused > 0 && e !in own && e != 0
    ensures Ok(AddTable(fs, f, e), own[e := Table(f)])
  {
    AddTableNear(fs, own, f, e);
    AddTableFile(fs, own, f, e);
    var r, own2, d := AddTable(fs, f, e), own[e := Table(f)], fs.files[f];
    forall b | b in own2 && About(own2[b], f)
      ensures 0 <= b < |r.disk| && UseOk(r, own2, b)
    {
      if b != e {
        assert UseOk(fs, own, b);
      }
    }
    NearOk(fs, r, own, own2, f);
  }

  // ------------------------------------------------------------- one block more

  /** `fs` with `d` as inode `f` and, unless the slot is a direct one, `w` in slot `n` of
      its table. */
  function SetSlot(fs: Fs, f: nat, d: Din, n: nat, w: nat): (r: Fs)
    requires Shaped(fs) && DinShaped(fs, d) && n < TIERS && w < WORDS
    ensures |r.disk| == |fs.disk| && Shaped(r) && r.free == fs.free && r.unused == fs.unused
    ensures r.files.Keys == fs.files.Keys + {f}
  {
    if n < NDIRECT then fs.(files := fs.files[f := d.(direct := d.direct[n := w])])
    else fs.(files := fs.files[f := d], disk := fs.disk[d.indirect := PutWord(fs.disk[d.indirect], n - NDIRECT, w)])
  }

  /** The map of the file changes in slot `n` and nowhere else. */
  lemma {:induction false} SetSlotMap(fs: Fs, f: nat, d: Din, n: nat, w: nat, i: nat)
    requires Shaped(fs) && DinShaped(fs, d) && n < TIERS && w < WORDS && i < TIERS && (n >= NDIRECT ==> d.indirect != 0)
    ensures var r := SetSlot(fs, f, d, n, w);
            && DinShaped(r, r.files[f]) && r.files[f].indirect == d.indirect && r.files[f].blocks == d.blocks
            && Bmap(r, r.files[f], i) == if i == n then w else Bmap(fs, d, i)
  {
    if n >= NDIRECT && i >= NDIRECT {
      PutGet(fs.disk[d.indirect], n - NDIRECT, w, i - NDIRECT);
    }
  }

  function AddBlock(fs: Fs, f: nat, b: nat): (r: Fs)
    requires Shaped(fs) && f in fs.files && DinShaped(fs, fs.files[f]) && fs.files[f].blocks < TIERS
    requires b < |fs.disk| && b < |fs.free| && fs.unused > 0
  {
    var d := fs.files[f];
    SetSlot(Take(fs, b), f, d.(blocks := d.blocks + 1), d.blocks, b)
  }

  /** A file that can get a block from the tiers it has. */
  ghost predicate Roomy(fs: Fs, own: Owners, f: nat)
  {
    && Ok(fs, own) && f in fs.files && fs.files[f].blocks < TIERS
    && (fs.files[f].blocks >= NDIRECT ==> fs.files[f].indirect != 0)
  }

  lemma {:induction false} AddBlockNear(fs: Fs, own: Owners, f: nat, b: nat)
    requires Roomy(fs, own, f) && b < |fs.free| && fs.free[b]
    ensures b < |fs.disk| && fs.unused > 0 && b !in own && b != 0 && FileOk(fs, own, f, fs.files[f])
    ensures var r, own2 := AddBlock(fs, f, b), own[b := Data(f, fs.files[f].blocks)];
            Near(fs, r, own, own2, f) && r.unused == Count(r.free) == fs.unused - 1
  {
    Takeable(fs, own, b);
    var d := fs.files[f];
    assert FileOk(fs, own, f, d);
    assert d.indirect != 0 ==> own[d.indirect] == Table(f);
    CountUpdate(fs.free, b, false);
    var r, own2 := AddBlock(fs, f, b), own[b := Data(f, d.blocks)];
    forall c | 0 <= c < |fs.disk| && c in own && !About(own[c], f)
      ensures r.disk[c] == fs.disk[c]
    {
    }
  }

  lemma {:induction false} AddBlockFree(fs: Fs, own: Owners, f: nat, b: nat, c: nat)
    requires Roomy(fs, own, f) && b < |fs.free| && fs.free[b] && c < |fs.free|
    requires b < |fs.disk| && fs.unused > 0 && DinShaped(fs, fs.files[f])
    ensures FreeOk(AddBlock(fs, f, b), own[b := Data(f, fs.files[f].blocks)], c)
  {
    assert FreeOk(fs, own, c) && FreeOk(fs, own, b);
  }

  /** Clearing the new block disturbs no map. */
  lemma {:induction false} AddBlockMap(fs: Fs, own: Owners, f: nat, b: nat, i: nat)
    requires Roomy(fs, own, f) && b < |fs.free| && b !in own && b < |fs.disk| && fs.unused > 0 && i < TIERS
    ensures FileOk(fs, own, f, fs.files[f])
    ensures var r, d := AddBlock(fs, f, b), fs.files[f];
            && Shaped(r) && DinShaped(r, r.files[f]) && r.files[f].indirect == d.indirect
            && r.files[f].blocks == d.blocks + 1
            && Bmap(r, r.files[f], i) == if i == d.blocks then b else Bmap(fs, d, i)
  {
    var d := fs.files[f];
    assert FileOk(fs, own, f, d);
    SetSlotMap(Take(fs, b), f, d.(blocks := d.blocks + 1), d.blocks, b, i);
  }

  lemma {:induction false} AddBlockFile(fs: Fs, own: Owners, f: nat, b: nat)
    requires Roomy(fs, own, f) && b < |fs.free| && b !in own && b < |fs.disk| && fs.unused > 0
    requires DinShaped(fs, fs.files[f])
    ensures var r, own2 := AddBlock(fs, f, b), own[b := Data(f, fs.files[f].blocks)];
            Shaped(r) && FileOk(r, own2, f, r.files[f])
  {
    var r, d := AddBlock(fs, f, b), fs.files[f];
    var own2 := own[b := Data(f, d.blocks)];
    assert FileOk(fs, own, f, d);
    forall i | 0 <= i < TIERS
      ensures Shaped(r) && DinShaped(r, r.files[f]) && SlotOk(r, own2, f, r.files[f], i)
    {
      AddBlockMap(fs, own, f, b, i);
      assert SlotOk(fs, own, f, d, i);
    }
    AddBlockMap(fs, own, f, b, 0);
  }

  lemma {:induction false} AddBlockOk(fs: Fs, own: Owners, f: nat, b: nat)
    requires Roomy(fs, own, f) && b < |fs.free| && fs.free[b]
    ensures b < |fs.disk| && fs.unused > 0 && b !in own && DinShaped(fs, fs.files[f])
    ensures Ok(AddBlock(fs, f, b), own[b := Data(f, fs.files[f].blocks)])
  {
    AddBlockNear(fs, own, f, b);
    AddBlockFile(fs, own, f, b);
    var r, own2 := AddBlock(fs, f, b), own[b := Data(f, fs.files[f].blocks)];
    forall c | 0 <= c < |r.free|
      ensures FreeOk(r, own2, c)
    {
      AddBlockFree(fs, own, f, b, c);
    }
    forall c | c in own2 && About(own2[c], f)
      ensures 0 <= c < |r.disk| && UseOk(r, own2, c)
    {
      if c != b {
        assert UseOk(fs, own, c);
      }
      if own2[c].Data? {
        AddBlockMap(fs, own, f, b, own2[c].i);
      }
    }
    NearOk(fs, r, own, own2, f);
  }

  /** The new block reads as zeros, all others as before. */
  lemma {:induction false} AddBlockContent(fs: Fs, own: Owners, f: nat, b: nat)
    requires Roomy(fs, own, f) && b < |fs.free| && fs.free[b]
    ensures b < |fs.disk| && fs.unused > 0 && DinShaped(fs, fs.files[f])
    ensures var r, n := AddBlock(fs, f, b), fs.files[f].blocks;
            && Shaped(r) && f in r.files && DinShaped(r, r.files[f])
            && Same(fs, r, f, n) && Content(r, f, n) == Zeros()
  {
    AddBlockNear(fs, own, f, b);
    var r, d := AddBlock(fs, f, b), fs.files[f];
    forall i | 0 <= i < d.blocks
      ensures Content(r, f, i) == Content(fs, f, i)
    {
      AddBlockMap(fs, own, f, b, i);
      assert SlotOk(fs, own, f, d, i);
      var c := Bmap(fs, d, i);
      assert own[c] == Data(f, i);
      assert UseOk(fs, own, c);
    }
    AddBlockMap(fs, own, f, b, d.blocks);
  }

  // ------------------------------------------------------------- one block less

  function DropBlock(fs: Fs, f: nat): (r: Fs)
    requires Shaped(fs) && f in fs.files && DinShaped(fs, fs.files[f]) && 0 < fs.files[f].blocks <= TIERS
    requires Bmap(fs, fs.files[f], fs.files[f].blocks - 1) < |fs.free|
  {
    var d := fs.files[f];
    var n := d.blocks - 1;
    SetSlot(Give(fs, Bmap(fs, d, n)), f, d.(blocks := n), n, 0)
  }

  ghost predicate Droppable(fs: Fs, own: Owners, f: nat)
  {
    Ok(fs, own) && f in fs.files && fs.files[f].blocks > 0
  }

  lemma {:induction false} LastBlock(fs: Fs, own: Owners, f: nat)
    requires Droppable(fs, own, f)
    ensures FileOk(fs, own, f, fs.files[f]) && 0 < fs.files[f].blocks <= TIERS
    ensures fs.files[f].blocks > NDIRECT ==> fs.files[f].indirect != 0
    ensures var n := fs.files[f].blocks - 1;
            var b := Bmap(fs, fs.files[f], n); 0 < b < |fs.disk| && !fs.free[b] && Owned(own, b, Data(f, n))
  {
    var d := fs.files[f];
    assert FileOk(fs, own, f, d);
    assert SlotOk(fs, own, f, d, d.blocks - 1);
    var b := Bmap(fs, d, d.blocks - 1);
    assert UseOk(fs, own, b) && FreeOk(fs, own, b);
  }

  lemma {:induction false} DropBlockMap(fs: Fs, own: Owners, f: nat, i: nat)
    requires Droppable(fs, own, f) && i < TIERS
    ensures FileOk(fs, own, f, fs.files[f]) && Bmap(fs, fs.files[f], fs.files[f].blocks - 1) < |fs.disk|
    ensures var r, d := DropBlock(fs, f), fs.files[f];
            && Shaped(r) && DinShaped(r, r.files[f]) && r.files[f].indirect == d.indirect
            && r.files[f].blocks == d.blocks - 1
            && Bmap(r, r.files[f], i) == if i == d.blocks - 1 then 0 else Bmap(fs, d, i)
  {
    LastBlock(fs, own, f);
    var d := fs.files[f];
    SetSlotMap(Give(fs, Bmap(fs, d, d.blocks - 1)), f, d.(blocks := d.blocks - 1), d.blocks - 1, 0, i);
  }

  lemma {:induction false} DropBlockNear(fs: Fs, own: Owners, f: nat)
    requires Droppable(fs, own, f)
    ensures FileOk(fs, own, f, fs.files[f]) && fs.files[f].blocks <= TIERS
    ensures Bmap(fs, fs.files[f], fs.files[f].blocks - 1) < |fs.disk|
    ensures var b, r := Bmap(fs, fs.files[f], fs.files[f].blocks - 1), DropBlock(fs, f);
            Near(fs, r, own, own - {b}, f) && r.unused == Count(r.free) == fs.unused + 1
  {
    LastBlock(fs, own, f);
    var d := fs.files[f];
    var b := Bmap(fs, d, d.blocks - 1);
    CountUpdate(fs.free, b, true);
    assert d.indirect != 0 ==> own[d.indirect] == Table(f);
    var r := DropBlock(fs, f);
    forall c | 0 <= c < |fs.disk| && c in own && !About(own[c], f)
      ensures r.disk[c] == fs.disk[c]
    {
    }
  }

  lemma {:induction false} DropBlockFile(fs: Fs, own: Owners, f: nat)
    requires Droppable(fs, own, f) && FileOk(fs, own, f, fs.files[f])
    requires Bmap(fs, fs.files[f], fs.files[f].blocks - 1) < |fs.disk|
    ensures var r := DropBlock(fs, f);
            Shaped(r) && FileOk(r, own - {Bmap(fs, fs.files[f], fs.files[f].blocks - 1)}, f, r.files[f])
  {
    var r, d := DropBlock(fs, f), fs.files[f];
    LastBlock(fs, own, f);
    var own2 := own - {Bmap(fs, d, d.blocks - 1)};
    forall i | 0 <= i < TIERS
      ensures Shaped(r) && DinShaped(r, r.files[f]) && SlotOk(r, own2, f, r.files[f], i)
    {
      DropBlockMap(fs, own, f, i);
      assert SlotOk(fs, own, f, d, i);
    }
    DropBlockMap(fs, own, f, 0);
  }

  lemma {:induction false} DropBlockOk(fs: Fs, own: Owners, f: nat)
    requires Droppable(fs, own, f)
    ensures FileOk(fs, own, f, fs.files[f]) && fs.files[f].blocks <= TIERS
    ensures var b := Bmap(fs, fs.files[f], fs.files[f].blocks - 1); b < |fs.disk| && Ok(DropBlock(fs, f), own - {b})
  {
    DropBlockNear(fs, own, f);
    LastBlock(fs, own, f);
    DropBlockFile(fs, own, f);
    var d := fs.files[f];
    var b := Bmap(fs, d, d.blocks - 1);
    var r, own2 := DropBlock(fs, f), own - {b};
    forall c | 0 <= c < |r.free|
      ensures FreeOk(r, own2, c)
    {
      assert FreeOk(fs, own, c);
    }
    forall c | c in own2 && About(own2[c], f)
      ensures 0 <= c < |r.disk| && UseOk(r, own2, c)
    {
      assert UseOk(fs, own, c);
      if own2[c].Data? {
        DropBlockMap(fs, own, f, own2[c].i);
      } else {
        DropBlockMap(fs, own, f, 0);
      }
    }
    NearOk(fs, r, own, own2, f);
  }

  lemma {:induction false} DropBlockContent(fs: Fs, own: Owners, f: nat)
    requires Droppable(fs, own, f)
    ensures FileOk(fs, own, f, fs.files[f]) && Bmap(fs, fs.files[f], fs.files[f].blocks - 1) < |fs.disk|
    ensures var r := DropBlock(fs, f);
            Shaped(r) && f in r.files && DinShaped(r, r.files[f]) && Same(fs, r, f, fs.files[f].blocks - 1)
  {
    LastBlock(fs, own, f);
    var r, d := DropBlock(fs, f), fs.files[f];
    DropBlockMap(fs, own, f, 0);
    forall i | 0 <= i < d.blocks - 1
      ensures Content(r, f, i) == Content(fs, f, i)
    {
      DropBlockMap(fs, own, f, i);
      assert SlotOk(fs, own, f, d, i);
      var c := Bmap(fs, d, i);
      assert own[c] == Data(f, i);
      assert UseOk(fs, own, c);
      assert d.indirect != 0 ==> own[d.indirect] == Table(f);
    }
  }
}
