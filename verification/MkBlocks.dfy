/** What the disk image tool writes: words into blocks, new inodes, and blocks appended to
    files, in the order in which the tool takes them. */
module MkBlocks {
  import opened SfsDisk
  import opened SfsMap
  import opened SfsBlocks
  import opened SfsBytes
  import opened SfsView
  import opened SfsIo
  import opened SfsFile

  // ------------------------------------------------------------------ words in blocks

  /** A block that starts with the given words, and is zero behind them. */
  function WordsBlock(ws: seq<nat>): (b: Block)
    requires |ws| <= NENTRY
    ensures |b| == BLKSIZE
  {
    seq(BLKSIZE, i requires 0 <= i < BLKSIZE => if i / 4 < |ws| then ByteOf(ws[i / 4], i % 4) else 0)
  }

  lemma {:induction false} GetSaved(ws: seq<nat>, i: nat)
    requires |ws| <= NENTRY && i < NENTRY && (i < |ws| ==> ws[i] < WORDS)
    ensures GetWord(WordsBlock(ws), i) == if i < |ws| then ws[i] else 0
  {
    assert (4 * i) / 4 == i && (4 * i + 1) / 4 == i && (4 * i + 2) / 4 == i && (4 * i + 3) / 4 == i;
    if i < |ws| {
      Digits(ws[i]);
    }
  }

  /** Type and link count of an inode, in one word. */
  type Kind = x: nat | x < WORDS

  /** The words of an inode: size, type and link count, blocks, the twelve direct entries,
      and the indirect one. */
  function DinWords(d: Din, kind: Kind): (ws: seq<nat>)
    requires |d.direct| == NDIRECT
    ensures |ws| == NDIRECT + 4 && ws[0] == d.size && ws[1] == kind && ws[2] == d.blocks
    ensures ws[NDIRECT + 3] == d.indirect
    ensures forall i {:trigger d.direct[i]} :: 0 <= i < NDIRECT ==> ws[3 + i] == d.direct[i]
  {
    [d.size, kind, d.blocks] + d.direct + [d.indirect]
  }

  /** flush_cache_inode */
  function SaveDin(d: Din, kind: Kind): (b: Block)
    requires |d.direct| == NDIRECT
    ensures |b| == BLKSIZE
  {
    WordsBlock(DinWords(d, kind))
  }

  function BlockWords(b: Block): (ws: seq<nat>)
    requires |b| == BLKSIZE
    ensures |ws| == NENTRY
  {
    seq(NENTRY, i requires 0 <= i < NENTRY => GetWord(b, i))
  }

  lemma {:induction false} WordsBack(ws: seq<nat>)
    requires |ws| <= NENTRY && forall i {:trigger ws[i]} :: 0 <= i < |ws| ==> ws[i] < WORDS
    ensures BlockWords(WordsBlock(ws))[..|ws|] == ws
  {
    var b := WordsBlock(ws);
    forall i | 0 <= i < |ws|
      ensures BlockWords(b)[i] == ws[i]
    {
      GetSaved(ws, i);
    }
  }

  function DinOf(ws: seq<nat>): Din
    requires |ws| >= NDIRECT + 4
  {
    Din(ws[0], ws[2], ws[3..3 + NDIRECT], ws[NDIRECT + 3])
  }

  /** What loading an inode from its block finds. */
  function LoadDin(b: Block): Din
    requires |b| == BLKSIZE
  {
    DinOf(BlockWords(b))
  }

  ghost predicate Storable(d: Din) {
    && |d.direct| == NDIRECT && d.size < WORDS && d.blocks < WORDS && d.indirect < WORDS
    && forall i {:trigger d.direct[i]} :: 0 <= i < NDIRECT ==> d.direct[i] < WORDS
  }

  lemma {:induction false} LoadSaved(d: Din, kind: Kind)
    requires Storable(d)
    ensures LoadDin(SaveDin(d, kind)) == d
  {
    var ws := DinWords(d, kind);
    forall i | 0 <= i < |ws|
      ensures ws[i] < WORDS
    {
      if 3 <= i < 3 + NDIRECT {
        assert ws[i] == d.direct[i - 3];
      }
    }
    WordsBack(ws);
    SameDin(BlockWords(SaveDin(d, kind)), d, kind);
  }

  lemma {:induction false} SameDin(ws: seq<nat>, d: Din, kind: Kind)
    requires |d.direct| == NDIRECT && |ws| >= NDIRECT + 4 && ws[..NDIRECT + 4] == DinWords(d, kind)
    ensures DinOf(ws) == d
  {
    assert forall i :: 0 <= i < NDIRECT + 4 ==> ws[i] == ws[..NDIRECT + 4][i];
    assert DinOf(ws).direct == d.direct;
  }

  /** Block numbers of a consistent disk fit into words. */
  lemma {:induction false} OkStorable(fs: Fs, own: Owners, f: nat)
    requires Ok(fs, own) && f in fs.files && fs.files[f].size <= BLKSIZE * TIERS && |fs.disk| < WORDS
    ensures Storable(fs.files[f])
  {
    var d := fs.files[f];
    assert FileOk(fs, own, f, d);
    forall i | 0 <= i < NDIRECT
      ensures d.direct[i] < WORDS
    {
      assert SlotOk(fs, own, f, d, i);
      if i < d.blocks {
        assert UseOk(fs, own, d.direct[i]);
      }
    }
  }

  // -------------------------------------------------------------------- a new inode

  function EmptyDin(): Din {
    Din(0, 0, Unset(), 0)
  }

  function AddNode(fs: Fs, b: nat): Fs
    requires b < |fs.free| && fs.unused > 0
  {
    fs.(free := fs.free[b := false], unused := fs.unused - 1, files := fs.files[b := EmptyDin()])
  }

  lemma {:induction false} AddNodeOk(fs: Fs, own: Owners, b: nat)
    requires Ok(fs, own) && b < |fs.free| && fs.free[b]
    ensures b < |fs.disk| && b !in own && b !in fs.files && fs.unused > 0
    ensures Ok(AddNode(fs, b), own[b := Node(b)])
  {
    Takeable(fs, own, b);
    CountUpdate(fs.free, b, false);
    if b in fs.files {
      assert FileOk(fs, own, b, fs.files[b]);
    }
    var r, own2 := AddNode(fs, b), own[b := Node(b)];
    forall c | 0 <= c < |r.free|
      ensures FreeOk(r, own2, c)
    {
      assert FreeOk(fs, own, c);
    }
    forall c | c in own2
      ensures 0 <= c < |r.disk| && UseOk(r, own2, c)
    {
      if c != b {
        assert UseOk(fs, own, c);
      }
    }
    forall g | g in r.files
      ensures FileOk(r, own2, g, r.files[g])
    {
      NodeFile(fs, own, b, g);
    }
  }

  lemma {:induction false} NodeFile(fs: Fs, own: Owners, b: nat, g: nat)
    requires Ok(fs, own) && b < |fs.free| && fs.unused > 0 && b !in own && b < |fs.disk| && g in AddNode(fs, b).files
    ensures var r := AddNode(fs, b); Shaped(r) && FileOk(r, own[b := Node(b)], g, r.files[g])
  {
    var r, own2 := AddNode(fs, b), own[b := Node(b)];
    if g != b {
      assert FileOk(fs, own, g, fs.files[g]);
    }
    forall i | 0 <= i < TIERS
      ensures SlotOk(r, own2, g, r.files[g], i)
    {
      if g != b {
        assert SlotOk(fs, own, g, fs.files[g], i);
      }
    }
  }

  /** The other files stay, and the new one is empty. */
  lemma {:induction false} AddNodeView(fs: Fs, own: Owners, b: nat)
    requires Ok(fs, own) && b < |fs.free| && fs.free[b]
    ensures b !in fs.files && fs.unused > 0
    ensures var r := AddNode(fs, b); forall g {:trigger Kept(fs, r, g)} :: g in fs.files ==> Kept(fs, r, g)
  {
    AddNodeOk(fs, own, b);
    var r := AddNode(fs, b);
    forall g | g in fs.files
      ensures Kept(fs, r, g)
    {
      OkHas(fs, own, g);
      OkHas(r, own[b := Node(b)], g);
      assert Blocks(r, g) == Blocks(fs, g);
    }
  }

  // ------------------------------------------------------------- one block of a file

  /** `data` in block `b` as the next block of file `f`, through a new table in block `e`
      where the file needs one. */
  ghost function Stuffed(fs: Fs, f: nat, b: nat, e: nat, data: seq<Byte>): (r: Fs)
    requires Stuffable(fs, f, b, e, data)
  {
    Filled(if NeedsTable(fs, f) then AddTable(fs, f, e) else fs, f, b, data)
  }

  ghost predicate Stuffable(fs: Fs, f: nat, b: nat, e: nat, data: seq<Byte>) {
    && Shaped(fs) && f in fs.files && DinShaped(fs, fs.files[f]) && fs.files[f].blocks < TIERS && |data| <= BLKSIZE
    && b < |fs.disk| && b < |fs.free| && fs.unused > 0
    && (NeedsTable(fs, f) ==> e < |fs.disk| && e < |fs.free| && fs.unused > 1 && Shaped(AddTable(fs, f, e)))
  }

  ghost function StuffedOwners(fs: Fs, own: Owners, f: nat, b: nat, e: nat): Owners
    requires f in fs.files
  {
    (if NeedsTable(fs, f) then own[e := Table(f)] else own)[b := Data(f, fs.files[f].blocks)]
  }

  lemma {:induction false} StuffedReady(fs: Fs, own: Owners, f: nat, b: nat, e: nat, data: seq<Byte>)
    requires Ok(fs, own) && f in fs.files && fs.files[f].blocks < TIERS && |data| <= BLKSIZE
    requires b < |fs.free| && fs.free[b] && (NeedsTable(fs, f) ==> e < |fs.free| && fs.free[e] && e != b)
    ensures Stuffable(fs, f, b, e, data) && Has(fs, f)
    ensures NeedsTable(fs, f) ==> e < |fs.disk| && e !in own
    ensures var t := if NeedsTable(fs, f) then AddTable(fs, f, e) else fs;
            var o := if NeedsTable(fs, f) then own[e := Table(f)] else own;
            && Roomy(t, o, f) && t.free[b] && Others(fs, t, f) && Has(t, f) && Blocks(t, f) == Blocks(fs, f)
            && t.files[f].size == fs.files[f].size && t.files[f].blocks == fs.files[f].blocks
  {
    assert FileOk(fs, own, f, fs.files[f]);
    OkHas(fs, own, f);
    Takeable(fs, own, b);
    GrownNone(fs, own, f);
    if NeedsTable(fs, f) {
      assert SlotOk(fs, own, f, fs.files[f], NDIRECT);
      AddTableOk(fs, own, f, e);
      AddTableView(fs, own, f, e);
      var t := AddTable(fs, f, e);
      Takeable(t, own[e := Table(f)], b);
    }
  }

  ghost function Filled(t: Fs, f: nat, b: nat, data: seq<Byte>): (r: Fs)
    requires Shaped(t) && f in t.files && DinShaped(t, t.files[f]) && t.files[f].blocks < TIERS && |data| <= BLKSIZE
    requires b < |t.disk| && b < |t.free| && t.unused > 0
  {
    Resized(PutBlock(AddBlock(t, f, b), b, Pad(data, BLKSIZE)), f, t.files[f].size + |data|)
  }

  /** The same, with the table in place. */
  lemma {:induction false} FilledOk(t: Fs, own: Owners, f: nat, b: nat, data: seq<Byte>)
    requires Roomy(t, own, f) && b < |t.free| && t.free[b] && |data| <= BLKSIZE
    ensures Has(t, f) && b < |t.disk| && t.unused > 0
    ensures var r := Filled(t, f, b, data);
            && Ok(r, own[b := Data(f, t.files[f].blocks)]) && Others(t, r, f) && Has(r, f)
            && r.files[f].blocks == t.files[f].blocks + 1 && r.files[f].size == t.files[f].size + |data|
            && r.files[f].indirect == t.files[f].indirect && Raw(r, f) == Raw(t, f) + Pad(data, BLKSIZE)
  {
    var n, o := t.files[f].blocks, own[b := Data(f, t.files[f].blocks)];
    AddBlockOk(t, own, f, b);
    AddBlockView(t, own, f, b);
    AddBlockMap(t, own, f, b, n);
    var a := AddBlock(t, f, b);
    PutView(a, o, f, n, Pad(data, BLKSIZE));
    var p := PutBlock(a, b, Pad(data, BLKSIZE));
    OkResized(p, o, t.files[f].size + |data|, f);
    OthersTrans(t, a, p, f);
    OthersTrans(t, p, Filled(t, f, b, data), f);
    assert Blocks(p, f) == Blocks(t, f) + [Pad(data, BLKSIZE)];
    FlatMore(Blocks(t, f), Pad(data, BLKSIZE));
  }

  /** The file has the block more; nothing else is seen. */
  lemma {:induction false} StuffedOk(fs: Fs, own: Owners, f: nat, b: nat, e: nat, data: seq<Byte>)
    requires Ok(fs, own) && f in fs.files && fs.files[f].blocks < TIERS && |data| <= BLKSIZE
    requires b < |fs.free| && fs.free[b] && (NeedsTable(fs, f) ==> e < |fs.free| && fs.free[e] && e != b)
    ensures Stuffable(fs, f, b, e, data) && Has(fs, f)
    ensures var r := Stuffed(fs, f, b, e, data);
            && Ok(r, StuffedOwners(fs, own, f, b, e)) && Others(fs, r, f) && Has(r, f)
            && r.files[f].blocks == fs.files[f].blocks + 1 && r.files[f].size == fs.files[f].size + |data|
            && Raw(r, f) == Raw(fs, f) + Pad(data, BLKSIZE)
  {
    StuffedReady(fs, own, f, b, e, data);
    if NeedsTable(fs, f) {
      var t := AddTable(fs, f, e);
      FilledOk(t, own[e := Table(f)], f, b, data);
      OthersTrans(fs, t, Filled(t, f, b, data), f);
    } else {
      FilledOk(fs, own, f, b, data);
    }
  }

  /** A file all of whose blocks are full gains the data as bytes. */
  lemma {:induction false} FullBytes(fs: Fs, own: Owners, r: Fs, f: nat, data: seq<Byte>)
    requires Ok(fs, own) && f in fs.files && fs.files[f].size == BLKSIZE * fs.files[f].blocks && |data| <= BLKSIZE
    requires Has(fs, f) && Has(r, f) && Raw(r, f) == Raw(fs, f) + Pad(data, BLKSIZE)
    requires r.files[f].size == fs.files[f].size + |data|
    ensures fs.files[f].size <= |Raw(fs, f)| && r.files[f].size <= |Raw(r, f)| && Bytes(r, f) == Bytes(fs, f) + data
  {
    OkHas(fs, own, f);
  }

  // ------------------------------------------------------------ the rest of the disk

  /** Blocks that hold neither a table nor data of a file may hold anything. */
  lemma {:induction false} ElsewhereOk(fs: Fs, own: Owners, disk: seq<Block>)
    requires Ok(fs, own) && |disk| == |fs.disk|
    requires forall b {:trigger disk[b]} :: 0 <= b < |disk| ==> |disk[b]| == BLKSIZE
    requires forall b {:trigger disk[b]} ::
               0 <= b < |disk| && b in own && (own[b].Table? || own[b].Data?) ==> disk[b] == fs.disk[b]
    ensures var r := fs.(disk := disk);
            Ok(r, own) && forall g {:trigger Kept(fs, r, g)} :: g in fs.files ==> Kept(fs, r, g)
  {
    var r := fs.(disk := disk);
    forall f | f in fs.files
      ensures FileOk(r, own, f, r.files[f]) && Kept(fs, r, f)
    {
      ElsewhereFile(fs, own, disk, f);
    }
    forall b | b in own
      ensures 0 <= b < |r.disk| && UseOk(r, own, b)
    {
      assert UseOk(fs, own, b);
      if own[b].Data? {
        ElsewhereSlot(fs, own, disk, own[b].f, own[b].i);
      }
    }
    forall b | 0 <= b < |r.free|
      ensures FreeOk(r, own, b)
    {
      assert FreeOk(fs, own, b);
    }
  }

  lemma {:induction false} ElsewhereSlot(fs: Fs, own: Owners, disk: seq<Block>, f: nat, i: nat)
    requires Ok(fs, own) && |disk| == |fs.disk|
    requires forall b {:trigger disk[b]} :: 0 <= b < |disk| ==> |disk[b]| == BLKSIZE
    requires forall b {:trigger disk[b]} ::
               0 <= b < |disk| && b in own && (own[b].Table? || own[b].Data?) ==> disk[b] == fs.disk[b]
    requires f in fs.files && i < TIERS
    ensures var r := fs.(disk := disk);
            && Shaped(r) && DinShaped(fs, fs.files[f]) && DinShaped(r, fs.files[f])
            && Bmap(r, fs.files[f], i) == Bmap(fs, fs.files[f], i)
            && SlotOk(r, own, f, fs.files[f], i) && (i < fs.files[f].blocks ==> Content(r, f, i) == Content(fs, f, i))
  {
    var d := fs.files[f];
    assert FileOk(fs, own, f, d);
    assert SlotOk(fs, own, f, d, i);
    if i < d.blocks {
      var b := Bmap(fs, d, i);
      assert UseOk(fs, own, b);
      assert disk[b] == fs.disk[b];
    }
    if d.indirect != 0 {
      assert disk[d.indirect] == fs.disk[d.indirect];
    }
  }

  lemma {:induction false} ElsewhereFile(fs: Fs, own: Owners, disk: seq<Block>, f: nat)
    requires Ok(fs, own) && |disk| == |fs.disk|
    requires forall b {:trigger disk[b]} :: 0 <= b < |disk| ==> |disk[b]| == BLKSIZE
    requires forall b {:trigger disk[b]} ::
               0 <= b < |disk| && b in own && (own[b].Table? || own[b].Data?) ==> disk[b] == fs.disk[b]
    requires f in fs.files
    ensures var r := fs.(disk := disk); Shaped(r) && FileOk(r, own, f, fs.files[f]) && Kept(fs, r, f)
  {
    var r := fs.(disk := disk);
    assert FileOk(fs, own, f, fs.files[f]);
    forall i | 0 <= i < TIERS
      ensures SlotOk(r, own, f, fs.files[f], i) && (i < fs.files[f].blocks ==> Content(r, f, i) == Content(fs, f, i))
    {
      ElsewhereSlot(fs, own, disk, f, i);
    }
    assert Blocks(r, f) == Blocks(fs, f);
  }

  // -------------------------------------------------------- the image under construction

  const MAX_NBLKS: nat := 1024 * 512
  const BLKN_FREEMAP: nat := 2
  /** Bits in a block. */
  const BLKBITS: nat := BLKSIZE * 8

  /** The blocks the free map of `n` blocks takes. */
  function MapBlocks(n: nat): nat {
    (n + BLKBITS - 1) / BLKBITS
  }

  /** What the tool keeps: the next block to hand out and the count of those left, the blocks
      written, indirect blocks and inodes that are not written yet, and the indirect block
      each inode has at hand. */
  datatype Parts = Parts(next: nat, unused: nat, disk: seq<Block>,
                         caches: map<nat, Block>, inodes: map<nat, Din>, l1: map<nat, nat>)

  function Shown(disk: seq<Block>, caches: map<nat, Block>): (r: seq<Block>)
    ensures |r| == |disk|
  {
    seq(|disk|, b requires 0 <= b < |disk| => if b in caches then caches[b] else disk[b])
  }

  /** The bits of the blocks not handed out. */
  function FreeBits(n: nat, next: nat): (bits: seq<bool>)
    ensures |bits| == MapBlocks(n) * BLKBITS && |bits| >= n
  {
    seq(MapBlocks(n) * BLKBITS, b => next <= b < n)
  }

  /** The file system the image is to be. */
  function View(p: Parts): Fs {
    Fs(Shown(p.disk, p.caches), FreeBits(|p.disk|, p.next), p.unused, p.inodes)
  }

  ghost predicate Numbers(p: Parts) {
    && BLKN_FREEMAP + MapBlocks(|p.disk|) <= p.next <= |p.disk| <= MAX_NBLKS && p.unused == |p.disk| - p.next
    && forall b {:trigger p.disk[b]} :: 0 <= b < |p.disk| ==> |p.disk[b]| == BLKSIZE
  }

  ghost predicate CacheOk(p: Parts, own: Owners, e: nat)
    requires e in p.caches
  {
    e < p.next && |p.caches[e]| == BLKSIZE && e in own && own[e].Table?
  }

  ghost predicate InodeOk(p: Parts, f: nat)
    requires f in p.inodes
  {
    var d := p.inodes[f];
    && f in p.l1 && p.l1[f] == d.indirect && (d.indirect != 0 ==> d.indirect in p.caches)
    && d.size <= BLKSIZE * d.blocks
  }

  /** Super block and free map. */
  ghost predicate Reserved(own: Owners, n: nat) {
    forall b {:trigger Owned(own, b, System)} ::
      b == 0 || BLKN_FREEMAP <= b < BLKN_FREEMAP + MapBlocks(n) ==> Owned(own, b, System)
  }

  ghost predicate Building(p: Parts, own: Owners) {
    && Numbers(p) && Ok(View(p), own) && Reserved(own, |p.disk|)
    && (forall e {:trigger CacheOk(p, own, e)} :: e in p.caches ==> CacheOk(p, own, e))
    && (forall f {:trigger InodeOk(p, f)} :: f in p.inodes ==> InodeOk(p, f))
  }

  // ------------------------------------------------------------------------ its steps

  function NodeAdded(p: Parts): Parts
    requires p.unused > 0
  {
    p.(next := p.next + 1, unused := p.unused - 1, inodes := p.inodes[p.next := EmptyDin()], l1 := p.l1[p.next := 0])
  }

  lemma {:induction false} NodeBuilding(p: Parts, own: Owners)
    requires Building(p, own) && p.unused > 0
    ensures Building(NodeAdded(p), own[p.next := Node(p.next)])
    ensures p.next !in p.inodes && View(NodeAdded(p)) == AddNode(View(p), p.next)
  {
    var fs, b := View(p), p.next;
    AddNodeOk(fs, own, b);
    var q, own2 := NodeAdded(p), own[b := Node(b)];
    assert FreeBits(|p.disk|, b)[b := false] == FreeBits(|p.disk|, b + 1);
    assert View(q) == AddNode(fs, b);
    forall e | e in q.caches
      ensures CacheOk(q, own2, e)
    {
      assert CacheOk(p, own, e);
    }
    forall f | f in q.inodes
      ensures InodeOk(q, f)
    {
      if f != b {
        assert InodeOk(p, f);
      }
    }
    StillReserved(own, own2, |p.disk|);
  }

  /** An indirect block for file `f`, if it has none. */
  function TableAdded(p: Parts, f: nat): Parts
    requires f in p.inodes && (p.inodes[f].indirect == 0 ==> p.unused > 0)
  {
    if p.inodes[f].indirect != 0 then p
    else p.(next := p.next + 1, unused := p.unused - 1, caches := p.caches[p.next := Zeros()],
            inodes := p.inodes[f := p.inodes[f].(indirect := p.next)], l1 := p.l1[f := p.next])
  }

  /** Block `ino` as the next block of file `f`, `size` bytes of which count. */
  function Linked(p: Parts, f: nat, size: nat, ino: nat): Parts
    requires f in p.inodes && f in p.l1 && |p.inodes[f].direct| == NDIRECT && p.inodes[f].blocks < TIERS
    requires p.inodes[f].blocks >= NDIRECT ==> p.l1[f] in p.caches && |p.caches[p.l1[f]]| == BLKSIZE
  {
    var d := p.inodes[f];
    var n := d.blocks;
    var more := d.(size := d.size + size, blocks := n + 1);
    if n < NDIRECT then p.(inodes := p.inodes[f := more.(direct := d.direct[n := ino])])
    else p.(inodes := p.inodes[f := more], caches := p.caches[p.l1[f] := PutWord(p.caches[p.l1[f]], n - NDIRECT, ino)])
  }

  /** `data` written to the next block. */
  function DataWritten(p: Parts, data: seq<Byte>): Parts
    requires p.next < |p.disk| && p.unused > 0 && |data| <= BLKSIZE
  {
    p.(next := p.next + 1, unused := p.unused - 1, disk := p.disk[p.next := Pad(data, BLKSIZE)])
  }

  /** How many blocks the next block of `f` takes. */
  function Need(p: Parts, f: nat): (n: nat)
    requires f in p.inodes
  {
    if p.inodes[f].blocks >= NDIRECT && p.inodes[f].indirect == 0 then 2 else 1
  }

  ghost predicate Addable(p: Parts, own: Owners, f: nat, data: seq<Byte>) {
    Building(p, own) && f in p.inodes && p.inodes[f].blocks < TIERS && |data| <= BLKSIZE && p.unused >= Need(p, f)
  }

  /** What append_block relies on. */
  ghost predicate Linkable(p: Parts, f: nat) {
    && f in p.inodes && f in p.l1 && p.l1[f] == p.inodes[f].indirect && |p.inodes[f].direct| == NDIRECT
    && (p.l1[f] != 0 ==> p.l1[f] in p.caches && |p.caches[p.l1[f]]| == BLKSIZE)
  }

  lemma {:induction false} LinkableHere(p: Parts, own: Owners, f: nat)
    requires Building(p, own) && f in p.inodes
    ensures Linkable(p, f)
  {
    assert InodeOk(p, f) && FileOk(View(p), own, f, p.inodes[f]);
    assert p.l1[f] != 0 ==> CacheOk(p, own, p.l1[f]);
  }

  /** The data goes to the next block, then a table is made if need be, and then the block
      is linked. */
  function Added(p: Parts, f: nat, data: seq<Byte>): Parts
    requires p.next < |p.disk| && p.unused > 0 && |data| <= BLKSIZE
    requires f in p.inodes && p.unused >= Need(p, f) && f in p.l1 && |p.inodes[f].direct| == NDIRECT
    requires p.inodes[f].blocks < TIERS
    requires p.l1[f] == p.inodes[f].indirect && (p.l1[f] != 0 ==> p.l1[f] in p.caches && |p.caches[p.l1[f]]| == BLKSIZE)
  {
    var w := DataWritten(p, data);
    Linked(if p.inodes[f].blocks >= NDIRECT then TableAdded(w, f) else w, f, |data|, p.next)
  }

  lemma {:induction false} AddedReady(p: Parts, own: Owners, f: nat, data: seq<Byte>)
    requires Addable(p, own, f, data)
    ensures Added.requires(p, f, data)
    ensures var fs, b := View(p), p.next;
            && b < |fs.free| && fs.free[b] && b !in own && b != 0
            && (Need(p, f) == 2 ==> b + 1 < |fs.free| && fs.free[b + 1] && b + 1 !in own && b + 1 < |p.disk|)
  {
    LinkableHere(p, own, f);
    Takeable(View(p), own, p.next);
    if Need(p, f) == 2 {
      Takeable(View(p), own, p.next + 1);
    }
  }

  /** The part of this that does not depend on owners. */
  ghost predicate Plain(p: Parts, f: nat, data: seq<Byte>) {
    && Numbers(p) && Shaped(View(p)) && f in p.inodes && p.inodes[f].blocks < TIERS && |data| <= BLKSIZE
    && p.unused >= Need(p, f)
    && DinShaped(View(p), p.inodes[f]) && p.next != 0 && p.next !in p.caches && p.next + 1 !in p.caches
    && f in p.l1 && p.l1[f] == p.inodes[f].indirect
    && (p.l1[f] != 0 ==> p.l1[f] in p.caches && |p.caches[p.l1[f]]| == BLKSIZE && p.l1[f] < p.next)
  }

  lemma {:induction false} ShownData(disk: seq<Block>, caches: map<nat, Block>, b: nat, d: Block)
    requires b < |disk| && b !in caches
    ensures Shown(disk[b := d], caches) == Shown(disk, caches)[b := Zeros()][b := d]
  {
  }

  lemma {:induction false} ShownTable(disk: seq<Block>, caches: map<nat, Block>, b: nat, d: Block, e: nat, t: Block)
    requires b < |disk| && e < |disk| && b !in caches && e != b
    ensures Shown(disk[b := d], caches[e := t]) == Shown(disk, caches)[b := Zeros()][e := t][b := d]
    ensures Shown(disk[b := d], caches[e := t]) == Shown(disk, caches)[e := Zeros()][b := Zeros()][e := t][b := d]
  {
  }

  lemma {:induction false} FewerFree(n: nat, b: nat)
    requires b < n
    ensures FreeBits(n, b)[b := false] == FreeBits(n, b + 1)
    ensures b + 1 < n ==> FreeBits(n, b)[b + 1 := false][b := false] == FreeBits(n, b + 2)
  {
  }

  lemma {:induction false} DirectView(p: Parts, f: nat, data: seq<Byte>)
    requires Plain(p, f, data) && p.inodes[f].blocks < NDIRECT && Stuffable(View(p), f, p.next, p.next + 1, data)
    ensures View(Added(p, f, data)) == Stuffed(View(p), f, p.next, p.next + 1, data)
  {
    FewerFree(|p.disk|, p.next);
    ShownData(p.disk, p.caches, p.next, Pad(data, BLKSIZE));
  }

  lemma {:induction false} TableView(p: Parts, f: nat, data: seq<Byte>)
    requires Plain(p, f, data) && p.inodes[f].blocks >= NDIRECT && p.l1[f] != 0
    requires Stuffable(View(p), f, p.next, p.next + 1, data)
    ensures View(Added(p, f, data)) == Stuffed(View(p), f, p.next, p.next + 1, data)
  {
    var e := p.l1[f];
    FewerFree(|p.disk|, p.next);
    assert View(p).disk[e] == p.caches[e];
    ShownTable(p.disk, p.caches, p.next, Pad(data, BLKSIZE), e,
        PutWord(p.caches[e], p.inodes[f].blocks - NDIRECT, p.next));
  }

  /** All that changes when a table is made on the way. */
  lemma {:induction false} FreshParts(p: Parts, f: nat, data: seq<Byte>)
    requires Plain(p, f, data) && p.inodes[f].blocks >= NDIRECT && p.l1[f] == 0
    ensures var d, b, q := p.inodes[f], p.next, Added(p, f, data);
            && q.next == b + 2 && q.unused == p.unused - 2 && q.disk == p.disk[b := Pad(data, BLKSIZE)]
            && q.caches == p.caches[b + 1 := PutWord(Zeros(), d.blocks - NDIRECT, b)]
            && q.inodes == p.inodes[f := Din(d.size + |data|, d.blocks + 1, d.direct, b + 1)]
  {
  }

  lemma {:induction false} FreshView(p: Parts, f: nat, data: seq<Byte>)
    requires Plain(p, f, data) && p.inodes[f].blocks >= NDIRECT && p.l1[f] == 0
    requires Stuffable(View(p), f, p.next, p.next + 1, data)
    ensures View(Added(p, f, data)) == Stuffed(View(p), f, p.next, p.next + 1, data)
  {
    FreshParts(p, f, data);
    FreshSame(p, Added(p, f, data), f, data);
  }

  lemma {:induction false} FreshSame(p: Parts, q: Parts, f: nat, data: seq<Byte>)
    requires Plain(p, f, data) && p.inodes[f].blocks >= NDIRECT && p.l1[f] == 0
    requires Stuffable(View(p), f, p.next, p.next + 1, data)
    requires var d, b := p.inodes[f], p.next;
             && q.next == b + 2 && q.unused == p.unused - 2 && q.disk == p.disk[b := Pad(data, BLKSIZE)]
             && q.caches == p.caches[b + 1 := PutWord(Zeros(), d.blocks - NDIRECT, b)]
             && q.inodes == p.inodes[f := Din(d.size + |data|, d.blocks + 1, d.direct, b + 1)]
    ensures View(q) == Stuffed(View(p), f, p.next, p.next + 1, data)
  {
    var b, t := p.next, PutWord(Zeros(), p.inodes[f].blocks - NDIRECT, p.next);
    FewerFree(|p.disk|, b);
    ShownTable(p.disk, p.caches, b, Pad(data, BLKSIZE), b + 1, t);
  }

  lemma {:induction false} AddedPlain(p: Parts, own: Owners, f: nat, data: seq<Byte>)
    requires Addable(p, own, f, data)
    ensures Plain(p, f, data)
  {
    AddedReady(p, own, f, data);
    assert InodeOk(p, f) && FileOk(View(p), own, f, p.inodes[f]);
    assert p.next in p.caches ==> CacheOk(p, own, p.next);
    assert p.next + 1 in p.caches ==> CacheOk(p, own, p.next + 1);
    assert p.l1[f] != 0 ==> CacheOk(p, own, p.l1[f]);
  }

  lemma {:induction false} AddedView(p: Parts, f: nat, data: seq<Byte>)
    requires Plain(p, f, data) && Stuffable(View(p), f, p.next, p.next + 1, data)
    ensures View(Added(p, f, data)) == Stuffed(View(p), f, p.next, p.next + 1, data)
  {
    if p.inodes[f].blocks < NDIRECT {
      DirectView(p, f, data);
    } else if p.l1[f] != 0 {
      TableView(p, f, data);
    } else {
      FreshView(p, f, data);
    }
  }

  lemma {:induction false} AddedCache(p: Parts, own: Owners, f: nat, data: seq<Byte>, e: nat)
    requires Plain(p, f, data) && e in Added(p, f, data).caches && (e in p.caches ==> CacheOk(p, own, e))
    requires p.next !in own
    ensures CacheOk(Added(p, f, data), StuffedOwners(View(p), own, f, p.next, p.next + 1), e)
  {
  }

  lemma {:induction false} AddedInode(p: Parts, f: nat, data: seq<Byte>, g: nat)
    requires Plain(p, f, data) && InodeOk(p, f) && g in p.inodes && InodeOk(p, g)
    ensures g in Added(p, f, data).inodes && InodeOk(Added(p, f, data), g)
  {
  }

  lemma {:induction false} AddedNumbers(p: Parts, f: nat, data: seq<Byte>)
    requires Plain(p, f, data)
    ensures Numbers(Added(p, f, data)) && |Added(p, f, data).disk| == |p.disk|
  {
  }

  lemma {:induction false} StillReserved(own: Owners, own2: Owners, n: nat)
    requires Reserved(own, n) && forall c {:trigger own[c]} :: c in own ==> Owned(own2, c, own[c])
    ensures Reserved(own2, n)
  {
    forall c | c == 0 || BLKN_FREEMAP <= c < BLKN_FREEMAP + MapBlocks(n)
      ensures Owned(own2, c, System)
    {
      assert Owned(own, c, System);
    }
  }

  /** File `f` has a block with the data more; nothing else is seen. */
  ghost predicate Longer(fs: Fs, r: Fs, f: nat, data: seq<Byte>) {
    && |data| <= BLKSIZE && Others(fs, r, f) && Has(fs, f) && Has(r, f) && Raw(r, f) == Raw(fs, f) + Pad(data, BLKSIZE)
    && r.files[f].blocks == fs.files[f].blocks + 1 && r.files[f].size == fs.files[f].size + |data|
  }

  /** What a block more means. */
  lemma {:induction false} DataAdded(p: Parts, own: Owners, f: nat, data: seq<Byte>) returns (o: Owners)
    requires Addable(p, own, f, data)
    ensures Added.requires(p, f, data) && Has(View(p), f)
    ensures var q := Added(p, f, data);
            && Building(q, o) && |q.disk| == |p.disk| && q.unused == p.unused - Need(p, f)
            && q.inodes.Keys == p.inodes.Keys
            && Longer(View(p), View(q), f, data)
            && (q.inodes[f].indirect == 0 <==> p.inodes[f].indirect == 0 && Need(p, f) == 1)
  {
    AddedReady(p, own, f, data);
    AddedPlain(p, own, f, data);
    o := DataLonger(p, own, f, data);
    AddedNumbers(p, f, data);
    AddedRest(p, own, o, f, data);
  }

  lemma {:induction false} DataLonger(p: Parts, own: Owners, f: nat, data: seq<Byte>) returns (o: Owners)
    requires Addable(p, own, f, data) && Plain(p, f, data) && p.next < |View(p).free| && View(p).free[p.next]
    requires Need(p, f) == 2 ==> p.next + 1 < |View(p).free| && View(p).free[p.next + 1]
    ensures o == StuffedOwners(View(p), own, f, p.next, p.next + 1)
    ensures Ok(View(Added(p, f, data)), o) && Longer(View(p), View(Added(p, f, data)), f, data)
  {
    StuffedOk(View(p), own, f, p.next, p.next + 1, data);
    AddedView(p, f, data);
    o := StuffedOwners(View(p), own, f, p.next, p.next + 1);
  }

  lemma {:induction false} AddedRest(p: Parts, own: Owners, o: Owners, f: nat, data: seq<Byte>)
    requires Plain(p, f, data) && p.next !in own && o == StuffedOwners(View(p), own, f, p.next, p.next + 1)
    requires Need(p, f) == 2 ==> p.next + 1 !in own
    requires Reserved(own, |p.disk|) && (forall e {:trigger CacheOk(p, own, e)} :: e in p.caches ==> CacheOk(p, own, e))
    requires forall g {:trigger InodeOk(p, g)} :: g in p.inodes ==> InodeOk(p, g)
    ensures var q := Added(p, f, data);
            && Reserved(o, |p.disk|) && (forall e {:trigger CacheOk(q, o, e)} :: e in q.caches ==> CacheOk(q, o, e))
            && (forall g {:trigger InodeOk(q, g)} :: g in q.inodes ==> InodeOk(q, g))
  {
    var q := Added(p, f, data);
    StillReserved(own, o, |p.disk|);
    assert InodeOk(p, f);
    forall e | e in q.caches
      ensures CacheOk(q, o, e)
    {
      assert e in p.caches ==> CacheOk(p, own, e);
      AddedCache(p, own, f, data, e);
    }
    forall g | g in q.inodes
      ensures InodeOk(q, g)
    {
      assert InodeOk(p, g);
      AddedInode(p, f, data, g);
    }
  }

  // ------------------------------------------------------------- opening and closing

  const BLKN_ROOT: nat := 1

  /** The bits from `lo` up to `hi` are set, and no others. */
  ghost predicate Range(bits: seq<bool>, lo: int, hi: int) {
    forall b {:trigger bits[b]} :: 0 <= b < |bits| ==> (bits[b] <==> lo <= b < hi)
  }

  lemma {:induction false} CountRange(bits: seq<bool>, lo: int, hi: int)
    requires Range(bits, lo, hi) && 0 <= lo <= hi <= |bits|
    ensures Count(bits) == hi - lo
  {
    if bits != [] {
      var rest := bits[1..];
      assert forall b {:trigger rest[b]} :: 0 <= b < |rest| ==> rest[b] == bits[b + 1];
      if lo > 0 {
        CountRange(rest, lo - 1, hi - 1);
      } else if hi > 0 {
        CountRange(rest, 0, hi - 1);
      } else {
        CountRange(rest, 0, 0);
      }
    }
  }

  function FirstParts(disk: seq<Block>): Parts
    requires BLKN_FREEMAP + MapBlocks(|disk|) <= |disk|
  {
    var next := BLKN_FREEMAP + MapBlocks(|disk|);
    Parts(next, |disk| - next, disk, map[], map[BLKN_ROOT := EmptyDin()], map[BLKN_ROOT := 0])
  }

  ghost function FirstUse(b: nat): Use {
    if b == BLKN_ROOT then Node(BLKN_ROOT) else System
  }

  ghost function FirstOwners(n: nat): Owners {
    map b | 0 <= b < BLKN_FREEMAP + MapBlocks(n) :: FirstUse(b)
  }

  lemma {:induction false} FirstBuilding(disk: seq<Block>)
    requires BLKN_FREEMAP + MapBlocks(|disk|) <= |disk| <= MAX_NBLKS
    requires forall b {:trigger disk[b]} :: 0 <= b < |disk| ==> |disk[b]| == BLKSIZE
    ensures Building(FirstParts(disk), FirstOwners(|disk|))
  {
    var p, own := FirstParts(disk), FirstOwners(|disk|);
    var fs := View(p);
    assert fs.disk == disk;
    assert Range(fs.free, p.next, |disk|);
    CountRange(fs.free, p.next, |disk|);
    forall b | b in own
      ensures 0 <= b < |fs.disk| && UseOk(fs, own, b)
    {
    }
    forall b | 0 <= b < |fs.free|
      ensures FreeOk(fs, own, b)
    {
    }
    forall i | 0 <= i < TIERS
      ensures SlotOk(fs, own, BLKN_ROOT, EmptyDin(), i)
    {
    }
    assert FileOk(fs, own, BLKN_ROOT, EmptyDin());
    assert InodeOk(p, BLKN_ROOT);
  }

  /** The caches are written, and the data of files is as it was written. */
  ghost predicate Flushed(p: Parts, own: Owners, img: seq<Block>) {
    && |img| == |p.disk|
    && forall b {:trigger img[b]} :: 0 <= b < |img| ==>
         && |img[b]| == BLKSIZE
         && if b in p.caches then img[b] == p.caches[b] else (b in own && own[b].Data? ==> img[b] == p.disk[b])
  }

  /** Such an image is what it is to be, whatever else was written to the super block, the
      free map and the blocks of the inodes. */
  lemma {:induction false} ClosedOk(p: Parts, own: Owners, img: seq<Block>)
    requires Building(p, own) && Flushed(p, own, img)
    ensures var r := View(p).(disk := img);
            Ok(r, own) && forall g {:trigger Kept(View(p), r, g)} :: g in p.inodes ==> Kept(View(p), r, g)
  {
    var fs := View(p);
    forall b | 0 <= b < |img| && b in own && (own[b].Table? || own[b].Data?)
      ensures img[b] == fs.disk[b]
    {
      assert UseOk(fs, own, b);
      if own[b].Table? {
        assert InodeOk(p, own[b].f) && FileOk(fs, own, own[b].f, fs.files[own[b].f]);
      }
    }
    ElsewhereOk(fs, own, img);
  }

  /** What the blocks that are written at the end are for. */
  lemma {:induction false} Purposes(p: Parts, own: Owners)
    requires Building(p, own)
    ensures forall e :: e in p.caches ==> e < |p.disk| && |p.caches[e]| == BLKSIZE && e in own && own[e].Table?
    ensures forall f :: f in p.inodes ==> f < |p.disk| && Storable(p.inodes[f]) && f in own && own[f] == Node(f)
    ensures forall b ::
              b == 0 || BLKN_FREEMAP <= b < BLKN_FREEMAP + MapBlocks(|p.disk|) ==> b in own && own[b] == System
  {
    forall e | e in p.caches
      ensures e < |p.disk| && |p.caches[e]| == BLKSIZE && e in own && own[e].Table?
    {
      assert CacheOk(p, own, e);
    }
    forall f | f in p.inodes
      ensures f < |p.disk| && Storable(p.inodes[f]) && f in own && own[f] == Node(f)
    {
      assert FileOk(View(p), own, f, p.inodes[f]) && InodeOk(p, f);
      assert UseOk(View(p), own, f);
      OkStorable(View(p), own, f);
    }
    forall b | b == 0 || BLKN_FREEMAP <= b < BLKN_FREEMAP + MapBlocks(|p.disk|)
      ensures b in own && own[b] == System
    {
      assert Owned(own, b, System);
    }
  }
}
