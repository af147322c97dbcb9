/** The disk image tool: blocks are handed out in order, files are written block by block,
    and closing the image writes the free map, the indirect blocks and the inodes. Mounting
    the image counts the free blocks again and finds the files as they were written. */
module MkSfs {
  import opened Basics
  import opened SfsDisk
  import opened SfsMap
  import opened SfsBlocks
  import opened SfsBytes
  import opened SfsView
  import opened SfsIo
  import opened SfsFile
  import opened Bitmap
  import opened MkBlocks

  const MAGIC: nat := 0x2f8d_be2a
  /** Words in a block. */
  const BLKWORDS: nat := BLKSIZE / 4

  lemma {:induction false} BitsJoin(a: seq<nat>, b: seq<nat>)
    ensures BitsOf(a + b) == BitsOf(a) + BitsOf(b)
  {
    var n := |a| * WORD_BITS;
    forall i | 0 <= i < |BitsOf(a + b)|
      ensures BitsOf(a + b)[i] == (BitsOf(a) + BitsOf(b))[i]
    {
      if i >= n {
        assert (i - n) / WORD_BITS == i / WORD_BITS - |a| && (i - n) % WORD_BITS == i % WORD_BITS;
      }
    }
  }

  lemma {:induction false} RangeJoin(a: seq<bool>, b: seq<bool>, lo: int, hi: int)
    requires Range(a, lo, hi) && Range(b, lo - |a|, hi - |a|)
    ensures Range(a + b, lo, hi)
  {
  }

  /** What a file of `n` bytes takes: its blocks, and a table if they are many. */
  function Whole(n: nat): nat {
    Ceil(n) + if Ceil(n) > NDIRECT then 1 else 0
  }

  lemma WholeGrows(i: nat, n: nat)
    requires i <= n
    ensures Whole(i) <= Whole(n)
  {
  }

  /** The first `i` bytes of the data are in the file, in full blocks but for the last. */
  ghost predicate Filling(s0: Fs, s: Fs, f: nat, data: seq<Byte>, i: nat) {
    && Others(s0, s, f) && Has(s, f) && s.files[f].size == i && s.files[f].blocks == Ceil(i)
    && i <= |data| && (i == |data| || i % BLKSIZE == 0) && (s.files[f].indirect == 0 <==> s.files[f].blocks <= NDIRECT)
    && i <= |Raw(s, f)| && Bytes(s, f) == data[..i]
  }

  lemma WholeStep(p: Parts, f: nat, i: nat, n: nat)
    requires f in p.inodes && p.inodes[f].blocks == Ceil(i) && (p.inodes[f].indirect == 0 <==> Ceil(i) <= NDIRECT)
    requires i % BLKSIZE == 0 && 0 < n <= BLKSIZE && i + n <= TIERS * BLKSIZE
    ensures Whole(i + n) == Whole(i) + Need(p, f) && Ceil(i + n) == Ceil(i) + 1 <= TIERS
  {
  }

  lemma {:induction false} FillNone(s: Fs, own: Owners, f: nat, data: seq<Byte>)
    requires Ok(s, own) && f in s.files && s.files[f] == EmptyDin()
    ensures Filling(s, s, f, data, 0)
  {
    GrownNone(s, own, f);
    OkHas(s, own, f);
  }

  lemma {:induction false} FillMore(s0: Fs, s: Fs, own: Owners, r: Fs, f: nat, data: seq<Byte>, i: nat, n: nat)
    requires Ok(s, own) && Filling(s0, s, f, data, i) && i % BLKSIZE == 0 && 0 < n <= BLKSIZE && i + n <= |data|
    requires (n < BLKSIZE ==> i + n == |data|)
    requires Longer(s, r, f, data[i..i + n])
    requires r.files[f].indirect == 0 <==> r.files[f].blocks <= NDIRECT
    ensures Filling(s0, r, f, data, i + n)
  {
    OthersTrans(s0, s, r, f);
    MoreBytes(s, own, r, f, data, i, n);
  }

  lemma {:induction false} MoreBytes(s: Fs, own: Owners, r: Fs, f: nat, data: seq<Byte>, i: nat, n: nat)
    requires i + n <= |data| && Ok(s, own) && Longer(s, r, f, data[i..i + n]) && s.files[f].size <= |Raw(s, f)|
    requires Bytes(s, f) == data[..i]
    requires s.files[f].size == i == BLKSIZE * s.files[f].blocks && r.files[f].size == i + n
    ensures i + n <= |Raw(r, f)| && Bytes(r, f) == data[..i + n]
  {
    FullBytes(s, own, r, f, data[i..i + n]);
    assert data[..i] + data[i..i + n] == data[..i + n];
  }

  /** One block of it. */
  lemma {:induction false} FillStep(p: Parts, q: Parts, own: Owners, s0: Fs, f: nat, data: seq<Byte>, i: nat, n: nat)
    returns (o: Owners)
    requires Building(p, own) && Filling(s0, View(p), f, data, i) && |data| <= TIERS * BLKSIZE
    requires i < |data| && n == if |data| - i < BLKSIZE then |data| - i else BLKSIZE
    requires Added.requires(p, f, data[i..i + n]) && q == Added(p, f, data[i..i + n])
    ensures Building(q, o) && Filling(s0, View(q), f, data, i + n) && q.unused == p.unused + Whole(i) - Whole(i + n)
    ensures q.inodes.Keys == p.inodes.Keys
  {
    var d := data[i..i + n];
    WholeStep(p, f, i, n);
    o := DataAdded(p, own, f, d);
    FillMore(s0, View(p), own, View(q), f, data, i, n);
  }

  /** Where the j-th block of the data starts. */
  function Begin(data: seq<Byte>, j: nat): (i: nat)
    ensures i <= |data|
  {
    if j * BLKSIZE < |data| then j * BLKSIZE else |data|
  }

  ghost predicate Stepped(chain: seq<Parts>, f: nat, data: seq<Byte>, j: int) {
    && 0 <= j < |chain| - 1 && Begin(data, j) < |data|
    && Added.requires(chain[j], f, data[Begin(data, j)..Begin(data, j + 1)])
    && chain[j + 1] == Added(chain[j], f, data[Begin(data, j)..Begin(data, j + 1)])
  }

  /** The states of the loop of open_file. */
  ghost predicate Chain(chain: seq<Parts>, f: nat, data: seq<Byte>) {
    chain != [] && forall j {:trigger Stepped(chain, f, data, j)} :: 0 <= j < |chain| - 1 ==> Stepped(chain, f, data, j)
  }

  lemma {:induction false} ChainMore(chain: seq<Parts>, f: nat, data: seq<Byte>, q: Parts)
    requires Chain(chain, f, data) && Begin(data, |chain| - 1) < |data|
    requires var j := |chain| - 1;
             var d := data[Begin(data, j)..Begin(data, j + 1)];
             Added.requires(chain[j], f, d) && q == Added(chain[j], f, d)
    ensures Chain(chain + [q], f, data)
  {
    var to := chain + [q];
    forall j | 0 <= j < |to| - 1
      ensures Stepped(to, f, data, j)
    {
      if j < |chain| - 1 {
        assert Stepped(chain, f, data, j);
      }
      assert to[j] == chain[j];
    }
  }

  lemma {:induction false} FillChain(chain: seq<Parts>, own: Owners, s0: Fs, f: nat, data: seq<Byte>, j: nat)
    returns (o: Owners)
    requires Chain(chain, f, data) && j < |chain| && |data| <= TIERS * BLKSIZE
    requires Building(chain[0], own) && Filling(s0, View(chain[0]), f, data, 0)
    ensures Building(chain[j], o) && Filling(s0, View(chain[j]), f, data, Begin(data, j))
    ensures chain[j].unused == chain[0].unused - Whole(Begin(data, j)) && chain[j].inodes.Keys == chain[0].inodes.Keys
  {
    o := own;
    if j > 0 {
      o := FillChain(chain, own, s0, f, data, j - 1);
      assert Stepped(chain, f, data, j - 1);
      var i := Begin(data, j - 1);
      o := FillStep(chain[j - 1], chain[j], o, s0, f, data, i, Begin(data, j) - i);
    }
  }

  /** All went in iff there was room, and then the file holds the data. */
  lemma {:induction false} FillEnd(chain: seq<Parts>, own: Owners, f: nat, data: seq<Byte>, ok: bool)
    returns (o: Owners)
    requires Chain(chain, f, data) && |data| <= TIERS * BLKSIZE && Building(chain[0], own)
    requires Filling(View(chain[0]), View(chain[0]), f, data, 0)
    requires var r := chain[|chain| - 1];
             if ok then Begin(data, |chain| - 1) == |data|
             else Begin(data, |chain| - 1) < |data| && f in r.inodes && r.unused < Need(r, f)
    ensures ok <==> chain[0].unused >= Whole(|data|)
    ensures ok ==>
              var r := chain[|chain| - 1];
              && Building(r, o) && r.unused == chain[0].unused - Whole(|data|) && r.inodes.Keys == chain[0].inodes.Keys
              && Filling(View(chain[0]), View(r), f, data, |data|)
  {
    var j := |chain| - 1;
    o := FillChain(chain, own, View(chain[0]), f, data, j);
    if !ok {
      var i := Begin(data, j);
      WholeStep(chain[j], f, i, Begin(data, j + 1) - i);
      WholeGrows(Begin(data, j + 1), |data|);
    }
  }

  // -------------------------------------------------------------- the free map on disk

  /** The first `m` blocks of the free map hold the words. */
  ghost predicate SavedMap(disk: seq<Block>, freemap: seq<nat>, m: nat) {
    && |freemap| == m * BLKWORDS && BLKN_FREEMAP + m <= |disk|
    && forall k {:trigger SavedAt(disk, freemap, k)} :: 0 <= k < m ==> SavedAt(disk, freemap, k)
  }

  ghost predicate SavedAt(disk: seq<Block>, freemap: seq<nat>, k: nat) {
    (k + 1) * BLKWORDS <= |freemap| && BLKN_FREEMAP + k < |disk|
    && disk[BLKN_FREEMAP + k] == WordsBlock(freemap[k * BLKWORDS..(k + 1) * BLKWORDS])
  }

  lemma {:induction false} SaveMore(disk: seq<Block>, freemap: seq<nat>, m: nat, buffer: seq<nat>)
    requires SavedMap(disk, freemap, m) && |buffer| == BLKWORDS && BLKN_FREEMAP + m < |disk|
    ensures SavedMap(disk[BLKN_FREEMAP + m := WordsBlock(buffer)], freemap + buffer, m + 1)
  {
    var to, all := disk[BLKN_FREEMAP + m := WordsBlock(buffer)], freemap + buffer;
    forall k | 0 <= k < m + 1
      ensures SavedAt(to, all, k)
    {
      if k < m {
        assert SavedAt(disk, freemap, k);
        assert (k + 1) * BLKWORDS <= |freemap|;
        assert all[k * BLKWORDS..(k + 1) * BLKWORDS] == freemap[k * BLKWORDS..(k + 1) * BLKWORDS];
      } else {
        assert all[k * BLKWORDS..(k + 1) * BLKWORDS] == buffer;
      }
    }
  }

  lemma {:induction false} SavedElsewhere(disk: seq<Block>, to: seq<Block>, freemap: seq<nat>, m: nat)
    requires SavedMap(disk, freemap, m) && |to| == |disk|
    requires forall b {:trigger to[b]} :: BLKN_FREEMAP <= b < BLKN_FREEMAP + m ==> to[b] == disk[b]
    ensures SavedMap(to, freemap, m)
  {
    forall k | 0 <= k < m
      ensures SavedAt(to, freemap, k)
    {
      assert SavedAt(disk, freemap, k);
    }
  }

  lemma WordBits()
    ensures Pow2(WORD_BITS) == WORDS
  {
    assert Pow2(8) == 0x100;
    assert Pow2(16) == 0x1_0000;
    assert Pow2(24) == 0x100_0000;
  }

  lemma {:induction false} LoadedBlock(disk: seq<Block>, freemap: seq<nat>, k: nat)
    requires SavedAt(disk, freemap, k) && Wordy(freemap)
    ensures |disk[BLKN_FREEMAP + k]| == BLKSIZE
    ensures BlockWords(disk[BLKN_FREEMAP + k]) == freemap[k * BLKWORDS..(k + 1) * BLKWORDS]
  {
    WordBits();
    WordsBack(freemap[k * BLKWORDS..(k + 1) * BLKWORDS]);
  }

  /** One block of the free map, with the bits from `start` up to `end` set. */
  method FillBlock(start: nat, end: nat) returns (block: seq<nat>)
    requires end <= BLKBITS
    ensures |block| == BLKWORDS && Wordy(block) && Range(BitsOf(block), start, end)
  {
    var data := new nat[BLKWORDS](_ => 0);
    NoneSet(data[..]);
    assert Pow2(WORD_BITS) > 0;
    var j := start;
    while j < end
      invariant start <= j && (start <= end ==> j <= end) && Wordy(data[..])
      invariant Range(BitsOf(data[..]), start, if start <= end then j else start)
    {
      ghost var was := data[..];
      ChangeBit(was, j / WORD_BITS, j % WORD_BITS);
      data[j / WORD_BITS] := Or(data[j / WORD_BITS], j % WORD_BITS);
      assert data[..] == was[j / WORD_BITS := Or(was[j / WORD_BITS], j % WORD_BITS)];
      j := j + 1;
    }
    block := data[..];
  }

  class Image {
    const ninos: nat
    var nextIno: nat
    var unused: nat
    var disk: seq<Block>
    /** Indirect blocks in memory, and inodes with their type and the indirect block at hand. */
    var caches: map<nat, Block>
    var inodes: map<nat, Din>
    var kinds: map<nat, Kind>
    var l1: map<nat, nat>
    ghost var own: Owners

    ghost function State(): Parts
      reads this
    {
      Parts(nextIno, unused, disk, caches, inodes, l1)
    }

    ghost predicate Counting()
      reads this
    {
      BLKN_FREEMAP + MapBlocks(ninos) <= nextIno <= ninos && unused == ninos - nextIno
    }

    ghost predicate Valid()
      reads this
    {
      Building(State(), own) && |disk| == ninos && kinds.Keys == inodes.Keys
    }

    /** create_sfs, for an image file that is large enough for its own free map. */
    constructor (bytes: nat, content: seq<Block>, kind: Kind)
      requires Large(bytes) && |content| == bytes / BLKSIZE && Full(content)
      ensures Valid() && ninos == BlockCount(bytes) && inodes == map[BLKN_ROOT := EmptyDin()]
    {
      var n := if bytes / BLKSIZE > MAX_NBLKS then MAX_NBLKS else bytes / BLKSIZE;
      ninos := n;
      nextIno := BLKN_FREEMAP + MapBlocks(n);
      unused := n - (BLKN_FREEMAP + MapBlocks(n));
      disk := content[..n];
      caches, inodes, kinds, l1 := map[], map[BLKN_ROOT := EmptyDin()], map[BLKN_ROOT := kind], map[BLKN_ROOT := 0];
      own := FirstOwners(n);
      FirstBuilding(content[..n]);
    }

    /** sfs_alloc_ino: the next block; 0 stands for giving up. */
    method AllocIno() returns (ino: nat)
      requires Counting()
      modifies this`nextIno, this`unused
      ensures Counting()
      ensures ino == 0 <==> old(nextIno) == ninos
      ensures ino == 0 ==> nextIno == old(nextIno)
      ensures ino != 0 ==> BLKN_FREEMAP + MapBlocks(ninos) <= ino < ninos && ino == old(nextIno) && nextIno == ino + 1
    {
      if nextIno < ninos {
        unused := unused - 1;
        ino := nextIno;
        nextIno := nextIno + 1;
      } else {
        ino := 0;
      }
    }

    // ----------------------------------------------------------------------- files

    /** alloc_cache_inode, for an inode that has no block yet. */
    method AllocCacheInode(kind: Kind) returns (ino: nat)
      requires Counting()
      modifies this`nextIno, this`unused, this`inodes, this`kinds, this`l1
      ensures ino == 0 <==> old(unused) == 0
      ensures ino == 0 ==> State() == old(State()) && kinds == old(kinds)
      ensures ino != 0 ==> ino == old(nextIno) && State() == NodeAdded(old(State())) && kinds == old(kinds)[ino := kind]
    {
      ino := AllocIno();
      if ino != 0 {
        inodes, kinds, l1 := inodes[ino := EmptyDin()], kinds[ino := kind], l1[ino := 0];
      }
    }

    /** A new file: empty, and the others stay. */
    method NewInode(kind: Kind) returns (ino: nat)
      requires Valid()
      modifies this
      ensures Valid() && (ino == 0 <==> old(unused) == 0)
      ensures ino == 0 ==> View(State()) == View(old(State()))
      ensures ino != 0 ==> ino !in old(inodes) && inodes == old(inodes)[ino := EmptyDin()] && unused == old(unused) - 1
      ensures ino != 0 ==>
                forall g {:trigger Kept(View(old(State())), View(State()), g)} ::
                  g in old(inodes) ==> Kept(View(old(State())), View(State()), g)
    {
      if unused > 0 {
        NodeBuilding(State(), own);
        AddNodeView(View(State()), own, nextIno);
        own := own[nextIno := Node(nextIno)];
      }
      ino := AllocCacheInode(kind);
    }

    /** update_cache for the indirect block: it is made when there is none, and otherwise it
        is the one at hand, so that it is never searched for. */
    method UpdateCache(f: nat) returns (ok: bool)
      requires Counting() && f in inodes && f in l1 && l1[f] == inodes[f].indirect
      modifies this`nextIno, this`unused, this`inodes, this`caches, this`l1
      ensures ok <==> old(inodes)[f].indirect != 0 || old(unused) > 0
      ensures ok ==> Counting() && State() == TableAdded(old(State()), f)
    {
      var ino := inodes[f].indirect;
      ok := true;
      if ino == 0 {
        ino := AllocIno();
        if ino == 0 {
          return false;
        }
        caches := caches[ino := Zeros()];
        inodes, l1 := inodes[f := inodes[f].(indirect := ino)], l1[f := ino];
      } else {
        assert l1[f] == ino;
      }
    }

    /** append_block, as far as the tier of the one indirect block. */
    method AppendBlock(f: nat, size: nat, ino: nat) returns (ok: bool)
      requires Counting() && Linkable(State(), f) && inodes[f].blocks < TIERS && ino < ninos && size <= BLKSIZE
      modifies this`nextIno, this`unused, this`inodes, this`caches, this`l1
      ensures ok <==> old(inodes)[f].blocks < NDIRECT || old(inodes)[f].indirect != 0 || old(unused) > 0
      ensures ok ==> Counting() && Linkable(State(), f)
      ensures ok ==>
                var p := if old(inodes)[f].blocks >= NDIRECT then TableAdded(old(State()), f) else old(State());
                State() == Linked(p, f, size, ino)
    {
      var nblks := inodes[f].blocks;
      ok := true;
      if nblks < NDIRECT {
        inodes := inodes[f := inodes[f].(direct := inodes[f].direct[nblks := ino])];
      } else {
        ok := UpdateCache(f);
        if !ok {
          return;
        }
        caches := caches[l1[f] := PutWord(caches[l1[f]], nblks - NDIRECT, ino)];
      }
      inodes := inodes[f := inodes[f].(size := inodes[f].size + size, blocks := nblks + 1)];
    }

    /** A block is taken and written, and then appended. */
    method AddBlock(f: nat, data: seq<Byte>) returns (ok: bool)
      requires Counting() && |disk| == ninos && Linkable(State(), f) && inodes[f].blocks < TIERS && |data| <= BLKSIZE
      modifies this`nextIno, this`unused, this`disk, this`inodes, this`caches, this`l1
      ensures ok <==> old(unused) >= Need(old(State()), f)
      ensures ok ==> Counting() && Linkable(State(), f) && State() == Added(old(State()), f, data)
    {
      var ino := AllocIno();
      if ino == 0 {
        return false;
      }
      disk := disk[ino := Pad(data, BLKSIZE)];
      ok := AppendBlock(f, |data|, ino);
    }

    /** One block more in file `f`, and if need be a table: the disk stays consistent. */
    method AddData(f: nat, data: seq<Byte>) returns (ok: bool)
      requires Valid() && f in inodes && inodes[f].blocks < TIERS && |data| <= BLKSIZE
      modifies this
      ensures ok <==> old(unused) >= Need(old(State()), f)
      ensures ok ==>
                && Valid()
                && unused == old(unused) - Need(old(State()), f)
                && Longer(View(old(State())), View(State()), f, data)
    {
      DataReady(f);
      if unused >= Need(State(), f) {
        own := DataAdded(State(), own, f, data);
      }
      ok := AddBlock(f, data);
    }

    lemma DataReady(f: nat)
      requires Valid() && f in inodes
      ensures Counting() && Linkable(State(), f)
    {
      LinkableHere(State(), own, f);
    }

    /** The loop of open_file: the data is read block by block. */
    method ReadAll(f: nat, data: seq<Byte>) returns (ok: bool, ghost chain: seq<Parts>)
      requires Counting() && |disk| == ninos && Linkable(State(), f) && inodes[f].blocks == 0
      requires |data| <= TIERS * BLKSIZE
      modifies this`nextIno, this`unused, this`disk, this`inodes, this`caches, this`l1
      ensures Chain(chain, f, data) && chain[0] == old(State())
      ensures ok ==> |disk| == ninos && Begin(data, |chain| - 1) == |data| && chain[|chain| - 1] == State()
      ensures !ok ==>
                && Begin(data, |chain| - 1) < |data|
                && f in chain[|chain| - 1].inodes
                && chain[|chain| - 1].unused < Need(chain[|chain| - 1], f)
    {
      chain := [State()];
      var i := 0;
      while i < |data|
        invariant Counting() && |disk| == ninos && Linkable(State(), f) && inodes[f].blocks == |chain| - 1
        invariant Chain(chain, f, data) && chain[0] == old(State()) && chain[|chain| - 1] == State()
        invariant i == Begin(data, |chain| - 1)
      {
        var n := if |data| - i < BLKSIZE then |data| - i else BLKSIZE;
        assert i + n == Begin(data, |chain|);
        ok := AddBlock(f, data[i..i + n]);
        if !ok {
          return;
        }
        ChainMore(chain, f, data, State());
        chain := chain + [State()];
        i := i + n;
      }
      ok := true;
    }

    /** open_file: the bytes of a regular file go into a new inode. */
    method OpenFile(f: nat, data: seq<Byte>) returns (ok: bool)
      requires Valid() && f in inodes && inodes[f] == EmptyDin() && |data| <= TIERS * BLKSIZE
      modifies this
      ensures ok <==> old(unused) >= Whole(|data|)
      ensures ok ==> Valid() && unused == old(unused) - Whole(|data|) && Others(View(old(State())), View(State()), f)
      ensures ok ==> Has(View(State()), f) && inodes[f].size == |data| && inodes[f].blocks == Ceil(|data|)
      ensures ok ==> |data| <= |Raw(View(State()), f)| && Bytes(View(State()), f) == data
    {
      DataReady(f);
      FillNone(View(State()), own, f, data);
      ghost var chain, p, o := [], State(), own;
      ok, chain := ReadAll(f, data);
      own := FillEnd(chain, o, f, data, ok);
    }

    // --------------------------------------------------------------------- closing

    /** The free map block for the blocks from `i` on. */
    method MapBlock(i: nat) returns (buffer: seq<nat>)
      requires Counting() && i < ninos
      ensures |buffer| == BLKWORDS && Wordy(buffer) && Range(BitsOf(buffer), nextIno - i, ninos - i)
    {
      var start, end := 0, 0;
      if i + BLKBITS > nextIno {
        end := BLKBITS;
        if i < nextIno {
          start := nextIno - i;
        }
        if i + BLKBITS > ninos {
          end := ninos - i;
        }
      }
      buffer := FillBlock(start, end);
    }

    /** The free map as close_sfs writes it, block by block. */
    method WriteMap() returns (ghost freemap: seq<nat>)
      requires Counting() && |disk| == ninos
      modifies this`disk
      ensures |freemap| == MapBlocks(ninos) * BLKWORDS && Wordy(freemap) && Range(BitsOf(freemap), nextIno, ninos)
      ensures |disk| == ninos && SavedMap(disk, freemap, MapBlocks(ninos))
      ensures forall b {:trigger disk[b]} ::
                0 <= b < ninos && !(BLKN_FREEMAP <= b < BLKN_FREEMAP + MapBlocks(ninos)) ==> disk[b] == old(disk)[b]
    {
      freemap := [];
      var i, ino := 0, BLKN_FREEMAP;
      ghost var k := 0;
      while i < ninos
        invariant 0 <= k <= MapBlocks(ninos) && i == k * BLKBITS && ino == BLKN_FREEMAP + k && |freemap| == k * BLKWORDS
        invariant i < ninos ==> k < MapBlocks(ninos)
        invariant Wordy(freemap) && Range(BitsOf(freemap), nextIno, ninos)
        invariant |disk| == ninos && SavedMap(disk, freemap, k)
        invariant forall b {:trigger disk[b]} ::
                    0 <= b < ninos && !(BLKN_FREEMAP <= b < BLKN_FREEMAP + k) ==> disk[b] == old(disk)[b]
        decreases ninos + BLKBITS - i
      {
        var buffer := MapBlock(i);
        Extend(freemap, buffer, nextIno, ninos, i);
        SaveMore(disk, freemap, k, buffer);
        disk := disk[ino := WordsBlock(buffer)];
        freemap := freemap + buffer;
        i, ino, k := i + BLKBITS, ino + 1, k + 1;
      }
    }

    /** The indirect blocks in memory go to their places. */
    method FlushCaches()
      requires |disk| == ninos && forall e :: e in caches ==> e < ninos
      modifies this`disk
      ensures |disk| == ninos
      ensures forall b {:trigger disk[b]} ::
                0 <= b < ninos ==> disk[b] == if b in caches then caches[b] else old(disk)[b]
    {
      var left := caches.Keys;
      while left != {}
        invariant left <= caches.Keys && |disk| == ninos
        invariant forall b {:trigger disk[b]} ::
                    0 <= b < ninos ==> disk[b] == if b in caches && b !in left then caches[b] else old(disk)[b]
        decreases |left|
      {
        var e :| e in left;
        disk := disk[e := caches[e]];
        left := left - {e};
      }
    }

    /** So do the inodes. */
    method FlushInodes()
      requires |disk| == ninos && kinds.Keys == inodes.Keys
      requires forall f :: f in inodes ==> f < ninos && |inodes[f].direct| == NDIRECT
      modifies this`disk
      ensures |disk| == ninos
      ensures forall b {:trigger disk[b]} ::
                0 <= b < ninos ==> disk[b] == if b in inodes then SaveDin(inodes[b], kinds[b]) else old(disk)[b]
    {
      var left := inodes.Keys;
      while left != {}
        invariant left <= inodes.Keys && |disk| == ninos
        invariant forall b {:trigger disk[b]} ::
                    0 <= b < ninos ==>
                      disk[b] == if b in inodes && b !in left then SaveDin(inodes[b], kinds[b]) else old(disk)[b]
        decreases |left|
      {
        var f :| f in left;
        disk := disk[f := SaveDin(inodes[f], kinds[f])];
        left := left - {f};
      }
    }

    /** close_sfs: free map, super block, indirect blocks and inodes are written. */
    method CloseSfs() returns (ghost freemap: seq<nat>)
      requires Valid()
      modifies this`disk
      ensures |freemap| == MapBlocks(ninos) * BLKWORDS && Wordy(freemap) && Range(BitsOf(freemap), nextIno, ninos)
      ensures |disk| == ninos && Full(disk) && SavedMap(disk, freemap, MapBlocks(ninos))
      ensures disk[0] == WordsBlock([MAGIC, ninos, unused])
      ensures Loads(disk, inodes)
      ensures Flushed(old(State()), own, disk)
    {
      ghost var p := State();
      Purposes(p, own);
      freemap := WriteMap();
      ghost var w := disk;
      disk := disk[0 := WordsBlock([MAGIC, ninos, unused])];
      SavedElsewhere(w, disk, freemap, MapBlocks(ninos));
      ghost var d := disk;
      FlushCaches();
      FlushInodes();
      Closing(p, own, freemap, d, kinds, disk);
    }
  }

  /** Every inode is found in its block. */
  ghost predicate Loads(disk: seq<Block>, inodes: map<nat, Din>) {
    forall f {:trigger LoadsAt(disk, inodes, f)} :: f in inodes ==> LoadsAt(disk, inodes, f)
  }

  ghost predicate LoadsAt(disk: seq<Block>, inodes: map<nat, Din>, f: nat)
    requires f in inodes
  {
    f < |disk| && |disk[f]| == BLKSIZE && LoadDin(disk[f]) == inodes[f]
  }

  /** The last writes: inodes over caches over the rest. */
  ghost predicate Overlaid(p: Parts, d: seq<Block>, kinds: map<nat, Kind>, disk: seq<Block>) {
    && |disk| == |d| == |p.disk| && kinds.Keys == p.inodes.Keys
    && (forall f {:trigger p.inodes[f]} :: f in p.inodes ==> |p.inodes[f].direct| == NDIRECT)
    && forall b {:trigger disk[b]} :: 0 <= b < |disk| ==>
         disk[b] ==
           if b in p.inodes then SaveDin(p.inodes[b], kinds[b]) else if b in p.caches then p.caches[b] else d[b]
  }

  /** They do not meet. */
  lemma {:induction false} Closing(p: Parts, own: Owners, freemap: seq<nat>, d: seq<Block>, kinds: map<nat, Kind>,
      disk: seq<Block>)
    requires Building(p, own) && Overlaid(p, d, kinds, disk) && SavedMap(d, freemap, MapBlocks(|p.disk|))
    requires |d[0]| == BLKSIZE
    requires forall b {:trigger d[b]} ::
               0 < b < |d| && !(BLKN_FREEMAP <= b < BLKN_FREEMAP + MapBlocks(|p.disk|)) ==> d[b] == p.disk[b]
    ensures Full(disk) && SavedMap(disk, freemap, MapBlocks(|p.disk|)) && disk[0] == d[0] && Flushed(p, own, disk)
    ensures Loads(disk, p.inodes)
  {
    Purposes(p, own);
    SavedElsewhere(d, disk, freemap, MapBlocks(|p.disk|));
    ClosingLoads(p, d, kinds, disk);
    ClosingFlushed(p, own, freemap, d, kinds, disk);
  }

  lemma {:induction false} ClosingLoads(p: Parts, d: seq<Block>, kinds: map<nat, Kind>, disk: seq<Block>)
    requires Overlaid(p, d, kinds, disk) && forall f :: f in p.inodes ==> f < |p.disk| && Storable(p.inodes[f])
    ensures Loads(disk, p.inodes)
  {
    forall f | f in p.inodes
      ensures LoadsAt(disk, p.inodes, f)
    {
      LoadedAt(disk, p.inodes, f, kinds[f]);
    }
  }

  lemma {:induction false} LoadedAt(disk: seq<Block>, inodes: map<nat, Din>, f: nat, kind: Kind)
    requires f in inodes && f < |disk| && Storable(inodes[f]) && disk[f] == SaveDin(inodes[f], kind)
    ensures LoadsAt(disk, inodes, f)
  {
    LoadSaved(inodes[f], kind);
  }

  lemma {:induction false} ClosingFlushed(p: Parts, own: Owners, freemap: seq<nat>, d: seq<Block>, kinds: map<nat,
      Kind>, disk: seq<Block>)
    requires Numbers(p) && Overlaid(p, d, kinds, disk) && SavedMap(d, freemap, MapBlocks(|p.disk|)) && |d[0]| == BLKSIZE
    requires forall b {:trigger d[b]} ::
               0 < b < |d| && !(BLKN_FREEMAP <= b < BLKN_FREEMAP + MapBlocks(|p.disk|)) ==> d[b] == p.disk[b]
    requires forall e :: e in p.caches ==> e < |p.disk| && |p.caches[e]| == BLKSIZE && e in own && own[e].Table?
    requires forall f :: f in p.inodes ==> f < |p.disk| && f in own && own[f] == Node(f)
    requires forall b ::
               b == 0 || BLKN_FREEMAP <= b < BLKN_FREEMAP + MapBlocks(|p.disk|) ==> b in own && own[b] == System
    ensures Full(disk) && Flushed(p, own, disk)
  {
    forall b | 0 <= b < |disk|
      ensures |disk[b]| == BLKSIZE
    {
      if BLKN_FREEMAP <= b < BLKN_FREEMAP + MapBlocks(|p.disk|) {
        assert SavedAt(d, freemap, b - BLKN_FREEMAP);
      }
    }
  }

  lemma {:induction false} Extend(freemap: seq<nat>, buffer: seq<nat>, lo: int, hi: int, i: nat)
    requires Range(BitsOf(freemap), lo, hi) && Range(BitsOf(buffer), lo - i, hi - i) && |freemap| * WORD_BITS == i
    ensures Range(BitsOf(freemap + buffer), lo, hi)
  {
    BitsJoin(freemap, buffer);
    RangeJoin(BitsOf(freemap), BitsOf(buffer), lo, hi);
  }

  function BlockCount(bytes: nat): nat {
    if bytes / BLKSIZE > MAX_NBLKS then MAX_NBLKS else bytes / BLKSIZE
  }

  predicate Large(bytes: nat) {
    BLKN_FREEMAP + MapBlocks(BlockCount(bytes)) < BlockCount(bytes)
  }

  /** The count loop of sfs_do_mount, over the free map read from the disk. */
  method CountFree(freemap: Map) returns (unusedBlocks: nat)
    requires freemap.Valid() && freemap.nbits == freemap.nwords * WORD_BITS
    ensures unusedBlocks == Count(freemap.Bits())
  {
    unusedBlocks := 0;
    var i := 0;
    ghost var bits := freemap.Bits();
    while i < freemap.nbits
      invariant 0 <= i <= |bits| && unusedBlocks == Count(bits[..i])
    {
      var b := freemap.Test(i);
      CountNext(bits, i);
      if b {
        unusedBlocks := unusedBlocks + 1;
      }
      i := i + 1;
    }
    assert bits[..i] == bits;
  }

  lemma {:induction false} CountNext(bits: seq<bool>, i: nat)
    requires i < |bits|
    ensures Count(bits[..i + 1]) == Count(bits[..i]) + if bits[i] then 1 else 0
  {
    if i > 0 {
      CountNext(bits[1..], i - 1);
      assert bits[..i + 1][1..] == bits[1..][..i] && bits[..i][1..] == bits[1..][..i - 1];
    } else {
      assert bits[..1][1..] == [];
    }
  }

  lemma {:induction false} MapWords(m: nat)
    ensures (m * BLKBITS + WORD_BITS - 1) / WORD_BITS == m * BLKWORDS && m * BLKWORDS * WORD_BITS == m * BLKBITS
  {
    PlaceOf(m * BLKWORDS, WORD_BITS - 1);
  }

  /** The free map part of sfs_do_mount. */
  method LoadAndCount(words: seq<nat>, m: nat) returns (unusedBlocks: nat, freemap: Map)
    requires m > 0 && |words| == m * BLKWORDS && Wordy(words)
    ensures fresh(freemap) && fresh(freemap.words) && freemap.Valid() && freemap.Bits() == BitsOf(words)
    ensures unusedBlocks == Count(BitsOf(words))
  {
    MapWords(m);
    freemap := new Map(m * BLKBITS);
    LoadMap(freemap, words);
    unusedBlocks := CountFree(freemap);
  }

  /** The blocks of the free map, read one after another. */
  method ReadMap(disk: seq<Block>, m: nat, ghost freemap: seq<nat>) returns (words: seq<nat>)
    requires SavedMap(disk, freemap, m) && Wordy(freemap)
    ensures words == freemap
  {
    words := [];
    var k := 0;
    while k < m
      invariant 0 <= k <= m && k * BLKWORDS <= |freemap| && words == freemap[..k * BLKWORDS]
    {
      assert SavedAt(disk, freemap, k);
      assert freemap[..(k + 1) * BLKWORDS] == freemap[..k * BLKWORDS] + freemap[k * BLKWORDS..(k + 1) * BLKWORDS];
      LoadedBlock(disk, freemap, k);
      words := words + BlockWords(disk[BLKN_FREEMAP + k]);
      k := k + 1;
    }
  }

  /** The free map part of sfs_do_mount for a closed image. */
  method MountMap(disk: seq<Block>, n: nat, ghost next: nat, ghost bits: seq<nat>)
    returns (unusedBlocks: nat, freemap: Map)
    requires 0 < n && SavedMap(disk, bits, MapBlocks(n)) && Wordy(bits) && Range(BitsOf(bits), next, n) && next <= n
    ensures unusedBlocks == n - next
    ensures fresh(freemap) && fresh(freemap.words) && freemap.Valid() && freemap.Bits() == FreeBits(n, next)
  {
    var m := MapBlocks(n);
    var words := ReadMap(disk, m, bits);
    unusedBlocks, freemap := LoadAndCount(words, m);
    MapWords(m);
    CountRange(BitsOf(words), next, n);
    assert BitsOf(words) == FreeBits(n, next);
  }

  /** A closed image mounts: the free blocks count as many as its super block tells, the
      inodes are found in their blocks, the disk is consistent, and every file is as it was
      built. */
  method CloseThenMount(image: Image) returns (unusedBlocks: nat, freemap: Map)
    requires image.Valid()
    modifies image`disk
    ensures image.disk != [] && image.disk[0] == WordsBlock([MAGIC, image.ninos, unusedBlocks])
    ensures fresh(freemap) && fresh(freemap.words) && freemap.Valid()
    ensures Range(freemap.Bits(), image.nextIno, image.ninos)
    ensures Loads(image.disk, image.inodes)
    ensures Mounts(old(image.State()), image.own, Fs(image.disk, freemap.Bits(), unusedBlocks, image.inodes))
  {
    ghost var p := image.State();
    ghost var bits := image.CloseSfs();
    ClosedOk(p, image.own, image.disk);
    unusedBlocks, freemap := MountMap(image.disk, image.ninos, image.nextIno, bits);
    assert Fs(image.disk, freemap.Bits(), unusedBlocks, image.inodes) == View(p).(disk := image.disk);
  }

  /** A consistent file system with the files of the image. */
  ghost predicate Mounts(p: Parts, own: Owners, fs: Fs) {
    && Ok(fs, own) && fs.files == p.inodes
    && forall g {:trigger Kept(View(p), fs, g)} :: g in p.inodes ==> Kept(View(p), fs, g)
  }

  /** A file put into an image, read through the file system that mounts it. */
  method FileComesBack(image: Image, kind: Kind, data: seq<Byte>) returns (ok: bool, got: seq<Byte>)
    requires image.Valid() && |data| <= TIERS * BLKSIZE
    modifies image
    ensures ok <==> old(image.unused) > Whole(|data|)
    ensures ok ==> got == data
  {
    got := [];
    var f := image.NewInode(kind);
    if f == 0 {
      return false, got;
    }
    ok := image.OpenFile(f, data);
    if ok {
      got := MountAndRead(image, f, data);
    }
  }

  /** The inodes as they are loaded from their blocks. */
  function LoadAll(disk: seq<Block>, inodes: map<nat, Din>): map<nat, Din>
    requires Loads(disk, inodes)
    ensures LoadAll(disk, inodes) == inodes
  {
    LoadsEach(disk, inodes);
    map f | f in inodes :: LoadDin(disk[f])
  }

  lemma {:induction false} LoadsEach(disk: seq<Block>, inodes: map<nat, Din>)
    requires Loads(disk, inodes)
    ensures forall f :: f in inodes ==> f < |disk| && |disk[f]| == BLKSIZE && LoadDin(disk[f]) == inodes[f]
  {
    forall f | f in inodes
      ensures f < |disk| && |disk[f]| == BLKSIZE && LoadDin(disk[f]) == inodes[f]
    {
      assert LoadsAt(disk, inodes, f);
    }
  }

  method MountAndRead(image: Image, f: nat, ghost data: seq<Byte>) returns (got: seq<Byte>)
    requires image.Valid() && Holds(View(image.State()), f, data)
    modifies image`disk
    ensures got == data
  {
    ghost var p := image.State();
    var unusedBlocks, freemap := CloseThenMount(image);
    var files := LoadAll(image.disk, image.inodes);
    MountHolds(p, image.own, Fs(image.disk, freemap.Bits(), unusedBlocks, files), f, data);
    got := ReadFile(image.disk, freemap.Bits(), unusedBlocks, files, image.own, f, data);
  }

  ghost predicate Holds(fs: Fs, f: nat, data: seq<Byte>) {
    && f in fs.files && fs.files[f].size == |data| <= TIERS * BLKSIZE && fs.files[f].blocks == Ceil(|data|)
    && Has(fs, f) && |data| <= |Raw(fs, f)| && Bytes(fs, f) == data
  }

  lemma {:induction false} MountHolds(p: Parts, own: Owners, fs: Fs, f: nat, data: seq<Byte>)
    requires Mounts(p, own, fs) && Holds(View(p), f, data)
    ensures Ok(fs, own) && Holds(fs, f, data)
  {
    assert Kept(View(p), fs, f);
  }

  method ReadFile(disk: seq<Block>, free: seq<bool>, unused: nat, files: map<nat, Din>, ghost own: Owners, f: nat,
      ghost data: seq<Byte>) returns (got: seq<Byte>)
    requires Ok(Fs(disk, free, unused, files), own) && Holds(Fs(disk, free, unused, files), f, data)
    ensures got == data
  {
    var fs := new Sfs(disk, free, unused, files, own);
    var r, alen;
    r, alen, got := fs.Io(f, false, [], 0, files[f].size);
  }

  /** sfs_init_freemap: the words of the disk replace those of the fresh map. */
  method LoadMap(freemap: Map, words: seq<nat>)
    requires freemap.Valid() && |words| == freemap.nwords && Wordy(words)
    modifies freemap.words
    ensures freemap.Valid() && freemap.Bits() == BitsOf(words)
  {
    var i := 0;
    while i < |words|
      invariant 0 <= i <= |words| && freemap.words.Length == |words|
      invariant forall j :: 0 <= j < i ==> freemap.words[j] == words[j]
    {
      freemap.words[i] := words[i];
      i := i + 1;
    }
    assert freemap.words[..] == words;
  }
}
