/** The liveness analysis itself: summaries of blocks, the iteration over the blocks until
    nothing changes, and the pass back over the instructions of each block. */
module FlowGraph {
  import opened Basics
  import opened Liveness

  /** All temporaries of a graph. */
  function TempsOf(tacs: seq<Tac>): (s: set<Temp>)
  {
    if tacs == [] then {} else Uses(tacs[0]) + Defs(tacs[0]) + TempsOf(tacs[1..])
  }

  function AllTemps(bs: seq<Block>): (s: set<Temp>)
  {
    if bs == [] then {} else TempsOf(bs[0].tacs) + Opt(bs[0].cond) + AllTemps(bs[1..])
  }

  lemma {:induction false} FirstKnown(tacs: seq<Tac>, x: Temp)
    requires First(tacs, x) != Untouched
    ensures x in TempsOf(tacs)
  {
    if TouchOf(tacs[0], x) == Untouched {
      FirstKnown(tacs[1..], x);
    }
  }

  lemma {:induction false} Known(bs: seq<Block>, b: nat, x: Temp)
    requires b < |bs| && Does(bs[b], x) != Untouched
    ensures x in AllTemps(bs)
  {
    if b > 0 {
      Known(bs[1..], b - 1, x);
    } else if First(bs[0].tacs, x) != Untouched {
      FirstKnown(bs[0].tacs, x);
    }
  }

  /** How much is missing in the live sets. */
  function Missing(all: set<Temp>, ins: seq<set<Temp>>): (n: nat)
  {
    if ins == [] then 0 else |all - ins[0]| + Missing(all, ins[1..])
  }

  lemma {:induction false} MissingLess(all: set<Temp>, ins: seq<set<Temp>>, b: nat, to: set<Temp>)
    requires b < |ins| && ins[b] <= to <= all
    ensures Missing(all, ins[b := to]) <= Missing(all, ins)
    ensures to != ins[b] ==> Missing(all, ins[b := to]) < Missing(all, ins)
  {
    if b == 0 {
      assert ins[0 := to][1..] == ins[1..];
      assert all - ins[0] == (all - to) + (to - ins[0]);
      if to != ins[0] {
        assert exists x :: x in to - ins[0];
        assert |to - ins[0]| > 0;
      }
    } else {
      MissingLess(all, ins[1..], b - 1, to);
      assert ins[b := to][1..] == ins[1..][b - 1 := to];
    }
  }

  class FlowGraph {
    const bs: seq<Block>
    /** lastVisitedBB of the temporaries visited so far. */
    var mark: map<Temp, nat>
    var def: seq<set<Temp>>
    var liveUse: seq<set<Temp>>
    var liveIn: seq<set<Temp>>
    var liveOut: seq<set<Temp>>
    /** The live set behind each instruction of each block. */
    var tacOut: seq<seq<set<Temp>>>

    ghost predicate Sized()
      reads this
    {
      |def| == |liveUse| == |liveIn| == |liveOut| == |tacOut| == |bs| && Graph(bs)
    }

    constructor (bs: seq<Block>)
      requires Graph(bs)
      ensures Sized() && this.bs == bs && mark == map[]
      ensures forall b :: 0 <= b < |bs| ==> def[b] == {} && liveUse[b] == {} && liveIn[b] == {} && liveOut[b] == {}
    {
      this.bs := bs;
      mark := map[];
      var none := seq(|bs|, _ => {});
      def, liveUse, liveIn, liveOut := none, none, none, none;
      tacOut := seq(|bs|, _ => []);
    }

    // ---------------------------------------------------------------- block summaries

    predicate Marked(b: nat, x: Temp)
      reads this
    {
      x in mark && mark[x] == b
    }

    /** What the visit of block `b` has found out about `x`. */
    ghost function Seen(b: nat, x: Temp): Touch
      requires Sized() && b < |bs|
      reads this
    {
      if !Marked(b, x) then Untouched else if x in liveUse[b] then Reads else Writes
    }

    /** The marks tell what was visited. */
    ghost predicate Consistent(b: nat)
      requires Sized() && b < |bs|
      reads this
    {
      forall x {:trigger Marked(b, x)} ::
        (x in liveUse[b] || x in def[b] <==> Marked(b, x)) && !(x in liveUse[b] && x in def[b])
    }

    /** A temporary is entered into a set unless the block has visited it before. */
    method Visit(b: nat, x: Temp, reading: bool)
      requires Sized() && b < |bs| && Consistent(b)
      modifies this`mark, this`def, this`liveUse
      ensures Sized() && Consistent(b)
      ensures forall y {:trigger Seen(b, y)} ::
                Seen(b, y) ==
                  if y == x && old(Seen(b, y)) == Untouched then (if reading then Reads else Writes)
                  else old(Seen(b, y))
      ensures forall c :: 0 <= c < |bs| && c != b ==> def[c] == old(def)[c] && liveUse[c] == old(liveUse)[c]
      ensures forall y {:trigger y in mark} {:trigger mark[y]} ::
                y in mark ==> mark[y] == b || (y in old(mark) && mark[y] == old(mark)[y])
    {
      if !Marked(b, x) {
        if reading {
          liveUse := liveUse[b := liveUse[b] + {x}];
        } else {
          def := def[b := def[b] + {x}];
        }
        mark := mark[x := b];
        forall y
          ensures (y in liveUse[b] || y in def[b] <==> Marked(b, y)) && !(y in liveUse[b] && y in def[b])
        {
          assert y in old(liveUse)[b] || y in old(def)[b] <==> old(Marked(b, y));
        }
      }
    }

    /** The part of computeDefAndLiveUse for one instruction. */
    method VisitTac(b: nat, t: Tac)
      requires Sized() && b < |bs| && Consistent(b)
      modifies this`mark, this`def, this`liveUse
      ensures Sized() && Consistent(b)
      ensures forall y {:trigger Seen(b, y)} ::
                Seen(b, y) == if old(Seen(b, y)) == Untouched then TouchOf(t, y) else old(Seen(b, y))
      ensures forall c :: 0 <= c < |bs| && c != b ==> def[c] == old(def)[c] && liveUse[c] == old(liveUse)[c]
      ensures forall y {:trigger y in mark} {:trigger mark[y]} ::
                y in mark ==> mark[y] == b || (y in old(mark) && mark[y] == old(mark)[y])
    {
      match t
      case Binary(op0, op1, op2) =>
        Visit(b, op1, true);
        Visit(b, op2, true);
        Visit(b, op0, false);
      case Unary(res, op1) =>
        Visit(b, op1, true);
        if res.Some? {
          Visit(b, res.value, false);
        }
      case Result(res) =>
        if res.Some? {
          Visit(b, res.value, false);
        }
      case Store(op0, op1) =>
        Visit(b, op0, true);
        Visit(b, op1, true);
      case Parm(op0) =>
        Visit(b, op0, true);
      case Other =>
    }

    ghost predicate Summary(b: nat)
      requires Sized() && b < |bs|
      reads this
    {
      forall x {:trigger Does(bs[b], x)} ::
        (x in liveUse[b] <==> Does(bs[b], x) == Reads) && (x in def[b] <==> Does(bs[b], x) == Writes)
    }

    /** computeDefAndLiveUse: what the block reads first, and what it writes first. */
    method ComputeDefAndLiveUse(b: nat)
      requires Sized() && b < |bs| && def[b] == {} && liveUse[b] == {} && liveIn[b] == {} && forall x :: !Marked(b, x)
      modifies this`mark, this`def, this`liveUse, this`liveIn
      ensures Sized() && Summary(b) && liveIn == old(liveIn)[b := liveUse[b]]
      ensures forall c :: 0 <= c < |bs| && c != b ==> def[c] == old(def)[c] && liveUse[c] == old(liveUse)[c]
      ensures forall y {:trigger y in mark} {:trigger mark[y]} ::
                y in mark ==> mark[y] == b || (y in old(mark) && mark[y] == old(mark)[y])
    {
      var tacs := bs[b].tacs;
      var i := 0;
      assert tacs[..0] == [];
      while i < |tacs|
        invariant 0 <= i <= |tacs| && Sized() && Consistent(b) && liveIn == old(liveIn)
        invariant forall y {:trigger Seen(b, y)} :: Seen(b, y) == First(tacs[..i], y)
        invariant forall c :: 0 <= c < |bs| && c != b ==> def[c] == old(def)[c] && liveUse[c] == old(liveUse)[c]
        invariant forall y {:trigger y in mark} {:trigger mark[y]} ::
                    y in mark ==> mark[y] == b || (y in old(mark) && mark[y] == old(mark)[y])
      {
        VisitTac(b, tacs[i]);
        assert tacs[..i + 1] == tacs[..i] + [tacs[i]];
        forall y
          ensures First(tacs[..i + 1], y) ==
                    if First(tacs[..i], y) != Untouched then First(tacs[..i], y) else TouchOf(tacs[i], y)
        {
          FirstMore(tacs[..i], tacs[i], y);
        }
        i := i + 1;
      }
      assert tacs[..i] == tacs;
      if bs[b].cond.Some? {
        Visit(b, bs[b].cond.value, true);
      }
      forall x
        ensures (x in liveUse[b] <==> Does(bs[b], x) == Reads) && (x in def[b] <==> Does(bs[b], x) == Writes)
      {
        assert Seen(b, x) == Does(bs[b], x);
        assert Marked(b, x) <==> x in liveUse[b] || x in def[b];
      }
      assert liveIn[b] + liveUse[b] == liveUse[b];
      liveIn := liveIn[b := liveIn[b] + liveUse[b]];
    }

    // ------------------------------------------------------------------- iteration

    ghost function Sets(): Sets
      reads this
    {
      FlowSets(def, liveUse, liveIn, liveOut)
    }

    /** One block of one round. */
    method Relax(b: nat) returns (changed: bool)
      requires Sized() && b < |bs| && Sound(bs, Sets())
      modifies this`liveIn, this`liveOut
      ensures Sized() && Sound(bs, Sets()) && Sets() == Relaxed(bs, old(Sets()), b)
      ensures changed <==> liveIn[b] != old(liveIn)[b]
    {
      var n0, n1 := bs[b].next[0], bs[b].next[1];
      liveOut := liveOut[b := liveOut[b] + liveIn[n0]];
      liveOut := liveOut[b := liveOut[b] + liveIn[n1]];
      liveOut := liveOut[b := liveOut[b] - def[b]];
      assert liveOut[b] == old(liveOut)[b] + Behind(bs, liveIn, b) - def[b];
      changed := !(liveOut[b] <= liveIn[b]);
      ghost var out := liveOut[b];
      liveIn := liveIn[b := liveIn[b] + liveOut[b]];
      liveOut := liveOut[b := liveOut[b] + liveIn[n0]];
      liveOut := liveOut[b := liveOut[b] + liveIn[n1]];
      assert liveOut[b] == out + Behind(bs, liveIn, b);
      assert liveOut == old(liveOut)[b := liveOut[b]];
      RelaxSound(bs, old(Sets()), b);
    }

    /** One round over all blocks. */
    method Round() returns (changed: bool)
      requires Sized() && Sound(bs, Sets())
      modifies this`liveIn, this`liveOut
      ensures Sized() && Sound(bs, Sets())
      ensures !changed ==>
                && liveIn == old(liveIn)
                && forall b {:trigger Settled(bs, Sets(), b)} :: 0 <= b < |bs| ==> Settled(bs, Sets(), b)
      ensures changed ==> Missing(AllTemps(bs), liveIn) < Missing(AllTemps(bs), old(liveIn))
    {
      changed := false;
      var b := 0;
      while b < |bs|
        invariant 0 <= b <= |bs| && Sized() && Sound(bs, Sets())
        invariant !changed ==>
                    && liveIn == old(liveIn)
                    && forall c {:trigger Settled(bs, Sets(), c)} :: 0 <= c < b ==> Settled(bs, Sets(), c)
        invariant changed ==> Missing(AllTemps(bs), liveIn) < Missing(AllTemps(bs), old(liveIn))
      {
        ghost var s := Sets();
        var grew := Relax(b);
        RelaxProgress(bs, s, b);
        if grew {
          changed := true;
        } else if !changed {
          forall c | 0 <= c < b
            ensures Settled(bs, Sets(), c)
          {
            assert Settled(bs, s, c);
          }
        }
        b := b + 1;
      }
    }

    /** analyzeLiveness of the graph: summaries, then rounds until nothing changes. The
        live sets are then the least solution of the equations, which is what some path
        reads before it writes it. */
    method AnalyzeLiveness()
      requires Sized() && mark == map[]
      requires forall b :: 0 <= b < |bs| ==> def[b] == {} && liveUse[b] == {} && liveIn[b] == {} && liveOut[b] == {}
      modifies this`mark, this`def, this`liveUse, this`liveIn, this`liveOut
      ensures Sized() && Solution(bs, liveIn, liveOut)
      ensures forall b, x :: 0 <= b < |bs| ==> (x in liveIn[b] <==> Live(bs, b, x))
    {
      Summaries();
      var changed := true;
      while changed
        invariant Sized() && Sound(bs, Sets())
        invariant !changed ==> forall b {:trigger Settled(bs, Sets(), b)} :: 0 <= b < |bs| ==> Settled(bs, Sets(), b)
        decreases Missing(AllTemps(bs), liveIn), changed
      {
        changed := Round();
      }
      SettledSolves(bs, Sets());
    }

    method Summaries()
      requires Sized() && mark == map[]
      requires forall b :: 0 <= b < |bs| ==> def[b] == {} && liveUse[b] == {} && liveIn[b] == {} && liveOut[b] == {}
      modifies this`mark, this`def, this`liveUse, this`liveIn
      ensures Sized() && Sound(bs, Sets())
    {
      var b := 0;
      while b < |bs|
        invariant 0 <= b <= |bs| && Sized()
        invariant forall x {:trigger mark[x]} :: x in mark ==> mark[x] < b
        invariant forall c :: b <= c < |bs| ==> def[c] == {} && liveUse[c] == {} && liveIn[c] == {}
        invariant forall c {:trigger liveIn[c]} :: 0 <= c < b ==> liveIn[c] == liveUse[c] && SummaryAt(bs, Sets(), c)
      {
        ghost var s := Sets();
        ComputeDefAndLiveUse(b);
        forall c | 0 <= c < b + 1
          ensures liveIn[c] == liveUse[c] && SummaryAt(bs, Sets(), c)
        {
          if c < b {
            assert s.ins[c] == s.use[c] && SummaryAt(bs, s, c);
          } else {
            assert Summary(b);
          }
        }
        b := b + 1;
      }
      forall c | 0 <= c < |bs|
        ensures SoundAt(bs, Sets(), c)
      {
        assert liveIn[c] == liveUse[c];
        FreshSound(bs, Sets(), c);
      }
    }

    /** analyzeLiveness of a block: the live set behind every instruction. One more step
        back, over the first instruction, gives the live set of the block. */
    method AnalyzeBlock(b: nat)
      requires Sized() && b < |bs| && Solution(bs, liveIn, liveOut)
      modifies this`tacOut
      ensures Sized() && |tacOut[b]| == |bs[b].tacs|
      ensures forall c :: 0 <= c < |bs| && c != b ==> tacOut[c] == old(tacOut)[c]
      ensures forall i ::
                0 <= i < |bs[b].tacs| ==> tacOut[b][i] == Before(bs[b].tacs[i + 1..], liveOut[b] + Opt(bs[b].cond))
      ensures bs[b].tacs != [] ==> Transfer(bs[b].tacs[0], tacOut[b][0]) == liveIn[b]
    {
      var tacs := bs[b].tacs;
      if tacs == [] {
        tacOut := tacOut[b := []];
        return;
      }
      ghost var behind := liveOut[b] + Opt(bs[b].cond);
      var i := |tacs| - 1;
      var outs := [liveOut[b] + Opt(bs[b].cond)];
      assert tacs[i + 1..] == [];
      while i > 0
        invariant 0 <= i < |tacs| && |outs| == |tacs| - i
        invariant forall k :: 0 <= k < |outs| ==> outs[k] == Before(tacs[i + k + 1..], behind)
      {
        assert tacs[i..][1..] == tacs[i + 1..];
        outs := [Transfer(tacs[i], outs[0])] + outs;
        i := i - 1;
      }
      tacOut := tacOut[b := outs];
      assert tacs[0..][1..] == tacs[1..] && tacs[0..] == tacs;
      BlockIn(bs, liveIn, liveOut, b);
    }
  }

  /** The sets of all blocks. */
  datatype Sets = FlowSets(def: seq<set<Temp>>, use: seq<set<Temp>>, ins: seq<set<Temp>>, outs: seq<set<Temp>>)

  ghost predicate Fits(bs: seq<Block>, s: Sets) {
    |s.def| == |s.use| == |s.ins| == |s.outs| == |bs| && Graph(bs)
  }

  ghost predicate SummaryAt(bs: seq<Block>, s: Sets, b: nat)
    requires Fits(bs, s) && b < |bs|
  {
    forall x {:trigger Does(bs[b], x)} ::
      (x in s.use[b] <==> Does(bs[b], x) == Reads) && (x in s.def[b] <==> Does(bs[b], x) == Writes)
  }

  ghost predicate AllLive(bs: seq<Block>, b: nat, ins: set<Temp>) {
    ins <= AllTemps(bs) && forall x {:trigger Live(bs, b, x)} :: x in ins ==> Live(bs, b, x)
  }

  /** What comes in from the next blocks. */
  function Behind(bs: seq<Block>, ins: seq<set<Temp>>, b: nat): set<Temp>
    requires Graph(bs) && |ins| == |bs| && b < |bs|
  {
    ins[bs[b].next[0]] + ins[bs[b].next[1]]
  }

  ghost predicate SoundAt(bs: seq<Block>, s: Sets, b: nat)
    requires Fits(bs, s) && b < |bs|
  {
    SummaryAt(bs, s, b) && s.use[b] <= s.ins[b] && AllLive(bs, b, s.ins[b]) && s.outs[b] <= Behind(bs, s.ins, b)
  }

  /** What the iteration keeps: the live sets hold live temporaries only, and all that the
      block reads first. */
  ghost predicate Sound(bs: seq<Block>, s: Sets) {
    Fits(bs, s) && forall b {:trigger SoundAt(bs, s, b)} :: 0 <= b < |bs| ==> SoundAt(bs, s, b)
  }

  /** The sets after block `b` was looked at. */
  ghost function Relaxed(bs: seq<Block>, s: Sets, b: nat): Sets
    requires Fits(bs, s) && b < |bs|
  {
    var out := s.outs[b] + Behind(bs, s.ins, b) - s.def[b];
    var ins := s.ins[b := s.ins[b] + out];
    s.(ins := ins, outs := s.outs[b := out + Behind(bs, ins, b)])
  }

  /** What is live behind a block and not written first in it is live before it. */
  lemma {:induction false} RelaxLive(bs: seq<Block>, b: nat, x: Temp, written: bool, read: bool)
    requires b < |bs| && (written <==> Does(bs[b], x) == Writes) && (read <==> Does(bs[b], x) == Reads) && !written
    requires exists c :: Edge(bs, b, c) && Live(bs, c, x)
    ensures Live(bs, b, x)
  {
    if read {
      LiveHere(bs, b, x);
    } else {
      var c :| Edge(bs, b, c) && Live(bs, c, x);
      LiveStep(bs, b, c, x);
    }
  }

  lemma {:induction false} RelaxIn(bs: seq<Block>, s: Sets, b: nat)
    requires Sound(bs, s) && b < |bs|
    ensures var r := Relaxed(bs, s, b); s.ins[b] <= r.ins[b] && AllLive(bs, b, r.ins[b])
  {
    var out := s.outs[b] + Behind(bs, s.ins, b) - s.def[b];
    assert SoundAt(bs, s, b);
    var n0, n1 := bs[b].next[0], bs[b].next[1];
    assert SoundAt(bs, s, n0) && SoundAt(bs, s, n1);
    forall x | x in out
      ensures Live(bs, b, x) && x in AllTemps(bs)
    {
      assert x in s.ins[n0] || x in s.ins[n1];
      assert Edge(bs, b, n0) && Edge(bs, b, n1);
      assert Does(bs[b], x) != Writes;
      RelaxLive(bs, b, x, x in s.def[b], x in s.use[b]);
    }
  }

  lemma {:induction false} RelaxSound(bs: seq<Block>, s: Sets, b: nat)
    requires Sound(bs, s) && b < |bs|
    ensures Sound(bs, Relaxed(bs, s, b))
  {
    var r := Relaxed(bs, s, b);
    RelaxIn(bs, s, b);
    forall c | 0 <= c < |bs|
      ensures SoundAt(bs, r, c)
    {
      assert SoundAt(bs, s, c);
      assert SummaryAt(bs, r, c);
    }
  }

  ghost predicate Settled(bs: seq<Block>, s: Sets, b: nat)
  {
    Fits(bs, s) && b < |bs| && s.outs[b] == Behind(bs, s.ins, b) && s.outs[b] - s.def[b] <= s.ins[b]
  }

  lemma {:induction false} RelaxProgress(bs: seq<Block>, s: Sets, b: nat)
    requires Sound(bs, s) && b < |bs|
    ensures var r := Relaxed(bs, s, b);
            && Missing(AllTemps(bs), r.ins) <= Missing(AllTemps(bs), s.ins)
            && (r.ins[b] != s.ins[b] ==> Missing(AllTemps(bs), r.ins) < Missing(AllTemps(bs), s.ins))
            && (r.ins[b] == s.ins[b] ==>
                  r.ins == s.ins && Settled(bs, r, b) && forall c :: 0 <= c < |bs| && c != b ==> r.outs[c] == s.outs[c])
  {
    RelaxIn(bs, s, b);
    var r := Relaxed(bs, s, b);
    assert SoundAt(bs, s, b);
    MissingLess(AllTemps(bs), s.ins, b, r.ins[b]);
  }

  lemma {:induction false} FreshSound(bs: seq<Block>, s: Sets, b: nat)
    requires Fits(bs, s) && b < |bs| && SummaryAt(bs, s, b) && s.ins[b] == s.use[b] && s.outs[b] == {}
    ensures SoundAt(bs, s, b)
  {
    forall x | x in s.ins[b]
      ensures Live(bs, b, x) && x in AllTemps(bs)
    {
      assert Does(bs[b], x) == Reads;
      LiveHere(bs, b, x);
      Known(bs, b, x);
    }
  }

  lemma {:induction false} SettledSolves(bs: seq<Block>, s: Sets)
    requires Sound(bs, s) && forall b {:trigger Settled(bs, s, b)} :: 0 <= b < |bs| ==> Settled(bs, s, b)
    ensures Solution(bs, s.ins, s.outs)
    ensures forall b, x :: 0 <= b < |bs| ==> (x in s.ins[b] <==> Live(bs, b, x))
  {
    forall b | 0 <= b < |bs|
      ensures Solves(bs, s.ins, s.outs, b)
    {
      assert Settled(bs, s, b) && SoundAt(bs, s, b);
      forall x
        ensures x in s.ins[b] <==> Does(bs[b], x) == Reads || (x in s.outs[b] && Does(bs[b], x) != Writes)
      {
        assert x in s.use[b] <==> Does(bs[b], x) == Reads;
        if x in s.ins[b] {
          assert Live(bs, b, x);
          var path :| Reaches(bs, path, x) && path[0] == b;
          if |path| > 1 {
            ClosedPath(bs, s, path[1..], x);
          }
        }
      }
    }
    forall b, x | 0 <= b < |bs|
      ensures x in s.ins[b] <==> Live(bs, b, x)
    {
      assert SoundAt(bs, s, b);
      if Live(bs, b, x) {
        var path :| Reaches(bs, path, x) && path[0] == b;
        LiveInSolution(bs, s.ins, s.outs, path, x);
      }
    }
  }

  /** Settled sets have everything that is live. */
  lemma {:induction false} ClosedPath(bs: seq<Block>, s: Sets, path: seq<nat>, x: Temp)
    requires Sound(bs, s) && Reaches(bs, path, x)
    requires forall b {:trigger Settled(bs, s, b)} :: 0 <= b < |bs| ==> Settled(bs, s, b)
    ensures x in s.ins[path[0]]
    decreases |path|
  {
    var b := path[0];
    assert Settled(bs, s, b) && SoundAt(bs, s, b);
    assert x in s.use[b] <==> Does(bs[b], x) == Reads;
    if |path| > 1 {
      ClosedPath(bs, s, path[1..], x);
    }
  }

  lemma {:induction false} BlockIn(bs: seq<Block>, ins: seq<set<Temp>>, outs: seq<set<Temp>>, b: nat)
    requires Solution(bs, ins, outs) && b < |bs|
    ensures Before(bs[b].tacs, outs[b] + Opt(bs[b].cond)) == ins[b]
  {
    assert Solves(bs, ins, outs, b);
    forall x
      ensures x in Before(bs[b].tacs, outs[b] + Opt(bs[b].cond)) <==> x in ins[b]
    {
      BlockSummary(bs[b], outs[b], x);
    }
  }

  /** The sets the analysis ends with are contained in those of every solution. */
  lemma {:induction false} Least(bs: seq<Block>, ins: seq<set<Temp>>, other: seq<set<Temp>>, outs: seq<set<Temp>>,
      b: nat)
    requires |ins| == |bs| && b < |bs| && Solution(bs, other, outs)
    requires forall x :: x in ins[b] <==> Live(bs, b, x)
    ensures ins[b] <= other[b]
  {
    forall x | x in ins[b]
      ensures x in other[b]
    {
      assert Live(bs, b, x);
      var path :| Reaches(bs, path, x) && path[0] == b;
      LiveInSolution(bs, other, outs, path, x);
    }
  }
}
