/** Liveness of temporaries in a flow graph of basic blocks: what it means, per path, and
    how it is computed from block summaries. */
module Liveness {
  import opened Basics

  type Temp = nat

  /** Instructions by what they read and write: two operands and a result, one operand and
      perhaps a result, perhaps a result only, two operands, one operand, nothing. */
  datatype Tac = Binary(op0: Temp, op1: Temp, op2: Temp)
               | Unary(res: Option<Temp>, op1: Temp)
               | Result(res: Option<Temp>)
               | Store(op0: Temp, op1: Temp)
               | Parm(op0: Temp)
               | Other

  /** A block: its instructions, the temporary its last jump or return reads, and the
      blocks that may come next. */
  datatype Block = Block(tacs: seq<Tac>, cond: Option<Temp>, next: seq<nat>)

  function Opt(t: Option<Temp>): set<Temp> {
    match t
    case None => {}
    case Some(x) => {x}
  }

  function Uses(t: Tac): set<Temp> {
    match t
    case Binary(_, a, b) => {a, b}
    case Unary(_, a) => {a}
    case Result(_) => {}
    case Store(a, b) => {a, b}
    case Parm(a) => {a}
    case Other => {}
  }

  function Defs(t: Tac): set<Temp> {
    match t
    case Binary(r, _, _) => {r}
    case Unary(r, _) => Opt(r)
    case Result(r) => Opt(r)
    case _ => {}
  }

  // ------------------------------------------------------------------ one block

  datatype Touch = Untouched | Reads | Writes

  function TouchOf(t: Tac, x: Temp): Touch {
    if x in Uses(t) then Reads else if x in Defs(t) then Writes else Untouched
  }

  /** What the instructions do first to a temporary. */
  function First(tacs: seq<Tac>, x: Temp): Touch {
    if tacs == [] then Untouched
    else if TouchOf(tacs[0], x) != Untouched then TouchOf(tacs[0], x)
    else First(tacs[1..], x)
  }

  /** What a block does first to a temporary. */
  function Does(b: Block, x: Temp): Touch {
    if First(b.tacs, x) != Untouched then First(b.tacs, x) else if x in Opt(b.cond) then Reads else Untouched
  }

  lemma {:induction false} FirstMore(tacs: seq<Tac>, t: Tac, x: Temp)
    ensures First(tacs + [t], x) == if First(tacs, x) != Untouched then First(tacs, x) else TouchOf(t, x)
  {
    if tacs != [] {
      assert (tacs + [t])[1..] == tacs[1..] + [t];
      FirstMore(tacs[1..], t, x);
    } else {
      assert (tacs + [t])[1..] == [];
    }
  }

  /** The live set before an instruction from the one after it. */
  function Transfer(t: Tac, out: set<Temp>): set<Temp> {
    out - Defs(t) + Uses(t)
  }

  /** The live set before a list of instructions from the one after it. */
  function Before(tacs: seq<Tac>, out: set<Temp>): set<Temp> {
    if tacs == [] then out else Transfer(tacs[0], Before(tacs[1..], out))
  }

  /** Going back over the instructions one by one gives what the summary gives: what is
      read first, and of the live set behind what is not written first. */
  lemma {:induction false} BeforeIsSummary(tacs: seq<Tac>, out: set<Temp>, x: Temp)
    ensures x in Before(tacs, out) <==> First(tacs, x) == Reads || (x in out && First(tacs, x) != Writes)
  {
    if tacs != [] {
      BeforeIsSummary(tacs[1..], out, x);
    }
  }

  lemma {:induction false} BlockSummary(b: Block, out: set<Temp>, x: Temp)
    ensures x in Before(b.tacs, out + Opt(b.cond)) <==> Does(b, x) == Reads || (x in out && Does(b, x) != Writes)
  {
    BeforeIsSummary(b.tacs, out + Opt(b.cond), x);
  }

  // ------------------------------------------------------------------- the graph

  ghost predicate Graph(bs: seq<Block>) {
    forall b {:trigger bs[b]} :: 0 <= b < |bs| ==> |bs[b].next| == 2 && bs[b].next[0] < |bs| && bs[b].next[1] < |bs|
  }

  ghost predicate Edge(bs: seq<Block>, b: nat, c: nat) {
    b < |bs| && c < |bs| && (c in bs[b].next)
  }

  /** A path along the edges, from `path[0]`, that reads `x` before writing it. */
  ghost predicate Reaches(bs: seq<Block>, path: seq<nat>, x: Temp)
    decreases |path|
  {
    path != [] && path[0] < |bs| &&
    if |path| == 1 then Does(bs[path[0]], x) == Reads
    else Does(bs[path[0]], x) == Untouched && Edge(bs, path[0], path[1]) && Reaches(bs, path[1..], x)
  }

  /** `x` is live where block `b` begins. */
  ghost predicate Live(bs: seq<Block>, b: nat, x: Temp) {
    exists path :: Reaches(bs, path, x) && path[0] == b
  }

  lemma LiveHere(bs: seq<Block>, b: nat, x: Temp)
    requires b < |bs| && Does(bs[b], x) == Reads
    ensures Live(bs, b, x)
  {
    assert Reaches(bs, [b], x);
  }

  lemma LiveStep(bs: seq<Block>, b: nat, c: nat, x: Temp)
    requires Edge(bs, b, c) && Live(bs, c, x) && Does(bs[b], x) == Untouched
    ensures Live(bs, b, x)
  {
    var path :| Reaches(bs, path, x) && path[0] == c;
    assert ([b] + path)[1..] == path;
    assert Reaches(bs, [b] + path, x);
  }

  /** The data flow equations. */
  ghost predicate Solves(bs: seq<Block>, ins: seq<set<Temp>>, outs: seq<set<Temp>>, b: nat)
    requires |ins| == |outs| == |bs| && b < |bs| && Graph(bs)
  {
    && outs[b] == ins[bs[b].next[0]] + ins[bs[b].next[1]]
    && forall x :: x in ins[b] <==> Does(bs[b], x) == Reads || (x in outs[b] && Does(bs[b], x) != Writes)
  }

  ghost predicate Solution(bs: seq<Block>, ins: seq<set<Temp>>, outs: seq<set<Temp>>)
  {
    && |ins| == |outs| == |bs| && Graph(bs)
    && forall b {:trigger Solves(bs, ins, outs, b)} :: 0 <= b < |bs| ==> Solves(bs, ins, outs, b)
  }

  /** Any solution has all that is live, so what is live is the least one. */
  lemma {:induction false} LiveInSolution(bs: seq<Block>, ins: seq<set<Temp>>, outs: seq<set<Temp>>, path: seq<nat>,
      x: Temp)
    requires Solution(bs, ins, outs) && Reaches(bs, path, x)
    ensures x in ins[path[0]]
    decreases |path|
  {
    assert Solves(bs, ins, outs, path[0]);
    if |path| > 1 {
      LiveInSolution(bs, ins, outs, path[1..], x);
    }
  }
}
