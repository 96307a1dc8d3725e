/** The emitted function computes what the IR function computes. */
module Correctness {
  import opened Words
  import opened Wrappers
  import opened Emitter
  import opened EmitterProofs
  import opened FusionProofs
  import opened Simulation
  import opened Rounds
  import Ir
  import A = Asm

  // ----- one round -----

  /** The round at i starts with the shape that loses a promised store. */
  predicate LosesAt(f: Func, ctx: Ctx, g: Gen, i: nat)
    requires i < |f|
  {
    var s := ShapeAt(f, ctx, i);
    (s.Chain? || s.CompareChain? || s.Pair?) && LosesValue(g, ctx, f[i].op, f[i].lhs, f[i].rhs)
  }

  lemma RoundChain(f: Func, ctx: Ctx, g: Gen, i: nat, last: nat, env: Ir.Env, m: A.Machine, h: Gen, j: nat)
    returns (n: nat, flow: A.Flow)
    requires Ready(f, ctx) && AtHead(f, ctx, g, i, env, m) && Linked(f, ctx, i, last) && i < last
    requires EmitChain(f, ctx, g, i, last) == Some((h, j))
    ensures Simulates(f, ctx, g, i, Seen(ctx, g, f[i], env, m), m, h, j, n, flow)
  {
    var h1 := ComputeToR11(g, ctx, f[i].op, f[i].lhs, f[i].rhs).value;
    var h2 := ExtendChain(f, ctx, h1, i, last).value;
    var seen := Seen(ctx, g, f[i], env, m);
    flow := FirstLink(f, ctx, g, i, env, m, h1);
    ChainTailGrows(f, ctx, h2, last);
    ExtendGrows(f, ctx, h1, i, last);
    StepBinary(f, i, seen);
    StepOnce(f, Ir.At(i, seen));
    ChainDest(f, ctx, h2, last);
    hide Seen, Rel, GoodCtx, SymRel, Exits, StaleSet, Ir.Eval, GoodUses, ConsumeR11, ComputeToR11, InFlight, LosesValue, ExtendChain,
         ChainTail, Emit, ReturnOf, A.Run;
    if flow.Fault? {
      n := 1;
      ExitsFault(g, h1, h2, m, flow.m);
      ExitsFault(g, h2, h, m, flow.m);
    } else {
      n, flow := RoundChainTail(f, ctx, g, i, last, seen, m, h1, flow.m, h2, h, j);
    }
  }

  lemma RoundChainTail(f: Func, ctx: Ctx, g: Gen, i: nat, last: nat, env: Ir.Env, m: A.Machine, h1: Gen, m1: A.Machine,
                       h2: Gen, h: Gen, j: nat) returns (n: nat, flow: A.Flow)
    requires Ready(f, ctx) && HeadGen(f, ctx, g, i) && Linked(f, ctx, i, last) && i < last && !f[last].dest.Int?
    requires Exits(g, h1, m, A.Fall(m1)) && Holding(f, ctx, g, i, i, h1, env, m1, m1.Get(A.R11))
    requires ExtendChain(f, ctx, h1, i, last) == Some(h2) && ChainTail(f, ctx, h2, last) == Some((h, j)) && h2.out <= h.out
    ensures Simulates(f, ctx, g, i, env, m, h, j, n, flow)
  {
    hide Rel, GoodCtx, SymRel, Exits, StaleSet, Ir.Eval, GoodUses, ConsumeR11, InFlight, LosesValue, ExtendChain,
         ChainTail, Emit, ReturnOf, Holding, A.Run;
    var env', v';
    n, env', v', flow := RestOfChain(f, ctx, g, i, i, last, h1, env, m1, m1.Get(A.R11), h2);
    var f2 := flow;
    ExitsThen(g, h1, h2, m, m1, f2);
    if f2.Fault? {
      ExitsFault(g, h2, h, m, f2.m);
    } else {
      n, flow := ChainEnd(f, ctx, g, i, last, n, env, env', m, f2.m, v', h2, h);
    }
  }

  lemma ChainTailGrows(f: Func, ctx: Ctx, k: Gen, last: nat)
    requires last < |f| && f[last].Binary?
    ensures ChainTail(f, ctx, k, last).Some? ==> k.out <= ChainTail(f, ctx, k, last).value.0.out
  {
    hide ReturnOf;
    var back := [A.Mov(A.RAX, A.R(A.R11))];
    EmitGrows(k, back);
    StoreGrows(Emit(k, back), ctx, f[last].dest);
  }

  lemma ChainDest(f: Func, ctx: Ctx, k: Gen, last: nat)
    requires last < |f| && f[last].Binary? && ChainTail(f, ctx, k, last).Some?
    ensures !f[last].dest.Int?
  {}

  lemma {:induction false} ChainLinked(f: Func, ctx: Ctx, i: nat)
    requires i < |f| && f[i].Binary?
    ensures Linked(f, ctx, i, ChainLast(f, ctx, i))
  {}

  /** The environment a round works from: the IR's, but for a temp whose store is lost the word in its slot. */
  function SeenAt(f: Func, ctx: Ctx, g: Gen, i: nat, env: Ir.Env, m: A.Machine): Ir.Env
    requires i < |f|
  {
    if LosesAt(f, ctx, g, i) then Seen(ctx, g, f[i], env, m) else env
  }

  /** Every round, one that loses a store included, does what the IR does from that environment. */
  lemma RoundReads(f: Func, ctx: Ctx, g: Gen, i: nat, env: Ir.Env, m: A.Machine, h: Gen, j: nat)
    returns (n: nat, flow: A.Flow)
    requires Ready(f, ctx) && i < |f| && AtHead(f, ctx, g, i, env, m)
    requires Block(f, ctx, g, i) == Some((h, j))
    ensures Simulates(f, ctx, g, i, SeenAt(f, ctx, g, i, env, m), m, h, j, n, flow)
  {
    hide Ready, AtHead, Simulates, ShapeAt, BinaryFallback, ComputeToR11, CompareJump, ConsumeR11, ReturnOf, CompareR11Jump,
         ZeroJump, Single, EmitChain, Emit, Store, LosesValue;
    match ShapeAt(f, ctx, i)
    case ReturnTemp(ret) =>
      var k := BinaryFallback(g, ctx, Ir.Binary(Ir.Nothing, f[i].op, f[i].lhs, f[i].rhs)).value;
      n, flow := RoundReturn(f, ctx, g, i, ret, env, m, k);
    case Chain(last) =>
      ChainLinked(f, ctx, i);
      n, flow := RoundChain(f, ctx, g, i, last, env, m, h, j);
    case CompareChain =>
      var k := ComputeToR11(g, ctx, f[i].op, f[i].lhs, f[i].rhs).value;
      n, flow := RoundCompareChain(f, ctx, g, i, env, m, k, h);
    case Pair =>
      var k := ComputeToR11(g, ctx, f[i].op, f[i].lhs, f[i].rhs).value;
      var k2 := ConsumeR11(k, ctx, f[i + 1], f[i].dest.name).value;
      n, flow := RoundPair(f, ctx, g, i, env, m, k, k2, h);
    case CompareJumpOver =>
      n, flow := RoundCompareOver(f, ctx, g, i, env, m, h);
    case CompareBranch =>
      n := 2;
      flow := RoundCompare(f, ctx, g, i, env, m, h);
    case JumpOver =>
      n, flow := RoundJumpOver(f, ctx, g, i, env, m, h);
    case Alone =>
      n := 1;
      flow := SimAlone(f, ctx, g, i, env, m, h);
  }
  /** Whatever shape the loop picks, the code it emits in one round does what the IR does. */
  lemma RoundSimulates(f: Func, ctx: Ctx, g: Gen, i: nat, env: Ir.Env, m: A.Machine, h: Gen, j: nat)
    returns (n: nat, flow: A.Flow)
    requires Ready(f, ctx) && i < |f| && AtHead(f, ctx, g, i, env, m)
    requires Block(f, ctx, g, i) == Some((h, j)) && !LosesAt(f, ctx, g, i)
    ensures Simulates(f, ctx, g, i, env, m, h, j, n, flow)
  {
    hide *;
    n, flow := RoundReads(f, ctx, g, i, env, m, h, j);
    assert SeenAt(f, ctx, g, i, env, m) == env by { NothingLost(f, ctx, g, i, env, m); }
  }

  lemma NothingLost(f: Func, ctx: Ctx, g: Gen, i: nat, env: Ir.Env, m: A.Machine)
    requires i < |f| && !LosesAt(f, ctx, g, i)
    ensures SeenAt(f, ctx, g, i, env, m) == env
  {
  }
}
