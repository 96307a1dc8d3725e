/** The fused rounds of the emission loop: chains through r11, compare-and-branch, jumps over
    a label, and returns of a value just computed. */
module Rounds {
  import opened Words
  import opened Wrappers
  import opened Emitter
  import opened EmitterProofs
  import opened FusionProofs
  import opened Simulation
  import Ir
  import A = Asm

  // ----- chains -----

  /** Instructions i..last form a chain: each reads the single-use temp of the one before. */
  predicate Linked(f: Func, ctx: Ctx, i: nat, last: nat) {
    && i <= last < |f|
    && (forall j :: i <= j <= last ==> f[j].Binary?)
    && (forall j :: i <= j < last ==> SingleUseTemp(ctx, f[j]) && ReadsTemp(f[j + 1], f[j].dest.name))
  }

  function ChainTemps(f: Func, i: nat, p: nat): set<string> {
    set j | i <= j < p && j < |f| && f[j].Binary? && f[j].dest.Temp? :: f[j].dest.name
  }

  lemma ChainTempsNext(f: Func, i: nat, p: nat)
    requires i <= p < |f| && f[p].Binary? && f[p].dest.Temp?
    ensures ChainTemps(f, i, p + 1) == ChainTemps(f, i, p) + {f[p].dest.name}
  {
    forall t | t in ChainTemps(f, i, p + 1) ensures t in ChainTemps(f, i, p) + {f[p].dest.name} {
      var j :| i <= j < p + 1 && j < |f| && f[j].Binary? && f[j].dest.Temp? && t == f[j].dest.name;
      if j < p { assert t in ChainTemps(f, i, p); }
    }
    assert f[p].dest.name in ChainTemps(f, i, p + 1);
    forall t | t in ChainTemps(f, i, p) ensures t in ChainTemps(f, i, p + 1) {
      var j :| i <= j < p && j < |f| && f[j].Binary? && f[j].dest.Temp? && t == f[j].dest.name;
    }
  }

  /** A temp whose value stays in a register may be counted as stale. */
  lemma PutFused(ctx: Ctx, stale: set<string>, g: Gen, env: Ir.Env, m: A.Machine, t: string, v: Word)
    requires Settled(g) && Rel(ctx, stale, g, env, m)
    ensures Rel(ctx, stale + {t}, g, env.Put(Ir.Temp(t), v), m)
  {
    var env' := env.Put(Ir.Temp(t), v);
    forall s | s in ctx.symbols ensures ReadLoc(m, s, ctx.symbols[s]) == env'.Sym(s) {
      assert ReadLoc(m, s, ctx.symbols[s]) == env.Sym(s);
    }
  }

  /** The temps a round has in flight: those stale before it, what it dropped, and its links. */
  ghost function InFlight(f: Func, ctx: Ctx, g: Gen, i: nat, p: nat): set<string>
    requires i < |f| && f[i].Binary?
  {
    StaleSet(f, ctx, i) + Dropped(g, ctx, f[i].lhs) + Dropped(g, ctx, f[i].rhs) + ChainTemps(f, i, p)
  }

  /** The other operand of a link is in its slot, a symbol or a literal. */
  lemma OtherFresh(f: Func, ctx: Ctx, g: Gen, i: nat, p: nat, o: Ir.Operand)
    requires GoodUses(f, ctx) && GenInv(ctx, g) && Linked(f, ctx, i, p) && p + 1 < |f| && f[p + 1].Binary?
    requires SingleUseTemp(ctx, f[p]) && ReadsTemp(f[p + 1], f[p].dest.name)
    requires o == f[p + 1].lhs || o == f[p + 1].rhs
    requires o != f[p].dest
    ensures Fresh(InFlight(f, ctx, g, i, p + 1), o)
  {
    if o.Temp? {
      forall d | i <= d <= p && f[d].dest == o ensures false {
        if d < p { OneUse(f, ctx, o.name, d + 1, p + 1); }
      }
      FreshRead(f, ctx, i, p + 1, o);
      NotDropped(f, ctx, g, i, p + 1, f[i].lhs, o);
      NotDropped(f, ctx, g, i, p + 1, f[i].rhs, o);
      assert o.name !in ChainTemps(f, i, p + 1);
    }
  }

  lemma OneSide(f: Func, ctx: Ctx, p: nat)
    requires GoodUses(f, ctx) && p + 1 < |f| && SingleUseTemp(ctx, f[p]) && ReadsTemp(f[p + 1], f[p].dest.name)
    ensures (f[p + 1].lhs == f[p].dest) != (f[p + 1].rhs == f[p].dest)
  {
    OneUse(f, ctx, f[p].dest.name, p + 1, p + 1);
  }

  /** What the first instruction of a fusion reads: where a promised store is lost, the slot's word for the temp. */
  function Seen(ctx: Ctx, g: Gen, a: Ir.Instr, env: Ir.Env, m: A.Machine): Ir.Env
    requires a.Binary?
  {
    if LosesValue(g, ctx, a.op, a.lhs, a.rhs) && a.lhs.Temp? then env.Put(a.lhs, m.Slot(ctx.TempOff(a.lhs.name))) else env
  }

  /** The first link: r11 has its value, or both sides fault. */
  lemma FirstLink(f: Func, ctx: Ctx, g: Gen, i: nat, env: Ir.Env, m: A.Machine, h: Gen) returns (flow: A.Flow)
    requires Ready(f, ctx) && AtHead(f, ctx, g, i, env, m) && i < |f| && f[i].Binary?
    requires ComputeToR11(g, ctx, f[i].op, f[i].lhs, f[i].rhs) == Some(h)
    ensures var seen := Seen(ctx, g, f[i], env, m);
            Computes(ctx, InFlight(f, ctx, g, i, i), g, h, seen, m, A.R11,
                     Ir.Eval(f[i].op, seen.Value(f[i].lhs), seen.Value(f[i].rhs)), flow)
  {
    BothFresh(f, ctx, g, i, f[i].lhs, f[i].rhs);
    assert InFlight(f, ctx, g, i, i) == StaleSet(f, ctx, i) + Dropped(g, ctx, f[i].lhs) + Dropped(g, ctx, f[i].rhs);
    hide Rel, GoodCtx, Ir.Eval, StaleSet, ComputeToR11, Computes, ImmediateCode, IgnoresLeft, InFlight;
    if LosesValue(g, ctx, f[i].op, f[i].lhs, f[i].rhs) {
      flow := LostLoad(ctx, StaleSet(f, ctx, i), g, env, m, f[i].op, f[i].lhs, f[i].rhs, h);
      LostLink(ctx, StaleSet(f, ctx, i), InFlight(f, ctx, g, i, i), g, env, m, f[i].op, f[i].lhs, f[i].rhs, h, flow);
    } else {
      flow := ComputeToR11Correct(ctx, StaleSet(f, ctx, i), g, env, m, f[i].op, f[i].lhs, f[i].rhs, h);
    }
  }

  /** The slot's word may be counted as the temp's value. */
  lemma LostLink(ctx: Ctx, stale: set<string>, all: set<string>, g: Gen, env: Ir.Env, m: A.Machine, op: Ir.BinOp, lhs: Ir.Operand,
                 rhs: Ir.Operand, h: Gen, flow: A.Flow)
    requires LosesSpill(g, ctx, op, lhs, rhs) && stale + Dropped(g, ctx, lhs) <= all
    requires Computes(ctx, stale + Dropped(g, ctx, lhs), g, h, env, m, A.R11, Ir.Eval(op, m.Slot(ctx.TempOff(lhs.name)), rhs.value), flow)
    ensures var seen := env.Put(lhs, m.Slot(ctx.TempOff(lhs.name)));
            Computes(ctx, all, g, h, seen, m, A.R11, Ir.Eval(op, seen.Value(lhs), seen.Value(rhs)), flow)
  {
    var w := m.Slot(ctx.TempOff(lhs.name));
    var seen := env.Put(lhs, w);
    assert lhs.Temp? && lhs.name in Dropped(g, ctx, lhs);
    assert seen.Value(lhs) == w && seen.Value(rhs) == rhs.value;
    hide Ir.Eval, Rel, SymRel;
    if Ir.Eval(op, w, rhs.value).Some? {
      PutFused(ctx, stale + Dropped(g, ctx, lhs), h, env, flow.m, lhs.name, w);
      RelWeaken(ctx, stale + Dropped(g, ctx, lhs) + {lhs.name}, all, h, seen, flow.m);
    } else {
      SameSymbols(ctx, env, lhs.name, w, flow.m);
    }
  }

  lemma SameSymbols(ctx: Ctx, env: Ir.Env, t: string, w: Word, m: A.Machine)
    requires SymRel(ctx, env, m)
    ensures SymRel(ctx, env.Put(Ir.Temp(t), w), m)
  {
    var env' := env.Put(Ir.Temp(t), w);
    forall s | s in ctx.symbols ensures ReadLoc(m, s, ctx.symbols[s]) == env'.Sym(s) {
      assert ReadLoc(m, s, ctx.symbols[s]) == env.Sym(s);
    }
  }

  /** Before link p the environment is env; r11 already holds the value v of link p. */
  ghost predicate Holding(f: Func, ctx: Ctx, g0: Gen, i: nat, p: nat, g: Gen, env: Ir.Env, m: A.Machine, v: Word) {
    && Linked(f, ctx, i, p) && GenInv(ctx, g) && Settled(g)
    && Rel(ctx, InFlight(f, ctx, g0, i, p), g, env, m) && m.Get(A.R11) == v
    && Ir.Eval(f[p].op, env.Value(f[p].lhs), env.Value(f[p].rhs)) == Some(v)
  }

  /** Link p is done with value v; what link p + 1 evaluates to reaches rax, or both sides
      fault. */
  ghost predicate Consumed(f: Func, ctx: Ctx, g0: Gen, i: nat, p: nat, g: Gen, env: Ir.Env, m: A.Machine, v: Word, h: Gen,
                           flow: A.Flow) {
    i < |f| && p + 1 < |f| && f[i].Binary? && f[p].Binary? && f[p].dest.Temp? && f[p + 1].Binary? &&
    var env1 := env.Put(f[p].dest, v);
    Computes(ctx, InFlight(f, ctx, g0, i, p + 1), g, h, env1, m, A.RAX,
             Ir.Eval(f[p + 1].op, env1.Value(f[p + 1].lhs), env1.Value(f[p + 1].rhs)), flow)
  }

  /** What one more link needs of the operands. */
  lemma LinkOperands(f: Func, ctx: Ctx, g0: Gen, i: nat, p: nat)
    requires Ready(f, ctx) && GenInv(ctx, g0) && Linked(f, ctx, i, p) && Linked(f, ctx, i, p + 1)
    ensures f[p].dest.Temp? && ReadsTemp(f[p + 1], f[p].dest.name)
    ensures (f[p + 1].lhs == f[p].dest) != (f[p + 1].rhs == f[p].dest)
    ensures Fresh(InFlight(f, ctx, g0, i, p + 1), if f[p + 1].lhs == f[p].dest then f[p + 1].rhs else f[p + 1].lhs)
    ensures InFlight(f, ctx, g0, i, p) + {f[p].dest.name} == InFlight(f, ctx, g0, i, p + 1)
  {
    hide GoodCtx, StaleSet, GenInv, Dropped;
    ChainTempsNext(f, i, p);
    OneSide(f, ctx, p);
    OtherFresh(f, ctx, g0, i, p, if f[p + 1].lhs == f[p].dest then f[p + 1].rhs else f[p + 1].lhs);
  }

  /** One more link: the consumer's value reaches rax, or both sides fault. */
  lemma NextLink(f: Func, ctx: Ctx, g0: Gen, i: nat, p: nat, g: Gen, env: Ir.Env, m: A.Machine, v: Word, h: Gen)
    returns (flow: A.Flow)
    requires p + 1 < |f| && f[p].Binary? && f[p].dest.Temp? && f[p + 1].Binary?
    requires ConsumeR11(g, ctx, f[p + 1], f[p].dest.name) == Some(h)
    requires Ready(f, ctx) && GenInv(ctx, g0) && Holding(f, ctx, g0, i, p, g, env, m, v) && Linked(f, ctx, i, p + 1)
    ensures Consumed(f, ctx, g0, i, p, g, env, m, v, h, flow)
  {
    hide Rel, GoodCtx, Ir.Eval, StaleSet, InFlight, ConsumeR11, Computes, GoodUses, Ir.UniqueLabels, GenInv, Settled;
    LinkOperands(f, ctx, g0, i, p);
    PutFused(ctx, InFlight(f, ctx, g0, i, p), g, env, m, f[p].dest.name, v);
    var env1 := env.Put(f[p].dest, v);
    assert env1.Tmp(f[p].dest.name) == v;
    flow := ConsumeCorrect(ctx, InFlight(f, ctx, g0, i, p + 1), g, env1, m, f[p + 1], f[p].dest.name, h);
  }

  lemma StepBinary(f: Func, i: nat, env: Ir.Env)
    requires i < |f| && f[i].Binary? && !f[i].dest.Int?
    ensures Ir.Step(f, Ir.At(i, env)) ==
            AfterValue(f[i].dest, Ir.Eval(f[i].op, env.Value(f[i].lhs), env.Value(f[i].rhs)), i, env)
  {
    hide Ir.Eval;
  }

  /** mov r11, rax. */
  lemma CopyOut(ctx: Ctx, stale: set<string>, g: Gen, env: Ir.Env, m: A.Machine) returns (m': A.Machine)
    requires GoodCtx(ctx) && GenInv(ctx, g) && Rel(ctx, stale, g, env, m)
    ensures var h := Emit(g, [A.Mov(A.R11, A.R(A.RAX))]);
            Exits(g, h, m, A.Fall(m')) && GenInv(ctx, h) && Settled(h) && Rel(ctx, stale, h, env, m')
    ensures m'.Get(A.R11) == m.Get(A.RAX)
  {
    var a := A.Mov(A.R11, A.R(A.RAX));
    var m1 := AfterSpill(g, m);
    A.RunOne(a, m1);
    m' := m1.Set(A.R11, m1.Get(A.RAX));
    EmitKeeps(ctx, stale, g, env, m, [a], A.Fall(m'));
  }

  /** After link p + 1 and the copy to r11 the chain has moved on by one instruction. */
  ghost predicate Moved(f: Func, ctx: Ctx, g0: Gen, i: nat, p: nat, g: Gen, env: Ir.Env, m: A.Machine, v: Word, h: Gen,
                        v': Word, flow: A.Flow) {
    && p + 1 < |f| && f[p].Binary? && f[p].dest.Temp? && f[p + 1].Binary?
    && Ir.Step(f, Ir.At(p, env)) == Ir.At(p + 1, env.Put(f[p].dest, v))
    && Exits(g, h, m, flow) && (flow.Fall? || flow.Fault?)
    && (flow.Fall? ==> Holding(f, ctx, g0, i, p + 1, h, env.Put(f[p].dest, v), flow.m, v'))
    && (flow.Fault? ==> SymRel(ctx, env.Put(f[p].dest, v), flow.m))
    && (flow.Fault? && !f[p + 1].dest.Int? ==> Ir.Steps(f, 2, Ir.At(p, env)) == Ir.Trapped(env.Put(f[p].dest, v)))
  }

  /** One link and the copy to r11. */
  lemma ChainStep(f: Func, ctx: Ctx, g0: Gen, i: nat, p: nat, g: Gen, env: Ir.Env, m: A.Machine, v: Word, k: Gen)
    returns (v': Word, flow: A.Flow)
    requires p + 1 < |f| && f[p].Binary? && f[p].dest.Temp? && f[p + 1].Binary?
    requires ConsumeR11(g, ctx, f[p + 1], f[p].dest.name) == Some(k)
    requires Ready(f, ctx) && GenInv(ctx, g0) && Holding(f, ctx, g0, i, p, g, env, m, v) && Linked(f, ctx, i, p + 1)
    ensures Moved(f, ctx, g0, i, p, g, env, m, v, Emit(k, [A.Mov(A.R11, A.R(A.RAX))]), v', flow)
  {
    hide Rel, GoodCtx, Ir.Eval, StaleSet, InFlight, ConsumeR11, SymRel, GenInv, Ir.Step, A.Run, Ir.UsesIn, Ir.Steps,
         GoodUses, Ir.UniqueLabels, Exits, Settled;
    var env1 := env.Put(f[p].dest, v);
    flow := NextLink(f, ctx, g0, i, p, g, env, m, v, k);
    StepBinary(f, p, env);
    var code := [A.Mov(A.R11, A.R(A.RAX))];
    if flow.Fault? {
      v' := v;
      if !f[p + 1].dest.Int? { TrapNext(f, p, env, env1); }
      EmitGrows(k, code);
      ExitsFault(g, k, Emit(k, code), m, flow.m);
    } else {
      v' := flow.m.Get(A.RAX);
      var m1 := flow.m;
      var m2 := CopyOut(ctx, InFlight(f, ctx, g0, i, p + 1), k, env1, m1);
      flow := A.Fall(m2);
      ExitsThen(g, k, Emit(k, code), m, m1, flow);
    }
  }

  /** After links p+1..last, n IR steps from link p: r11 holds the last link's value v', or
      a division has faulted on both sides. */
  ghost predicate ChainDone(f: Func, ctx: Ctx, g0: Gen, i: nat, p: nat, last: nat, g: Gen, env: Ir.Env, m: A.Machine,
                            h: Gen, n: nat, env': Ir.Env, v': Word, flow: A.Flow) {
    && Exits(g, h, m, flow) && (flow.Fall? || flow.Fault?)
    && (flow.Fall? ==> n + p == last && Ir.Steps(f, n, Ir.At(p, env)) == Ir.At(last, env') &&
                       Holding(f, ctx, g0, i, last, h, env', flow.m, v'))
    && (flow.Fault? ==> n >= 1 && Ir.Steps(f, n, Ir.At(p, env)) == Ir.Trapped(env') && SymRel(ctx, env', flow.m))
  }

  /** Running links p+1..last: r11 ends with the value of the last, or both sides fault. */
  lemma {:induction false} RestOfChain(f: Func, ctx: Ctx, g0: Gen, i: nat, p: nat, last: nat, g: Gen, env: Ir.Env,
                                       m: A.Machine, v: Word, h: Gen)
    returns (n: nat, env': Ir.Env, v': Word, flow: A.Flow)
    requires Ready(f, ctx) && GenInv(ctx, g0) && Holding(f, ctx, g0, i, p, g, env, m, v) && Linked(f, ctx, i, last) && i <= p <= last
    requires ExtendChain(f, ctx, g, p, last) == Some(h) && !f[last].dest.Int?
    ensures ChainDone(f, ctx, g0, i, p, last, g, env, m, h, n, env', v', flow)
    decreases last - p
  {
    hide Rel, GoodCtx, Ir.Eval, StaleSet, InFlight, ConsumeR11, SymRel, Ready, GenInv, Ir.Step, A.Run, Ir.UsesIn, Exits, Emit,
         Holding;
    if p == last {
      n, env', v', flow := 0, env, v, A.Fall(m);
      ExitsSame(g, m);
      assert Ir.Steps(f, 0, Ir.At(p, env)) == Ir.At(p, env);
    } else {
      assert Linked(f, ctx, i, p + 1);
      var k := ConsumeR11(g, ctx, f[p + 1], f[p].dest.name).value;
      v', flow := ChainStep(f, ctx, g0, i, p, g, env, m, v, k);
      var env1 := env.Put(f[p].dest, v);
      var k2 := Emit(k, [A.Mov(A.R11, A.R(A.RAX))]);
      if flow.Fault? {
        n, env' := 2, env1;
        ExtendGrows(f, ctx, k2, p + 1, last);
        ExitsFault(g, k2, h, m, flow.m);
      } else {
        var m2 := flow.m;
        var n1;
        n1, env', v', flow := RestOfChain(f, ctx, g0, i, p + 1, last, k2, env1, m2, v', h);
        n := n1 + 1;
        ExitsThen(g, k2, h, m, m2, flow);
        assert Ir.Steps(f, n, Ir.At(p, env)) == Ir.Steps(f, n1, Ir.At(p + 1, env1));
      }
    }
  }

  lemma TrapNext(f: Func, p: nat, env: Ir.Env, env1: Ir.Env)
    requires p + 1 < |f| && f[p + 1].Binary? && !f[p + 1].dest.Int?
    requires Ir.Step(f, Ir.At(p, env)) == Ir.At(p + 1, env1)
    requires Ir.Eval(f[p + 1].op, env1.Value(f[p + 1].lhs), env1.Value(f[p + 1].rhs)) == None
    ensures Ir.Steps(f, 2, Ir.At(p, env)) == Ir.Trapped(env1)
  {
    StepTwice(f, Ir.At(p, env));
    StepBinary(f, p + 1, env1);
  }

  // ----- the ends of a round -----

  /** The temp computed at q is used once, by the next instruction. */
  predicate LinkAt(f: Func, ctx: Ctx, q: nat) {
    q + 1 < |f| && SingleUseTemp(ctx, f[q]) && !f[q + 1].Label? && Ir.UsesIn(f[q + 1], f[q].dest.name) > 0
  }

  ghost predicate UsedWithin(f: Func, d: nat, j: nat, t: string) {
    exists u: nat :: d < u < j && u < |f| && Ir.UsesIn(f[u], t) > 0
  }

  lemma InFlightCovers(f: Func, ctx: Ctx, g: Gen, i: nat, p: nat, j: nat, k: nat, removed: set<string>)
    requires Ready(f, ctx) && GenInv(ctx, g) && PendingAt(f, ctx, g, i)
    requires i < j <= |f| && Follows(f, j, k) && f[i].Binary?
    requires p < j && forall q :: i <= q < p ==> LinkAt(f, ctx, q)
    requires forall t, d :: i <= d < j && Ir.Defines(f[d], t) && t !in removed ==> UsedWithin(f, d, j, t)
    ensures Covers(f, ctx, InFlight(f, ctx, g, i, p) - removed, k)
  {
    hide StaleAt, GoodCtx;
    forall t | t in InFlight(f, ctx, g, i, p) - removed && ctx.TempOff(t) > 0 ensures StaleAt(f, ctx, t, k) {
      if t in Dropped(g, ctx, f[i].lhs) {
        DroppedStale(f, ctx, g, i, i, j, k, f[i].lhs);
      } else if t in Dropped(g, ctx, f[i].rhs) {
        DroppedStale(f, ctx, g, i, i, j, k, f[i].rhs);
      } else if t in ChainTemps(f, i, p) {
        var q :| i <= q < p && q < |f| && f[q].Binary? && f[q].dest.Temp? && t == f[q].dest.name;
        assert LinkAt(f, ctx, q);
        FusedStale(f, ctx, q, t, k);
      } else {
        forall d | i <= d < j && Ir.Defines(f[d], t) ensures exists u :: d < u < j && Ir.UsesIn(f[u], t) > 0 {
          assert UsedWithin(f, d, j, t);
        }
        OldStale(f, ctx, i, j, k, t);
      }
    }
  }

  lemma LinkedUses(f: Func, ctx: Ctx, i: nat, last: nat)
    requires Linked(f, ctx, i, last)
    ensures NoLabels(f, i, last + 1)
    ensures forall q :: i <= q < last ==> LinkAt(f, ctx, q)
    ensures forall t, d, j :: i <= d < last < j && Ir.Defines(f[d], t) ==> UsedWithin(f, d, j, t)
  {
    forall q | i <= q < last ensures LinkAt(f, ctx, q) {
      assert ReadsTemp(f[q + 1], f[q].dest.name);
    }
    forall t, d, j | i <= d < last < j && Ir.Defines(f[d], t) ensures UsedWithin(f, d, j, t) {
      assert ReadsTemp(f[d + 1], f[d].dest.name);
      assert Ir.UsesIn(f[d + 1], t) > 0;
    }
  }

  /** The chain's last value is stored as its destination. */
  lemma SimStored(f: Func, ctx: Ctx, g: Gen, i: nat, last: nat, n: nat, env0: Ir.Env, env: Ir.Env, m: A.Machine, s: Gen,
                  value: Option<Word>, flow: A.Flow)
    requires Ready(f, ctx) && HeadGen(f, ctx, g, i) && Linked(f, ctx, i, last) && !f[last].dest.Int?
    requires Ir.Steps(f, n, Ir.At(i, env0)) == Ir.At(last, env)
    requires value == Ir.Eval(f[last].op, env.Value(f[last].lhs), env.Value(f[last].rhs))
    requires Completes(ctx, InFlight(f, ctx, g, i, last), g, s, env, m, f[last].dest, value, flow)
    ensures Simulates(f, ctx, g, i, env0, m, s, last + 1, n + 1, flow)
  {
    hide Rel, GoodCtx, SymRel, Exits, StaleSet, Covers, Ir.Step, Ir.Steps, GenInv, PendingAt, InFlight, Ir.Eval,
         Ir.UniqueLabels, GoodUses;
    Ir.StepsAdd(f, n, 1, Ir.At(i, env0));
    StepOnce(f, Ir.At(last, env));
    StepBinary(f, last, env);
    if value.Some? {
      var removed := Defined(f[last].dest);
      LinkedUses(f, ctx, i, last);
      InFlightCovers(f, ctx, g, i, last, last + 1, last + 1, removed);
      RelCovers(f, ctx, InFlight(f, ctx, g, i, last) - removed, last + 1, s, env.Put(f[last].dest, value.value), flow.m);
      PendingPositive(ctx, s);
      PendingNext(f, ctx, g, i, last + 1, s, f[last].dest);
    }
  }

  lemma {:induction false} NopSteps(f: Func, a: nat, b: nat, env: Ir.Env)
    requires a <= b <= |f| && forall k :: a <= k < b ==> f[k].Nop?
    ensures Ir.Steps(f, b - a, Ir.At(a, env)) == Ir.At(b, env)
    decreases b - a
  {
    if a < b { NopSteps(f, a + 1, b, env); }
  }

  /** The last value is returned without being stored. */
  lemma SimReturned(f: Func, ctx: Ctx, g: Gen, i: nat, last: nat, ret: nat, n: nat, env0: Ir.Env, env: Ir.Env,
                    m: A.Machine, h: Gen, v: Word, flow: A.Flow) returns (n': nat)
    requires last < |f| && f[last].Binary? && f[last].dest.Temp? && ReturnOf(f, last, f[last].dest.name) == Some(ret)
    requires Ir.Steps(f, n, Ir.At(i, env0)) == Ir.At(last, env)
    requires Ir.Eval(f[last].op, env.Value(f[last].lhs), env.Value(f[last].rhs)) == Some(v)
    requires Exits(g, h, m, flow) && flow.Goto? && flow.target.Exit? && SymRel(ctx, env, flow.m) && flow.m.Get(A.RAX) == v
    ensures Simulates(f, ctx, g, i, env0, m, h, ret + 1, n', flow)
  {
    hide Ir.Eval, Exits, ReturnOf;
    var env1 := env.Put(f[last].dest, v);
    StepBinary(f, last, env);
    var c := Ir.At(i, env0);
    Ir.StepsAdd(f, n, 1, c);
    StepOnce(f, Ir.At(last, env));
    NopSteps(f, last + 1, ret, env1);
    Ir.StepsAdd(f, n + 1, ret - (last + 1), c);
    Ir.StepsAdd(f, n + 1 + (ret - (last + 1)), 1, c);
    StepOnce(f, Ir.At(ret, env1));
    n' := n + 1 + (ret - (last + 1)) + 1;
    assert Ir.Step(f, Ir.At(ret, env1)) == Ir.Done(Some(v), env1);
    assert SymRel(ctx, env1, flow.m);
  }

  /** The round's last value is branched on without being stored. */
  lemma FusedRel(f: Func, ctx: Ctx, g: Gen, i: nat, last: nat, j: nat, k: nat, env: Ir.Env, h: Gen, v: Word, m: A.Machine)
    requires Ready(f, ctx) && GenInv(ctx, g) && PendingAt(f, ctx, g, i) && Linked(f, ctx, i, last) && Settled(h)
    requires SingleUseTemp(ctx, f[last]) && last + 2 <= j <= |f| && Follows(f, j, k)
    requires f[last + 1].BranchZero? && f[last + 1].lhs == f[last].dest && (j == last + 3 ==> f[last + 2].Jump?) && j <= last + 3
    requires Rel(ctx, InFlight(f, ctx, g, i, last), h, env, m)
    ensures Rel(ctx, StaleSet(f, ctx, k), h, env.Put(f[last].dest, v), m)
  {
    hide Rel, GoodCtx, StaleSet, GenInv, PendingAt, Covers, Settled;
    var t := f[last].dest.name;
    PutFused(ctx, InFlight(f, ctx, g, i, last), h, env, m, t, v);
    ChainTempsNext(f, i, last);
    assert InFlight(f, ctx, g, i, last) + {t} == InFlight(f, ctx, g, i, last + 1);
    LinkedUses(f, ctx, i, last);
    assert LinkAt(f, ctx, last);
    forall t', d | i <= d < j && Ir.Defines(f[d], t') ensures UsedWithin(f, d, j, t') {
      if d == last { assert Ir.UsesIn(f[last + 1], t') > 0; } else { assert d < last; }
    }
    InFlightCovers(f, ctx, g, i, last + 1, j, k, {});
    assert InFlight(f, ctx, g, i, last + 1) - {} == InFlight(f, ctx, g, i, last + 1);
    RelCovers(f, ctx, InFlight(f, ctx, g, i, last + 1), k, h, env.Put(f[last].dest, v), m);
  }

  lemma SimBranched(f: Func, ctx: Ctx, g: Gen, i: nat, last: nat, n: nat, env0: Ir.Env, env: Ir.Env, m: A.Machine, h: Gen,
                    v: Word, flow: A.Flow)
    requires Ready(f, ctx) && HeadGen(f, ctx, g, i) && Linked(f, ctx, i, last) && Settled(h)
    requires SingleUseTemp(ctx, f[last]) && last + 1 < |f| && f[last + 1].BranchZero? && f[last + 1].lhs == f[last].dest
    requires Ir.Steps(f, n, Ir.At(i, env0)) == Ir.At(last, env)
    requires Ir.Eval(f[last].op, env.Value(f[last].lhs), env.Value(f[last].rhs)) == Some(v)
    requires Branches(ctx, InFlight(f, ctx, g, i, last), g, h, env, m, v == 0, f[last + 1].text, flow)
    ensures Simulates(f, ctx, g, i, env0, m, h, last + 2, n + 2, flow)
  {
    hide Rel, GoodCtx, SymRel, Exits, StaleSet, GenInv, InFlight, Ir.Eval, Ir.UniqueLabels, GoodUses;
    var env1 := env.Put(f[last].dest, v);
    StepBinary(f, last, env);
    Ir.StepsAdd(f, n, 2, Ir.At(i, env0));
    StepTwice(f, Ir.At(last, env));
    assert env1.Value(f[last].dest) == v;
    if v == 0 {
      var k := Ir.FindLabel(f, f[last + 1].text, 0);
      if k.Some? {
        FusedRel(f, ctx, g, i, last, last + 2, k.value, env, h, v, flow.m);
        RelClean(ctx, StaleSet(f, ctx, k.value), h, env1, flow.m);
      }
    } else {
      FusedRel(f, ctx, g, i, last, last + 2, last + 2, env, h, v, flow.m);
    }
  }

  /** Compare, branch over a jump, jump, label: one conditional jump does for all of them. */
  lemma SimBranchedOver(f: Func, ctx: Ctx, g: Gen, i: nat, env: Ir.Env, m: A.Machine, h: Gen, v: Word, flow: A.Flow)
    returns (n: nat)
    requires Ready(f, ctx) && AtHead(f, ctx, g, i, env, m) && i < |f| && Settled(h)
    requires SingleUseTemp(ctx, f[i]) && i + 3 < |f| && f[i + 1].BranchZero? && f[i + 1].lhs == f[i].dest
    requires f[i + 2].Jump? && f[i + 3] == Ir.Label(f[i + 1].text)
    requires Ir.Eval(f[i].op, env.Value(f[i].lhs), env.Value(f[i].rhs)) == Some(v)
    requires Branches(ctx, InFlight(f, ctx, g, i, i), g, h, env, m, v != 0, f[i + 2].text, flow)
    ensures Simulates(f, ctx, g, i, env, m, h, i + 3, n, flow)
  {
    hide Rel, GoodCtx, SymRel, Exits, StaleSet, GenInv, InFlight, Ir.Eval, GoodUses;
    var env1 := env.Put(f[i].dest, v);
    StepBinary(f, i, env);
    StepTwice(f, Ir.At(i, env));
    assert env1.Value(f[i].dest) == v;
    Ir.FindLabelUnique(f, f[i + 1].text, 0, i + 3);
    if v != 0 {
      n := 3;
      Ir.StepsAdd(f, 2, 1, Ir.At(i, env));
      StepOnce(f, Ir.At(i + 2, env1));
      var k := Ir.FindLabel(f, f[i + 2].text, 0);
      if k.Some? {
        FusedRel(f, ctx, g, i, i, i + 3, k.value, env, h, v, flow.m);
        RelClean(ctx, StaleSet(f, ctx, k.value), h, env1, flow.m);
      }
    } else {
      n := 2;
      FusedRel(f, ctx, g, i, i, i + 3, i + 3, env, h, v, flow.m);
    }
  }

  // ----- the rounds -----

  lemma InFlightNow(f: Func, ctx: Ctx, g: Gen, i: nat)
    requires i < |f| && f[i].Binary?
    ensures InFlight(f, ctx, g, i, i) == StaleSet(f, ctx, i) + Dropped(g, ctx, f[i].lhs) + Dropped(g, ctx, f[i].rhs)
  {}

  lemma RoundReturn(f: Func, ctx: Ctx, g: Gen, i: nat, ret: nat, env: Ir.Env, m: A.Machine, h: Gen)
    returns (n: nat, flow: A.Flow)
    requires Ready(f, ctx) && AtHead(f, ctx, g, i, env, m) && i < |f|
    requires SingleUseTemp(ctx, f[i]) && ReturnOf(f, i, f[i].dest.name) == Some(ret)
    requires BinaryFallback(g, ctx, Ir.Binary(Ir.Nothing, f[i].op, f[i].lhs, f[i].rhs)) == Some(h)
    ensures Simulates(f, ctx, g, i, env, m, Emit(h, [A.Jmp(A.Exit)]), ret + 1, n, flow)
  {
    var b := f[i];
    var stale := StaleSet(f, ctx, i);
    BothFresh(f, ctx, g, i, b.lhs, b.rhs);
    hide Rel, GoodCtx, SymRel, Exits, StaleSet, Ir.Eval, GoodUses, BinaryFallback, ReturnOf, Emit;
    flow := FallbackCorrect(ctx, stale, g, env, m, Ir.Binary(Ir.Nothing, b.op, b.lhs, b.rhs), h);
    var code := [A.Jmp(A.Exit)];
    if flow.Fault? {
      EmitGrows(h, code);
      ExitsFault(g, h, Emit(h, code), m, flow.m);
      n := 1;
      StepBinary(f, i, env);
      StepOnce(f, Ir.At(i, env));
    } else {
      var m1, v := flow.m, flow.m.Get(A.RAX);
      flow := ExitJump(ctx, stale + Dropped(g, ctx, b.lhs) + Dropped(g, ctx, b.rhs) - Defined(Ir.Nothing), h,
                       env.Put(Ir.Nothing, v), m1);
      ExitsThen(g, h, Emit(h, code), m, m1, flow);
      assert Ir.Steps(f, 0, Ir.At(i, env)) == Ir.At(i, env);
      n := SimReturned(f, ctx, g, i, i, ret, 0, env, env, m, Emit(h, code), v, flow);
    }
  }

  lemma RoundPair(f: Func, ctx: Ctx, g: Gen, i: nat, env: Ir.Env, m: A.Machine, h: Gen, k: Gen, s: Gen)
    returns (n: nat, flow: A.Flow)
    requires Ready(f, ctx) && AtHead(f, ctx, g, i, env, m) && i + 1 < |f|
    requires SingleUseTemp(ctx, f[i]) && ReadsTemp(f[i + 1], f[i].dest.name)
    requires ComputeToR11(g, ctx, f[i].op, f[i].lhs, f[i].rhs) == Some(h)
    requires ConsumeR11(h, ctx, f[i + 1], f[i].dest.name) == Some(k) && Store(k, ctx, f[i + 1].dest) == Some(s)
    ensures Simulates(f, ctx, g, i, Seen(ctx, g, f[i], env, m), m, s, i + 2, n, flow)
  {
    var seen := Seen(ctx, g, f[i], env, m);
    flow := FirstLink(f, ctx, g, i, env, m, h);
    var destOk := !f[i + 1].dest.Int?;
    assert destOk;
    hide Seen, Rel, GoodCtx, SymRel, Exits, StaleSet, Ir.Eval, GoodUses, ConsumeR11, ComputeToR11, InFlight, Store, LosesValue;
    StepBinary(f, i, seen);
    StepOnce(f, Ir.At(i, seen));
    if flow.Fault? {
      n := 1;
      ConsumeGrows(h, ctx, f[i + 1], f[i].dest.name);
      StoreGrows(k, ctx, f[i + 1].dest);
      ExitsFault(g, h, k, m, flow.m);
      ExitsFault(g, k, s, m, flow.m);
    } else {
      n := 2;
      flow := PairTail(f, ctx, g, i, seen, m, h, flow.m, k, s);
    }
  }

  lemma PairTail(f: Func, ctx: Ctx, g: Gen, i: nat, env: Ir.Env, m: A.Machine, h: Gen, m1: A.Machine, k: Gen, s: Gen)
    returns (flow: A.Flow)
    requires i + 1 < |f| && SingleUseTemp(ctx, f[i]) && ReadsTemp(f[i + 1], f[i].dest.name) && !f[i + 1].dest.Int?
    requires Ready(f, ctx) && HeadGen(f, ctx, g, i)
    requires Exits(g, h, m, A.Fall(m1)) && Holding(f, ctx, g, i, i, h, env, m1, m1.Get(A.R11))
    requires Ir.Steps(f, 1, Ir.At(i, env)) == Ir.At(i + 1, env.Put(f[i].dest, m1.Get(A.R11)))
    requires ConsumeR11(h, ctx, f[i + 1], f[i].dest.name) == Some(k) && Store(k, ctx, f[i + 1].dest) == Some(s)
    ensures Simulates(f, ctx, g, i, env, m, s, i + 2, 2, flow)
  {
    hide Rel, GoodCtx, SymRel, Exits, StaleSet, Ir.Eval, GoodUses, ConsumeR11, InFlight, Store, Holding, Ir.Steps, Completes;
    var v := m1.Get(A.R11);
    var env1 := env.Put(f[i].dest, v);
    var stale := InFlight(f, ctx, g, i, i + 1);
    assert Linked(f, ctx, i, i + 1);
    flow := NextLink(f, ctx, g, i, i, h, env, m1, v, k);
    var value := Ir.Eval(f[i + 1].op, env1.Value(f[i + 1].lhs), env1.Value(f[i + 1].rhs));
    ComputesThen(ctx, stale, g, h, k, env1, m, m1, A.RAX, value, flow);
    flow := FinishStore(ctx, stale, g, k, env1, m, f[i + 1].dest, value, flow, s);
    SimStored(f, ctx, g, i, i + 1, 1, env, env1, m, s, value, flow);
  }

  lemma RoundCompareChain(f: Func, ctx: Ctx, g: Gen, i: nat, env: Ir.Env, m: A.Machine, h: Gen, k: Gen)
    returns (n: nat, flow: A.Flow)
    requires Ready(f, ctx) && AtHead(f, ctx, g, i, env, m) && i + 2 < |f|
    requires SingleUseTemp(ctx, f[i]) && ReadsTemp(f[i + 1], f[i].dest.name) && FeedsBranch(f, ctx, i + 1)
    requires ComputeToR11(g, ctx, f[i].op, f[i].lhs, f[i].rhs) == Some(h)
    requires CompareR11Jump(h, ctx, f[i + 1], f[i].dest.name, FalseJump(f[i + 1].op), f[i + 2].text) == Some(k)
    ensures Simulates(f, ctx, g, i, Seen(ctx, g, f[i], env, m), m, k, i + 3, n, flow)
  {
    var seen := Seen(ctx, g, f[i], env, m);
    flow := FirstLink(f, ctx, g, i, env, m, h);
    CompareR11Grows(h, ctx, f[i + 1], f[i].dest.name, FalseJump(f[i + 1].op), f[i + 2].text);
    hide Seen, Rel, GoodCtx, SymRel, Exits, StaleSet, Ir.Eval, GoodUses, CompareR11Jump, ComputeToR11, InFlight, LosesValue;
    StepBinary(f, i, seen);
    StepOnce(f, Ir.At(i, seen));
    if flow.Fault? {
      n := 1;
      ExitsFault(g, h, k, m, flow.m);
    } else {
      var m1, v := flow.m, flow.m.Get(A.R11);
      n := 3;
      flow := CompareChainTail(f, ctx, g, i, h, seen, m, m1, v, k);
    }
  }

  lemma CompareR11Grows(g: Gen, ctx: Ctx, b: Ir.Instr, t: string, c: A.Cond, l: string)
    requires b.Binary?
    ensures CompareR11Jump(g, ctx, b, t, c, l).Some? ==> g.out <= CompareR11Jump(g, ctx, b, t, c, l).value.out
  {
    LoadIntoGrows(g, ctx, b.rhs, A.R10);
    LoadGrows(g, ctx, b.lhs);
  }

  lemma CompareChainTail(f: Func, ctx: Ctx, g: Gen, i: nat, h: Gen, env: Ir.Env, m: A.Machine, m1: A.Machine, v: Word, k: Gen)
    returns (flow: A.Flow)
    requires Ready(f, ctx) && HeadGen(f, ctx, g, i) && i + 2 < |f|
    requires SingleUseTemp(ctx, f[i]) && ReadsTemp(f[i + 1], f[i].dest.name) && FeedsBranch(f, ctx, i + 1)
    requires Exits(g, h, m, A.Fall(m1)) && Holding(f, ctx, g, i, i, h, env, m1, v)
    requires CompareR11Jump(h, ctx, f[i + 1], f[i].dest.name, FalseJump(f[i + 1].op), f[i + 2].text) == Some(k)
    ensures Simulates(f, ctx, g, i, env, m, k, i + 3, 3, flow)
  {
    hide Rel, GoodCtx, StaleSet, GoodUses, InFlight, CompareR11Jump, Ir.Eval, Exits, A.Holds, GenInv, Branches,
         Ir.UniqueLabels, Ir.Step, Ir.Steps;
    var t := f[i].dest.name;
    var b := f[i + 1];
    var env1 := env.Put(f[i].dest, v);
    var stale := InFlight(f, ctx, g, i, i + 1);
    assert Linked(f, ctx, i, i + 1);
    StepBinary(f, i, env);
    StepOnce(f, Ir.At(i, env));
    LinkOperands(f, ctx, g, i, i);
    PutFused(ctx, InFlight(f, ctx, g, i, i), h, env, m1, t, v);
    assert env1.Tmp(t) == v;
    flow := CompareR11Correct(ctx, stale, h, env1, m1, b, t, FalseJump(b.op), f[i + 2].text, k);
    var x, y := env1.Value(b.lhs), env1.Value(b.rhs);
    FalseJumpMeaning(b.op, x, y);
    var w := B2W(Ir.Compare(b.op, x, y));
    BranchesThen(ctx, stale, g, h, k, env1, m, m1, w == 0, f[i + 2].text, flow);
    SimBranched(f, ctx, g, i, i + 1, 1, env, env1, m, k, w, flow);
  }

  lemma RoundCompare(f: Func, ctx: Ctx, g: Gen, i: nat, env: Ir.Env, m: A.Machine, h: Gen) returns (flow: A.Flow)
    requires Ready(f, ctx) && AtHead(f, ctx, g, i, env, m) && i < |f| && FeedsBranch(f, ctx, i)
    requires CompareJump(g, ctx, f[i], FalseJump(f[i].op), f[i + 1].text) == Some(h)
    ensures Simulates(f, ctx, g, i, env, m, h, i + 2, 2, flow)
  {
    var b := f[i];
    var x, y := env.Value(b.lhs), env.Value(b.rhs);
    BothFresh(f, ctx, g, i, b.lhs, b.rhs);
    InFlightNow(f, ctx, g, i);
    assert Ir.Steps(f, 0, Ir.At(i, env)) == Ir.At(i, env);
    hide Rel, GoodCtx, StaleSet, GoodUses, InFlight, CompareJump, Ir.Eval, Exits, A.Holds;
    flow := CompareJumpCorrect(ctx, StaleSet(f, ctx, i), g, env, m, b, FalseJump(b.op), f[i + 1].text, h);
    FalseJumpMeaning(b.op, x, y);
    SimBranched(f, ctx, g, i, i, 0, env, env, m, h, B2W(Ir.Compare(b.op, x, y)), flow);
  }

  lemma RoundCompareOver(f: Func, ctx: Ctx, g: Gen, i: nat, env: Ir.Env, m: A.Machine, h: Gen) returns (n: nat, flow: A.Flow)
    requires Ready(f, ctx) && AtHead(f, ctx, g, i, env, m) && i + 3 < |f| && FeedsBranch(f, ctx, i)
    requires f[i + 2].Jump? && f[i + 3] == Ir.Label(f[i + 1].text)
    requires CompareJump(g, ctx, f[i], Invert(FalseJump(f[i].op)), f[i + 2].text) == Some(h)
    ensures Simulates(f, ctx, g, i, env, m, h, i + 3, n, flow)
  {
    var b := f[i];
    var x, y := env.Value(b.lhs), env.Value(b.rhs);
    BothFresh(f, ctx, g, i, b.lhs, b.rhs);
    InFlightNow(f, ctx, g, i);
    hide Rel, GoodCtx, StaleSet, GoodUses, InFlight, CompareJump, Ir.Eval, Exits, A.Holds;
    flow := CompareJumpCorrect(ctx, StaleSet(f, ctx, i), g, env, m, b, Invert(FalseJump(b.op)), f[i + 2].text, h);
    FalseJumpMeaning(b.op, x, y);
    n := SimBranchedOver(f, ctx, g, i, env, m, h, B2W(Ir.Compare(b.op, x, y)), flow);
  }

  /** What the IR does with a branch over a jump to the label after it. */
  lemma JumpOverSteps(f: Func, i: nat, env: Ir.Env)
    requires Ir.UniqueLabels(f) && i + 2 < |f|
    requires f[i].BranchZero? && f[i + 1].Jump? && f[i + 2] == Ir.Label(f[i].text)
    ensures env.Value(f[i].lhs) == 0 ==> Ir.Steps(f, 1, Ir.At(i, env)) == Ir.At(i + 2, env)
    ensures env.Value(f[i].lhs) != 0 ==> Ir.Steps(f, 2, Ir.At(i, env)) == Ir.JumpTo(f, f[i + 1].text, env)
  {
    Ir.FindLabelUnique(f, f[i].text, 0, i + 2);
    StepOnce(f, Ir.At(i, env));
    StepTwice(f, Ir.At(i, env));
  }

  predicate JumpOver(f: Func, i: nat) {
    i + 2 < |f| && f[i].BranchZero? && f[i + 1].Jump? && f[i + 2] == Ir.Label(f[i].text)
  }

  lemma RoundJumpOver(f: Func, ctx: Ctx, g: Gen, i: nat, env: Ir.Env, m: A.Machine, h: Gen) returns (n: nat, flow: A.Flow)
    requires Ready(f, ctx) && AtHead(f, ctx, g, i, env, m) && JumpOver(f, i)
    requires ZeroJump(g, ctx, f[i].lhs, A.NE, f[i + 1].text) == Some(h)
    ensures Simulates(f, ctx, g, i, env, m, h, i + 2, n, flow)
  {
    FreshRead(f, ctx, i, i, f[i].lhs);
    JumpOverSteps(f, i, env);
    hide Rel, GoodCtx, StaleSet, GoodUses, ZeroJump, Branches, Ir.UniqueLabels, GenInv, Simulates;
    flow := ZeroJumpCorrect(ctx, StaleSet(f, ctx, i), g, env, m, f[i].lhs, A.NE, f[i + 1].text, h);
    if env.Value(f[i].lhs) != 0 {
      n := 2;
      JumpOverTaken(f, ctx, g, i, env, m, h, flow);
    } else {
      n := 1;
      JumpOverSkipped(f, ctx, g, i, env, m, h, flow);
    }
  }

  lemma JumpOverCovers(f: Func, ctx: Ctx, g: Gen, i: nat, k: nat)
    requires Ready(f, ctx) && GenInv(ctx, g) && PendingAt(f, ctx, g, i) && JumpOver(f, i) && Follows(f, i + 2, k)
    ensures Covers(f, ctx, StaleSet(f, ctx, i) + Dropped(g, ctx, f[i].lhs), k)
  {
    hide Ready, GenInv, PendingAt, Covers, StaleSet, Follows;
    BranchStale(f, ctx, g, i, i + 2, k, f[i].lhs, Ir.Nothing);
    assert StaleSet(f, ctx, i) + Dropped(g, ctx, f[i].lhs) + Dropped(g, ctx, Ir.Nothing)
        == StaleSet(f, ctx, i) + Dropped(g, ctx, f[i].lhs);
  }

  lemma JumpOverTaken(f: Func, ctx: Ctx, g: Gen, i: nat, env: Ir.Env, m: A.Machine, h: Gen, flow: A.Flow)
    requires Ready(f, ctx) && AtHead(f, ctx, g, i, env, m) && JumpOver(f, i) && env.Value(f[i].lhs) != 0
    requires Branches(ctx, StaleSet(f, ctx, i) + Dropped(g, ctx, f[i].lhs), g, h, env, m, true, f[i + 1].text, flow)
    ensures Simulates(f, ctx, g, i, env, m, h, i + 2, 2, flow)
  {
    var stale := StaleSet(f, ctx, i) + Dropped(g, ctx, f[i].lhs);
    JumpOverSteps(f, i, env);
    hide Rel, GoodCtx, StaleSet, GoodUses, Exits, Covers, Ir.UniqueLabels, GenInv, PendingAt, Dropped, Ir.Step, Ir.Steps;
    var k := Ir.FindLabel(f, f[i + 1].text, 0);
    if k.Some? {
      JumpOverCovers(f, ctx, g, i, k.value);
      RelCovers(f, ctx, stale, k.value, h, env, flow.m);
      RelClean(ctx, StaleSet(f, ctx, k.value), h, env, flow.m);
    }
  }

  lemma JumpOverSkipped(f: Func, ctx: Ctx, g: Gen, i: nat, env: Ir.Env, m: A.Machine, h: Gen, flow: A.Flow)
    requires Ready(f, ctx) && AtHead(f, ctx, g, i, env, m) && JumpOver(f, i) && env.Value(f[i].lhs) == 0
    requires Branches(ctx, StaleSet(f, ctx, i) + Dropped(g, ctx, f[i].lhs), g, h, env, m, false, f[i + 1].text, flow)
    ensures Simulates(f, ctx, g, i, env, m, h, i + 2, 1, flow)
  {
    JumpOverSteps(f, i, env);
    hide Rel, GoodCtx, StaleSet, GoodUses, Exits, Covers, Ir.UniqueLabels, GenInv, PendingAt, Dropped, Ir.Step, Ir.Steps;
    JumpOverCovers(f, ctx, g, i, i + 2);
    RelCovers(f, ctx, StaleSet(f, ctx, i) + Dropped(g, ctx, f[i].lhs), i + 2, h, env, flow.m);
    PendingPositive(ctx, h);
    PendingNext(f, ctx, g, i, i + 2, h, Ir.Nothing);
  }

  /** The end of a long chain: branch, return, or store. */
  lemma ChainEnd(f: Func, ctx: Ctx, g: Gen, i: nat, last: nat, n0: nat, env0: Ir.Env, env: Ir.Env, m: A.Machine, m1: A.Machine,
                 v: Word, k: Gen, h: Gen) returns (n: nat, flow: A.Flow)
    requires Ready(f, ctx) && HeadGen(f, ctx, g, i) && Linked(f, ctx, i, last)
    requires Ir.Steps(f, n0, Ir.At(i, env0)) == Ir.At(last, env)
    requires Exits(g, k, m, A.Fall(m1)) && Holding(f, ctx, g, i, last, k, env, m1, v)
    requires ChainTail(f, ctx, k, last).Some? && h == ChainTail(f, ctx, k, last).value.0
    ensures Simulates(f, ctx, g, i, env0, m, h, ChainTail(f, ctx, k, last).value.1, n, flow)
  {
    hide Rel, GoodCtx, StaleSet, GoodUses, Exits, Ir.Eval, InFlight, Emit, Store, ReturnOf, Completes, SymRel, GenInv, A.Run, Ready;
    var stale := InFlight(f, ctx, g, i, last);
    var back := [A.Mov(A.RAX, A.R(A.R11))];
    assert GoodCtx(ctx) by { ReadyGood(f, ctx); }
    if FeedsBranch(f, ctx, last) {
      n := n0 + 2;
      SpillGet(k, m1);
      flow := TestJump(ctx, stale, k, env, m1, A.Test(A.R11), A.E, f[last + 1].text, v == 0, v < 0);
      BranchesThen(ctx, stale, g, k, h, env, m, m1, v == 0, f[last + 1].text, flow);
      SimBranched(f, ctx, g, i, last, n0, env0, env, m, h, v, flow);
    } else {
      var m2 := CopyBack(ctx, stale, k, env, m1);
      var k2 := Emit(k, back);
      ExitsThen(g, k, k2, m, m1, A.Fall(m2));
      var ret := if f[last].dest.Temp? then ReturnOf(f, last, f[last].dest.name) else None;
      if ret.Some? {
        EmitTwice(k, back, [A.Jmp(A.Exit)]);
        flow := ExitJump(ctx, stale, k2, env, m2);
        ExitsThen(g, k2, h, m, m2, flow);
        n := SimReturned(f, ctx, g, i, last, ret.value, n0, env0, env, m, h, v, flow);
      } else {
        StoreDest(k2, ctx, f[last].dest);
        flow := FinishStore(ctx, stale, g, k2, env, m, f[last].dest, Some(v), A.Fall(m2), h);
        n := n0 + 1;
        SimStored(f, ctx, g, i, last, n0, env0, env, m, h, Some(v), flow);
      }
    }
  }

  lemma ReadyGood(f: Func, ctx: Ctx)
    requires Ready(f, ctx)
    ensures GoodCtx(ctx)
  {}

  lemma StoreDest(g: Gen, ctx: Ctx, d: Ir.Operand)
    requires Store(g, ctx, d).Some?
    ensures !d.Int?
  {}
}
