/** From rounds to runs: an emitted function halts, faults or runs on exactly as its IR does. */
module FunctionCorrectness {
  import opened Words
  import opened Wrappers
  import opened Emitter
  import opened EmitterProofs
  import opened Simulation
  import opened Correctness
  import opened CodeLabels
  import Ir
  import A = Asm

  // ----- where rounds start -----

  /** The generator's state when the loop reaches instruction k, if a round starts there. */
  function HeadAt(f: Func, ctx: Ctx, g: Gen, i: nat, k: nat): Option<Gen>
    requires i <= |f| && k <= |f|
    decreases |f| - i
  {
    if i == k then Some(g)
    else if i > k then None
    else
      var b :- Block(f, ctx, g, i);
      HeadAt(f, ctx, b.0, b.1, k)
  }

  /** Labels in the code name label instructions before k. */
  predicate LabelBefore(f: Func, a: A.Instr, k: nat) {
    a.LabelDef? ==> a.target.Named? && exists q :: 0 <= q < k && q < |f| && f[q] == Ir.Label(a.target.name)
  }

  ghost predicate LabelsBefore(f: Func, g: Gen, k: nat) {
    Clocked(g) && forall p :: 0 <= p < |g.out| ==> LabelBefore(f, g.out[p], k)
  }

  lemma PlainKeepsLabels(f: Func, g: Gen, h: Gen, i: nat, j: nat)
    requires LabelsBefore(f, g, i) && i <= j && PlainAfter(g, h)
    ensures LabelsBefore(f, h, j)
  {
    forall p | 0 <= p < |h.out| ensures LabelBefore(f, h.out[p], j) {
      if p < |g.out| {
        assert LabelBefore(f, g.out[p], i);
        assert h.out[p] == g.out[p];
      } else {
        assert h.out[p] == h.out[|g.out|..][p - |g.out|];
      }
    }
  }

  /** One round only extends the code, and adds no label but the one it stands at. */
  lemma BlockLabels(f: Func, ctx: Ctx, g: Gen, i: nat)
    requires i < |f| && Block(f, ctx, g, i).Some?
    ensures g.out <= Block(f, ctx, g, i).value.0.out
    ensures LabelsBefore(f, g, i) ==> LabelsBefore(f, Block(f, ctx, g, i).value.0, Block(f, ctx, g, i).value.1)
  {
    var b := Block(f, ctx, g, i).value;
    if f[i].Label? {
      BlockLabel(f, ctx, g, i);
      var a := A.LabelDef(A.Named(f[i].text));
      hide Block;
      assert b.0.out == g.out + SpillCode(g) + [a];
      if LabelsBefore(f, g, i) {
        forall p | 0 <= p < |b.0.out| ensures LabelBefore(f, b.0.out[p], i + 1) {
          if p < |g.out| {
            assert LabelBefore(f, g.out[p], i);
          } else if p < |g.out| + |SpillCode(g)| {
            assert b.0.out[p] == SpillCode(g)[p - |g.out|];
          } else {
            assert b.0.out[p] == a && f[i] == Ir.Label(f[i].text);
          }
        }
      }
    } else {
      BlockPlain(f, ctx, g, i);
      hide Block;
      if LabelsBefore(f, g, i) { PlainKeepsLabels(f, g, b.0, i, b.1); }
    }
  }

  lemma {:induction false} EmitFromGrows(f: Func, ctx: Ctx, g: Gen, i: nat)
    requires i <= |f|
    ensures EmitFrom(f, ctx, g, i).Some? ==> g.out <= EmitFrom(f, ctx, g, i).value.out
    decreases |f| - i
  {
    hide Block;
    if i < |f| && Block(f, ctx, g, i).Some? {
      var b := Block(f, ctx, g, i).value;
      BlockLabels(f, ctx, g, i);
      EmitFromGrows(f, ctx, b.0, b.1);
    }
  }

  lemma {:induction false} HeadContinues(f: Func, ctx: Ctx, g: Gen, i: nat, k: nat)
    requires i <= |f| && k <= |f| && HeadAt(f, ctx, g, i, k).Some? && LabelsBefore(f, g, i)
    ensures var h := HeadAt(f, ctx, g, i, k).value;
            EmitFrom(f, ctx, h, k) == EmitFrom(f, ctx, g, i) && LabelsBefore(f, h, k) && g.out <= h.out
    decreases |f| - i
  {
    hide Block, LabelsBefore;
    if i < k {
      var b := Block(f, ctx, g, i).value;
      BlockLabels(f, ctx, g, i);
      HeadContinues(f, ctx, b.0, b.1, k);
    }
  }

  lemma {:induction false} HeadNext(f: Func, ctx: Ctx, g: Gen, i: nat, k: nat, h: Gen)
    requires i <= |f| && k < |f| && HeadAt(f, ctx, g, i, k) == Some(h) && Block(f, ctx, h, k).Some?
    ensures HeadAt(f, ctx, g, i, Block(f, ctx, h, k).value.1) == Some(Block(f, ctx, h, k).value.0)
    decreases |f| - i
  {
    hide Block;
    if i < k {
      var b := Block(f, ctx, g, i).value;
      HeadNext(f, ctx, b.0, b.1, k, h);
    } else {
      var b := Block(f, ctx, h, k).value;
      assert HeadAt(f, ctx, b.0, b.1, b.1) == Some(b.0);
    }
  }

  /** Every label instruction starts a round. */
  lemma {:induction false} LabelHead(f: Func, ctx: Ctx, g: Gen, i: nat, k: nat)
    requires i <= k < |f| && f[k].Label? && EmitFrom(f, ctx, g, i).Some?
    ensures HeadAt(f, ctx, g, i, k).Some?
    decreases |f| - i
  {
    if i < k {
      var b := Block(f, ctx, g, i).value;
      if k < b.1 { BlockStopsAtLabels(f, ctx, g, i, k); }
      hide Block;
      LabelHead(f, ctx, b.0, b.1, k);
    }
  }

  /** No round of the loop falls into the shape that loses a promised store. */
  predicate NoLoss(f: Func, ctx: Ctx, g: Gen, i: nat)
    requires i <= |f|
    decreases |f| - i
  {
    i < |f| ==>
      !LosesAt(f, ctx, g, i) &&
      var b := Block(f, ctx, g, i);
      b.Some? ==> NoLoss(f, ctx, b.value.0, b.value.1)
  }

  lemma {:induction false} NoLossAt(f: Func, ctx: Ctx, g: Gen, i: nat, k: nat)
    requires i <= |f| && k < |f| && NoLoss(f, ctx, g, i) && HeadAt(f, ctx, g, i, k).Some?
    ensures !LosesAt(f, ctx, HeadAt(f, ctx, g, i, k).value, k)
    decreases |f| - i
  {
    hide Block, LosesAt;
    if i < k {
      var b := Block(f, ctx, g, i).value;
      NoLossAt(f, ctx, b.0, b.1, k);
    }
  }

  // ----- the finished code -----

  /** `code` is what the generator, starting from `start`, emits for f. */
  ghost predicate Emitted(f: Func, ctx: Ctx, start: Gen, code: Code) {
    && start.out == [] && Settled(start)
    && EmitFunction(f, ctx, start).Some? && code == EmitFunction(f, ctx, start).value.out
  }

  /** And no round of it loses a store. */
  ghost predicate Compiled(f: Func, ctx: Ctx, start: Gen, code: Code) {
    Emitted(f, ctx, start, code) && NoLoss(f, ctx, start, 0)
  }

  ghost predicate Head(f: Func, ctx: Ctx, start: Gen, k: nat, g: Gen) {
    k <= |f| && HeadAt(f, ctx, start, 0, k) == Some(g)
  }

  lemma HeadFacts(f: Func, ctx: Ctx, start: Gen, code: Code, k: nat, g: Gen)
    requires Emitted(f, ctx, start, code) && Head(f, ctx, start, k, g)
    ensures g.out <= code && LabelsBefore(f, g, k)
    ensures EmitFrom(f, ctx, g, k).Some? && code == Emit(EmitFrom(f, ctx, g, k).value, [A.LabelDef(A.Exit)]).out
    ensures k < |f| ==> Block(f, ctx, g, k).Some? &&
                        Head(f, ctx, start, Block(f, ctx, g, k).value.1, Block(f, ctx, g, k).value.0)
  {
    hide Block;
    assert LabelsBefore(f, start, 0);
    HeadContinues(f, ctx, start, 0, k);
    EmitFromGrows(f, ctx, g, k);
    EmitGrows(EmitFrom(f, ctx, g, k).value, [A.LabelDef(A.Exit)]);
    if k < |f| {
      HeadNext(f, ctx, start, 0, k, g);
    }
  }

  /** The program counter reaches the end of a round's code, jumps, or faults as Exits says. */
  lemma RoundInCode(f: Func, ctx: Ctx, start: Gen, code: Code, i: nat, g: Gen, j: nat, h: Gen, m: A.Machine, flow: A.Flow)
    returns (n: nat)
    requires Emitted(f, ctx, start, code) && Head(f, ctx, start, i, g) && Head(f, ctx, start, j, h)
    requires Exits(g, h, m, flow)
    ensures flow.Fall? ==> A.Nexts(code, n, A.At(|g.out|, m)) == A.At(|h.out|, flow.m)
    ensures flow.Goto? ==> n >= 1 && A.Nexts(code, n, A.At(|g.out|, m)) == A.Arrive(code, flow.target, flow.m)
    ensures flow.Fault? ==> A.Nexts(code, n, A.At(|g.out|, m)) == A.Faulted(flow.m)
  {
    hide Emitted, Head;
    HeadFacts(f, ctx, start, code, j, h);
    var p, q := |g.out|, |h.out|;
    assert code[p..q] == h.out[p..];
    forall a | a in h.out[p..] ensures a != A.LabelDef(A.Exit) {
      var z :| p <= z < q && h.out[z] == a;
      assert LabelBefore(f, h.out[z], j);
    }
    n := A.NextsRun(code, p, q, m);
  }

  /** A jump to a label lands on its definition, and the next step starts the round after it. */
  lemma LabelInCode(f: Func, ctx: Ctx, start: Gen, code: Code, l: string, k: nat, m: A.Machine) returns (g: Gen)
    requires Emitted(f, ctx, start, code) && Ir.UniqueLabels(f) && k < |f| && f[k] == Ir.Label(l)
    ensures Head(f, ctx, start, k + 1, g) && Settled(g)
    ensures A.Arrive(code, A.Named(l), m).At?
    ensures A.Next(code, A.Arrive(code, A.Named(l), m)) == A.At(|g.out|, m.Pass(A.Named(l)))
  {
    LabelHead(f, ctx, start, 0, k);
    var g0 := HeadAt(f, ctx, start, 0, k).value;
    var a := A.LabelDef(A.Named(l));
    HeadStart(f, ctx, start, k, g0);
    BlockLabel(f, ctx, g0, k);
    hide Block, Emitted, Head;
    HeadFacts(f, ctx, start, code, k, g0);
    g := Emit(g0, [a]);
    HeadFacts(f, ctx, start, code, k + 1, g);
    var p := |g0.out| + |SpillCode(g0)|;
    assert g.out == g0.out + SpillCode(g0) + [a];
    assert g.out[p] == a && |g.out| == p + 1 && code[p] == a;
    forall q | 0 <= q < p ensures code[q] != a {
      assert code[q] == g.out[q];
      if q < |g0.out| {
        assert code[q] == g0.out[q] && LabelBefore(f, g0.out[q], k);
      } else {
        assert code[q] == SpillCode(g0)[q - |g0.out|];
      }
    }
    A.FindTargetUnique(code, A.Named(l), 0, p);
  }

  lemma HeadStart(f: Func, ctx: Ctx, start: Gen, k: nat, g: Gen)
    requires k <= |f| && HeadAt(f, ctx, start, 0, k) == Some(g)
    ensures Head(f, ctx, start, k, g)
  {}

  lemma HeadKeeps(f: Func, ctx: Ctx, start: Gen, code: Code, k: nat, g: Gen)
    requires Compiled(f, ctx, start, code) && Head(f, ctx, start, k, g) && k < |f|
    ensures Emitted(f, ctx, start, code) && !LosesAt(f, ctx, g, k)
  {
    hide Block, LosesAt, Emitted;
    NoLossAt(f, ctx, start, 0, k);
  }

  // ----- runs -----

  /** A finished IR run and a finished machine run agree: the same symbol values, the same
      labels passed, and a returned value in rax. */
  ghost predicate Agree(ctx: Ctx, c: Ir.Config, d: A.Config) {
    match c
    case Done(v, env) => d.Halted? && SymRel(ctx, env, d.m) && (v.Some? ==> d.m.Get(A.RAX) == v.value)
    case Trapped(env) => d.Faulted? && SymRel(ctx, env, d.m)
    case _ => false
  }

  /** The machine, about to run the round at i, has the IR's environment. */
  ghost predicate Synced(f: Func, ctx: Ctx, start: Gen, i: nat, g: Gen, env: Ir.Env, m: A.Machine) {
    Head(f, ctx, start, i, g) && AtHead(f, ctx, g, i, env, m)
  }

  /** n IR steps and k machine steps later: stuck on a missing label, both finished alike, or
      synced again, with the machine or the instruction index having moved on. */
  ghost predicate Advanced(f: Func, ctx: Ctx, start: Gen, code: Code, i: nat, g: Gen, env: Ir.Env, m: A.Machine,
                           n: nat, k: nat, j: nat, h: Gen, env': Ir.Env, m': A.Machine) {
    var c, d := Ir.Steps(f, n, Ir.At(i, env)), A.Nexts(code, k, A.At(|g.out|, m));
    n >= 1 &&
    (|| c.Stuck? || Agree(ctx, c, d)
     || (c == Ir.At(j, env') && d == A.At(|h.out|, m') && Synced(f, ctx, start, j, h, env', m') && (k >= 1 || j > i)))
  }

  /** Falling off the end: the promised store is written and the exit label reached. */
  lemma AdvanceEnd(f: Func, ctx: Ctx, start: Gen, code: Code, g: Gen, env: Ir.Env, m: A.Machine) returns (k: nat)
    requires Ready(f, ctx) && Emitted(f, ctx, start, code) && Synced(f, ctx, start, |f|, g, env, m)
    ensures Agree(ctx, Ir.Steps(f, 1, Ir.At(|f|, env)), A.Nexts(code, k, A.At(|g.out|, m)))
  {
    StepOnce(f, Ir.At(|f|, env));
    HeadFacts(f, ctx, start, code, |f|, g);
    var p, q := |g.out|, |g.out| + |SpillCode(g)|;
    SpillKeeps(ctx, StaleSet(f, ctx, |f|), g, env, m, Flush(g).(cachedSeq := 0, emitSeq := 1));
    SpillRuns(g, m);
    hide Ready, Emitted, AtHead, Head, Rel, GoodCtx, A.Run, StaleSet;
    assert code == g.out + SpillCode(g) + [A.LabelDef(A.Exit)];
    assert code[p..q] == SpillCode(g);
    var m1 := AfterSpill(g, m);
    k := A.NextsRun(code, p, q, m);
    A.NextsAdd(code, k, 1, A.At(p, m));
    assert A.Nexts(code, 1, A.At(q, m1)) == A.Nexts(code, 0, A.Next(code, A.At(q, m1)));
    assert code[q] == A.LabelDef(A.Exit);
    k := k + 1;
  }

  lemma AdvanceGoto(f: Func, ctx: Ctx, start: Gen, code: Code, l: string, pc: nat, env: Ir.Env, m: A.Machine) returns (h: Gen)
    requires Ready(f, ctx) && Emitted(f, ctx, start, code) && Ir.FindLabel(f, l, 0) == Some(pc)
    requires Rel(ctx, StaleSet(f, ctx, pc), Clean(), env, m)
    ensures Ir.Step(f, Ir.At(pc, env)) == Ir.At(pc + 1, env.Pass(l))
    ensures A.Arrive(code, A.Named(l), m).At?
    ensures A.Next(code, A.Arrive(code, A.Named(l), m)) == A.At(|h.out|, m.Pass(A.Named(l)))
    ensures Synced(f, ctx, start, pc + 1, h, env.Pass(l), m.Pass(A.Named(l)))
  {
    h := LabelInCode(f, ctx, start, code, l, pc, m);
    RelPass(ctx, StaleSet(f, ctx, pc), Clean(), env, m, l);
    AfterLabel(f, ctx, pc);
    RelCovers(f, ctx, StaleSet(f, ctx, pc), pc + 1, Clean(), env.Pass(l), m.Pass(A.Named(l)));
    hide StaleSet, Emitted;
    SettledRel(f, ctx, pc + 1, h, env.Pass(l), m.Pass(A.Named(l)));
  }

  lemma SettledRel(f: Func, ctx: Ctx, k: nat, g: Gen, env: Ir.Env, m: A.Machine)
    requires Settled(g) && Rel(ctx, StaleSet(f, ctx, k), Clean(), env, m)
    ensures AtHead(f, ctx, g, k, env, m)
  {
    hide StaleSet;
  }

  /** The round ended with a jump to a label. */
  lemma AdvanceByJump(f: Func, ctx: Ctx, start: Gen, code: Code, i: nat, g: Gen, env: Ir.Env, m: A.Machine, n: nat, k: nat, l: string, pc: nat,
                      env1: Ir.Env, m1: A.Machine) returns (h: Gen)
    requires Ready(f, ctx) && Emitted(f, ctx, start, code) && n >= 1
    requires Ir.Steps(f, n, Ir.At(i, env)) == Ir.At(pc, env1) && A.Nexts(code, k, A.At(|g.out|, m)) == A.Arrive(code, A.Named(l), m1)
    requires Ir.FindLabel(f, l, 0) == Some(pc) && Rel(ctx, StaleSet(f, ctx, pc), Clean(), env1, m1)
    ensures Advanced(f, ctx, start, code, i, g, env, m, n + 1, k + 1, pc + 1, h, env1.Pass(l), m1.Pass(A.Named(l)))
  {
    hide Ready, Emitted, Rel, StaleSet, A.Nexts, Ir.Steps, A.Next, Ir.Step, A.Arrive, Synced, Ir.FindLabel, Ir.Env.Pass;
    h := AdvanceGoto(f, ctx, start, code, l, pc, env1, m1);
    Ir.StepsAdd(f, n, 1, Ir.At(i, env));
    StepOnce(f, Ir.At(pc, env1));
    A.NextsAdd(code, k, 1, A.At(|g.out|, m));
    NextOnce(code, A.Arrive(code, A.Named(l), m1));
  }

  /** The round ended with a jump to the exit. */
  lemma AdvanceByExit(f: Func, ctx: Ctx, start: Gen, code: Code, i: nat, g: Gen, env: Ir.Env, m: A.Machine, n: nat, k: nat, m1: A.Machine,
                      h: Gen, env': Ir.Env, m': A.Machine)
    requires Emitted(f, ctx, start, code) && n >= 1
    requires Ir.Steps(f, n, Ir.At(i, env)).Done? && A.Nexts(code, k, A.At(|g.out|, m)) == A.Arrive(code, A.Exit, m1)
    requires Agree(ctx, Ir.Steps(f, n, Ir.At(i, env)), A.Halted(m1))
    ensures Advanced(f, ctx, start, code, i, g, env, m, n, k + 1, i, h, env', m')
  {
    hide Emitted, A.Nexts, Ir.Steps, A.Next, A.Arrive, Synced, SymRel;
    ExitArrives(f, ctx, start, code, m1);
    A.NextsAdd(code, k, 1, A.At(|g.out|, m));
    NextOnce(code, A.Arrive(code, A.Exit, m1));
  }

  /** What the IR and the code of a simulated round have come to. */
  lemma RoundEnds(f: Func, ctx: Ctx, g: Gen, i: nat, env: Ir.Env, m: A.Machine, h: Gen, j: nat, n: nat, flow: A.Flow)
    requires Simulates(f, ctx, g, i, env, m, h, j, n, flow)
    ensures var c := Ir.Steps(f, n, Ir.At(i, env));
            && n >= 1
            && (!c.Stuck? ==> Exits(g, h, m, flow))
            && (c.At? ==> (flow.Fall? && c.pc == j && AtHead(f, ctx, h, j, c.env, flow.m)) ||
                          (flow.Goto? && flow.target.Named? && Ir.FindLabel(f, flow.target.name, 0) == Some(c.pc) &&
                           Rel(ctx, StaleSet(f, ctx, c.pc), Clean(), c.env, flow.m)))
            && (c.Done? ==> flow.Goto? && flow.target.Exit? && Agree(ctx, c, A.Halted(flow.m)))
            && (c.Trapped? ==> flow.Fault? && Agree(ctx, c, A.Faulted(flow.m)))
  {
    hide AtHead, Rel, SymRel, Exits, Ir.Steps, StaleSet;
  }

  /** A round that does in its code what the IR does from env advances both. */
  lemma RoundAdvances(f: Func, ctx: Ctx, start: Gen, code: Code, i: nat, g: Gen, env: Ir.Env, m: A.Machine, b: (Gen, nat), n0: nat, flow: A.Flow)
    returns (n: nat, k: nat, j: nat, h: Gen, env': Ir.Env, m': A.Machine)
    requires Ready(f, ctx) && Emitted(f, ctx, start, code) && Head(f, ctx, start, i, g) && i < |f|
    requires Block(f, ctx, g, i) == Some(b) && b.1 > i && Simulates(f, ctx, g, i, env, m, b.0, b.1, n0, flow)
    ensures Advanced(f, ctx, start, code, i, g, env, m, n, k, j, h, env', m')
  {
    hide *;
    HeadFacts(f, ctx, start, code, i, g);
    RoundEnds(f, ctx, g, i, env, m, b.0, b.1, n0, flow);
    n, k, j, h, env', m' := n0, 0, b.1, b.0, env, m;
    var c := Ir.Steps(f, n, Ir.At(i, env));
    if c.Stuck? {
      AdvancedStuck(f, ctx, start, code, i, g, env, m, n, k, j, h, env', m');
      return;
    }
    k := RoundInCode(f, ctx, start, code, i, g, b.1, b.0, m, flow);
    match c {
      case At(pc, env1) =>
        if flow.Fall? {
          env', m' := env1, flow.m;
          AdvancedOn(f, ctx, start, code, i, g, env, m, n, k, j, h, env', m');
        } else {
          h := AdvanceByJump(f, ctx, start, code, i, g, env, m, n0, k, flow.target.name, pc, env1, flow.m);
          n, k, j, env', m' := n0 + 1, k + 1, pc + 1, env1.Pass(flow.target.name), flow.m.Pass(A.Named(flow.target.name));
        }
      case Done(_, _) =>
        AdvanceByExit(f, ctx, start, code, i, g, env, m, n, k, flow.m, h, env', m');
        k, j := k + 1, i;
      case Trapped(_) =>
        AdvancedBoth(f, ctx, start, code, i, g, env, m, n, k, j, h, env', m');
    }
  }

  lemma AdvancedStuck(f: Func, ctx: Ctx, start: Gen, code: Code, i: nat, g: Gen, env: Ir.Env, m: A.Machine, n: nat, k: nat, j: nat, h: Gen,
                      env': Ir.Env, m': A.Machine)
    requires n >= 1 && Ir.Steps(f, n, Ir.At(i, env)).Stuck?
    ensures Advanced(f, ctx, start, code, i, g, env, m, n, k, j, h, env', m')
  {
  }

  lemma AdvancedOn(f: Func, ctx: Ctx, start: Gen, code: Code, i: nat, g: Gen, env: Ir.Env, m: A.Machine, n: nat, k: nat, j: nat, h: Gen,
                   env': Ir.Env, m': A.Machine)
    requires n >= 1 && j > i && Ir.Steps(f, n, Ir.At(i, env)) == Ir.At(j, env') && A.Nexts(code, k, A.At(|g.out|, m)) == A.At(|h.out|, m')
    requires Head(f, ctx, start, j, h) && AtHead(f, ctx, h, j, env', m')
    ensures Advanced(f, ctx, start, code, i, g, env, m, n, k, j, h, env', m')
  {
    hide Head, AtHead, Ir.Steps, A.Nexts;
  }

  lemma AdvancedBoth(f: Func, ctx: Ctx, start: Gen, code: Code, i: nat, g: Gen, env: Ir.Env, m: A.Machine, n: nat, k: nat, j: nat, h: Gen,
                     env': Ir.Env, m': A.Machine)
    requires n >= 1 && Agree(ctx, Ir.Steps(f, n, Ir.At(i, env)), A.Nexts(code, k, A.At(|g.out|, m)))
    ensures Advanced(f, ctx, start, code, i, g, env, m, n, k, j, h, env', m')
  {
    hide Agree, Ir.Steps, A.Nexts;
  }

  /** One round from where the machine is in step, whatever it loses. */
  lemma AdvanceSeen(f: Func, ctx: Ctx, start: Gen, code: Code, i: nat, g: Gen, env: Ir.Env, m: A.Machine)
    returns (n: nat, k: nat, j: nat, h: Gen, env': Ir.Env, m': A.Machine)
    requires Ready(f, ctx) && Emitted(f, ctx, start, code) && Synced(f, ctx, start, i, g, env, m) && i < |f|
    ensures Advanced(f, ctx, start, code, i, g, SeenAt(f, ctx, g, i, env, m), m, n, k, j, h, env', m')
  {
    assert Head(f, ctx, start, i, g) && AtHead(f, ctx, g, i, env, m);
    hide *;
    HeadFacts(f, ctx, start, code, i, g);
    var b := Block(f, ctx, g, i).value;
    var n0, flow := RoundReads(f, ctx, g, i, env, m, b.0, b.1);
    n, k, j, h, env', m' := RoundAdvances(f, ctx, start, code, i, g, SeenAt(f, ctx, g, i, env, m), m, b, n0, flow);
  }

  lemma Advance(f: Func, ctx: Ctx, start: Gen, code: Code, i: nat, g: Gen, env: Ir.Env, m: A.Machine)
    returns (n: nat, k: nat, j: nat, h: Gen, env': Ir.Env, m': A.Machine)
    requires Ready(f, ctx) && Compiled(f, ctx, start, code) && Synced(f, ctx, start, i, g, env, m) && i < |f|
    ensures Advanced(f, ctx, start, code, i, g, env, m, n, k, j, h, env', m')
  {
    assert Head(f, ctx, start, i, g);
    HeadKeeps(f, ctx, start, code, i, g);
    NothingLost(f, ctx, g, i, env, m);
    hide *;
    n, k, j, h, env', m' := AdvanceSeen(f, ctx, start, code, i, g, env, m);
  }

  lemma NextOnce(code: Code, c: A.Config)
    ensures A.Nexts(code, 1, c) == A.Next(code, c)
  {
    assert A.Nexts(code, 0, A.Next(code, c)) == A.Next(code, c);
  }

  lemma {:induction false} HeadEnd(f: Func, ctx: Ctx, g: Gen, i: nat)
    requires i <= |f| && EmitFrom(f, ctx, g, i).Some?
    ensures HeadAt(f, ctx, g, i, |f|) == EmitFrom(f, ctx, g, i)
    decreases |f| - i
  {
    hide Block;
    if i < |f| {
      var b := Block(f, ctx, g, i).value;
      HeadEnd(f, ctx, b.0, b.1);
    }
  }

  /** The exit label is the code's last instruction and occurs nowhere else. */
  lemma ExitLast(f: Func, code: Code, g: Gen)
    requires LabelsBefore(f, g, |f|) && code == Emit(g, [A.LabelDef(A.Exit)]).out
    ensures var q := |g.out| + |SpillCode(g)|;
            |code| == q + 1 && code[q] == A.LabelDef(A.Exit) && A.FindTarget(code, A.Exit, 0) == Some(q)
  {
    var q := |g.out| + |SpillCode(g)|;
    assert code == g.out + SpillCode(g) + [A.LabelDef(A.Exit)];
    forall p | 0 <= p < q ensures code[p] != A.LabelDef(A.Exit) {
      if p < |g.out| {
        assert LabelBefore(f, g.out[p], |f|);
      } else {
        assert code[p] == SpillCode(g)[p - |g.out|];
      }
    }
    A.FindTargetUnique(code, A.Exit, 0, q);
  }

  lemma ExitArrives(f: Func, ctx: Ctx, start: Gen, code: Code, m: A.Machine)
    requires Emitted(f, ctx, start, code)
    ensures A.Next(code, A.Arrive(code, A.Exit, m)) == A.Halted(m)
  {
    hide Block;
    HeadEnd(f, ctx, start, 0);
    var g := EmitFrom(f, ctx, start, 0).value;
    HeadStart(f, ctx, start, |f|, g);
    HeadFacts(f, ctx, start, code, |f|, g);
    ExitLast(f, code, g);
  }

  // ----- theorems -----

  /** If the IR finishes, so does the machine, in the same way and after the same branch
      decisions. */
  lemma {:induction false} RunsAgree(f: Func, ctx: Ctx, start: Gen, code: Code, i: nat, g: Gen, env: Ir.Env, m: A.Machine, n: nat)
    returns (k: nat)
    requires Ready(f, ctx) && Compiled(f, ctx, start, code) && Synced(f, ctx, start, i, g, env, m)
    requires var c := Ir.Steps(f, n, Ir.At(i, env)); c.Done? || c.Trapped?
    ensures Agree(ctx, Ir.Steps(f, n, Ir.At(i, env)), A.Nexts(code, k, A.At(|g.out|, m)))
    decreases n
  {
    assert Emitted(f, ctx, start, code);
    hide Ready, Compiled, Emitted, Synced, Agree, A.Nexts;
    if i == |f| {
      k := AdvanceEnd(f, ctx, start, code, g, env, m);
      SameOutcome(f, 1, n, Ir.At(i, env));
    } else {
      SyncedIndex(f, ctx, start, i, g, env, m);
      var n1, j, h, env', m';
      n1, k, j, h, env', m' := Advance(f, ctx, start, code, i, g, env, m);
      SameOutcome(f, n1, n, Ir.At(i, env));
      if Ir.Steps(f, n1, Ir.At(i, env)).At? {
        Ir.StepsAdd(f, n1, n - n1, Ir.At(i, env));
        AgreeFinal(ctx, Ir.Steps(f, n1, Ir.At(i, env)), A.Nexts(code, k, A.At(|g.out|, m)));
        var k1 := RunsAgree(f, ctx, start, code, j, h, env', m', n - n1);
        A.NextsAdd(code, k, k1, A.At(|g.out|, m));
        k := k + k1;
      }
    }
  }

  lemma AgreeFinal(ctx: Ctx, c: Ir.Config, d: A.Config)
    ensures Agree(ctx, c, d) ==> !c.At? && !d.At?
  {}

  lemma SyncedIndex(f: Func, ctx: Ctx, start: Gen, i: nat, g: Gen, env: Ir.Env, m: A.Machine)
    requires Synced(f, ctx, start, i, g, env, m)
    ensures i <= |f|
  {}

  /** Of two moments in a run, if the run has stopped at both it is in the same state; if it is
      still running at the first and has stopped at the second, the second is later. */
  lemma SameOutcome(f: Func, a: nat, b: nat, c: Ir.Config)
    requires !Ir.Steps(f, b, c).At?
    ensures Ir.Steps(f, a, c).At? ==> a < b
    ensures !Ir.Steps(f, a, c).At? ==> Ir.Steps(f, a, c) == Ir.Steps(f, b, c)
  {
    if a <= b {
      Ir.StepsAdd(f, a, b - a, c);
      if !Ir.Steps(f, a, c).At? { Ir.StepsFinal(f, b - a, Ir.Steps(f, a, c)); }
    } else {
      Ir.StepsAdd(f, b, a - b, c);
      Ir.StepsFinal(f, a - b, Ir.Steps(f, b, c));
    }
  }

  ghost predicate RunsForever(f: Func, c: Ir.Config) {
    forall n: nat :: Ir.Steps(f, n, c).At?
  }

  lemma ForeverLater(f: Func, n: nat, c: Ir.Config)
    requires RunsForever(f, c)
    ensures RunsForever(f, Ir.Steps(f, n, c))
  {
    forall k: nat ensures Ir.Steps(f, k, Ir.Steps(f, n, c)).At? { Ir.StepsAdd(f, n, k, c); }
  }

  lemma EndStops(f: Func, env: Ir.Env)
    ensures !RunsForever(f, Ir.At(|f|, env))
  {
    StepOnce(f, Ir.At(|f|, env));
    assert !Ir.Steps(f, 1, Ir.At(|f|, env)).At?;
  }

  /** If the IR runs forever, so does the machine. */
  lemma {:induction false} StillRunning(f: Func, ctx: Ctx, start: Gen, code: Code, i: nat, g: Gen, env: Ir.Env, m: A.Machine,
                                        k: nat)
    requires Ready(f, ctx) && Compiled(f, ctx, start, code) && Synced(f, ctx, start, i, g, env, m)
    requires RunsForever(f, Ir.At(i, env))
    ensures A.Nexts(code, k, A.At(|g.out|, m)).At?
    decreases k, |f| - i
  {
    hide Ready, Compiled, Synced, Agree;
    var c := Ir.At(i, env);
    SyncedIndex(f, ctx, start, i, g, env, m);
    EndStops(f, env);
    if i < |f| {
      var n1, k1, j, h, env', m' := Advance(f, ctx, start, code, i, g, env, m);
      assert Ir.Steps(f, n1, c).At?;
      AgreeFinal(ctx, Ir.Steps(f, n1, c), A.Nexts(code, k1, A.At(|g.out|, m)));
      SyncedIndex(f, ctx, start, j, h, env', m');
      hide A.Nexts, A.Next;
      if k1 <= k {
        ForeverLater(f, n1, c);
        StillRunning(f, ctx, start, code, j, h, env', m', k - k1);
        A.NextsAdd(code, k1, k - k1, A.At(|g.out|, m));
      } else {
        A.NextsAdd(code, k, k1 - k, A.At(|g.out|, m));
        if !A.Nexts(code, k, A.At(|g.out|, m)).At? { A.NextsFinal(code, k1 - k, A.Nexts(code, k, A.At(|g.out|, m))); }
      }
    }
  }

  /** The machine state a call of the function starts in. */
  ghost predicate Starts(ctx: Ctx, start: Gen, env: Ir.Env, m: A.Machine) {
    Rel(ctx, {}, start, env, m)
  }

  lemma StartSynced(f: Func, ctx: Ctx, start: Gen, code: Code, env: Ir.Env, m: A.Machine)
    requires Compiled(f, ctx, start, code) && Starts(ctx, start, env, m)
    ensures Synced(f, ctx, start, 0, start, env, m)
  {}

  /** Every finished run of the IR function is a finished run of its code. */
  lemma FunctionCorrect(f: Func, ctx: Ctx, start: Gen, code: Code, env: Ir.Env, m: A.Machine, n: nat) returns (k: nat)
    requires Ready(f, ctx) && Compiled(f, ctx, start, code) && Starts(ctx, start, env, m)
    requires var c := Ir.Steps(f, n, Ir.At(0, env)); c.Done? || c.Trapped?
    ensures Agree(ctx, Ir.Steps(f, n, Ir.At(0, env)), A.Nexts(code, k, A.At(0, m)))
  {
    StartSynced(f, ctx, start, code, env, m);
    hide Ready, Synced, Agree, A.Nexts, Ir.Steps;
    k := RunsAgree(f, ctx, start, code, 0, start, env, m, n);
  }

  /** The code stops only where the IR does: with the same outcome, or on a label the function
      does not define. */
  lemma CodeStopsWithIr(f: Func, ctx: Ctx, start: Gen, code: Code, env: Ir.Env, m: A.Machine, k: nat) returns (n: nat)
    requires Ready(f, ctx) && Compiled(f, ctx, start, code) && Starts(ctx, start, env, m)
    requires !A.Nexts(code, k, A.At(0, m)).At?
    ensures var c := Ir.Steps(f, n, Ir.At(0, env));
            c.Stuck? || Agree(ctx, c, A.Nexts(code, k, A.At(0, m)))
  {
    StartSynced(f, ctx, start, code, env, m);
    hide Ready, Synced, Agree, A.Nexts, Ir.Steps;
    var c := Ir.At(0, env);
    if RunsForever(f, c) { StillRunning(f, ctx, start, code, 0, start, env, m, k); }
    n :| !Ir.Steps(f, n, c).At?;
    if !Ir.Steps(f, n, c).Stuck? {
      var k1 := FunctionCorrect(f, ctx, start, code, env, m, n);
      AgreeFinal(ctx, Ir.Steps(f, n, c), A.Nexts(code, k1, A.At(0, m)));
      SameHalt(code, k, k1, A.At(0, m));
    }
  }

  lemma SameHalt(code: Code, a: nat, b: nat, d: A.Config)
    requires !A.Nexts(code, a, d).At? && !A.Nexts(code, b, d).At?
    ensures A.Nexts(code, a, d) == A.Nexts(code, b, d)
  {
    if a <= b {
      A.NextsAdd(code, a, b - a, d);
      A.NextsFinal(code, b - a, A.Nexts(code, a, d));
    } else {
      A.NextsAdd(code, b, a - b, d);
      A.NextsFinal(code, a - b, A.Nexts(code, b, d));
    }
  }
}
