/** What emitted code does in every case, lost stores included: it runs as the IR does if, where a round loses a
    store, the temp takes the word that happens to be in its slot. */
module LossyRuns {
  import opened Words
  import opened Wrappers
  import opened Emitter
  import opened EmitterProofs
  import opened FusionProofs
  import opened Simulation
  import opened Rounds
  import opened Correctness
  import opened FunctionCorrectness
  import LostSpill
  import Promises
  import Ir
  import A = Asm

  // ----- runs -----

  /** A round starts at i, and it loses a store. */
  predicate LosesHere(f: Func, ctx: Ctx, start: Gen, i: nat) {
    i < |f| && HeadAt(f, ctx, start, 0, i).Some? && LosesAt(f, ctx, HeadAt(f, ctx, start, 0, i).value, i) && f[i].Binary? && f[i].lhs.Temp?
  }

  /** One round of the IR: how many steps it takes, and the word for a temp whose store is lost in it. */
  datatype Visit = Visit(steps: nat, word: Word)

  function From(f: Func, ctx: Ctx, start: Gen, i: nat, env: Ir.Env, v: Visit): Ir.Env {
    if LosesHere(f, ctx, start, i) then env.Put(f[i].lhs, v.word) else env
  }

  /** From instruction i the visits lead to c. */
  predicate LossyRun(f: Func, ctx: Ctx, start: Gen, i: nat, env: Ir.Env, visits: seq<Visit>, c: Ir.Config)
    decreases |visits|
  {
    if visits == [] then c == Ir.At(i, env)
    else
      var d := Ir.Steps(f, visits[0].steps, Ir.At(i, From(f, ctx, start, i, env, visits[0])));
      if d.At? then LossyRun(f, ctx, start, d.pc, d.env, visits[1..], c) else visits[1..] == [] && c == d
  }

  lemma OneVisit(f: Func, ctx: Ctx, start: Gen, i: nat, env: Ir.Env, v: Visit)
    ensures LossyRun(f, ctx, start, i, env, [v], Ir.Steps(f, v.steps, Ir.At(i, From(f, ctx, start, i, env, v))))
  {
    var d := Ir.Steps(f, v.steps, Ir.At(i, From(f, ctx, start, i, env, v)));
    assert [v][1..] == [];
    if d.At? { assert LossyRun(f, ctx, start, d.pc, d.env, [], d); }
  }

  lemma MoreVisits(f: Func, ctx: Ctx, start: Gen, i: nat, env: Ir.Env, v: Visit, rest: seq<Visit>, c: Ir.Config)
    requires var d := Ir.Steps(f, v.steps, Ir.At(i, From(f, ctx, start, i, env, v)));
             d.At? && LossyRun(f, ctx, start, d.pc, d.env, rest, c)
    ensures LossyRun(f, ctx, start, i, env, [v] + rest, c)
  {
    assert ([v] + rest)[0] == v && ([v] + rest)[1..] == rest;
  }

  /** Where nothing is lost a lossy run is a run of the IR. */
  lemma {:induction false} PlainRun(f: Func, ctx: Ctx, start: Gen, i: nat, env: Ir.Env, visits: seq<Visit>, c: Ir.Config) returns (n: nat)
    requires LossyRun(f, ctx, start, i, env, visits, c) && forall k :: !LosesHere(f, ctx, start, k)
    ensures Ir.Steps(f, n, Ir.At(i, env)) == c
    decreases |visits|
  {
    hide LosesHere;
    if visits == [] {
      n := 0;
      assert Ir.Steps(f, 0, Ir.At(i, env)) == Ir.At(i, env);
    } else {
      n := visits[0].steps;
      assert From(f, ctx, start, i, env, visits[0]) == env;
      var d := Ir.Steps(f, n, Ir.At(i, env));
      if d.At? {
        var more := PlainRun(f, ctx, start, d.pc, d.env, visits[1..], c);
        Ir.StepsAdd(f, n, more, Ir.At(i, env));
        n := n + more;
      }
    }
  }

  // ----- the code follows one -----

  /** The word a machine holds for what round i reads. */
  function WordAt(f: Func, ctx: Ctx, i: nat, m: A.Machine): Word {
    if i < |f| && f[i].Binary? && f[i].lhs.Temp? then m.Slot(ctx.TempOff(f[i].lhs.name)) else 0
  }

  lemma SeenIsFrom(f: Func, ctx: Ctx, start: Gen, i: nat, g: Gen, env: Ir.Env, m: A.Machine, n: nat)
    requires i < |f| && Head(f, ctx, start, i, g)
    ensures SeenAt(f, ctx, g, i, env, m) == From(f, ctx, start, i, env, Visit(n, WordAt(f, ctx, i, m)))
  {
    hide HeadAt, Block, ShapeAt, ImmediateCode, IgnoresLeft;
    if LosesAt(f, ctx, g, i) {
      BinaryThere(f, ctx, i);
      assert f[i].lhs.Temp?;
    }
  }

  lemma BinaryThere(f: Func, ctx: Ctx, i: nat)
    requires i < |f| && (ShapeAt(f, ctx, i).Chain? || ShapeAt(f, ctx, i).CompareChain? || ShapeAt(f, ctx, i).Pair?)
    ensures f[i].Binary?
  {
  }

  /** The machine at round i, about to run on: the lossy runs that end as it does at machine step k. */
  ghost predicate Explained(f: Func, ctx: Ctx, start: Gen, i: nat, env: Ir.Env, visits: seq<Visit>, c: Ir.Config, d: A.Config) {
    LossyRun(f, ctx, start, i, env, visits, c) && (c.Stuck? || Agree(ctx, c, d))
  }

  lemma {:induction false} StopsLossy(f: Func, ctx: Ctx, start: Gen, code: Code, i: nat, g: Gen, env: Ir.Env, m: A.Machine, k: nat)
    returns (visits: seq<Visit>, c: Ir.Config)
    requires Ready(f, ctx) && Emitted(f, ctx, start, code) && Synced(f, ctx, start, i, g, env, m)
    requires !A.Nexts(code, k, A.At(|g.out|, m)).At?
    ensures Explained(f, ctx, start, i, env, visits, c, A.Nexts(code, k, A.At(|g.out|, m)))
    decreases k, |f| - i
  {
    var d := A.At(|g.out|, m);
    SyncedIndex(f, ctx, start, i, g, env, m);
    hide Ready, Emitted, Synced, Agree, A.Nexts, From, SeenAt, LossyRun, Ir.Steps;
    if i == |f| {
      var k1 := AdvanceEnd(f, ctx, start, code, g, env, m);
      visits := [Visit(1, 0)];
      c := Ir.Steps(f, 1, Ir.At(i, env));
      AtEnd(f, ctx, start, i, env, visits[0]);
      OneVisit(f, ctx, start, i, env, visits[0]);
      AgreeFinal(ctx, c, A.Nexts(code, k1, d));
      SameHalt(code, k, k1, d);
    } else {
      var n1, k1, j, h, env', m' := AdvanceSeen(f, ctx, start, code, i, g, env, m);
      assert Head(f, ctx, start, i, g) by { SyncedHead(f, ctx, start, i, g, env, m); }
      var v := Visit(n1, WordAt(f, ctx, i, m));
      SeenIsFrom(f, ctx, start, i, g, env, m, n1);
      var c1 := Ir.Steps(f, n1, Ir.At(i, From(f, ctx, start, i, env, v)));
      OneVisit(f, ctx, start, i, env, v);
      visits, c := [v], c1;
      if c1.Stuck? {
      } else if Agree(ctx, c1, A.Nexts(code, k1, d)) {
        AgreeFinal(ctx, c1, A.Nexts(code, k1, d));
        SameHalt(code, k, k1, d);
      } else {
        assert A.Nexts(code, k1, d) == A.At(|h.out|, m');
        LaterStop(code, k1, k, d);
        SyncedIndex(f, ctx, start, j, h, env', m');
        A.NextsAdd(code, k1, k - k1, d);
        var rest;
        rest, c := StopsLossy(f, ctx, start, code, j, h, env', m', k - k1);
        visits := [v] + rest;
        MoreVisits(f, ctx, start, i, env, v, rest, c);
      }
    }
  }

  lemma AtEnd(f: Func, ctx: Ctx, start: Gen, i: nat, env: Ir.Env, v: Visit)
    requires i == |f|
    ensures From(f, ctx, start, i, env, v) == env
  {
  }

  lemma SyncedHead(f: Func, ctx: Ctx, start: Gen, i: nat, g: Gen, env: Ir.Env, m: A.Machine)
    requires Synced(f, ctx, start, i, g, env, m)
    ensures Head(f, ctx, start, i, g)
  {
  }

  /** A run that has stopped at k was still going at an earlier moment. */
  lemma LaterStop(code: Code, k1: nat, k: nat, d: A.Config)
    requires A.Nexts(code, k1, d).At? && !A.Nexts(code, k, d).At?
    ensures k1 < k
  {
    if k <= k1 {
      A.NextsAdd(code, k, k1 - k, d);
      A.NextsFinal(code, k1 - k, A.Nexts(code, k, d));
    }
  }

  /** For every emitted function: when its code stops, some lossy run of the IR has stopped in the same way, or at a
      branch to a label the function lacks. */
  lemma CodeStopsLossy(f: Func, ctx: Ctx, start: Gen, code: Code, env: Ir.Env, m: A.Machine, k: nat)
    returns (visits: seq<Visit>, c: Ir.Config)
    requires Ready(f, ctx) && Emitted(f, ctx, start, code) && Starts(ctx, start, env, m)
    requires !A.Nexts(code, k, A.At(0, m)).At?
    ensures LossyRun(f, ctx, start, 0, env, visits, c) && (c.Stuck? || Agree(ctx, c, A.Nexts(code, k, A.At(0, m))))
  {
    assert Synced(f, ctx, start, 0, start, env, m) && |start.out| == 0;
    hide Ready, Emitted, Synced, LossyRun, A.Nexts, Agree;
    visits, c := StopsLossy(f, ctx, start, code, 0, start, env, m, k);
  }

  // ----- a loss shows -----

  /** At a round that loses a store the slot may hold anything, and for some word in it what the round computes first is
      not what the IR computes. */
  lemma LossShows(f: Func, ctx: Ctx, g: Gen, i: nat, p: Option<string>, env: Ir.Env, m: A.Machine) returns (h: Gen, w: Word)
    requires Ready(f, ctx) && i < |f| && AtHead(f, ctx, g, i, env, m) && Promises.Holds(ctx, g, p)
    requires Block(f, ctx, g, i).Some? && Promises.LosesNow(f, ctx, i, p) && f[i].Binary?
    ensures ComputeToR11(g, ctx, f[i].op, f[i].lhs, f[i].rhs) == Some(h)
    ensures AtHead(f, ctx, g, i, env, LostSpill.WithSlot(m, ctx.TempOff(f[i].lhs.name), w))
    ensures !LostSpill.Yields(g, h, LostSpill.WithSlot(m, ctx.TempOff(f[i].lhs.name), w),
                              Ir.Eval(f[i].op, env.Value(f[i].lhs), env.Value(f[i].rhs)))
  {
    var a := f[i];
    Promises.LosesNowExactly(f, ctx, g, i, p);
    BothFresh(f, ctx, g, i, a.lhs, a.rhs);
    ComputedThere(f, ctx, g, i);
    h := ComputeToR11(g, ctx, a.op, a.lhs, a.rhs).value;
    hide Rel, GoodCtx, Ir.Eval, StaleSet, ComputeToR11, ImmediateCode, LostSpill.Yields, LostSpill.WithSlot, ShapeAt, Block, PendingAt, GenInv;
    LostSpill.LostSpillExact(ctx, StaleSet(f, ctx, i), g, env, m, a.op, a.lhs, a.rhs, h);
    assert !IgnoresLeft(a.op, a.rhs.value);
    w :| !LostSpill.Yields(g, h, LostSpill.WithSlot(m, ctx.TempOff(a.lhs.name), w), Ir.Eval(a.op, env.Value(a.lhs), a.rhs.value));
  }

  lemma ComputedThere(f: Func, ctx: Ctx, g: Gen, i: nat)
    requires i < |f| && Block(f, ctx, g, i).Some? && f[i].Binary?
    requires ShapeAt(f, ctx, i).Chain? || ShapeAt(f, ctx, i).CompareChain? || ShapeAt(f, ctx, i).Pair?
    ensures ComputeToR11(g, ctx, f[i].op, f[i].lhs, f[i].rhs).Some?
  {
    hide ShapeAt, ComputeToR11, ExtendChain, ChainTail, ConsumeR11, CompareR11Jump, Store;
  }

  /** The consumer of the lost value may discard it. */
  function Masked(): Func {
    [Ir.Assign(Ir.Temp("t0"), Ir.Symbol("s")),
     Ir.Binary(Ir.Temp("t1"), Ir.Div, Ir.Temp("t0"), Ir.Int(3)),
     Ir.Binary(Ir.Symbol("s"), Ir.Mul, Ir.Temp("t1"), Ir.Int(0))]
  }

  /** So a lost store need not show at the end: here the symbols are the same whatever word the temp takes. */
  lemma LossCanBeMasked(env: Ir.Env, w: Word)
    ensures Promises.Loses(Masked(), LostSpill.ExampleCtx(), 0, None)
    ensures var c, d := Ir.Steps(Masked(), 2, Ir.At(1, env)), Ir.Steps(Masked(), 2, Ir.At(1, env.Put(Ir.Temp("t0"), w)));
            c.At? && d.At? && c.pc == d.pc && c.env.symbols == d.env.symbols
  {
    var f, ctx := Masked(), LostSpill.ExampleCtx();
    assert ShapeAt(f, ctx, 0) == Alone && Promises.After(f, ctx, 0, None) == Some("t0");
    assert ShapeAt(f, ctx, 1) == Pair && Promises.LosesNow(f, ctx, 1, Some("t0"));
    MaskedSteps(env);
    MaskedSteps(env.Put(Ir.Temp("t0"), w));
  }

  lemma MaskedSteps(env: Ir.Env)
    ensures var c := Ir.Steps(Masked(), 2, Ir.At(1, env)); c.At? && c.pc == 3 && c.env.symbols == env.symbols["s" := 0]
  {
    StepTwice(Masked(), Ir.At(1, env));
    ThirdFits(env.Tmp("t0"));
    var v := Ir.Quotient(env.Tmp("t0"), 3);
    var env1 := env.Put(Ir.Temp("t1"), v);
    assert Ir.Step(Masked(), Ir.At(1, env)) == Ir.At(2, env1);
    assert v * 0 == 0;
    assert Ir.Step(Masked(), Ir.At(2, env1)) == Ir.At(3, env1.Put(Ir.Symbol("s"), 0));
  }

  lemma ThirdFits(a: Word)
    ensures !Ir.DivFaults(a, 3)
  {
  }
}
