/** The one fusion that can compute a wrong value, exactly when it does, and a program on
    which it does. */
module LostSpill {
  import opened Words
  import opened Wrappers
  import opened Emitter
  import opened EmitterProofs
  import opened FusionProofs
  import opened Simulation
  import opened Correctness
  import opened FunctionCorrectness
  import Promises
  import ShiftDivision
  import Ir
  import A = Asm

  /** Two left operands on which the operator gives different results. */
  function Telling(op: Ir.BinOp, v: Word): (Word, Word) {
    match op
    case Mod => if v == -1 then (0, -0x8000_0000_0000_0000) else (0, 1)
    case Div | LogAnd => (0, v)
    case Shr => (0, -1)
    case _ => (0, 1)
  }

  lemma PowerWraps(k: nat)
    requires k < 64
    ensures Wrap(Pow2(k)) != 0
  {
    Pow2Of63();
    if k <= 63 { Pow2Monotone(k, 63); }
  }

  lemma RightShiftsDiffer(k: nat)
    ensures SarW(0, k) == 0 && SarW(-1, k) == -1
  {
    var p := Pow2(k);
    DivUnique(-1, p, -1, p - 1);
    DivUnique(0, p, 0, 0);
  }

  lemma SmallRemainders(v: Word)
    requires v != 0 && v != 1 && v != -1
    ensures TruncRem(0, v) == 0 && TruncRem(1, v) == 1 && !Ir.DivFaults(0, v) && !Ir.DivFaults(1, v)
  {
    var d: int := if v > 0 then v else 0 - v;
    DivUnique(1, d, 0, 1);
    DivUnique(0, d, 0, 0);
  }

  lemma TellingDiffers(op: Ir.BinOp, v: Word)
    requires ImmediateCode(op, v).None? && !IgnoresLeft(op, v)
    ensures Ir.Eval(op, Telling(op, v).0, v) != Ir.Eval(op, Telling(op, v).1, v)
  {
    match op
    case Div =>
      var d: int := if v > 0 then v else 0 - v;
      DivUnique(d, d, 1, 0);
      DivUnique(0, d, 0, 0);
    case Mod =>
      if v != -1 { SmallRemainders(v); }
    case LogAnd =>
      ShiftDivision.BitAndSelf(v);
      BitAndZero(0);
    case LogOr =>
      Ir.LogOrIsLogical(0, v);
      Ir.LogOrIsLogical(1, v);
    case Shl => PowerWraps(v % 64);
    case Shr => RightShiftsDiffer(v % 64);
  }

  /** From m, the code between g and h leaves `value` in r11, or faults if there is none. */
  predicate Yields(g: Gen, h: Gen, m: A.Machine, value: Option<Word>) {
    g.out <= h.out &&
    var flow := A.Run(h.out[|g.out|..], m);
    match value
    case Some(v) => flow.Fall? && flow.m.Get(A.R11) == v
    case None => flow.Fault?
  }

  /** The same machine with something else in a frame slot. */
  function WithSlot(m: A.Machine, off: int, w: Word): A.Machine { m.(slots := m.slots[off := w]) }

  /** While a temp's store is pending its slot may hold anything. */
  lemma SlotIsFree(ctx: Ctx, stale: set<string>, g: Gen, env: Ir.Env, m: A.Machine, t: string, w: Word)
    requires GoodCtx(ctx) && Rel(ctx, stale, g, env, m) && ctx.TempOff(t) > 0 && ctx.TempOff(t) == g.pending
    ensures Rel(ctx, stale, g, env, WithSlot(m, ctx.TempOff(t), w))
  {
    var m' := WithSlot(m, ctx.TempOff(t), w);
    forall s | s in ctx.symbols ensures ReadLoc(m', s, ctx.symbols[s]) == env.Sym(s) {
      assert ReadLoc(m, s, ctx.symbols[s]) == env.Sym(s);
      assert SymbolOffTemp(ctx, s, t);
    }
  }

  lemma LostFrom(ctx: Ctx, stale: set<string>, g: Gen, env: Ir.Env, m: A.Machine, op: Ir.BinOp, lhs: Ir.Operand,
                 rhs: Ir.Operand, h: Gen, w: Word, value: Option<Word>)
    requires GoodCtx(ctx) && GenInv(ctx, g) && Rel(ctx, stale, g, env, m) && Fresh(stale, lhs)
    requires LosesSpill(g, ctx, op, lhs, rhs) && ComputeToR11(g, ctx, op, lhs, rhs) == Some(h)
    ensures Yields(g, h, WithSlot(m, ctx.TempOff(lhs.name), w), value) <==> value == Ir.Eval(op, w, rhs.value)
  {
    var m' := WithSlot(m, ctx.TempOff(lhs.name), w);
    SlotIsFree(ctx, stale, g, env, m, lhs.name, w);
    assert m'.Slot(ctx.TempOff(lhs.name)) == w;
    hide Rel, GoodCtx, GenInv, Ir.Eval, ComputeToR11, ImmediateCode, A.Run;
    var flow := LostLoad(ctx, stale, g, env, m', op, lhs, rhs, h);
  }

  /** In that shape the code is right from every machine that represents the environment if
      and only if the literal makes the left operand irrelevant. */
  lemma LostSpillExact(ctx: Ctx, stale: set<string>, g: Gen, env: Ir.Env, m: A.Machine, op: Ir.BinOp, lhs: Ir.Operand,
                       rhs: Ir.Operand, h: Gen)
    requires GoodCtx(ctx) && GenInv(ctx, g) && Rel(ctx, stale, g, env, m) && Fresh(stale, lhs)
    requires LosesSpill(g, ctx, op, lhs, rhs) && ComputeToR11(g, ctx, op, lhs, rhs) == Some(h)
    ensures forall w: Word :: Rel(ctx, stale, g, env, WithSlot(m, ctx.TempOff(lhs.name), w))
    ensures (forall w: Word :: Yields(g, h, WithSlot(m, ctx.TempOff(lhs.name), w), Ir.Eval(op, env.Value(lhs), rhs.value)))
            <==> IgnoresLeft(op, rhs.value)
  {
    hide Yields, GoodCtx, GenInv, Ir.Eval, ComputeToR11, Rel, WithSlot;
    var value := Ir.Eval(op, env.Value(lhs), rhs.value);
    forall w: Word ensures Rel(ctx, stale, g, env, WithSlot(m, ctx.TempOff(lhs.name), w)) {
      SlotIsFree(ctx, stale, g, env, m, lhs.name, w);
    }
    forall w: Word
      ensures Yields(g, h, WithSlot(m, ctx.TempOff(lhs.name), w), value) <==> value == Ir.Eval(op, w, rhs.value)
    {
      LostFrom(ctx, stale, g, env, m, op, lhs, rhs, h, w, value);
    }
    if IgnoresLeft(op, rhs.value) {
      forall w: Word ensures Ir.Eval(op, w, rhs.value) == value {
        IgnoresLeftMeaning(op, rhs.value, w, env.Value(lhs));
      }
    } else {
      TellingDiffers(op, rhs.value);
      var pair := Telling(op, rhs.value);
      var w := if Ir.Eval(op, pair.0, rhs.value) == value then pair.1 else pair.0;
      assert !Yields(g, h, WithSlot(m, ctx.TempOff(lhs.name), w), value);
    }
  }

  /** Functions that never combine a temp on the left with a small literal the operator has
      no literal form for are compiled without the flaw. */
  predicate PlainLiterals(f: Func) {
    forall a :: a in f ==>
      a.Binary? && SmallInt(a.rhs) && ImmediateCode(a.op, a.rhs.value).None? && !IgnoresLeft(a.op, a.rhs.value) ==> !a.lhs.Temp?
  }

  lemma {:induction false} PlainLiteralsSuffice(f: Func, ctx: Ctx, g: Gen, i: nat)
    requires PlainLiterals(f) && i <= |f|
    ensures NoLoss(f, ctx, g, i)
    decreases |f| - i
  {
    if i < |f| {
      assert f[i] in f;
      hide Block, ShapeAt;
      var b := Block(f, ctx, g, i);
      if b.Some? { PlainLiteralsSuffice(f, ctx, b.value.0, b.value.1); }
    }
  }

  // ----- a program -----

  function Example(): Func {
    [Ir.Assign(Ir.Temp("t0"), Ir.Symbol("s")),
     Ir.Binary(Ir.Temp("t1"), Ir.Div, Ir.Temp("t0"), Ir.Int(3)),
     Ir.Binary(Ir.Symbol("s"), Ir.Add, Ir.Temp("t1"), Ir.Int(1))]
  }

  function ExampleCtx(): Ctx {
    Ctx(map["s" := InSlot(8)], map["t0" := 16, "t1" := 24], map["t0" := 1, "t1" := 1])
  }

  lemma ExampleReady()
    ensures Ready(Example(), ExampleCtx())
  {
    var f, ctx := Example(), ExampleCtx();
    assert f[..2][..1] == f[..1] && f[..1][..0] == [];
    forall t ensures ctx.UseCount(t) == Ir.Uses(f, t) {
      assert Ir.Uses(f[..1][..0], t) == 0;
      assert Ir.Uses(f[..1], t) == 0;
      assert Ir.Uses(f[..2], t) == Ir.Uses(f[..1], t) + Ir.UsesIn(f[1], t);
    }
    forall s, s' ensures SymbolsApart(ctx, s, s') {}
    forall s, t ensures SymbolOffTemp(ctx, s, t) {}
    forall t, t' ensures TempsApart(ctx, t, t') {}
  }

  function LoadPart(): Code {
    [A.Comment, A.LoadSlot(A.RAX, 8)] + [A.Mov(A.RAX, A.I(3)), A.Mov(A.R10, A.R(A.RAX)), A.LoadSlot(A.RAX, 16)]
  }

  function DividePart(): Code { [A.Cqo, A.Idiv(A.R10), A.Mov(A.R11, A.R(A.RAX))] }

  function StorePart(): Code {
    [A.Mov(A.RAX, A.R(A.R11)), A.Alu(A.AddOp, A.RAX, A.I(1))] + [A.Comment, A.StoreSlot(8, A.RAX)]
  }

  function ExampleCode(): Code { LoadPart() + DividePart() + StorePart() + [A.LabelDef(A.Exit)] }

  lemma ExampleFirst(g0: Gen, g1: Gen)
    requires g0 == Start(1, 0) && g1 == Gen(LoadPart()[..2], 3, 16, true, 16, 3)
    ensures Block(Example(), ExampleCtx(), g0, 0) == Some((g1, 1))
  {
    var load := [A.Comment, A.LoadSlot(A.RAX, 8)];
    assert [] + load == load == LoadPart()[..2];
  }

  lemma ExampleSecond(g1: Gen, g2: Gen)
    requires g1 == Gen(LoadPart()[..2], 3, 16, true, 16, 3)
    requires g2 == Gen(LoadPart() + DividePart() + StorePart(), 13, 0, false, 16, 3)
    ensures Block(Example(), ExampleCtx(), g1, 1) == Some((g2, 3))
  {
    var f, ctx := Example(), ExampleCtx();
    assert ShapeAt(f, ctx, 1) == Pair by {
      assert NextInBlock(f, 2) == Some(2);
      assert ChainLast(f, ctx, 2) == 2;
    }
    hide ShapeAt;
    var h1 := Gen(LoadPart() + DividePart(), 9, 0, false, 16, 3);
    assert ComputeToR11(g1, ctx, f[1].op, f[1].lhs, f[1].rhs) == Some(h1) by { ExampleProducer(g1, h1); }
    assert [A.Mov(A.RAX, A.R(A.R11))] + ImmediateCode(Ir.Add, 1).value == StorePart()[..2];
    assert ConsumeR11(h1, ctx, f[2], "t1") == Some(Gen(h1.out + StorePart()[..2], 11, 0, false, 16, 3));
    assert g2.out == h1.out + StorePart()[..2] + [A.Comment, A.StoreSlot(8, A.RAX)];
  }

  lemma ExampleProducer(g1: Gen, h1: Gen)
    requires g1 == Gen(LoadPart()[..2], 3, 16, true, 16, 3) && h1 == Gen(LoadPart() + DividePart(), 9, 0, false, 16, 3)
    ensures ComputeToR11(g1, ExampleCtx(), Ir.Div, Ir.Temp("t0"), Ir.Int(3)) == Some(h1)
  {
    var ctx := ExampleCtx();
    var k1 := g1.(pending := 0, single := false);
    var k2 := k1.(out := k1.out + [A.Mov(A.RAX, A.I(3))], emitSeq := 4);
    var k3 := k2.(out := k2.out + [A.Mov(A.R10, A.R(A.RAX))], emitSeq := 5);
    var k4 := k3.(out := k3.out + [A.LoadSlot(A.RAX, 16)], emitSeq := 6);
    assert TryImmediate(g1, ctx, Ir.Div, Ir.Temp("t0"), Ir.Int(3)) == Some((k1, false));
    assert LoadInto(k1, ctx, Ir.Int(3), A.R10) == Some(k3);
    assert Load(k3, ctx, Ir.Temp("t0")) == Some(k4);
    assert k4.out == LoadPart();
    assert RegisterCode(Ir.Div, A.R10) + [A.Mov(A.R11, A.R(A.RAX))] == DividePart();
  }

  lemma ExampleEmits()
    ensures EmitFunction(Example(), ExampleCtx(), Start(1, 0)).Some?
    ensures EmitFunction(Example(), ExampleCtx(), Start(1, 0)).value.out == ExampleCode()
  {
    var f, ctx, g0 := Example(), ExampleCtx(), Start(1, 0);
    var g1 := Gen(LoadPart()[..2], 3, 16, true, 16, 3);
    var g2 := Gen(LoadPart() + DividePart() + StorePart(), 13, 0, false, 16, 3);
    ExampleFirst(g0, g1);
    ExampleSecond(g1, g2);
    hide Block, LoadPart, DividePart, StorePart;
    assert EmitFrom(f, ctx, g2, 3) == Some(g2);
    assert EmitFrom(f, ctx, g1, 1) == Some(g2);
  }

  /** 9 / 3 + 1: the IR leaves 4 in s. */
  lemma ExampleIr(env: Ir.Env)
    requires env.Sym("s") == 9
    ensures var c := Ir.Steps(Example(), 4, Ir.At(0, env)); c.Done? && c.env.Sym("s") == 4
  {
    var f := Example();
    assert TruncDiv(9, 3) == 3;
    var env1 := env.Put(Ir.Temp("t0"), 9);
    var env2 := env1.Put(Ir.Temp("t1"), 3);
    var env3 := env2.Put(Ir.Symbol("s"), 4);
    assert Ir.Step(f, Ir.At(0, env)) == Ir.At(1, env1);
    assert Ir.Step(f, Ir.At(1, env1)) == Ir.At(2, env2);
    assert Ir.Step(f, Ir.At(2, env2)) == Ir.At(3, env3);
    StepTwice(f, Ir.At(0, env));
    StepTwice(f, Ir.At(2, env2));
    Ir.StepsAdd(f, 2, 2, Ir.At(0, env));
  }

  lemma ExampleLoads(m: A.Machine) returns (m': A.Machine)
    requires m.Slot(16) == 0
    ensures A.Run(LoadPart(), m) == A.Fall(m') && m'.Get(A.RAX) == 0 && m'.Get(A.R10) == 3
  {
    var m1 := m.Set(A.RAX, m.Slot(8));
    A.RunTwo(A.Comment, A.LoadSlot(A.RAX, 8), m);
    A.RunThree(A.Mov(A.RAX, A.I(3)), A.Mov(A.R10, A.R(A.RAX)), A.LoadSlot(A.RAX, 16), m1);
    m' := m1.Set(A.RAX, 3).Set(A.R10, 3).Set(A.RAX, 0);
    A.RunAppend([A.Comment, A.LoadSlot(A.RAX, 8)], [A.Mov(A.RAX, A.I(3)), A.Mov(A.R10, A.R(A.RAX)), A.LoadSlot(A.RAX, 16)], m);
  }

  lemma ExampleDivides(m: A.Machine) returns (m': A.Machine)
    requires m.Get(A.RAX) == 0 && m.Get(A.R10) == 3
    ensures A.Run(DividePart(), m) == A.Fall(m') && m'.Get(A.R11) == 0
  {
    var m1 := m.Set(A.RDX, 0);
    assert A.Dividend(m1) == 0 && TruncDiv(0, 3) == 0;
    A.RunThree(A.Cqo, A.Idiv(A.R10), A.Mov(A.R11, A.R(A.RAX)), m);
    m' := m1.Set(A.RAX, 0).Set(A.RDX, 0).(flags := A.Undefined).Set(A.R11, 0);
  }

  lemma ExampleStores(m: A.Machine) returns (m': A.Machine)
    requires m.Get(A.R11) == 0
    ensures A.Run(StorePart(), m) == A.Fall(m') && m'.Slot(8) == 1
  {
    var m1 := m.Set(A.RAX, 0).Set(A.RAX, 1).(flags := A.Undefined);
    A.RunTwo(A.Mov(A.RAX, A.R(A.R11)), A.Alu(A.AddOp, A.RAX, A.I(1)), m);
    A.RunTwo(A.Comment, A.StoreSlot(8, A.RAX), m1);
    m' := m1.(slots := m1.slots[8 := 1]);
    A.RunAppend([A.Mov(A.RAX, A.R(A.R11)), A.Alu(A.AddOp, A.RAX, A.I(1))], [A.Comment, A.StoreSlot(8, A.RAX)], m);
  }

  lemma ExitHalts(code: Code, p: nat, m: A.Machine)
    requires p < |code| && code[p] == A.LabelDef(A.Exit)
    ensures A.Next(code, A.At(p, m)).Halted? && forall off :: A.Next(code, A.At(p, m)).m.Slot(off) == m.Slot(off)
  {
  }

  /** The example's code is straight-line up to the exit label. */
  lemma ExampleShape()
    ensures var code, body := ExampleCode(), LoadPart() + DividePart() + StorePart();
            && A.LabelDef(A.Exit) !in body && |code| == |body| + 1
            && code[0..|body|] == body && code[|body|] == A.LabelDef(A.Exit)
  {
  }

  /** Where slot 16 happens to hold 0, the code leaves 1 in s. */
  lemma ExampleMachine(m: A.Machine) returns (n: nat)
    requires m.Slot(16) == 0
    ensures var d := A.Nexts(ExampleCode(), n, A.At(0, m)); d.Halted? && d.m.Slot(8) == 1
  {
    var code := ExampleCode();
    var body := LoadPart() + DividePart() + StorePart();
    hide *;
    ExampleShape();
    var m1 := ExampleLoads(m);
    var m2 := ExampleDivides(m1);
    var m3 := ExampleStores(m2);
    A.RunSplit(LoadPart(), DividePart(), StorePart(), m, m1, m2);
    n := A.NextsRun(code, 0, |body|, m);
    A.NextsAdd(code, n, 1, A.At(0, m));
    NextOnce(code, A.At(|body|, m3));
    ExitHalts(code, |body|, m3);
    n := n + 1;
  }

  /** The condition on the IR sees it coming: the division finds t0 promised. */
  lemma ExampleLoses()
    ensures Promises.Loses(Example(), ExampleCtx(), 0, None)
  {
    var f, ctx := Example(), ExampleCtx();
    assert ShapeAt(f, ctx, 0) == Alone && Promises.After(f, ctx, 0, None) == Some("t0");
    assert ShapeAt(f, ctx, 1) == Pair && Promises.LosesNow(f, ctx, 1, Some("t0"));
  }
}
