/** The composite emissions: r11 chains, standalone binary instructions, compares and
    branches. Each lemma relates the emitted code to the IR operation it stands for. */
module FusionProofs {
  import opened Words
  import opened Wrappers
  import opened Emitter
  import opened EmitterProofs
  import opened ShiftDivision
  import Ir
  import A = Asm

  predicate Fresh(stale: set<string>, o: Ir.Operand) { o.Temp? ==> o.name !in stale }

  /** h promises no store that g does not. */
  predicate Fewer(h: Gen, g: Gen) {
    h.pending == 0 || (h.pending == g.pending && h.single == g.single)
  }

  lemma DroppedFewer(ctx: Ctx, h: Gen, g: Gen, o: Ir.Operand)
    requires Fewer(h, g)
    ensures Dropped(h, ctx, o) <= Dropped(g, ctx, o)
  {}

  lemma RelWeaken(ctx: Ctx, stale: set<string>, stale': set<string>, g: Gen, env: Ir.Env, m: A.Machine)
    requires Rel(ctx, stale, g, env, m) && stale <= stale'
    ensures Rel(ctx, stale', g, env, m)
  {}

  /** LoadCorrect, with what the load leaves promised. */
  lemma LoadUses(ctx: Ctx, stale: set<string>, g: Gen, env: Ir.Env, m: A.Machine, o: Ir.Operand, h: Gen)
    returns (m': A.Machine)
    requires GoodCtx(ctx) && GenInv(ctx, g) && Rel(ctx, stale, g, env, m)
    requires Load(g, ctx, o) == Some(h) && Fresh(stale, o)
    ensures Exits(g, h, m, A.Fall(m')) && m'.Get(A.RAX) == env.Value(o)
    ensures forall r :: r != A.RAX ==> m'.Get(r) == m.Get(r)
    ensures GenInv(ctx, h) && Rel(ctx, stale + Dropped(g, ctx, o), h, env, m') && Fewer(h, g)
    ensures Settled(g) ==> Settled(h)
    ensures !Drops(g, ctx, o) ==> Rel(ctx, stale, h, env, m')
  {
    m' := LoadCorrect(ctx, stale, g, env, m, o, h);
    assert !Drops(g, ctx, o) ==> stale + Dropped(g, ctx, o) == stale;
  }

  lemma LoadIntoUses(ctx: Ctx, stale: set<string>, g: Gen, env: Ir.Env, m: A.Machine, o: Ir.Operand, h: Gen)
    returns (m': A.Machine)
    requires GoodCtx(ctx) && GenInv(ctx, g) && Rel(ctx, stale, g, env, m)
    requires LoadInto(g, ctx, o, A.R10) == Some(h) && Fresh(stale, o)
    ensures Exits(g, h, m, A.Fall(m')) && Settled(h)
    ensures m'.Get(A.R10) == env.Value(o) && m'.Get(A.R11) == m.Get(A.R11)
    ensures GenInv(ctx, h) && Rel(ctx, stale + Dropped(g, ctx, o), h, env, m')
    ensures Settled(g) ==> Rel(ctx, stale, h, env, m')
  {
    m' := LoadIntoCorrect(ctx, stale, g, env, m, o, h);
    assert Settled(g) ==> stale + Dropped(g, ctx, o) == stale;
  }

  // ----- values -----

  /** From m, the code between g and h leaves `value` in register r, or faults if there is
      no value; either way the IR environment is still the one represented. */
  ghost predicate Computes(ctx: Ctx, stale: set<string>, g: Gen, h: Gen, env: Ir.Env, m: A.Machine,
                           r: A.Reg, value: Option<Word>, flow: A.Flow) {
    && Exits(g, h, m, flow) && GenInv(ctx, h) && Settled(h)
    && (match value
        case Some(v) => flow.Fall? && flow.m.Get(r) == v && Rel(ctx, stale, h, env, flow.m)
        case None => flow.Fault? && SymRel(ctx, env, flow.m))
  }

  lemma EvalCommutes(op: Ir.BinOp, a: Word, b: Word)
    requires Ir.IsCommutative(op)
    ensures Ir.Eval(op, a, b) == Ir.Eval(op, b, a)
  {
    BitAndCommutes(a, b);
    BitAndCommutes(NotW(a), NotW(b));
  }

  lemma CommutativeLiteral(op: Ir.BinOp, v: Word)
    requires Ir.IsCommutative(op)
    ensures ImmediateCode(op, v).Some?
  {}

  /** Operator code followed by a copy to r11, or not. */
  function WithCopy(code: Code, copy: bool): Code {
    if copy then code + [A.Mov(A.R11, A.R(A.RAX))] else code
  }

  lemma CopyRuns(code: Code, copy: bool, m: A.Machine) returns (flow: A.Flow)
    ensures A.Run(WithCopy(code, copy), m) == flow
    ensures A.Run(code, m).Fall? ==>
              flow.Fall? && flow.m.Get(A.RAX) == A.Run(code, m).m.Get(A.RAX) && SameStore(A.Run(code, m).m, flow.m) &&
              flow.m.Get(A.R11) == A.Run(code, m).m.Get(if copy then A.RAX else A.R11)
    ensures A.Run(code, m).Fault? ==> flow == A.Run(code, m)
  {
    var s := A.Run(code, m);
    flow := A.Run(WithCopy(code, copy), m);
    if copy {
      A.RunAppend(code, [A.Mov(A.R11, A.R(A.RAX))], m);
      if s.Fall? { A.RunOne(A.Mov(A.R11, A.R(A.RAX)), s.m); }
    }
  }

  lemma RelSyms(ctx: Ctx, stale: set<string>, g: Gen, env: Ir.Env, m: A.Machine)
    requires Rel(ctx, stale, g, env, m)
    ensures SymRel(ctx, env, m)
  {}

  /** Emitting `rax := rax op literal`. */
  lemma EmitImmediate(ctx: Ctx, stale: set<string>, g: Gen, env: Ir.Env, m: A.Machine,
                      op: Ir.BinOp, v: Word, copy: bool) returns (flow: A.Flow)
    requires GoodCtx(ctx) && GenInv(ctx, g) && Rel(ctx, stale, g, env, m)
    requires A.Fits32(v) && ImmediateCode(op, v).Some?
    ensures var h := Emit(g, WithCopy(ImmediateCode(op, v).value, copy));
            Computes(ctx, stale, g, h, env, m, A.RAX, Ir.Eval(op, m.Get(A.RAX), v), flow)
    ensures flow.Fall? && (copy ==> flow.m.Get(A.R11) == flow.m.Get(A.RAX))
  {
    var code := ImmediateCode(op, v).value;
    var m1 := AfterSpill(g, m);
    var m2 := ImmediateCorrect(op, v, m1);
    flow := CopyRuns(code, copy, m1);
    assert code != [] && WithCopy(code, copy) != [];
    EmitKeeps(ctx, stale, g, env, m, WithCopy(code, copy), flow);
  }

  /** Emitting `rax := rax op r`. */
  lemma EmitRegister(ctx: Ctx, stale: set<string>, g: Gen, env: Ir.Env, m: A.Machine,
                     op: Ir.BinOp, r: A.Reg, copy: bool) returns (flow: A.Flow)
    requires GoodCtx(ctx) && GenInv(ctx, g) && Rel(ctx, stale, g, env, m)
    requires r == A.R10 || r == A.R11
    ensures var h := Emit(g, WithCopy(RegisterCode(op, r), copy));
            Computes(ctx, stale, g, h, env, m, A.RAX, Ir.Eval(op, m.Get(A.RAX), m.Get(r)), flow)
    ensures flow.Fall? && copy ==> flow.m.Get(A.R11) == flow.m.Get(A.RAX)
  {
    var code := RegisterCode(op, r);
    RegisterCodeSome(op, r);
    hide RegisterCode, Ir.Eval, A.Run;
    var m1 := AfterSpill(g, m);
    var f1 := RegisterCorrect(op, r, m1);
    flow := CopyRuns(code, copy, m1);
    assert WithCopy(code, copy) != [];
    assert m1.Get(A.RAX) == m.Get(A.RAX) && m1.Get(r) == m.Get(r);
    var h := Emit(g, WithCopy(code, copy));
    EmitKeeps(ctx, stale, g, env, m, WithCopy(code, copy), flow);
    RelSyms(ctx, stale, h, env, flow.m);
  }

  lemma RegisterCodeSome(op: Ir.BinOp, r: A.Reg)
    ensures RegisterCode(op, r) != []
  {}

  lemma ComputesThen(ctx: Ctx, stale: set<string>, g: Gen, h: Gen, k: Gen, env: Ir.Env, m: A.Machine, m1: A.Machine,
                     r: A.Reg, value: Option<Word>, flow: A.Flow)
    requires Exits(g, h, m, A.Fall(m1)) && Computes(ctx, stale, h, k, env, m1, r, value, flow)
    ensures Computes(ctx, stale, g, k, env, m, r, value, flow)
  {
    ExitsThen(g, h, k, m, m1, flow);
  }

  // ----- producing a value in r11 -----

  /** The left operand's only load has thrown its promised store away when the literal form
      turns out not to exist, and the second load reads the slot that was never written. */
  predicate LosesSpill(g: Gen, ctx: Ctx, op: Ir.BinOp, lhs: Ir.Operand, rhs: Ir.Operand) {
    SmallInt(rhs) && ImmediateCode(op, rhs.value).None? && Drops(g, ctx, lhs)
  }

  /** Whatever the left operand, the result with this literal on the right is the same. */
  predicate IgnoresLeft(op: Ir.BinOp, v: Word) {
    (op.Div? && v == 0) || (op.Mod? && (v == 0 || v == 1)) || (op.LogOr? && v != 0) || (op.LogAnd? && v == 0)
  }

  /** The one shape compute_ir_binary_to_r11 gets wrong. */
  predicate LosesValue(g: Gen, ctx: Ctx, op: Ir.BinOp, lhs: Ir.Operand, rhs: Ir.Operand) {
    LosesSpill(g, ctx, op, lhs, rhs) && !IgnoresLeft(op, rhs.value)
  }

  lemma IgnoresLeftMeaning(op: Ir.BinOp, v: Word, a: Word, b: Word)
    requires IgnoresLeft(op, v)
    ensures Ir.Eval(op, a, v) == Ir.Eval(op, b, v)
  {
    if op.LogAnd? {
      BitAndZero(a);
      BitAndZero(b);
    } else if op.LogOr? {
      Ir.LogOrIsLogical(a, v);
      Ir.LogOrIsLogical(b, v);
    }
  }

  /** After the spill is lost, r11 gets the operator applied to whatever the slot holds. */
  lemma LostLoad(ctx: Ctx, stale: set<string>, g: Gen, env: Ir.Env, m: A.Machine,
                 op: Ir.BinOp, lhs: Ir.Operand, rhs: Ir.Operand, h: Gen) returns (flow: A.Flow)
    requires GoodCtx(ctx) && GenInv(ctx, g) && Rel(ctx, stale, g, env, m) && Fresh(stale, lhs)
    requires LosesSpill(g, ctx, op, lhs, rhs) && ComputeToR11(g, ctx, op, lhs, rhs) == Some(h)
    ensures Computes(ctx, stale + Dropped(g, ctx, lhs), g, h, env, m, A.R11,
                     Ir.Eval(op, m.Slot(ctx.TempOff(lhs.name)), rhs.value), flow)
  {
    hide Ir.Eval, Emit, RegisterCode, Load, LoadInto, Rel, GoodCtx, GenInv, SymRel, Exits, A.Run, Computes, ImmediateCode,
         ComputeToR11;
    var stale1 := stale + Dropped(g, ctx, lhs);
    var off := ctx.TempOff(lhs.name);
    var g1, g2, g3 := LostCode(g, ctx, op, lhs, rhs, h);
    ValueOfInt(env, rhs);
    var m1 := LoadUses(ctx, stale, g, env, m, lhs, g1);
    SameCode(g, g1, m, m1);
    var m2 := LoadIntoUses(ctx, stale1, g1, env, m1, rhs, g2);
    SlotKept(ctx, g1, m1, rhs, g2, m2, off);
    var m3 := LoadByOne(ctx, stale1, g2, env, m2, A.LoadSlot(A.RAX, off));
    LoadedSlot(g2, m2, m3, off);
    flow := EmitRegister(ctx, stale1, g3, env, m3, op, A.R10, true);
    var value := Ir.Eval(op, m.Slot(off), rhs.value);
    ExitsThen(g1, g2, g3, m1, m2, A.Fall(m3));
    ComputesThen(ctx, stale1, g1, g3, h, env, m1, m3, A.RAX, value, flow);
    ComputesCopy(ctx, stale1, g1, h, env, m1, value, flow);
    ComputesFrom(ctx, stale1, g, g1, h, env, m, A.R11, value, flow);
  }

  lemma SameCode(g: Gen, g1: Gen, m: A.Machine, m1: A.Machine)
    requires g1.out == g.out && Exits(g, g1, m, A.Fall(m1))
    ensures m1 == m
  {
    assert g1.out[|g.out|..] == [];
  }

  lemma LoadedSlot(g: Gen, m: A.Machine, m': A.Machine, off: int)
    requires g.pending == 0 && A.Step(A.LoadSlot(A.RAX, off), AfterSpill(g, m)) == A.Fall(m')
    ensures m'.Get(A.RAX) == m.Slot(off) && m'.Get(A.R10) == m.Get(A.R10)
  {}

  /** The code of that shape: nothing, the literal to r10, the slot to rax, the operator. */
  lemma LostCode(g: Gen, ctx: Ctx, op: Ir.BinOp, lhs: Ir.Operand, rhs: Ir.Operand, h: Gen) returns (g1: Gen, g2: Gen, g3: Gen)
    requires GenInv(ctx, g) && LosesSpill(g, ctx, op, lhs, rhs) && ComputeToR11(g, ctx, op, lhs, rhs) == Some(h)
    ensures Load(g, ctx, lhs) == Some(g1) && g1.out == g.out && g1.pending == 0
    ensures LoadInto(g1, ctx, rhs, A.R10) == Some(g2) && g2.pending == 0 && g3 == Emit(g2, [A.LoadSlot(A.RAX, ctx.TempOff(lhs.name))])
    ensures h == Emit(g3, WithCopy(RegisterCode(op, A.R10), true))
  {
    hide RegisterCode;
    if Ir.IsCommutative(op) { CommutativeLiteral(op, rhs.value); }
    hide ImmediateCode;
    g1 := Load(g, ctx, lhs).value;
    g2 := LoadInto(g1, ctx, rhs, A.R10).value;
    g3 := Load(g2, ctx, lhs).value;
  }

  /** Loading a literal writes no slot. */
  lemma SlotKept(ctx: Ctx, g: Gen, m: A.Machine, o: Ir.Operand, h: Gen, m': A.Machine, off: int)
    requires o.Int? && g.pending == 0 && LoadInto(g, ctx, o, A.R10) == Some(h) && Exits(g, h, m, A.Fall(m'))
    ensures m'.Slot(off) == m.Slot(off)
  {
    var a, b := A.Mov(A.RAX, A.I(o.value)), A.Mov(A.R10, A.R(A.RAX));
    assert h.out == g.out + [a, b];
    assert h.out[|g.out|..] == [a, b];
    A.RunTwo(a, b, m);
  }

  lemma ComputesFrom(ctx: Ctx, stale: set<string>, g: Gen, g1: Gen, h: Gen, env: Ir.Env, m: A.Machine,
                     r: A.Reg, value: Option<Word>, flow: A.Flow)
    requires Computes(ctx, stale, g1, h, env, m, r, value, flow) && g1.out == g.out
    ensures Computes(ctx, stale, g, h, env, m, r, value, flow)
  {}

  lemma TryImmediateCorrect(ctx: Ctx, stale: set<string>, g: Gen, env: Ir.Env, m: A.Machine,
                            op: Ir.BinOp, value: Ir.Operand, literal: Ir.Operand, r: (Gen, bool)) returns (flow: A.Flow)
    requires GoodCtx(ctx) && GenInv(ctx, g) && Rel(ctx, stale, g, env, m)
    requires Fresh(stale, value) && TryImmediate(g, ctx, op, value, literal) == Some(r)
    requires !LosesSpill(g, ctx, op, value, literal)
    ensures flow.Fall? && Exits(g, r.0, m, flow) && GenInv(ctx, r.0)
    ensures r.1 ==> Computes(ctx, stale + Dropped(g, ctx, value), g, r.0, env, m, A.R11,
                             Ir.Eval(op, env.Value(value), env.Value(literal)), flow)
    ensures !r.1 ==> Rel(ctx, stale, r.0, env, flow.m) && Fewer(r.0, g)
  {
    if !SmallInt(literal) {
      ExitsSame(g, m);
      flow := A.Fall(m);
    } else {
      var h := Load(g, ctx, value).value;
      var m1 := LoadUses(ctx, stale, g, env, m, value, h);
      if ImmediateCode(op, literal.value).Some? {
        flow := EmitImmediate(ctx, stale + Dropped(g, ctx, value), h, env, m1, op, literal.value, true);
        ComputesThen(ctx, stale + Dropped(g, ctx, value), g, h, r.0, env, m, m1, A.RAX,
                     Ir.Eval(op, env.Value(value), literal.value), flow);
      } else {
        flow := A.Fall(m1);
      }
    }
  }

  /** r11 receives the value of the instruction, or the division faults, unless a promised
      store was lost that the result depends on. */
  lemma ComputeToR11Correct(ctx: Ctx, stale: set<string>, g: Gen, env: Ir.Env, m: A.Machine,
                            op: Ir.BinOp, lhs: Ir.Operand, rhs: Ir.Operand, h: Gen) returns (flow: A.Flow)
    requires GoodCtx(ctx) && GenInv(ctx, g) && Rel(ctx, stale, g, env, m)
    requires Fresh(stale, lhs) && Fresh(stale, rhs) && (lhs == rhs ==> !Drops(g, ctx, lhs))
    requires ComputeToR11(g, ctx, op, lhs, rhs) == Some(h)
    requires !LosesValue(g, ctx, op, lhs, rhs)
    ensures Computes(ctx, stale + Dropped(g, ctx, lhs) + Dropped(g, ctx, rhs), g, h, env, m, A.R11,
                     Ir.Eval(op, env.Value(lhs), env.Value(rhs)), flow)
  {
    var all := stale + Dropped(g, ctx, lhs) + Dropped(g, ctx, rhs);
    var value := Ir.Eval(op, env.Value(lhs), env.Value(rhs));
    if LosesSpill(g, ctx, op, lhs, rhs) {
      IgnoresLeftMeaning(op, rhs.value, m.Slot(ctx.TempOff(lhs.name)), env.Value(lhs));
      hide Ir.Eval, ComputeToR11, Rel, GoodCtx, GenInv, Computes, ImmediateCode;
      flow := LostLoad(ctx, stale, g, env, m, op, lhs, rhs, h);
      ComputesWeaken(ctx, stale + Dropped(g, ctx, lhs), all, g, h, env, m, A.R11, value, flow);
    } else {
      flow := ComputeKept(ctx, stale, g, env, m, op, lhs, rhs, h);
    }
  }

  lemma ComputeKept(ctx: Ctx, stale: set<string>, g: Gen, env: Ir.Env, m: A.Machine,
                    op: Ir.BinOp, lhs: Ir.Operand, rhs: Ir.Operand, h: Gen) returns (flow: A.Flow)
    requires GoodCtx(ctx) && GenInv(ctx, g) && Rel(ctx, stale, g, env, m)
    requires Fresh(stale, lhs) && Fresh(stale, rhs) && (lhs == rhs ==> !Drops(g, ctx, lhs))
    requires ComputeToR11(g, ctx, op, lhs, rhs) == Some(h)
    requires !LosesSpill(g, ctx, op, lhs, rhs)
    ensures Computes(ctx, stale + Dropped(g, ctx, lhs) + Dropped(g, ctx, rhs), g, h, env, m, A.R11,
                     Ir.Eval(op, env.Value(lhs), env.Value(rhs)), flow)
  {
    var all := stale + Dropped(g, ctx, lhs) + Dropped(g, ctx, rhs);
    var value := Ir.Eval(op, env.Value(lhs), env.Value(rhs));
    hide Ir.Eval, Ir.Env.Value, Emit, RegisterCode, ImmediateCode, Rel, GoodCtx, GenInv, SymRel, Load, Computes, Exits;
    var first := TryImmediate(g, ctx, op, lhs, rhs).value;
    flow := TryImmediateCorrect(ctx, stale, g, env, m, op, lhs, rhs, first);
    if first.1 {
      ComputesWeaken(ctx, stale + Dropped(g, ctx, lhs), all, g, h, env, m, A.R11, value, flow);
      return;
    }
    var g1, m1 := first.0, flow.m;
    DroppedFewer(ctx, g1, g, lhs);
    DroppedFewer(ctx, g1, g, rhs);
    if Ir.IsCommutative(op) && SmallInt(lhs) {
      CommutativeLiteral(op, lhs.value);
      flow := TryImmediateCorrect(ctx, stale, g1, env, m1, op, rhs, lhs, (h, true));
      EvalCommutes(op, env.Value(lhs), env.Value(rhs));
      ComputesThen(ctx, stale + Dropped(g1, ctx, rhs), g, g1, h, env, m, m1, A.R11, value, flow);
      ComputesWeaken(ctx, stale + Dropped(g1, ctx, rhs), all, g, h, env, m, A.R11, value, flow);
    } else {
      flow := RegisterForm(ctx, stale, g1, env, m1, op, lhs, rhs, true, h);
      var few := stale + Dropped(g1, ctx, lhs) + Dropped(g1, ctx, rhs);
      ComputesThen(ctx, few, g, g1, h, env, m, m1, A.RAX, value, flow);
      ComputesWeaken(ctx, few, all, g, h, env, m, A.RAX, value, flow);
      ComputesCopy(ctx, all, g, h, env, m, value, flow);
    }
  }

  lemma ComputesWeaken(ctx: Ctx, stale: set<string>, stale': set<string>, g: Gen, h: Gen, env: Ir.Env, m: A.Machine,
                       r: A.Reg, value: Option<Word>, flow: A.Flow)
    requires Computes(ctx, stale, g, h, env, m, r, value, flow) && stale <= stale'
    ensures Computes(ctx, stale', g, h, env, m, r, value, flow)
  {
    if value.Some? { RelWeaken(ctx, stale, stale', h, env, flow.m); }
  }

  lemma ComputesCopy(ctx: Ctx, stale: set<string>, g: Gen, h: Gen, env: Ir.Env, m: A.Machine,
                     value: Option<Word>, flow: A.Flow)
    requires Computes(ctx, stale, g, h, env, m, A.RAX, value, flow)
    requires flow.Fall? ==> flow.m.Get(A.R11) == flow.m.Get(A.RAX)
    ensures Computes(ctx, stale, g, h, env, m, A.R11, value, flow)
  {}

  /** Both operands loaded, then the register form of the operator. */
  lemma RegisterForm(ctx: Ctx, stale: set<string>, g: Gen, env: Ir.Env, m: A.Machine,
                     op: Ir.BinOp, lhs: Ir.Operand, rhs: Ir.Operand, copy: bool, h: Gen) returns (flow: A.Flow)
    requires GoodCtx(ctx) && GenInv(ctx, g) && Rel(ctx, stale, g, env, m)
    requires Fresh(stale, lhs) && Fresh(stale, rhs) && (lhs == rhs ==> !Drops(g, ctx, lhs))
    requires LoadInto(g, ctx, rhs, A.R10).Some?
    requires var k := Load(LoadInto(g, ctx, rhs, A.R10).value, ctx, lhs);
             k.Some? && h == Emit(k.value, WithCopy(RegisterCode(op, A.R10), copy))
    ensures Computes(ctx, stale + Dropped(g, ctx, lhs) + Dropped(g, ctx, rhs), g, h, env, m, A.RAX,
                     Ir.Eval(op, env.Value(lhs), env.Value(rhs)), flow)
    ensures flow.Fall? && copy ==> flow.m.Get(A.R11) == flow.m.Get(A.RAX)
  {
    hide Ir.Eval, Ir.Env.Value, Emit, RegisterCode, Load, LoadInto, Rel, GoodCtx, GenInv, SymRel, Exits, WithCopy;
    var m2;
    flow, m2 := LoadBoth(ctx, stale, g, env, m, lhs, rhs);
    var all := stale + Dropped(g, ctx, lhs) + Dropped(g, ctx, rhs);
    var k := Load(LoadInto(g, ctx, rhs, A.R10).value, ctx, lhs).value;
    flow := EmitRegister(ctx, all, k, env, m2, op, A.R10, copy);
    ComputesThen(ctx, all, g, k, h, env, m, m2, A.RAX, Ir.Eval(op, env.Value(lhs), env.Value(rhs)), flow);
  }

  /** Right operand to r10, then left operand to rax. */
  lemma LoadBoth(ctx: Ctx, stale: set<string>, g: Gen, env: Ir.Env, m: A.Machine, lhs: Ir.Operand, rhs: Ir.Operand)
    returns (flow: A.Flow, m': A.Machine)
    requires GoodCtx(ctx) && GenInv(ctx, g) && Rel(ctx, stale, g, env, m)
    requires Fresh(stale, lhs) && Fresh(stale, rhs) && (lhs == rhs ==> !Drops(g, ctx, lhs))
    requires LoadInto(g, ctx, rhs, A.R10).Some? && Load(LoadInto(g, ctx, rhs, A.R10).value, ctx, lhs).Some?
    ensures var k := Load(LoadInto(g, ctx, rhs, A.R10).value, ctx, lhs).value;
            flow == A.Fall(m') && Exits(g, k, m, flow) && GenInv(ctx, k) && Settled(k) &&
            Rel(ctx, stale + Dropped(g, ctx, lhs) + Dropped(g, ctx, rhs), k, env, m')
    ensures m'.Get(A.RAX) == env.Value(lhs) && m'.Get(A.R10) == env.Value(rhs)
  {
    var h := LoadInto(g, ctx, rhs, A.R10).value;
    var k := Load(h, ctx, lhs).value;
    var m1 := LoadIntoUses(ctx, stale, g, env, m, rhs, h);
    var stale1 := stale + Dropped(g, ctx, rhs);
    assert Fresh(stale1, lhs);
    m' := LoadUses(ctx, stale1, h, env, m1, lhs, k);
    assert !Drops(h, ctx, lhs);
    RelWeaken(ctx, stale1, stale + Dropped(g, ctx, lhs) + Dropped(g, ctx, rhs), k, env, m');
    flow := A.Fall(m');
    ExitsThen(g, h, k, m, m1, flow);
  }

  // ----- consuming r11 -----

  lemma CopyBack(ctx: Ctx, stale: set<string>, g: Gen, env: Ir.Env, m: A.Machine) returns (m': A.Machine)
    requires GoodCtx(ctx) && GenInv(ctx, g) && Rel(ctx, stale, g, env, m)
    ensures var h := Emit(g, [A.Mov(A.RAX, A.R(A.R11))]);
            Exits(g, h, m, A.Fall(m')) && GenInv(ctx, h) && Settled(h) && Rel(ctx, stale, h, env, m')
    ensures m'.Get(A.RAX) == m.Get(A.R11) && forall r :: r != A.RAX ==> m'.Get(r) == m.Get(r)
  {
    m' := LoadByOne(ctx, stale, g, env, m, A.Mov(A.RAX, A.R(A.R11)));
  }

  lemma EmitTwice(g: Gen, a: Code, b: Code)
    requires a != [] && b != []
    ensures Emit(g, a + b) == Emit(Emit(g, a), b)
  {
    assert Flush(g).out + (a + b) == (Flush(g).out + a) + b;
  }

  /** rax receives the consumer's value when r11 holds the producer's. */
  lemma ConsumeCorrect(ctx: Ctx, stale: set<string>, g: Gen, env: Ir.Env, m: A.Machine,
                       b: Ir.Instr, t: string, h: Gen) returns (flow: A.Flow)
    requires GoodCtx(ctx) && GenInv(ctx, g) && Settled(g) && Rel(ctx, stale, g, env, m)
    requires b.Binary? && ConsumeR11(g, ctx, b, t) == Some(h)
    requires m.Get(A.R11) == env.Tmp(t)
    requires (b.lhs == Ir.Temp(t)) != (b.rhs == Ir.Temp(t))
    requires Fresh(stale, if b.lhs == Ir.Temp(t) then b.rhs else b.lhs)
    ensures Computes(ctx, stale, g, h, env, m, A.RAX, Ir.Eval(b.op, env.Value(b.lhs), env.Value(b.rhs)), flow)
  {
    if b.lhs == Ir.Temp(t) {
      flow := ConsumeLeft(ctx, stale, g, env, m, b, t, h);
    } else {
      flow := ConsumeRight(ctx, stale, g, env, m, b, t, h);
    }
  }

  lemma ConsumeLeft(ctx: Ctx, stale: set<string>, g: Gen, env: Ir.Env, m: A.Machine,
                    b: Ir.Instr, t: string, h: Gen) returns (flow: A.Flow)
    requires GoodCtx(ctx) && GenInv(ctx, g) && Settled(g) && Rel(ctx, stale, g, env, m)
    requires b.Binary? && ConsumeR11(g, ctx, b, t) == Some(h)
    requires m.Get(A.R11) == env.Tmp(t) && b.lhs == Ir.Temp(t) && Fresh(stale, b.rhs)
    ensures Computes(ctx, stale, g, h, env, m, A.RAX, Ir.Eval(b.op, env.Value(b.lhs), env.Value(b.rhs)), flow)
  {
    var back := [A.Mov(A.RAX, A.R(A.R11))];
    var value := Ir.Eval(b.op, env.Value(b.lhs), env.Value(b.rhs));
    if SmallInt(b.rhs) && ImmediateCode(b.op, b.rhs.value).Some? {
      var code := ImmediateCode(b.op, b.rhs.value).value;
      assert code != [];
      hide Ir.Eval, Emit, RegisterCode, ImmediateCode;
      EmitTwice(g, back, code);
      var m1 := CopyBack(ctx, stale, g, env, m);
      flow := EmitImmediate(ctx, stale, Emit(g, back), env, m1, b.op, b.rhs.value, false);
      ComputesThen(ctx, stale, g, Emit(g, back), h, env, m, m1, A.RAX, value, flow);
    } else {
      RegisterCodeSome(b.op, A.R10);
      hide Ir.Eval, Emit, RegisterCode, ImmediateCode;
      var g1, m1 := g, m;
      ExitsSame(g, m);
      if SmallInt(b.rhs) {
        g1 := Emit(g, back);
        m1 := CopyBack(ctx, stale, g, env, m);
      }
      var g2 := LoadInto(g1, ctx, b.rhs, A.R10).value;
      var m2 := LoadIntoUses(ctx, stale, g1, env, m1, b.rhs, g2);
      ExitsThen(g, g1, g2, m, m1, A.Fall(m2));
      EmitTwice(g2, back, RegisterCode(b.op, A.R10));
      var m3 := CopyBack(ctx, stale, g2, env, m2);
      ExitsThen(g, g2, Emit(g2, back), m, m2, A.Fall(m3));
      flow := EmitRegister(ctx, stale, Emit(g2, back), env, m3, b.op, A.R10, false);
      ComputesThen(ctx, stale, g, Emit(g2, back), h, env, m, m3, A.RAX, value, flow);
    }
  }

  lemma ConsumeRight(ctx: Ctx, stale: set<string>, g: Gen, env: Ir.Env, m: A.Machine,
                     b: Ir.Instr, t: string, h: Gen) returns (flow: A.Flow)
    requires GoodCtx(ctx) && GenInv(ctx, g) && Settled(g) && Rel(ctx, stale, g, env, m)
    requires b.Binary? && ConsumeR11(g, ctx, b, t) == Some(h)
    requires m.Get(A.R11) == env.Tmp(t) && b.lhs != Ir.Temp(t) && b.rhs == Ir.Temp(t) && Fresh(stale, b.lhs)
    ensures Computes(ctx, stale, g, h, env, m, A.RAX, Ir.Eval(b.op, env.Value(b.lhs), env.Value(b.rhs)), flow)
  {
    var back := [A.Mov(A.RAX, A.R(A.R11))];
    var value := Ir.Eval(b.op, env.Value(b.lhs), env.Value(b.rhs));
    if SmallInt(b.lhs) && Ir.IsCommutative(b.op) {
      CommutativeLiteral(b.op, b.lhs.value);
      var code := ImmediateCode(b.op, b.lhs.value).value;
      assert code != [];
      hide Ir.Eval, Emit, RegisterCode, ImmediateCode;
      EmitTwice(g, back, code);
      var m1 := CopyBack(ctx, stale, g, env, m);
      flow := EmitImmediate(ctx, stale, Emit(g, back), env, m1, b.op, b.lhs.value, false);
      EvalCommutes(b.op, env.Value(b.lhs), env.Value(b.rhs));
      ComputesThen(ctx, stale, g, Emit(g, back), h, env, m, m1, A.RAX, value, flow);
    } else {
      hide Ir.Eval, Emit, RegisterCode, ImmediateCode;
      var g2 := Load(g, ctx, b.lhs).value;
      var m2 := LoadUses(ctx, stale, g, env, m, b.lhs, g2);
      assert !Drops(g, ctx, b.lhs);
      flow := EmitRegister(ctx, stale, g2, env, m2, b.op, A.R11, false);
      ComputesThen(ctx, stale, g, g2, h, env, m, m2, A.RAX, value, flow);
    }
  }

  // ----- standalone instructions -----

  /** Where h's promise comes from: g's, or the destination's. */
  predicate PendingFrom(ctx: Ctx, g: Gen, h: Gen, d: Ir.Operand) {
    h.pending == 0 || h.pending == g.pending || (d.Temp? && h.pending == ctx.TempOff(d.name))
  }

  /** From m, the code between g and h brings the machine to the environment after the
      instruction, or faults when the instruction does. */
  ghost predicate Completes(ctx: Ctx, stale: set<string>, g: Gen, h: Gen, env: Ir.Env, m: A.Machine,
                            d: Ir.Operand, value: Option<Word>, flow: A.Flow) {
    && Exits(g, h, m, flow) && PendingFrom(ctx, g, h, d)
    && (match value
        case Some(v) =>
          !d.Int? && flow.Fall? && GenInv(ctx, h) && Rel(ctx, stale - Defined(d), h, env.Put(d, v), flow.m) &&
          (d.Nothing? ==> flow.m.Get(A.RAX) == v)
        case None => flow.Fault? && SymRel(ctx, env, flow.m))
  }

  lemma FinishStore(ctx: Ctx, stale: set<string>, g: Gen, k: Gen, env: Ir.Env, m: A.Machine,
                    d: Ir.Operand, value: Option<Word>, flow: A.Flow, h: Gen) returns (flow': A.Flow)
    requires GoodCtx(ctx) && Exits(g, k, m, flow) && Store(k, ctx, d) == Some(h) && (k.pending == 0 || k.pending == g.pending)
    requires match value
             case Some(v) => flow.Fall? && flow.m.Get(A.RAX) == v && GenInv(ctx, k) && Rel(ctx, stale, k, env, flow.m)
             case None => flow.Fault? && SymRel(ctx, env, flow.m)
    ensures Completes(ctx, stale, g, h, env, m, d, value, flow')
  {
    if flow.Fall? {
      var m' := StoreCorrect(ctx, stale, k, env, flow.m, d, h);
      flow' := A.Fall(m');
      ExitsThen(g, k, h, m, flow.m, flow');
    } else {
      StoreGrows(k, ctx, d);
      ExitsFault(g, k, h, m, flow.m);
      flow' := flow;
    }
  }

  /** Writing a value into the register of a promoted symbol. */
  lemma WriteReg(ctx: Ctx, stale: set<string>, g: Gen, env: Ir.Env, m: A.Machine, d: Ir.Operand, m': A.Machine)
    requires GoodCtx(ctx) && Settled(g) && Rel(ctx, stale, g, env, m) && ctx.RegSymbol(d)
    requires m'.slots == m.slots && m'.globals == m.globals && m'.passed == m.passed
    requires forall r :: r != ctx.RegOf(d) && Promotable(r) ==> m'.Get(r) == m.Get(r)
    ensures Rel(ctx, stale, g, env.Put(d, m'.Get(ctx.RegOf(d))), m')
  {
    var env' := env.Put(d, m'.Get(ctx.RegOf(d)));
    forall x | x in ctx.symbols ensures ReadLoc(m', x, ctx.symbols[x]) == env'.Sym(x) {
      assert ReadLoc(m, x, ctx.symbols[x]) == env.Sym(x);
      assert SymbolsApart(ctx, x, d.name);
    }
  }

  lemma EmitRegWrite(ctx: Ctx, stale: set<string>, g: Gen, env: Ir.Env, m: A.Machine, d: Ir.Operand,
                     code: Code, m': A.Machine)
    requires GoodCtx(ctx) && GenInv(ctx, g) && Rel(ctx, stale, g, env, m) && ctx.RegSymbol(d)
    requires code != [] && A.Run(code, AfterSpill(g, m)) == A.Fall(m')
    requires m'.slots == AfterSpill(g, m).slots && m'.globals == m.globals && m'.passed == m.passed
    requires forall r :: r != ctx.RegOf(d) && Promotable(r) ==> m'.Get(r) == m.Get(r)
    ensures var h := Emit(g, code);
            Exits(g, h, m, A.Fall(m')) && GenInv(ctx, h) && Settled(h) &&
            Rel(ctx, stale, h, env.Put(d, m'.Get(ctx.RegOf(d))), m')
  {
    var h := Emit(g, code);
    EmitRuns(g, code, m);
    SpillKeeps(ctx, stale, g, env, m, h);
    WriteReg(ctx, stale, h, env, AfterSpill(g, m), d, m');
  }

  lemma RegValue(ctx: Ctx, stale: set<string>, g: Gen, env: Ir.Env, m: A.Machine, o: Ir.Operand)
    requires Rel(ctx, stale, g, env, m) && ctx.RegSymbol(o)
    ensures m.Get(ctx.RegOf(o)) == env.Value(o)
  {
    assert ReadLoc(m, o.name, ctx.symbols[o.name]) == env.Sym(o.name);
  }

  lemma EvalFast(op: Ir.BinOp, a: Word, b: Word)
    requires FastAlu(op)
    ensures AluOf(op).Some? && Ir.Eval(op, a, b) == Some(A.AluResult(AluOf(op).value, a, b))
  {
    EvalAlu(op, a, b);
  }

  /** The register form on a machine whose registers hold the operands. */
  lemma FastRuns(ctx: Ctx, env: Ir.Env, m: A.Machine, b: Ir.Instr) returns (m': A.Machine)
    requires GoodCtx(ctx) && b.Binary? && RegisterFastPath(ctx, b).Some?
    requires m.Get(ctx.RegOf(b.lhs)) == env.Value(b.lhs)
    requires ctx.RegSymbol(b.rhs) ==> m.Get(ctx.RegOf(b.rhs)) == env.Value(b.rhs)
    ensures A.Run(RegisterFastPath(ctx, b).value, m) == A.Fall(m')
    ensures m'.Get(ctx.RegOf(b.dest)) == A.AluResult(AluOf(b.op).value, env.Value(b.lhs), env.Value(b.rhs))
    ensures m'.slots == m.slots && m'.globals == m.globals && m'.passed == m.passed
    ensures forall r :: r != ctx.RegOf(b.dest) ==> m'.Get(r) == m.Get(r)
  {
    hide A.Run, A.AluResult;
    var alu, d := AluOf(b.op).value, ctx.RegOf(b.dest);
    if SmallInt(b.rhs) && b.lhs == b.dest {
      m' := OneAlu(alu, d, A.I(b.rhs.value), m);
    } else if b.dest == b.lhs {
      m' := OneAlu(alu, d, A.R(ctx.RegOf(b.rhs)), m);
    } else if b.dest == b.rhs {
      m' := OneAlu(alu, d, A.R(ctx.RegOf(b.lhs)), m);
      FastCommutes(b.op, env.Value(b.lhs), env.Value(b.rhs));
    } else {
      assert SymbolsApart(ctx, b.dest.name, b.rhs.name);
      m' := MoveAlu(alu, d, ctx.RegOf(b.lhs), ctx.RegOf(b.rhs), m);
    }
  }

  /** The fast path applies to arithmetic on promoted symbols and emits something. */
  lemma FastPathParts(ctx: Ctx, b: Ir.Instr)
    requires b.Binary? && RegisterFastPath(ctx, b).Some?
    ensures FastAlu(b.op) && AluOf(b.op).Some? && ctx.RegSymbol(b.dest) && ctx.RegSymbol(b.lhs)
    ensures RegisterFastPath(ctx, b).value != []
  {
  }

  lemma FastPathCorrect(ctx: Ctx, stale: set<string>, g: Gen, env: Ir.Env, m: A.Machine, b: Ir.Instr) returns (m': A.Machine)
    requires GoodCtx(ctx) && GenInv(ctx, g) && Rel(ctx, stale, g, env, m)
    requires b.Binary? && RegisterFastPath(ctx, b).Some?
    ensures var h := Emit(g, RegisterFastPath(ctx, b).value);
            Completes(ctx, stale, g, h, env, m, b.dest, Ir.Eval(b.op, env.Value(b.lhs), env.Value(b.rhs)), A.Fall(m'))
  {
    var m1 := AfterSpill(g, m);
    FastPathParts(ctx, b);
    RegValue(ctx, stale, g, env, m, b.lhs);
    if ctx.RegSymbol(b.rhs) { RegValue(ctx, stale, g, env, m, b.rhs); }
    EvalFast(b.op, env.Value(b.lhs), env.Value(b.rhs));
    SpillRegisters(g, m);
    hide *;
    m' := FastRuns(ctx, env, m1, b);
    EmitRegWrite(ctx, stale, g, env, m, b.dest, RegisterFastPath(ctx, b).value, m');
    WriteCompletes(ctx, stale, g, Emit(g, RegisterFastPath(ctx, b).value), env, m, b.dest, m');
  }

  /** The promised store changes one slot only. */
  lemma SpillRegisters(g: Gen, m: A.Machine)
    ensures var m1 := AfterSpill(g, m); m1.globals == m.globals && m1.passed == m.passed && forall r :: m1.Get(r) == m.Get(r)
  {
  }

  lemma WriteCompletes(ctx: Ctx, stale: set<string>, g: Gen, h: Gen, env: Ir.Env, m: A.Machine, d: Ir.Operand, m': A.Machine)
    requires ctx.RegSymbol(d) && Exits(g, h, m, A.Fall(m')) && GenInv(ctx, h) && Settled(h)
    requires Rel(ctx, stale, h, env.Put(d, m'.Get(ctx.RegOf(d))), m')
    ensures Completes(ctx, stale, g, h, env, m, d, Some(m'.Get(ctx.RegOf(d))), A.Fall(m'))
  {
    hide Rel, GenInv, Exits;
    assert stale - Defined(d) == stale;
  }

  lemma FastCommutes(op: Ir.BinOp, a: Word, b: Word)
    requires FastAlu(op) && !op.Sub?
    ensures A.AluResult(AluOf(op).value, a, b) == A.AluResult(AluOf(op).value, b, a)
  {
    EvalCommutes(op, a, b);
    EvalFast(op, a, b);
    EvalFast(op, b, a);
  }

  lemma OneAlu(alu: A.AluOp, d: A.Reg, s: A.Src, m: A.Machine) returns (m': A.Machine)
    requires A.Encodable(s)
    ensures A.Run([A.Alu(alu, d, s)], m) == A.Fall(m') && m'.Get(d) == A.AluResult(alu, m.Get(d), m.Src(s))
    ensures m'.slots == m.slots && m'.globals == m.globals && m'.passed == m.passed && forall r :: r != d ==> m'.Get(r) == m.Get(r)
  {
    hide A.AluResult;
    A.RunOne(A.Alu(alu, d, s), m);
    m' := A.Step(A.Alu(alu, d, s), m).m;
  }

  lemma MoveAlu(alu: A.AluOp, d: A.Reg, a: A.Reg, b: A.Reg, m: A.Machine) returns (m': A.Machine)
    requires d != b
    ensures A.Run([A.Mov(d, A.R(a)), A.Alu(alu, d, A.R(b))], m) == A.Fall(m')
    ensures m'.Get(d) == A.AluResult(alu, m.Get(a), m.Get(b))
    ensures m'.slots == m.slots && m'.globals == m.globals && m'.passed == m.passed && forall r :: r != d ==> m'.Get(r) == m.Get(r)
  {
    hide A.AluResult;
    A.RunTwo(A.Mov(d, A.R(a)), A.Alu(alu, d, A.R(b)), m);
    m' := A.Step(A.Alu(alu, d, A.R(b)), m.Set(d, m.Get(a))).m;
  }

  /** Dividing by a literal power of two with shifts agrees with the IR, which never faults there. */
  lemma ShiftPathCorrect(ctx: Ctx, stale: set<string>, g: Gen, env: Ir.Env, m: A.Machine, op: Ir.BinOp, v: Word)
    returns (m': A.Machine)
    requires GoodCtx(ctx) && GenInv(ctx, g) && Rel(ctx, stale, g, env, m)
    requires (op.Div? || op.Mod?) && PowerOfTwo(v).Some?
    ensures var k := PowerOfTwo(v).value;
            var h := Emit(g, if op.Div? then ShiftDivCode(k, v - 1) else ShiftRemCode(k, v - 1));
            Exits(g, h, m, A.Fall(m')) && GenInv(ctx, h) && Rel(ctx, stale, h, env, m') &&
            (h.pending == 0 || h.pending == g.pending)
    ensures Ir.Eval(op, m.Get(A.RAX), v) == Some(m'.Get(A.RAX))
  {
    var k := PowerOfTwo(v).value;
    var code := if op.Div? then ShiftDivCode(k, v - 1) else ShiftRemCode(k, v - 1);
    QuotientFits(m.Get(A.RAX), v);
    hide PowerOfTwo, ShiftDivCode, ShiftRemCode, A.Run;
    if code == [] {
      EmptyShiftDiv(op, k, v);
      DivByOne(m.Get(A.RAX));
      m' := m;
      ExitsSame(g, m);
    } else {
      var m1 := AfterSpill(g, m);
      if op.Div? {
        m' := ShiftDivRuns(k, v, m1);
      } else {
        m' := ShiftRemRuns(k, v, m1);
      }
      EmitKeeps(ctx, stale, g, env, m, code, A.Fall(m'));
    }
  }

  lemma EmptyShiftDiv(op: Ir.BinOp, k: nat, v: Word)
    requires k < 63 && v == Pow2(k) && (op.Div? || op.Mod?)
    requires (if op.Div? then ShiftDivCode(k, v - 1) else ShiftRemCode(k, v - 1)) == []
    ensures op.Div? && v == 1
  {}

  lemma QuotientFits(a: Word, v: Word)
    requires v > 0
    ensures !Ir.DivFaults(a, v)
  {
    if a >= 0 { FloorShrinks(a, v); } else {
      var n: int := -(a as int);
      var q, r := n / v, n % v;
      assert n == v * q + r;
      if q > 0 { MulMono(q, 1, v); }
    }
  }

  lemma FallbackShift(ctx: Ctx, stale: set<string>, g: Gen, env: Ir.Env, m: A.Machine,
                      op: Ir.BinOp, x: Ir.Operand, v: Word, d: Ir.Operand, k: Gen, h: Gen) returns (flow: A.Flow)
    requires GoodCtx(ctx) && GenInv(ctx, g) && Rel(ctx, stale, g, env, m) && Fresh(stale, x)
    requires (op.Div? || op.Mod?) && PowerOfTwo(v).Some? && Load(g, ctx, x) == Some(k)
    requires var e := PowerOfTwo(v).value;
             Store(Emit(k, if op.Div? then ShiftDivCode(e, v - 1) else ShiftRemCode(e, v - 1)), ctx, d) == Some(h)
    ensures Completes(ctx, stale + Dropped(g, ctx, x), g, h, env, m, d, Ir.Eval(op, env.Value(x), v), flow)
  {
    hide Ir.Eval, Emit, ShiftDivCode, ShiftRemCode, Load, Store, Rel, GoodCtx, GenInv, SymRel, Exits, Completes;
    var all := stale + Dropped(g, ctx, x);
    var e := PowerOfTwo(v).value;
    var m1 := LoadUses(ctx, stale, g, env, m, x, k);
    var m2 := ShiftPathCorrect(ctx, all, k, env, m1, op, v);
    var k2 := Emit(k, if op.Div? then ShiftDivCode(e, v - 1) else ShiftRemCode(e, v - 1));
    ExitsThen(g, k, k2, m, m1, A.Fall(m2));
    flow := FinishStore(ctx, all, g, k2, env, m, d, Ir.Eval(op, env.Value(x), v), A.Fall(m2), h);
  }

  lemma FallbackImmediate(ctx: Ctx, stale: set<string>, g: Gen, env: Ir.Env, m: A.Machine,
                          op: Ir.BinOp, x: Ir.Operand, v: Word, d: Ir.Operand, k: Gen, h: Gen) returns (flow: A.Flow)
    requires GoodCtx(ctx) && GenInv(ctx, g) && Rel(ctx, stale, g, env, m) && Fresh(stale, x)
    requires A.Fits32(v) && ImmediateCode(op, v).Some? && Load(g, ctx, x) == Some(k)
    requires Store(Emit(k, ImmediateCode(op, v).value), ctx, d) == Some(h)
    ensures Completes(ctx, stale + Dropped(g, ctx, x), g, h, env, m, d, Ir.Eval(op, env.Value(x), v), flow)
  {
    hide Ir.Eval, Emit, ImmediateCode, Load, Store, Rel, GoodCtx, GenInv, SymRel, Exits, Completes;
    var all := stale + Dropped(g, ctx, x);
    var m1 := LoadUses(ctx, stale, g, env, m, x, k);
    flow := EmitImmediate(ctx, all, k, env, m1, op, v, false);
    var k2 := Emit(k, ImmediateCode(op, v).value);
    ComputesThen(ctx, all, g, k, k2, env, m, m1, A.RAX, Ir.Eval(op, env.Value(x), v), flow);
    flow := FinishStore(ctx, all, g, k2, env, m, d, Ir.Eval(op, env.Value(x), v), flow, h);
  }

  lemma FallbackRegister(ctx: Ctx, stale: set<string>, g: Gen, env: Ir.Env, m: A.Machine,
                         op: Ir.BinOp, x: Ir.Operand, y: Ir.Operand, d: Ir.Operand, h: Gen) returns (flow: A.Flow)
    requires GoodCtx(ctx) && GenInv(ctx, g) && Rel(ctx, stale, g, env, m)
    requires Fresh(stale, x) && Fresh(stale, y) && (x == y ==> !Drops(g, ctx, x))
    requires LoadInto(g, ctx, y, A.R10).Some? && Load(LoadInto(g, ctx, y, A.R10).value, ctx, x).Some?
    requires Store(Emit(Load(LoadInto(g, ctx, y, A.R10).value, ctx, x).value, RegisterCode(op, A.R10)), ctx, d) == Some(h)
    ensures Completes(ctx, stale + Dropped(g, ctx, x) + Dropped(g, ctx, y), g, h, env, m, d,
                      Ir.Eval(op, env.Value(x), env.Value(y)), flow)
  {
    hide Ir.Eval, Emit, RegisterCode, Load, LoadInto, Store, Rel, GoodCtx, GenInv, SymRel, Exits, Completes;
    var all := stale + Dropped(g, ctx, x) + Dropped(g, ctx, y);
    var k2 := Emit(Load(LoadInto(g, ctx, y, A.R10).value, ctx, x).value, RegisterCode(op, A.R10));
    flow := RegisterForm(ctx, stale, g, env, m, op, x, y, false, k2);
    flow := FinishStore(ctx, all, g, k2, env, m, d, Ir.Eval(op, env.Value(x), env.Value(y)), flow, h);
  }

  lemma CompletesWeaken(ctx: Ctx, stale: set<string>, stale': set<string>, g: Gen, h: Gen, env: Ir.Env, m: A.Machine,
                        d: Ir.Operand, value: Option<Word>, flow: A.Flow)
    requires Completes(ctx, stale, g, h, env, m, d, value, flow) && stale <= stale'
    ensures Completes(ctx, stale', g, h, env, m, d, value, flow)
  {
    if value.Some? {
      RelWeaken(ctx, stale - Defined(d), stale' - Defined(d), h, env.Put(d, value.value), flow.m);
    }
  }

  /** A binary instruction outside every fusion. */
  lemma FallbackCorrect(ctx: Ctx, stale: set<string>, g: Gen, env: Ir.Env, m: A.Machine, b: Ir.Instr, h: Gen)
    returns (flow: A.Flow)
    requires GoodCtx(ctx) && GenInv(ctx, g) && Rel(ctx, stale, g, env, m)
    requires b.Binary? && BinaryFallback(g, ctx, b) == Some(h)
    requires Fresh(stale, b.lhs) && Fresh(stale, b.rhs) && (b.lhs == b.rhs ==> !Drops(g, ctx, b.lhs))
    ensures Completes(ctx, stale + Dropped(g, ctx, b.lhs) + Dropped(g, ctx, b.rhs), g, h, env, m, b.dest,
                      Ir.Eval(b.op, env.Value(b.lhs), env.Value(b.rhs)), flow)
  {
    hide Rel, GoodCtx, GenInv, SymRel, Completes, Exits, Emit, RegisterFastPath, PowerOfTwo, ImmediateCode, Load,
         LoadInto, Store, RegisterCode, BinaryFallback, Ir.Eval, A.Run, ShiftDivCode, ShiftRemCode, Ir.Env.Value;
    var all := stale + Dropped(g, ctx, b.lhs) + Dropped(g, ctx, b.rhs);
    var value := Ir.Eval(b.op, env.Value(b.lhs), env.Value(b.rhs));
    if RegisterFastPath(ctx, b).Some? {
      assert h == Emit(g, RegisterFastPath(ctx, b).value) by { FallbackCases(g, ctx, b); }
      RelWeaken(ctx, stale, all, g, env, m);
      var m' := FastPathCorrect(ctx, all, g, env, m, b);
      flow := A.Fall(m');
    } else if (b.op.Div? || b.op.Mod?) && b.rhs.Int? && PowerOfTwo(b.rhs.value).Some? {
      FallbackCases(g, ctx, b);
      ValueOfInt(env, b.rhs);
      flow := FallbackShift(ctx, stale, g, env, m, b.op, b.lhs, b.rhs.value, b.dest, Load(g, ctx, b.lhs).value, h);
      CompletesWeaken(ctx, stale + Dropped(g, ctx, b.lhs), all, g, h, env, m, b.dest, value, flow);
    } else if SmallInt(b.rhs) && ImmediateCode(b.op, b.rhs.value).Some? {
      FallbackCases(g, ctx, b);
      ValueOfInt(env, b.rhs);
      flow := FallbackImmediate(ctx, stale, g, env, m, b.op, b.lhs, b.rhs.value, b.dest, Load(g, ctx, b.lhs).value, h);
      CompletesWeaken(ctx, stale + Dropped(g, ctx, b.lhs), all, g, h, env, m, b.dest, value, flow);
    } else {
      FallbackCases(g, ctx, b);
      flow := FallbackRegister(ctx, stale, g, env, m, b.op, b.lhs, b.rhs, b.dest, h);
    }
  }

  lemma ValueOfInt(env: Ir.Env, o: Ir.Operand)
    requires SmallInt(o) || o.Int?
    ensures o.Int? && env.Value(o) == o.value && (SmallInt(o) ==> A.Fits32(o.value))
  {}

  lemma FallbackCases(g: Gen, ctx: Ctx, b: Ir.Instr)
    requires b.Binary? && BinaryFallback(g, ctx, b).Some?
    ensures var h := BinaryFallback(g, ctx, b);
      if RegisterFastPath(ctx, b).Some? then h == Some(Emit(g, RegisterFastPath(ctx, b).value))
      else if (b.op.Div? || b.op.Mod?) && b.rhs.Int? && PowerOfTwo(b.rhs.value).Some? then
        Load(g, ctx, b.lhs).Some? &&
        h == (var v, e := b.rhs.value, PowerOfTwo(b.rhs.value).value;
              Store(Emit(Load(g, ctx, b.lhs).value, if b.op.Div? then ShiftDivCode(e, v - 1) else ShiftRemCode(e, v - 1)),
                    ctx, b.dest))
      else if SmallInt(b.rhs) && ImmediateCode(b.op, b.rhs.value).Some? then
        b.rhs.Int? && Load(g, ctx, b.lhs).Some? &&
        h == Store(Emit(Load(g, ctx, b.lhs).value, ImmediateCode(b.op, b.rhs.value).value), ctx, b.dest)
      else
        LoadInto(g, ctx, b.rhs, A.R10).Some? && Load(LoadInto(g, ctx, b.rhs, A.R10).value, ctx, b.lhs).Some? &&
        h == Store(Emit(Load(LoadInto(g, ctx, b.rhs, A.R10).value, ctx, b.lhs).value, RegisterCode(b.op, A.R10)), ctx, b.dest)
  {
    hide RegisterFastPath, Emit, Load, LoadInto, Store, RegisterCode, ImmediateCode, PowerOfTwo, ShiftDivCode, ShiftRemCode;
  }

  lemma UnaryRuns(op: Ir.UnOp, m: A.Machine) returns (m': A.Machine)
    ensures A.Run(UnaryCode(op), m) == A.Fall(m')
    ensures m'.Get(A.RAX) == Ir.EvalUnary(op, m.Get(A.RAX)) && SameStore(m, m')
  {
    match op
    case Neg => A.RunOne(A.NegR(A.RAX), m); m' := A.Step(A.NegR(A.RAX), m).m;
    case Compl => A.RunOne(A.NotR(A.RAX), m); m' := A.Step(A.NotR(A.RAX), m).m;
    case Plus => m' := m;
    case LogNot =>
      A.RunCons(A.Test(A.RAX), [A.Setcc(A.E), A.MovzxAl], m);
      assert UnaryCode(op) == [A.Test(A.RAX)] + [A.Setcc(A.E), A.MovzxAl];
      var m1 := A.Step(A.Test(A.RAX), m).m;
      SetccMovzx(A.E, m1);
      m' := A.Run([A.Setcc(A.E), A.MovzxAl], m1).m;
  }

  lemma UnaryCorrect(ctx: Ctx, stale: set<string>, g: Gen, env: Ir.Env, m: A.Machine,
                     d: Ir.Operand, op: Ir.UnOp, x: Ir.Operand, h: Gen) returns (flow: A.Flow)
    requires GoodCtx(ctx) && GenInv(ctx, g) && Rel(ctx, stale, g, env, m) && Fresh(stale, x)
    requires Single(g, ctx, Ir.Unary(d, op, x)) == Some(h)
    ensures Completes(ctx, stale + Dropped(g, ctx, x), g, h, env, m, d, Some(Ir.EvalUnary(op, env.Value(x))), flow)
  {
    var all := stale + Dropped(g, ctx, x);
    var k := Load(g, ctx, x).value;
    var k2 := Emit(k, UnaryCode(op));
    hide Ir.EvalUnary, Load, Store;
    var m1 := LoadUses(ctx, stale, g, env, m, x, k);
    var m2;
    if op.Plus? {
      m2 := UnaryRuns(op, m1);
      ExitsSame(k, m1);
    } else {
      m2 := UnaryRuns(op, AfterSpill(k, m1));
      EmitKeeps(ctx, all, k, env, m1, UnaryCode(op), A.Fall(m2));
    }
    ExitsThen(g, k, k2, m, m1, A.Fall(m2));
    flow := FinishStore(ctx, all, g, k2, env, m, d, Some(Ir.EvalUnary(op, env.Value(x))), A.Fall(m2), h);
  }

  lemma AssignCorrect(ctx: Ctx, stale: set<string>, g: Gen, env: Ir.Env, m: A.Machine,
                      d: Ir.Operand, x: Ir.Operand, h: Gen) returns (flow: A.Flow)
    requires GoodCtx(ctx) && GenInv(ctx, g) && Rel(ctx, stale, g, env, m) && Fresh(stale, x)
    requires AssignCode(g, ctx, d, x) == Some(h)
    ensures Completes(ctx, stale + Dropped(g, ctx, x), g, h, env, m, d, Some(env.Value(x)), flow)
  {
    var all := stale + Dropped(g, ctx, x);
    if ctx.RegSymbol(d) && ctx.RegSymbol(x) {
      RegValue(ctx, stale, g, env, m, x);
      RelWeaken(ctx, stale, all, g, env, m);
      assert all - Defined(d) == all;
      if ctx.RegOf(d) == ctx.RegOf(x) {
        flow := A.Fall(m);
        ExitsSame(g, m);
        assert SymbolsApart(ctx, d.name, x.name);
        RelSymSame(ctx, all, g, env, m, d);
      } else {
        var m1 := AfterSpill(g, m);
        var mov := A.Mov(ctx.RegOf(d), A.R(ctx.RegOf(x)));
        var m2 := m1.Set(ctx.RegOf(d), m1.Get(ctx.RegOf(x)));
        A.RunOne(mov, m1);
        EmitRegWrite(ctx, all, g, env, m, d, [mov], m2);
        flow := A.Fall(m2);
      }
    } else {
      hide Load, Store;
      var k := Load(g, ctx, x).value;
      var m1 := LoadUses(ctx, stale, g, env, m, x, k);
      flow := FinishStore(ctx, all, g, k, env, m, d, Some(env.Value(x)), A.Fall(m1), h);
    }
  }

  lemma RelSymSame(ctx: Ctx, stale: set<string>, g: Gen, env: Ir.Env, m: A.Machine, d: Ir.Operand)
    requires Rel(ctx, stale, g, env, m) && d.Symbol?
    ensures Rel(ctx, stale, g, env.Put(d, env.Value(d)), m)
  {
    var env' := env.Put(d, env.Value(d));
    forall s | s in ctx.symbols ensures ReadLoc(m, s, ctx.symbols[s]) == env'.Sym(s) {
      assert ReadLoc(m, s, ctx.symbols[s]) == env.Sym(s);
    }
  }

  // ----- branches -----

  /** From m, the code between g and h jumps to l exactly when `taken`, the environment
      being unchanged. */
  ghost predicate Branches(ctx: Ctx, stale: set<string>, g: Gen, h: Gen, env: Ir.Env, m: A.Machine,
                           taken: bool, l: string, flow: A.Flow) {
    && Exits(g, h, m, flow) && GenInv(ctx, h) && (h.pending == 0 || h.pending == g.pending)
    && (if taken then flow.Goto? && flow.target == A.Named(l) && Settled(h) else flow.Fall?)
    && Rel(ctx, stale, h, env, flow.m)
  }

  lemma BranchesThen(ctx: Ctx, stale: set<string>, g: Gen, h: Gen, k: Gen, env: Ir.Env, m: A.Machine, m1: A.Machine,
                     taken: bool, l: string, flow: A.Flow)
    requires Exits(g, h, m, A.Fall(m1)) && Branches(ctx, stale, h, k, env, m1, taken, l, flow)
    requires h.pending == 0 || h.pending == g.pending
    ensures Branches(ctx, stale, g, k, env, m, taken, l, flow)
  {
    ExitsThen(g, h, k, m, m1, flow);
  }

  /** A flag-setting instruction followed by a conditional jump. */
  lemma TestJump(ctx: Ctx, stale: set<string>, g: Gen, env: Ir.Env, m: A.Machine, test: A.Instr, c: A.Cond, l: string,
                 zero: bool, less: bool) returns (flow: A.Flow)
    requires GoodCtx(ctx) && GenInv(ctx, g) && Rel(ctx, stale, g, env, m)
    requires var m1 := AfterSpill(g, m);
             A.Step(test, m1) == A.Fall(m1.(flags := A.Compared(zero, less)))
    ensures Branches(ctx, stale, g, Emit(g, [test] + [A.Jcc(c, A.Named(l))]), env, m, A.Holds(c, zero, less), l, flow)
    ensures Settled(Emit(g, [test] + [A.Jcc(c, A.Named(l))]))
  {
    var m1 := AfterSpill(g, m);
    var j := A.Jcc(c, A.Named(l));
    assert [test] + [j] == [test, j];
    A.RunTwo(test, j, m1);
    flow := A.Run([test, j], m1);
    EmitKeeps(ctx, stale, g, env, m, [test, j], flow);
  }

  lemma SpillGet(g: Gen, m: A.Machine)
    ensures forall r :: AfterSpill(g, m).Get(r) == m.Get(r)
  {}

  lemma CompareJumpCorrect(ctx: Ctx, stale: set<string>, g: Gen, env: Ir.Env, m: A.Machine,
                           b: Ir.Instr, c: A.Cond, l: string, h: Gen) returns (flow: A.Flow)
    requires GoodCtx(ctx) && GenInv(ctx, g) && Rel(ctx, stale, g, env, m)
    requires b.Binary? && CompareJump(g, ctx, b, c, l) == Some(h)
    requires Fresh(stale, b.lhs) && Fresh(stale, b.rhs) && (b.lhs == b.rhs ==> !Drops(g, ctx, b.lhs))
    ensures Branches(ctx, stale + Dropped(g, ctx, b.lhs) + Dropped(g, ctx, b.rhs), g, h, env, m,
                     A.Holds(c, env.Value(b.lhs) == env.Value(b.rhs), env.Value(b.lhs) < env.Value(b.rhs)), l, flow)
    ensures Settled(h)
  {
    var all := stale + Dropped(g, ctx, b.lhs) + Dropped(g, ctx, b.rhs);
    if ctx.RegSymbol(b.lhs) && (SmallInt(b.rhs) || ctx.RegSymbol(b.rhs)) {
      hide Rel, GoodCtx, GenInv, A.Holds;
      RelWeaken(ctx, stale, all, g, env, m);
      flow := CompareInRegisters(ctx, all, g, env, m, b.lhs, b.rhs, c, l);
    } else if SmallInt(b.rhs) {
      hide Rel, GoodCtx, GenInv, A.Holds, Branches, Load, Emit;
      flow := CompareLoaded(ctx, stale, g, env, m, b.lhs, b.rhs, c, l, h);
      BranchesWeaken(ctx, stale + Dropped(g, ctx, b.lhs), all, g, h, env, m,
                     A.Holds(c, env.Value(b.lhs) == env.Value(b.rhs), env.Value(b.lhs) < env.Value(b.rhs)), l, flow);
    } else {
      hide Rel, GoodCtx, GenInv, A.Holds, Branches, Load, Emit;
      flow := CompareBoth(ctx, stale, g, env, m, b.lhs, b.rhs, c, l, h);
    }
  }

  lemma BranchesWeaken(ctx: Ctx, stale: set<string>, stale': set<string>, g: Gen, h: Gen, env: Ir.Env, m: A.Machine,
                       taken: bool, l: string, flow: A.Flow)
    requires Branches(ctx, stale, g, h, env, m, taken, l, flow) && stale <= stale'
    ensures Branches(ctx, stale', g, h, env, m, taken, l, flow)
  {
    RelWeaken(ctx, stale, stale', h, env, flow.m);
  }

  lemma CompareInRegisters(ctx: Ctx, stale: set<string>, g: Gen, env: Ir.Env, m: A.Machine,
                           lhs: Ir.Operand, rhs: Ir.Operand, c: A.Cond, l: string) returns (flow: A.Flow)
    requires GoodCtx(ctx) && GenInv(ctx, g) && Rel(ctx, stale, g, env, m)
    requires ctx.RegSymbol(lhs) && (SmallInt(rhs) || ctx.RegSymbol(rhs))
    ensures var s := if SmallInt(rhs) then A.I(rhs.value) else A.R(ctx.RegOf(rhs));
            Branches(ctx, stale, g, Emit(g, [A.Cmp(ctx.RegOf(lhs), s)] + [A.Jcc(c, A.Named(l))]), env, m,
                     A.Holds(c, env.Value(lhs) == env.Value(rhs), env.Value(lhs) < env.Value(rhs)), l, flow)
    ensures Settled(Emit(g, [A.Cmp(ctx.RegOf(lhs), if SmallInt(rhs) then A.I(rhs.value) else A.R(ctx.RegOf(rhs)))] + [A.Jcc(c, A.Named(l))]))
  {
    hide Rel, GoodCtx, GenInv, A.Holds, Branches, Emit;
    RegValue(ctx, stale, g, env, m, lhs);
    if ctx.RegSymbol(rhs) { RegValue(ctx, stale, g, env, m, rhs); }
    SpillGet(g, m);
    var s := if SmallInt(rhs) then A.I(rhs.value) else A.R(ctx.RegOf(rhs));
    flow := TestJump(ctx, stale, g, env, m, A.Cmp(ctx.RegOf(lhs), s), c, l,
                     env.Value(lhs) == env.Value(rhs), env.Value(lhs) < env.Value(rhs));
  }

  /** One operand loaded and compared with a small literal. */
  lemma CompareLoaded(ctx: Ctx, stale: set<string>, g: Gen, env: Ir.Env, m: A.Machine,
                      lhs: Ir.Operand, rhs: Ir.Operand, c: A.Cond, l: string, h: Gen) returns (flow: A.Flow)
    requires GoodCtx(ctx) && GenInv(ctx, g) && Rel(ctx, stale, g, env, m) && Fresh(stale, lhs) && SmallInt(rhs)
    requires Load(g, ctx, lhs).Some? && h == Emit(Load(g, ctx, lhs).value, [A.Cmp(A.RAX, A.I(rhs.value))] + [A.Jcc(c, A.Named(l))])
    ensures Branches(ctx, stale + Dropped(g, ctx, lhs), g, h, env, m,
                     A.Holds(c, env.Value(lhs) == env.Value(rhs), env.Value(lhs) < env.Value(rhs)), l, flow)
    ensures Settled(h)
  {
    hide Rel, GoodCtx, GenInv, A.Holds, Branches, Load, Emit;
    var all := stale + Dropped(g, ctx, lhs);
    var x, y := env.Value(lhs), env.Value(rhs);
    var k := Load(g, ctx, lhs).value;
    var m1 := LoadUses(ctx, stale, g, env, m, lhs, k);
    SpillGet(k, m1);
    flow := TestJump(ctx, all, k, env, m1, A.Cmp(A.RAX, A.I(rhs.value)), c, l, x == y, x < y);
    BranchesThen(ctx, all, g, k, h, env, m, m1, A.Holds(c, x == y, x < y), l, flow);
  }

  lemma CompareBoth(ctx: Ctx, stale: set<string>, g: Gen, env: Ir.Env, m: A.Machine,
                    lhs: Ir.Operand, rhs: Ir.Operand, c: A.Cond, l: string, h: Gen) returns (flow: A.Flow)
    requires GoodCtx(ctx) && GenInv(ctx, g) && Rel(ctx, stale, g, env, m)
    requires Fresh(stale, lhs) && Fresh(stale, rhs) && (lhs == rhs ==> !Drops(g, ctx, lhs))
    requires LoadInto(g, ctx, rhs, A.R10).Some?
    requires var k := Load(LoadInto(g, ctx, rhs, A.R10).value, ctx, lhs);
             k.Some? && h == Emit(k.value, [A.Cmp(A.RAX, A.R(A.R10))] + [A.Jcc(c, A.Named(l))])
    ensures Branches(ctx, stale + Dropped(g, ctx, lhs) + Dropped(g, ctx, rhs), g, h, env, m,
                     A.Holds(c, env.Value(lhs) == env.Value(rhs), env.Value(lhs) < env.Value(rhs)), l, flow)
    ensures Settled(h)
  {
    var all := stale + Dropped(g, ctx, lhs) + Dropped(g, ctx, rhs);
    var x, y := env.Value(lhs), env.Value(rhs);
    hide A.Holds, Emit, Load;
    var m1;
    flow, m1 := LoadBoth(ctx, stale, g, env, m, lhs, rhs);
    var k := Load(LoadInto(g, ctx, rhs, A.R10).value, ctx, lhs).value;
    SpillGet(k, m1);
    flow := TestJump(ctx, all, k, env, m1, A.Cmp(A.RAX, A.R(A.R10)), c, l, x == y, x < y);
    BranchesThen(ctx, all, g, k, h, env, m, m1, A.Holds(c, x == y, x < y), l, flow);
  }

  lemma EqualJumpCorrect(ctx: Ctx, stale: set<string>, g: Gen, env: Ir.Env, m: A.Machine,
                         x: Ir.Operand, y: Ir.Operand, l: string, h: Gen) returns (flow: A.Flow)
    requires GoodCtx(ctx) && GenInv(ctx, g) && Rel(ctx, stale, g, env, m)
    requires EqualJump(g, ctx, x, y, l) == Some(h)
    requires Fresh(stale, x) && Fresh(stale, y) && (x == y ==> !Drops(g, ctx, x))
    ensures Branches(ctx, stale + Dropped(g, ctx, x) + Dropped(g, ctx, y), g, h, env, m, env.Value(x) == env.Value(y), l, flow)
  {
    var all := stale + Dropped(g, ctx, x) + Dropped(g, ctx, y);
    var u, v := env.Value(x), env.Value(y);
    hide Emit, Load;
    if (SmallInt(y) && !x.Int?) || (!SmallInt(y) && SmallInt(x) && !y.Int?) {
      var value, literal := if SmallInt(y) then x else y, if SmallInt(y) then y else x;
      flow := CompareLoaded(ctx, stale, g, env, m, value, literal, A.E, l, h);
      BranchesWeaken(ctx, stale + Dropped(g, ctx, value), all, g, h, env, m, u == v, l, flow);
    } else {
      flow := CompareBoth(ctx, stale, g, env, m, x, y, A.E, l, h);
    }
  }

  /** Branch on zero (E) or nonzero (NE), through registers, slots, temps or a load. */
  lemma ZeroJumpCorrect(ctx: Ctx, stale: set<string>, g: Gen, env: Ir.Env, m: A.Machine,
                        o: Ir.Operand, jump: A.Cond, l: string, h: Gen) returns (flow: A.Flow)
    requires GoodCtx(ctx) && GenInv(ctx, g) && Rel(ctx, stale, g, env, m)
    requires (jump.E? || jump.NE?) && ZeroJump(g, ctx, o, jump, l) == Some(h) && Fresh(stale, o)
    ensures Branches(ctx, stale + Dropped(g, ctx, o), g, h, env, m, (env.Value(o) == 0) == jump.E?, l, flow)
  {
    var all := stale + Dropped(g, ctx, o);
    var v := env.Value(o);
    hide Rel, GoodCtx, GenInv, SymRel;
    RelWeaken(ctx, stale, all, g, env, m);
    SpillGet(g, m);
    if o.Int? {
      if (v == 0) == jump.E? {
        A.RunOne(A.Jmp(A.Named(l)), AfterSpill(g, m));
        flow := A.Goto(A.Named(l), AfterSpill(g, m));
        EmitKeeps(ctx, all, g, env, m, [A.Jmp(A.Named(l))], flow);
      } else {
        flow := A.Fall(m);
        ExitsSame(g, m);
      }
    } else if ctx.RegSymbol(o) {
      RegValue(ctx, stale, g, env, m, o);
      flow := TestJump(ctx, all, g, env, m, A.Test(ctx.RegOf(o)), jump, l, v == 0, v < 0);
    } else if o.Symbol? && o.name in ctx.symbols && ctx.symbols[o.name].InSlot? && ctx.symbols[o.name].off > 0 {
      SlotSymbol(ctx, stale, g, env, m, o.name);
      flow := TestJump(ctx, all, g, env, m, A.CmpSlotZero(ctx.symbols[o.name].off), jump, l, v == 0, v < 0);
    } else if o.Temp? && ctx.TempOff(o.name) > 0 {
      SpilledTemp(ctx, stale, g, env, m, o.name);
      flow := TestJump(ctx, all, g, env, m, A.CmpSlotZero(ctx.TempOff(o.name)), jump, l, v == 0, v < 0);
    } else {
      hide Emit, Load, Branches;
      flow := ZeroJumpLoaded(ctx, stale, g, env, m, o, jump, l, h);
    }
  }

  lemma ZeroJumpLoaded(ctx: Ctx, stale: set<string>, g: Gen, env: Ir.Env, m: A.Machine,
                       o: Ir.Operand, jump: A.Cond, l: string, h: Gen) returns (flow: A.Flow)
    requires GoodCtx(ctx) && GenInv(ctx, g) && Rel(ctx, stale, g, env, m)
    requires (jump.E? || jump.NE?) && Fresh(stale, o)
    requires Load(g, ctx, o).Some? && h == Emit(Load(g, ctx, o).value, [A.Test(A.RAX)] + [A.Jcc(jump, A.Named(l))])
    ensures Branches(ctx, stale + Dropped(g, ctx, o), g, h, env, m, (env.Value(o) == 0) == jump.E?, l, flow)
  {
    var all := stale + Dropped(g, ctx, o);
    var v := env.Value(o);
    hide Rel, GoodCtx, GenInv, Branches, Emit, Load;
    var k := Load(g, ctx, o).value;
    var m1 := LoadUses(ctx, stale, g, env, m, o, k);
    SpillGet(k, m1);
    flow := TestJump(ctx, all, k, env, m1, A.Test(A.RAX), jump, l, v == 0, v < 0);
    BranchesThen(ctx, all, g, k, h, env, m, m1, (v == 0) == jump.E?, l, flow);
  }

  lemma SlotSymbol(ctx: Ctx, stale: set<string>, g: Gen, env: Ir.Env, m: A.Machine, s: string)
    requires GoodCtx(ctx) && GenInv(ctx, g) && Rel(ctx, stale, g, env, m)
    requires s in ctx.symbols && ctx.symbols[s].InSlot?
    ensures AfterSpill(g, m).Slot(ctx.symbols[s].off) == env.Sym(s)
  {
    SpillKeeps(ctx, stale, g, env, m, Flush(g));
    assert ReadLoc(AfterSpill(g, m), s, ctx.symbols[s]) == env.Sym(s);
  }

  lemma SpilledTemp(ctx: Ctx, stale: set<string>, g: Gen, env: Ir.Env, m: A.Machine, t: string)
    requires GoodCtx(ctx) && GenInv(ctx, g) && Rel(ctx, stale, g, env, m)
    requires ctx.TempOff(t) > 0 && t !in stale
    ensures AfterSpill(g, m).Slot(ctx.TempOff(t)) == env.Tmp(t)
  {
    SpillKeeps(ctx, stale, g, env, m, Flush(g));
  }

  /** Comparing r11, which holds temp t, with the other operand. */
  lemma CompareR11Correct(ctx: Ctx, stale: set<string>, g: Gen, env: Ir.Env, m: A.Machine,
                          b: Ir.Instr, t: string, c: A.Cond, l: string, h: Gen) returns (flow: A.Flow)
    requires GoodCtx(ctx) && GenInv(ctx, g) && Settled(g) && Rel(ctx, stale, g, env, m)
    requires b.Binary? && CompareR11Jump(g, ctx, b, t, c, l) == Some(h)
    requires m.Get(A.R11) == env.Tmp(t) && (b.lhs == Ir.Temp(t)) != (b.rhs == Ir.Temp(t))
    requires Fresh(stale, if b.lhs == Ir.Temp(t) then b.rhs else b.lhs)
    ensures Branches(ctx, stale, g, h, env, m,
                     A.Holds(c, env.Value(b.lhs) == env.Value(b.rhs), env.Value(b.lhs) < env.Value(b.rhs)), l, flow)
    ensures Settled(h)
  {
    hide A.Holds, Emit, Load, LoadInto, Rel, GoodCtx, GenInv, SymRel, Exits, A.Run, Branches;
    if b.lhs == Ir.Temp(t) {
      flow := CompareR11Left(ctx, stale, g, env, m, t, b.rhs, c, l, h);
    } else {
      flow := CompareR11Right(ctx, stale, g, env, m, t, b.lhs, c, l, h);
    }
  }

  lemma CompareR11Left(ctx: Ctx, stale: set<string>, g: Gen, env: Ir.Env, m: A.Machine,
                       t: string, rhs: Ir.Operand, c: A.Cond, l: string, h: Gen) returns (flow: A.Flow)
    requires GoodCtx(ctx) && GenInv(ctx, g) && Settled(g) && Rel(ctx, stale, g, env, m) && Fresh(stale, rhs)
    requires m.Get(A.R11) == env.Tmp(t)
    requires if SmallInt(rhs) then h == Emit(g, [A.Cmp(A.R11, A.I(rhs.value))] + [A.Jcc(c, A.Named(l))])
             else LoadInto(g, ctx, rhs, A.R10).Some? &&
                  h == Emit(LoadInto(g, ctx, rhs, A.R10).value, [A.Cmp(A.R11, A.R(A.R10))] + [A.Jcc(c, A.Named(l))])
    ensures Branches(ctx, stale, g, h, env, m, A.Holds(c, env.Tmp(t) == env.Value(rhs), env.Tmp(t) < env.Value(rhs)), l, flow)
    ensures Settled(h)
  {
    hide A.Holds, Emit, LoadInto, Rel, GoodCtx, GenInv, Branches;
    var x, y := env.Tmp(t), env.Value(rhs);
    if SmallInt(rhs) {
      SpillGet(g, m);
      flow := TestJump(ctx, stale, g, env, m, A.Cmp(A.R11, A.I(rhs.value)), c, l, x == y, x < y);
    } else {
      var k := LoadInto(g, ctx, rhs, A.R10).value;
      var m1 := LoadIntoUses(ctx, stale, g, env, m, rhs, k);
      SpillGet(k, m1);
      flow := TestJump(ctx, stale, k, env, m1, A.Cmp(A.R11, A.R(A.R10)), c, l, x == y, x < y);
      BranchesThen(ctx, stale, g, k, h, env, m, m1, A.Holds(c, x == y, x < y), l, flow);
    }
  }

  lemma CompareR11Right(ctx: Ctx, stale: set<string>, g: Gen, env: Ir.Env, m: A.Machine,
                        t: string, lhs: Ir.Operand, c: A.Cond, l: string, h: Gen) returns (flow: A.Flow)
    requires GoodCtx(ctx) && GenInv(ctx, g) && Settled(g) && Rel(ctx, stale, g, env, m) && Fresh(stale, lhs)
    requires m.Get(A.R11) == env.Tmp(t) && Load(g, ctx, lhs).Some?
    requires h == Emit(Load(g, ctx, lhs).value, [A.Cmp(A.RAX, A.R(A.R11))] + [A.Jcc(c, A.Named(l))])
    ensures Branches(ctx, stale, g, h, env, m, A.Holds(c, env.Value(lhs) == env.Tmp(t), env.Value(lhs) < env.Tmp(t)), l, flow)
    ensures Settled(h)
  {
    hide A.Holds, Emit, Load, Rel, GoodCtx, GenInv, Branches;
    var x, y := env.Value(lhs), env.Tmp(t);
    var k := Load(g, ctx, lhs).value;
    var m1 := LoadUses(ctx, stale, g, env, m, lhs, k);
    assert !Drops(g, ctx, lhs);
    SpillGet(k, m1);
    flow := TestJump(ctx, stale, k, env, m1, A.Cmp(A.RAX, A.R(A.R11)), c, l, x == y, x < y);
    BranchesThen(ctx, stale, g, k, h, env, m, m1, A.Holds(c, x == y, x < y), l, flow);
  }

  /** The fused jump is taken exactly when the comparison's result is zero. */
  lemma FalseJumpMeaning(op: Ir.BinOp, x: Word, y: Word)
    requires Ir.IsComparison(op)
    ensures A.Holds(FalseJump(op), x == y, x < y) <==> !Ir.Compare(op, x, y)
    ensures A.Holds(Invert(FalseJump(op)), x == y, x < y) <==> Ir.Compare(op, x, y)
    ensures Ir.Eval(op, x, y) == Some(B2W(Ir.Compare(op, x, y)))
  {}
}
