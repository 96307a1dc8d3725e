/** Which temp's store is promised before each round, read off the IR alone, and with it exactly which functions
    have a round that loses one. */
module Promises {
  import opened Words
  import opened Wrappers
  import opened Emitter
  import opened Placement
  import opened EmitterProofs
  import opened FusionProofs
  import opened Simulation
  import opened Correctness
  import opened FunctionCorrectness
  import CodeGenerators
  import Ir
  import A = Asm

  /** The generator's fields promise the store of temp p, or none. */
  ghost predicate Holds(ctx: Ctx, g: Gen, p: Option<string>) {
    && g.cachedSeq <= g.emitSeq
    && match p
       case None => g.pending == 0
       case Some(t) =>
         && ctx.TempOff(t) > 0 && g.pending == ctx.TempOff(t) && g.single == (ctx.UseCount(t) == 1)
         && g.cachedOff == g.pending && g.cachedSeq == g.emitSeq
  }

  function Stored(d: Ir.Operand): Option<string> { if d.Temp? then Some(d.name) else None }

  /** The promise after an instruction that takes part in no fusion, p being the one before it. */
  function AfterAlone(ctx: Ctx, a: Ir.Instr, p: Option<string>): Option<string> {
    match a
    case Nop | DeclareLocal(_) => p
    case BranchZero(x, _) => if x.Int? && x.value != 0 then p else None
    case Assign(d, x) =>
      if ctx.RegSymbol(d) && ctx.RegSymbol(x) then (if ctx.RegOf(d) == ctx.RegOf(x) then p else None) else Stored(d)
    case Unary(d, _, _) => Stored(d)
    case Binary(d, _, _, _) => Stored(d)
    case _ => None
  }

  /** The promise after the round at i. */
  function After(f: Func, ctx: Ctx, i: nat, p: Option<string>): Option<string>
    requires i < |f|
  {
    match ShapeAt(f, ctx, i)
    case Chain(last) => if EndsInJump(f, ctx, last) then None else Stored(f[last].dest)
    case Pair => Stored(f[i + 1].dest)
    case JumpOver => if f[i].lhs == Ir.Int(0) then p else None
    case Alone => AfterAlone(ctx, f[i], p)
    case _ => None
  }

  /** The literal has no immediate form, and the left operand matters to the result. */
  predicate RefusedLiteral(op: Ir.BinOp, rhs: Ir.Operand) {
    SmallInt(rhs) && ImmediateCode(op, rhs.value).None? && !IgnoresLeft(op, rhs.value)
  }

  /** A fusion begins here with the promised, single-use temp on the left of a refused literal. */
  predicate LosesNow(f: Func, ctx: Ctx, i: nat, p: Option<string>)
    requires i < |f|
  {
    var s := ShapeAt(f, ctx, i);
    && (s.Chain? || s.CompareChain? || s.Pair?)
    && f[i].lhs.Temp? && p == Some(f[i].lhs.name) && ctx.UseCount(f[i].lhs.name) == 1
    && RefusedLiteral(f[i].op, f[i].rhs)
  }

  /** Some round from i on does. */
  predicate Loses(f: Func, ctx: Ctx, i: nat, p: Option<string>)
    requires i <= |f|
    decreases |f| - i
  {
    i < |f| && (LosesNow(f, ctx, i, p) || Loses(f, ctx, NextRound(f, ctx, i), After(f, ctx, i, p)))
  }

  // ----- the generator keeps to it -----

  lemma EmitClears(ctx: Ctx, g: Gen, p: Option<string>, code: Code)
    requires Holds(ctx, g, p) && (code != [] || p.None?)
    ensures Holds(ctx, Emit(g, code), None)
  {
  }

  lemma LoadClears(ctx: Ctx, g: Gen, p: Option<string>, o: Ir.Operand)
    requires Holds(ctx, g, p) && Load(g, ctx, o).Some?
    ensures Holds(ctx, Load(g, ctx, o).value, None)
  {
  }

  lemma LoadIntoClears(ctx: Ctx, g: Gen, p: Option<string>, o: Ir.Operand, r: A.Reg)
    requires Holds(ctx, g, p) && LoadInto(g, ctx, o, r).Some?
    ensures Holds(ctx, LoadInto(g, ctx, o, r).value, None)
  {
    LoadClears(ctx, g, p, o);
    hide Load;
  }

  lemma StorePromises(ctx: Ctx, g: Gen, d: Ir.Operand)
    requires Holds(ctx, g, None) && Store(g, ctx, d).Some?
    ensures Holds(ctx, Store(g, ctx, d).value, Stored(d))
  {
  }

  lemma TryClears(ctx: Ctx, g: Gen, p: Option<string>, op: Ir.BinOp, value: Ir.Operand, literal: Ir.Operand)
    requires Holds(ctx, g, p) && TryImmediate(g, ctx, op, value, literal).Some?
    ensures var r := TryImmediate(g, ctx, op, value, literal).value;
            Holds(ctx, r.0, if SmallInt(literal) then None else p) && (r.1 ==> SmallInt(literal))
  {
    hide Holds, Load, ImmediateCode;
    if SmallInt(literal) {
      LoadClears(ctx, g, p, value);
      var h := Load(g, ctx, value).value;
      match ImmediateCode(op, literal.value) {
        case Some(code) => EmitClears(ctx, h, None, code + [A.Mov(A.R11, A.R(A.RAX))]);
        case None =>
      }
    }
  }

  lemma ComputeClears(ctx: Ctx, g: Gen, p: Option<string>, op: Ir.BinOp, lhs: Ir.Operand, rhs: Ir.Operand)
    requires Holds(ctx, g, p) && ComputeToR11(g, ctx, op, lhs, rhs).Some?
    ensures Holds(ctx, ComputeToR11(g, ctx, op, lhs, rhs).value, None)
  {
    CodeGenerators.ComputeSteps(g, ctx, op, lhs, rhs);
    hide Holds, Load, LoadInto, ImmediateCode, TryImmediate, ComputeToR11, CodeGenerators.ByRegisters;
    TryClears(ctx, g, p, op, lhs, rhs);
    var first := TryImmediate(g, ctx, op, lhs, rhs).value;
    var p1 := if SmallInt(rhs) then None else p;
    if !first.1 {
      if Ir.IsCommutative(op) {
        TryClears(ctx, first.0, p1, op, rhs, lhs);
        var second := TryImmediate(first.0, ctx, op, rhs, lhs).value;
        if !second.1 { RegistersClear(ctx, second.0, if SmallInt(lhs) then None else p1, op, lhs, rhs); }
      } else {
        RegistersClear(ctx, first.0, p1, op, lhs, rhs);
      }
    }
  }

  lemma RegistersClear(ctx: Ctx, g: Gen, p: Option<string>, op: Ir.BinOp, lhs: Ir.Operand, rhs: Ir.Operand)
    requires Holds(ctx, g, p) && CodeGenerators.ByRegisters(g, ctx, op, lhs, rhs).Some?
    ensures Holds(ctx, CodeGenerators.ByRegisters(g, ctx, op, lhs, rhs).value, None)
  {
    hide Holds, Load, LoadInto, RegisterCode;
    LoadIntoClears(ctx, g, p, rhs, A.R10);
    var h := LoadInto(g, ctx, rhs, A.R10).value;
    LoadClears(ctx, h, None, lhs);
    EmitClears(ctx, Load(h, ctx, lhs).value, None, RegisterCode(op, A.R10) + [A.Mov(A.R11, A.R(A.RAX))]);
  }

  lemma ConsumeClears(ctx: Ctx, g: Gen, b: Ir.Instr, t: string)
    requires b.Binary? && Holds(ctx, g, None) && ConsumeR11(g, ctx, b, t).Some?
    ensures Holds(ctx, ConsumeR11(g, ctx, b, t).value, None)
  {
    hide Holds, Load, LoadInto, ImmediateCode, RegisterCode;
    var back := [A.Mov(A.RAX, A.R(A.R11))];
    EmitClears(ctx, g, None, back);
    if b.lhs == Ir.Temp(t) {
      if SmallInt(b.rhs) && ImmediateCode(b.op, b.rhs.value).Some? {
        EmitClears(ctx, g, None, back + ImmediateCode(b.op, b.rhs.value).value);
      } else {
        var g1 := if SmallInt(b.rhs) then Emit(g, back) else g;
        LoadIntoClears(ctx, g1, None, b.rhs, A.R10);
        EmitClears(ctx, LoadInto(g1, ctx, b.rhs, A.R10).value, None, back + RegisterCode(b.op, A.R10));
      }
    } else if SmallInt(b.lhs) && Ir.IsCommutative(b.op) && ImmediateCode(b.op, b.lhs.value).Some? {
      EmitClears(ctx, g, None, back + ImmediateCode(b.op, b.lhs.value).value);
    } else {
      var g1 := if SmallInt(b.lhs) && Ir.IsCommutative(b.op) then Emit(g, back) else g;
      LoadClears(ctx, g1, None, b.lhs);
      EmitClears(ctx, Load(g1, ctx, b.lhs).value, None, RegisterCode(b.op, A.R11));
    }
  }

  lemma FallbackPromises(ctx: Ctx, g: Gen, p: Option<string>, b: Ir.Instr)
    requires b.Binary? && Holds(ctx, g, p) && BinaryFallback(g, ctx, b).Some?
    ensures Holds(ctx, BinaryFallback(g, ctx, b).value, Stored(b.dest))
  {
    var h := BinaryFallback(g, ctx, b).value;
    FallbackCases(g, ctx, b);
    if RegisterFastPath(ctx, b).Some? { FastPathParts(ctx, b); }
    hide Holds, Load, LoadInto, Store, Emit, ImmediateCode, RegisterCode, RegisterFastPath, ShiftDivCode, ShiftRemCode, PowerOfTwo,
         BinaryFallback;
    var fast := RegisterFastPath(ctx, b);
    if fast.Some? {
      EmitClears(ctx, g, p, fast.value);
    } else if (b.op.Div? || b.op.Mod?) && b.rhs.Int? && PowerOfTwo(b.rhs.value).Some? {
      var k, mask := PowerOfTwo(b.rhs.value).value, b.rhs.value - 1;
      LoadedPromises(ctx, g, p, b.lhs, if b.op.Div? then ShiftDivCode(k, mask) else ShiftRemCode(k, mask), b.dest);
    } else if SmallInt(b.rhs) && ImmediateCode(b.op, b.rhs.value).Some? {
      LoadedPromises(ctx, g, p, b.lhs, ImmediateCode(b.op, b.rhs.value).value, b.dest);
    } else {
      LoadIntoClears(ctx, g, p, b.rhs, A.R10);
      LoadedPromises(ctx, LoadInto(g, ctx, b.rhs, A.R10).value, None, b.lhs, RegisterCode(b.op, A.R10), b.dest);
    }
  }

  /** Load, some code, store. */
  lemma LoadedPromises(ctx: Ctx, g: Gen, p: Option<string>, o: Ir.Operand, code: Code, d: Ir.Operand)
    requires Holds(ctx, g, p) && Load(g, ctx, o).Some? && Store(Emit(Load(g, ctx, o).value, code), ctx, d).Some?
    ensures Holds(ctx, Store(Emit(Load(g, ctx, o).value, code), ctx, d).value, Stored(d))
  {
    hide Holds, Load, Store, Emit;
    LoadClears(ctx, g, p, o);
    EmitClears(ctx, Load(g, ctx, o).value, None, code);
    StorePromises(ctx, Emit(Load(g, ctx, o).value, code), d);
  }

  // ----- jumps -----

  lemma CompareClears(ctx: Ctx, g: Gen, p: Option<string>, b: Ir.Instr, jump: A.Cond, l: string)
    requires b.Binary? && Holds(ctx, g, p) && CompareJump(g, ctx, b, jump, l).Some?
    ensures Holds(ctx, CompareJump(g, ctx, b, jump, l).value, None)
  {
    hide Holds, Load, LoadInto, Emit;
    var tail := [A.Jcc(jump, A.Named(l))];
    if ctx.RegSymbol(b.lhs) && SmallInt(b.rhs) {
      EmitClears(ctx, g, p, [A.Cmp(ctx.RegOf(b.lhs), A.I(b.rhs.value))] + tail);
    } else if ctx.RegSymbol(b.lhs) && ctx.RegSymbol(b.rhs) {
      EmitClears(ctx, g, p, [A.Cmp(ctx.RegOf(b.lhs), A.R(ctx.RegOf(b.rhs)))] + tail);
    } else if SmallInt(b.rhs) {
      LoadClears(ctx, g, p, b.lhs);
      EmitClears(ctx, Load(g, ctx, b.lhs).value, None, [A.Cmp(A.RAX, A.I(b.rhs.value))] + tail);
    } else {
      LoadIntoClears(ctx, g, p, b.rhs, A.R10);
      var h := LoadInto(g, ctx, b.rhs, A.R10).value;
      LoadClears(ctx, h, None, b.lhs);
      EmitClears(ctx, Load(h, ctx, b.lhs).value, None, [A.Cmp(A.RAX, A.R(A.R10))] + tail);
    }
  }

  lemma CompareR11Clears(ctx: Ctx, g: Gen, b: Ir.Instr, t: string, jump: A.Cond, l: string)
    requires b.Binary? && Holds(ctx, g, None) && CompareR11Jump(g, ctx, b, t, jump, l).Some?
    ensures Holds(ctx, CompareR11Jump(g, ctx, b, t, jump, l).value, None)
  {
    hide Holds, Load, LoadInto, Emit;
    var tail := [A.Jcc(jump, A.Named(l))];
    if b.lhs == Ir.Temp(t) {
      if SmallInt(b.rhs) {
        EmitClears(ctx, g, None, [A.Cmp(A.R11, A.I(b.rhs.value))] + tail);
      } else {
        LoadIntoClears(ctx, g, None, b.rhs, A.R10);
        EmitClears(ctx, LoadInto(g, ctx, b.rhs, A.R10).value, None, [A.Cmp(A.R11, A.R(A.R10))] + tail);
      }
    } else {
      LoadClears(ctx, g, None, b.lhs);
      EmitClears(ctx, Load(g, ctx, b.lhs).value, None, [A.Cmp(A.RAX, A.R(A.R11))] + tail);
    }
  }

  /** A branch on a literal that is not taken emits nothing. */
  lemma ZeroPromises(ctx: Ctx, g: Gen, p: Option<string>, o: Ir.Operand, jump: A.Cond, l: string)
    requires (jump.E? || jump.NE?) && Holds(ctx, g, p) && ZeroJump(g, ctx, o, jump, l).Some?
    ensures Holds(ctx, ZeroJump(g, ctx, o, jump, l).value, if o.Int? && (o.value == 0) != jump.E? then p else None)
  {
    hide Holds, Load, Emit;
    var tail := [A.Jcc(jump, A.Named(l))];
    if o.Int? {
      EmitClears(ctx, g, p, [A.Jmp(A.Named(l))]);
    } else if ctx.RegSymbol(o) {
      EmitClears(ctx, g, p, [A.Test(ctx.RegOf(o))] + tail);
    } else if o.Symbol? && o.name in ctx.symbols && ctx.symbols[o.name].InSlot? && ctx.symbols[o.name].off > 0 {
      EmitClears(ctx, g, p, [A.CmpSlotZero(ctx.symbols[o.name].off)] + tail);
    } else if o.Temp? && ctx.TempOff(o.name) > 0 {
      EmitClears(ctx, g, p, [A.CmpSlotZero(ctx.TempOff(o.name))] + tail);
    } else {
      LoadClears(ctx, g, p, o);
      EmitClears(ctx, Load(g, ctx, o).value, None, [A.Test(A.RAX)] + tail);
    }
  }

  lemma EqualClears(ctx: Ctx, g: Gen, p: Option<string>, x: Ir.Operand, y: Ir.Operand, l: string)
    requires Holds(ctx, g, p) && EqualJump(g, ctx, x, y, l).Some?
    ensures Holds(ctx, EqualJump(g, ctx, x, y, l).value, None)
  {
    hide Holds, Load, LoadInto, Emit;
    var tail := [A.Jcc(A.E, A.Named(l))];
    if SmallInt(y) && !x.Int? {
      LoadClears(ctx, g, p, x);
      EmitClears(ctx, Load(g, ctx, x).value, None, [A.Cmp(A.RAX, A.I(y.value))] + tail);
    } else if !SmallInt(y) && SmallInt(x) && !y.Int? {
      LoadClears(ctx, g, p, y);
      EmitClears(ctx, Load(g, ctx, y).value, None, [A.Cmp(A.RAX, A.I(x.value))] + tail);
    } else {
      LoadIntoClears(ctx, g, p, y, A.R10);
      var h := LoadInto(g, ctx, y, A.R10).value;
      LoadClears(ctx, h, None, x);
      EmitClears(ctx, Load(h, ctx, x).value, None, [A.Cmp(A.RAX, A.R(A.R10))] + tail);
    }
  }

  // ----- rounds -----

  lemma AssignPromises(ctx: Ctx, g: Gen, p: Option<string>, d: Ir.Operand, x: Ir.Operand)
    requires Holds(ctx, g, p) && AssignCode(g, ctx, d, x).Some?
    ensures Holds(ctx, AssignCode(g, ctx, d, x).value, AfterAlone(ctx, Ir.Assign(d, x), p))
  {
    hide Holds, Load, Store, Emit;
    if ctx.RegSymbol(d) && ctx.RegSymbol(x) {
      EmitClears(ctx, g, p, [A.Mov(ctx.RegOf(d), A.R(ctx.RegOf(x)))]);
    } else {
      LoadClears(ctx, g, p, x);
      StorePromises(ctx, Load(g, ctx, x).value, d);
    }
  }

  lemma AlonePromises(ctx: Ctx, g: Gen, p: Option<string>, a: Ir.Instr)
    requires Holds(ctx, g, p) && Single(g, ctx, a).Some?
    ensures Holds(ctx, Single(g, ctx, a).value, AfterAlone(ctx, a, p))
  {
    hide Holds, Load, Store, Emit, ZeroJump, EqualJump, AssignCode, BinaryFallback, UnaryCode;
    match a {
      case Nop | DeclareLocal(_) =>
      case Label(l) => EmitClears(ctx, g, p, [A.LabelDef(A.Named(l))]);
      case Jump(l) => EmitClears(ctx, g, p, [A.Jmp(A.Named(l))]);
      case BranchZero(x, l) => ZeroPromises(ctx, g, p, x, A.E, l);
      case BranchEq(x, y, l) => EqualClears(ctx, g, p, x, y, l);
      case Assign(d, x) => AssignPromises(ctx, g, p, d, x);
      case Unary(d, op, x) => LoadedPromises(ctx, g, p, x, UnaryCode(op), d);
      case Binary(_, _, _, _) => FallbackPromises(ctx, g, p, a);
      case Return(x) =>
        if x.Nothing? {
          EmitClears(ctx, g, p, [A.Jmp(A.Exit)]);
        } else {
          LoadClears(ctx, g, p, x);
          EmitClears(ctx, Load(g, ctx, x).value, None, [A.Jmp(A.Exit)]);
        }
    }
  }

  lemma {:induction false} ExtendClears(f: Func, ctx: Ctx, g: Gen, i: nat, last: nat)
    requires i <= last < |f| && (forall j :: i <= j <= last ==> f[j].Binary?) && (forall j :: i <= j < last ==> f[j].dest.Temp?)
    requires Holds(ctx, g, None) && ExtendChain(f, ctx, g, i, last).Some?
    ensures Holds(ctx, ExtendChain(f, ctx, g, i, last).value, None)
    decreases last - i
  {
    hide Holds, ConsumeR11, Emit;
    if i < last {
      ConsumeClears(ctx, g, f[i + 1], f[i].dest.name);
      var h := ConsumeR11(g, ctx, f[i + 1], f[i].dest.name).value;
      EmitClears(ctx, h, None, [A.Mov(A.R11, A.R(A.RAX))]);
      ExtendClears(f, ctx, Emit(h, [A.Mov(A.R11, A.R(A.RAX))]), i + 1, last);
    }
  }

  lemma ChainPromises(f: Func, ctx: Ctx, g: Gen, i: nat, last: nat, p: Option<string>)
    requires i < last < |f| && (forall j :: i <= j <= last ==> f[j].Binary?) && (forall j :: i <= j < last ==> f[j].dest.Temp?)
    requires Holds(ctx, g, p) && EmitChain(f, ctx, g, i, last).Some?
    ensures Holds(ctx, EmitChain(f, ctx, g, i, last).value.0, if EndsInJump(f, ctx, last) then None else Stored(f[last].dest))
  {
    hide Holds, ComputeToR11, ExtendChain, Emit, Store, ReturnOf;
    ComputeClears(ctx, g, p, f[i].op, f[i].lhs, f[i].rhs);
    var h := ComputeToR11(g, ctx, f[i].op, f[i].lhs, f[i].rhs).value;
    ExtendClears(f, ctx, h, i, last);
    var k := ExtendChain(f, ctx, h, i, last).value;
    var back := [A.Mov(A.RAX, A.R(A.R11))];
    if FeedsBranch(f, ctx, last) {
      EmitClears(ctx, k, None, [A.Test(A.R11)] + [A.Jcc(A.E, A.Named(f[last + 1].text))]);
    } else {
      EmitClears(ctx, k, None, back + [A.Jmp(A.Exit)]);
      EmitClears(ctx, k, None, back);
      if !EndsInJump(f, ctx, last) { StorePromises(ctx, Emit(k, back), f[last].dest); }
    }
  }

  /** One round of the loop: the promise it leaves and the instruction it goes on to are those of the IR. */
  lemma BlockPromises(f: Func, ctx: Ctx, g: Gen, i: nat, p: Option<string>)
    requires i < |f| && Holds(ctx, g, p) && Block(f, ctx, g, i).Some?
    ensures Holds(ctx, Block(f, ctx, g, i).value.0, After(f, ctx, i, p)) && Block(f, ctx, g, i).value.1 == NextRound(f, ctx, i)
  {
    hide Holds, ShapeAt, BinaryFallback, ComputeToR11, CompareJump, CompareR11Jump, ConsumeR11, ZeroJump, Single, Store, Emit,
         ReturnOf, ExtendChain, Load, LoadInto;
    match ShapeAt(f, ctx, i) {
      case ReturnTemp(ret) =>
        var b := Ir.Binary(Ir.Nothing, f[i].op, f[i].lhs, f[i].rhs);
        FallbackPromises(ctx, g, p, b);
        EmitClears(ctx, BinaryFallback(g, ctx, b).value, None, [A.Jmp(A.Exit)]);
      case Chain(last) => ChainPromises(f, ctx, g, i, last, p);
      case CompareChain =>
        ComputeClears(ctx, g, p, f[i].op, f[i].lhs, f[i].rhs);
        CompareR11Clears(ctx, ComputeToR11(g, ctx, f[i].op, f[i].lhs, f[i].rhs).value, f[i + 1], f[i].dest.name,
                         FalseJump(f[i + 1].op), f[i + 2].text);
      case Pair =>
        ComputeClears(ctx, g, p, f[i].op, f[i].lhs, f[i].rhs);
        var h := ComputeToR11(g, ctx, f[i].op, f[i].lhs, f[i].rhs).value;
        ConsumeClears(ctx, h, f[i + 1], f[i].dest.name);
        StorePromises(ctx, ConsumeR11(h, ctx, f[i + 1], f[i].dest.name).value, f[i + 1].dest);
      case CompareJumpOver => CompareClears(ctx, g, p, f[i], Invert(FalseJump(f[i].op)), f[i + 2].text);
      case CompareBranch => CompareClears(ctx, g, p, f[i], FalseJump(f[i].op), f[i + 1].text);
      case JumpOver => ZeroPromises(ctx, g, p, f[i].lhs, A.NE, f[i + 1].text);
      case Alone => AlonePromises(ctx, g, p, f[i]);
    }
  }

  /** The generator's state is not needed to see whether a round loses a store. */
  lemma LosesNowExactly(f: Func, ctx: Ctx, g: Gen, i: nat, p: Option<string>)
    requires i < |f| && GoodCtx(ctx) && Holds(ctx, g, p)
    requires Block(f, ctx, g, i).Some?
    ensures LosesAt(f, ctx, g, i) <==> LosesNow(f, ctx, i, p)
  {
    hide ShapeAt, ImmediateCode, IgnoresLeft, Block;
    if p.Some? && f[i].Binary? && f[i].lhs.Temp? { assert TempsApart(ctx, p.value, f[i].lhs.name); }
  }

  /** A function has a round that loses a store exactly when its IR says so. */
  lemma {:induction false} NoLossExactly(f: Func, ctx: Ctx, g: Gen, i: nat, p: Option<string>)
    requires i <= |f| && GoodCtx(ctx) && Holds(ctx, g, p) && EmitFrom(f, ctx, g, i).Some?
    ensures NoLoss(f, ctx, g, i) <==> !Loses(f, ctx, i, p)
    decreases |f| - i
  {
    if i < |f| {
      hide Block, LosesAt, LosesNow, Holds, GoodCtx, NextRound, After;
      LosesNowExactly(f, ctx, g, i, p);
      BlockPromises(f, ctx, g, i, p);
      var b := Block(f, ctx, g, i).value;
      NoLossExactly(f, ctx, b.0, b.1, After(f, ctx, i, p));
    }
  }
}
