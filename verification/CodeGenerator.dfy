/** The generator as the compiler has it: one object whose fields every emission updates.
    Each method is proved to do to the fields what the function of Emitter says. */
module CodeGenerators {
  import opened Words
  import opened Wrappers
  import opened Emitter
  import opened FusionProofs
  import opened Placement
  import Ir
  import A = Asm
  import ShiftDivision

  lemma EmitSplit(g: Gen, a: Code, b: Code)
    ensures Emit(Emit(g, a), b) == Emit(g, a + b)
  {
    if a == [] {
      assert a + b == b;
    } else if b == [] {
      assert a + b == a;
    } else {
      assert Flush(g).out + a + b == Flush(g).out + (a + b);
    }
  }

  /** How often each temp is named as a source operand. */
  method CountTempUses(f: Func) returns (uses: map<string, nat>)
    ensures forall t :: (if t in uses then uses[t] else 0) == Ir.Uses(f, t)
  {
    uses := map[];
    var i := 0;
    while i < |f|
      invariant i <= |f|
      invariant forall t :: (if t in uses then uses[t] else 0) == Ir.Uses(f[..i], t)
    {
      var read := Sources(f[i]);
      uses := RecordOperand(uses, read.0);
      uses := RecordOperand(uses, read.1);
      assert f[..i + 1][..i] == f[..i];
      i := i + 1;
    }
    assert f[..|f|] == f;
  }

  function RecordOperand(uses: map<string, nat>, o: Ir.Operand): (r: map<string, nat>)
    ensures forall t :: (if t in r then r[t] else 0) == (if t in uses then uses[t] else 0) + Ir.UsesOperand(o, t)
  {
    if o.Temp? then uses[o.name := 1 + if o.name in uses then uses[o.name] else 0] else uses
  }

  /** The operands an instruction reads. */
  function Sources(a: Ir.Instr): (r: (Ir.Operand, Ir.Operand))
    ensures forall t :: Ir.UsesIn(a, t) == Ir.UsesOperand(r.0, t) + Ir.UsesOperand(r.1, t)
  {
    match a
    case BranchZero(x, _) => (x, Ir.Nothing)
    case BranchEq(x, y, _) => (x, y)
    case Assign(_, x) => (x, Ir.Nothing)
    case Unary(_, _, x) => (x, Ir.Nothing)
    case Binary(_, _, x, y) => (x, y)
    case Return(x) => (x, Ir.Nothing)
    case _ => (Ir.Nothing, Ir.Nothing)
  }

  /** Both operands in registers, the result moved to r11. */
  function ByRegisters(g: Gen, ctx: Ctx, op: Ir.BinOp, lhs: Ir.Operand, rhs: Ir.Operand): Option<Gen> {
    var h :- LoadInto(g, ctx, rhs, A.R10);
    var k :- Load(h, ctx, lhs);
    Some(Emit(k, RegisterCode(op, A.R10) + [A.Mov(A.R11, A.R(A.RAX))]))
  }

  lemma ComputeSteps(g: Gen, ctx: Ctx, op: Ir.BinOp, lhs: Ir.Operand, rhs: Ir.Operand)
    ensures ComputeToR11(g, ctx, op, lhs, rhs) ==
            (var first :- TryImmediate(g, ctx, op, lhs, rhs);
             if first.1 then Some(first.0)
             else if Ir.IsCommutative(op) then
               var second :- TryImmediate(first.0, ctx, op, rhs, lhs);
               if second.1 then Some(second.0) else ByRegisters(second.0, ctx, op, lhs, rhs)
             else ByRegisters(first.0, ctx, op, lhs, rhs))
  {
    hide TryImmediate, Load, LoadInto, Emit, RegisterCode;
  }

  class CodeGenerator {
    const ctx: Ctx
    var out: Code
    var emitSeq: nat
    var pendingSpillOffset: int
    var pendingSpillSingleUse: bool
    var flushingPending: bool
    var raxCachedTempOffset: int
    var raxCachedEmitSeq: nat
    var hasError: bool

    constructor (ctx: Ctx, start: Gen)
      ensures this.ctx == ctx && State() == start && Idle()
    {
      this.ctx := ctx;
      out, emitSeq := start.out, start.emitSeq;
      pendingSpillOffset, pendingSpillSingleUse, flushingPending := start.pending, start.single, false;
      raxCachedTempOffset, raxCachedEmitSeq := start.cachedOff, start.cachedSeq;
      hasError := false;
    }

    /** The fields as the value the emission functions work on. */
    function State(): Gen
      reads this
    {
      Gen(out, emitSeq, pendingSpillOffset, pendingSpillSingleUse, raxCachedTempOffset, raxCachedEmitSeq)
    }

    /** Between emissions: no error, and not in the middle of writing a promised store. */
    predicate Idle()
      reads this
    {
      !hasError && !flushingPending
    }

    /** What a step that may fail leaves behind. */
    ghost predicate Reached(ok: bool, g: Option<Gen>)
      reads this
    {
      ok == g.Some? && (ok ==> Idle() && State() == g.value) && (!ok ==> hasError)
    }

    // ----- emission -----

    /** One chunk of output. The promised store goes first, unless this chunk is that store. */
    method Append(a: A.Instr)
      requires !hasError
      modifies this
      ensures flushingPending == old(flushingPending) && hasError == old(hasError)
      ensures !old(flushingPending) ==> State() == Emit(old(State()), [a])
      ensures old(flushingPending) ==> State() == old(State()).(out := old(out) + [a], emitSeq := old(emitSeq) + 1)
      decreases if pendingSpillOffset != 0 && !flushingPending then 2 else 0
    {
      if pendingSpillOffset != 0 && !flushingPending {
        FlushPendingSpill();
      }
      emitSeq := emitSeq + 1;
      out := out + [a];
    }

    method FlushPendingSpill()
      requires !hasError
      modifies this
      ensures flushingPending == old(flushingPending) && hasError == old(hasError)
      ensures State() == if old(flushingPending) then old(State()) else Flush(old(State()))
      decreases 1
    {
      if flushingPending || pendingSpillOffset == 0 {
        return;
      }
      var offset := pendingSpillOffset;
      pendingSpillOffset := 0;
      pendingSpillSingleUse := false;
      flushingPending := true;
      Append(A.StoreSlot(offset, A.RAX));
      flushingPending := false;
    }

    method AppendAll(code: Code)
      requires Idle()
      modifies this
      ensures Idle() && State() == Emit(old(State()), code)
    {
      var i := 0;
      while i < |code|
        invariant i <= |code| && Idle()
        invariant State() == Emit(old(State()), code[..i])
      {
        EmitSplit(old(State()), code[..i], [code[i]]);
        assert code[..i] + [code[i]] == code[..i + 1];
        Append(code[i]);
        i := i + 1;
      }
      assert code[..|code|] == code;
    }

    method Fail()
      modifies this
      ensures hasError
    {
      hasError := true;
    }

    // ----- operands -----

    method LoadOperand(o: Ir.Operand) returns (ok: bool)
      requires Idle()
      modifies this
      ensures Reached(ok, Load(old(State()), ctx, o))
    {
      match o
      case Nothing =>
        Append(A.Mov(A.RAX, A.I(0)));
        ok := true;
      case Int(v) =>
        Append(A.Mov(A.RAX, A.I(v)));
        ok := true;
      case Symbol(s) =>
        ok := s in ctx.symbols;
        if !ok {
          Fail();
          return;
        }
        AppendAll([A.Comment, LoadFrom(s, ctx.symbols[s])]);
      case Temp(t) =>
        var offset := ctx.TempOff(t);
        ok := offset > 0;
        if !ok {
          Fail();
          return;
        }
        if offset == pendingSpillOffset && emitSeq == raxCachedEmitSeq {
          if pendingSpillSingleUse {
            pendingSpillOffset := 0;
            pendingSpillSingleUse := false;
          } else {
            FlushPendingSpill();
          }
          return;
        }
        if offset == raxCachedTempOffset && emitSeq == raxCachedEmitSeq {
          return;
        }
        Append(A.LoadSlot(A.RAX, offset));
    }

    method LoadOperandInto(o: Ir.Operand, r: A.Reg) returns (ok: bool)
      requires Idle()
      modifies this
      ensures Reached(ok, LoadInto(old(State()), ctx, o, r))
    {
      ok := LoadOperand(o);
      if ok && r != A.RAX {
        Append(A.Mov(r, A.R(A.RAX)));
      }
    }

    method StoreDestination(d: Ir.Operand) returns (ok: bool)
      requires Idle()
      modifies this
      ensures Reached(ok, Store(old(State()), ctx, d))
    {
      match d
      case Nothing =>
        ok := true;
      case Int(_) =>
        ok := false;
        Fail();
      case Symbol(s) =>
        ok := s in ctx.symbols;
        if !ok {
          Fail();
          return;
        }
        AppendAll([A.Comment, StoreTo(s, ctx.symbols[s])]);
      case Temp(t) =>
        var offset := ctx.TempOff(t);
        ok := offset > 0;
        if !ok {
          Fail();
          return;
        }
        if pendingSpillOffset != 0 && pendingSpillOffset != offset {
          FlushPendingSpill();
        }
        pendingSpillSingleUse := ctx.UseCount(t) == 1;
        pendingSpillOffset := offset;
        raxCachedTempOffset := offset;
        raxCachedEmitSeq := emitSeq;
    }

    // ----- r11 -----

    method TryImmediateForm(op: Ir.BinOp, value: Ir.Operand, literal: Ir.Operand) returns (ok: bool, done: bool)
      requires Idle()
      modifies this
      ensures var r := TryImmediate(old(State()), ctx, op, value, literal);
              ok == r.Some? && (if ok then Idle() && (State(), done) == r.value else hasError)
    {
      ok, done := true, false;
      if SmallInt(literal) {
        ok := LoadOperand(value);
        if !ok { return; }
        var code := ImmediateCode(op, literal.value);
        if code.Some? {
          AppendAll(code.value);
          EmitSplit(Load(old(State()), ctx, value).value, code.value, [A.Mov(A.R11, A.R(A.RAX))]);
          Append(A.Mov(A.R11, A.R(A.RAX)));
          done := true;
        }
      }
    }

    method ComputeBinaryToR11(op: Ir.BinOp, lhs: Ir.Operand, rhs: Ir.Operand) returns (ok: bool)
      requires Idle()
      modifies this
      ensures Reached(ok, ComputeToR11(old(State()), ctx, op, lhs, rhs))
    {
      ComputeSteps(State(), ctx, op, lhs, rhs);
      hide TryImmediate, ByRegisters, ComputeToR11;
      var done;
      ok, done := TryImmediateForm(op, lhs, rhs);
      if !ok || done { return; }
      if Ir.IsCommutative(op) {
        ok, done := TryImmediateForm(op, rhs, lhs);
        if !ok || done { return; }
      }
      ok := ComputeByRegisters(op, lhs, rhs);
    }

    /** Both operands in registers, the result moved to r11. */
    method ComputeByRegisters(op: Ir.BinOp, lhs: Ir.Operand, rhs: Ir.Operand) returns (ok: bool)
      requires Idle()
      modifies this
      ensures Reached(ok, ByRegisters(old(State()), ctx, op, lhs, rhs))
    {
      hide Load, LoadInto, Emit, RegisterCode;
      ok := LoadOperandInto(rhs, A.R10);
      if !ok { return; }
      ok := LoadOperand(lhs);
      if !ok { return; }
      EmitSplit(State(), RegisterCode(op, A.R10), [A.Mov(A.R11, A.R(A.RAX))]);
      AppendAll(RegisterCode(op, A.R10));
      Append(A.Mov(A.R11, A.R(A.RAX)));
    }

    /** rax := the consumer's value, its operand t being in r11. */
    method ConsumeFromR11(b: Ir.Instr, t: string) returns (ok: bool)
      requires Idle() && b.Binary?
      modifies this
      ensures Reached(ok, ConsumeR11(old(State()), ctx, b, t))
    {
      hide Load, LoadInto, Emit, RegisterCode, ImmediateCode;
      var back := [A.Mov(A.RAX, A.R(A.R11))];
      ok := true;
      if b.lhs == Ir.Temp(t) {
        if SmallInt(b.rhs) {
          var code := ImmediateCode(b.op, b.rhs.value);
          if code.Some? { EmitSplit(State(), back, code.value); }
          AppendAll(back);
          if code.Some? {
            AppendAll(code.value);
            return;
          }
        }
        ok := LoadOperandInto(b.rhs, A.R10);
        if !ok { return; }
        EmitSplit(State(), back, RegisterCode(b.op, A.R10));
        AppendAll(back);
        AppendAll(RegisterCode(b.op, A.R10));
      } else {
        if SmallInt(b.lhs) && Ir.IsCommutative(b.op) {
          var code := ImmediateCode(b.op, b.lhs.value);
          if code.Some? { EmitSplit(State(), back, code.value); }
          AppendAll(back);
          if code.Some? {
            AppendAll(code.value);
            return;
          }
        }
        ok := LoadOperand(b.lhs);
        if !ok { return; }
        AppendAll(RegisterCode(b.op, A.R11));
      }
    }

    // ----- instructions -----

    method EmitBinary(b: Ir.Instr) returns (ok: bool)
      requires Idle() && b.Binary?
      modifies this
      ensures Reached(ok, BinaryFallback(old(State()), ctx, b))
    {
      hide Load, LoadInto, Store, Emit, RegisterCode, ImmediateCode, RegisterFastPath, ShiftDivCode, ShiftRemCode;
      ok := true;
      var fast := RegisterFastPath(ctx, b);
      if fast.Some? {
        AppendAll(fast.value);
        return;
      }
      if (b.op.Div? || b.op.Mod?) && b.rhs.Int? {
        var power, shift, mask := ShiftDivision.ExtractPositivePowerOfTwo(b.rhs.value);
        if power {
          ok := LoadOperand(b.lhs);
          if !ok { return; }
          AppendAll(if b.op.Div? then ShiftDivCode(shift, mask) else ShiftRemCode(shift, mask));
          ok := StoreDestination(b.dest);
          return;
        }
      }
      if SmallInt(b.rhs) && ImmediateCode(b.op, b.rhs.value).Some? {
        ok := LoadOperand(b.lhs);
        if !ok { return; }
        AppendAll(ImmediateCode(b.op, b.rhs.value).value);
      } else {
        ok := LoadOperandInto(b.rhs, A.R10);
        if !ok { return; }
        ok := LoadOperand(b.lhs);
        if !ok { return; }
        AppendAll(RegisterCode(b.op, A.R10));
      }
      ok := StoreDestination(b.dest);
    }

    method EmitCompareJump(b: Ir.Instr, jump: A.Cond, l: string) returns (ok: bool)
      requires Idle() && b.Binary?
      modifies this
      ensures Reached(ok, CompareJump(old(State()), ctx, b, jump, l))
    {
      hide Load, LoadInto, Emit;
      var tail := [A.Jcc(jump, A.Named(l))];
      ok := true;
      var test;
      if ctx.RegSymbol(b.lhs) && SmallInt(b.rhs) {
        test := A.Cmp(ctx.RegOf(b.lhs), A.I(b.rhs.value));
      } else if ctx.RegSymbol(b.lhs) && ctx.RegSymbol(b.rhs) {
        test := A.Cmp(ctx.RegOf(b.lhs), A.R(ctx.RegOf(b.rhs)));
      } else if SmallInt(b.rhs) {
        ok := LoadOperand(b.lhs);
        if !ok { return; }
        test := A.Cmp(A.RAX, A.I(b.rhs.value));
      } else {
        ok := LoadOperandInto(b.rhs, A.R10);
        if !ok { return; }
        ok := LoadOperand(b.lhs);
        if !ok { return; }
        test := A.Cmp(A.RAX, A.R(A.R10));
      }
      AppendAll([test] + tail);
    }

    method EmitCompareR11Jump(b: Ir.Instr, t: string, jump: A.Cond, l: string) returns (ok: bool)
      requires Idle() && b.Binary?
      modifies this
      ensures Reached(ok, CompareR11Jump(old(State()), ctx, b, t, jump, l))
    {
      hide Load, LoadInto, Emit;
      var tail := [A.Jcc(jump, A.Named(l))];
      ok := true;
      if b.lhs == Ir.Temp(t) {
        if SmallInt(b.rhs) {
          AppendAll([A.Cmp(A.R11, A.I(b.rhs.value))] + tail);
        } else {
          ok := LoadOperandInto(b.rhs, A.R10);
          if !ok { return; }
          AppendAll([A.Cmp(A.R11, A.R(A.R10))] + tail);
        }
      } else {
        ok := LoadOperand(b.lhs);
        if !ok { return; }
        AppendAll([A.Cmp(A.RAX, A.R(A.R11))] + tail);
      }
    }

    method EmitZeroJump(o: Ir.Operand, jump: A.Cond, l: string) returns (ok: bool)
      requires Idle() && (jump.E? || jump.NE?)
      modifies this
      ensures Reached(ok, ZeroJump(old(State()), ctx, o, jump, l))
    {
      hide Load, Emit;
      var tail := [A.Jcc(jump, A.Named(l))];
      ok := true;
      if o.Int? {
        if (o.value == 0) == jump.E? { AppendAll([A.Jmp(A.Named(l))]); }
      } else if ctx.RegSymbol(o) {
        AppendAll([A.Test(ctx.RegOf(o))] + tail);
      } else if o.Symbol? && o.name in ctx.symbols && ctx.symbols[o.name].InSlot? && ctx.symbols[o.name].off > 0 {
        AppendAll([A.CmpSlotZero(ctx.symbols[o.name].off)] + tail);
      } else if o.Temp? && ctx.TempOff(o.name) > 0 {
        AppendAll([A.CmpSlotZero(ctx.TempOff(o.name))] + tail);
      } else {
        ok := LoadOperand(o);
        if !ok { return; }
        AppendAll([A.Test(A.RAX)] + tail);
      }
    }

    method EmitEqualJump(x: Ir.Operand, y: Ir.Operand, l: string) returns (ok: bool)
      requires Idle()
      modifies this
      ensures Reached(ok, EqualJump(old(State()), ctx, x, y, l))
    {
      hide Load, LoadInto, Emit;
      var tail := [A.Jcc(A.E, A.Named(l))];
      if SmallInt(y) && !x.Int? {
        ok := LoadOperand(x);
        if !ok { return; }
        AppendAll([A.Cmp(A.RAX, A.I(y.value))] + tail);
      } else if !SmallInt(y) && SmallInt(x) && !y.Int? {
        ok := LoadOperand(y);
        if !ok { return; }
        AppendAll([A.Cmp(A.RAX, A.I(x.value))] + tail);
      } else {
        ok := LoadOperandInto(y, A.R10);
        if !ok { return; }
        ok := LoadOperand(x);
        if !ok { return; }
        AppendAll([A.Cmp(A.RAX, A.R(A.R10))] + tail);
      }
    }

    method EmitAssign(d: Ir.Operand, x: Ir.Operand) returns (ok: bool)
      requires Idle()
      modifies this
      ensures Reached(ok, AssignCode(old(State()), ctx, d, x))
    {
      hide Load, Store, Emit;
      ok := true;
      if ctx.RegSymbol(d) && ctx.RegSymbol(x) {
        if ctx.RegOf(d) != ctx.RegOf(x) { AppendAll([A.Mov(ctx.RegOf(d), A.R(ctx.RegOf(x)))]); }
      } else {
        ok := LoadOperand(x);
        if !ok { return; }
        ok := StoreDestination(d);
      }
    }

    method EmitInstruction(a: Ir.Instr) returns (ok: bool)
      requires Idle()
      modifies this
      ensures Reached(ok, Single(old(State()), ctx, a))
      ensures ok <==> Placed(ctx, a)
    {
      hide Load, Store, Emit, ZeroJump, EqualJump, AssignCode, BinaryFallback, Placed;
      SinglePlaced(State(), ctx, a);
      ok := true;
      match a
      case Nop =>
      case DeclareLocal(_) =>
      case Label(l) => AppendAll([A.LabelDef(A.Named(l))]);
      case Jump(l) => AppendAll([A.Jmp(A.Named(l))]);
      case BranchZero(x, l) => ok := EmitZeroJump(x, A.E, l);
      case BranchEq(x, y, l) => ok := EmitEqualJump(x, y, l);
      case Assign(d, x) => ok := EmitAssign(d, x);
      case Unary(d, op, x) =>
        ok := LoadOperand(x);
        if !ok { return; }
        AppendAll(UnaryCode(op));
        ok := StoreDestination(d);
      case Binary(_, _, _, _) => ok := EmitBinary(a);
      case Return(x) =>
        if !x.Nothing? {
          ok := LoadOperand(x);
          if !ok { return; }
        }
        AppendAll([A.Jmp(A.Exit)]);
    }

    // ----- the loop -----

    /** The search for the end of a chain, one link at a time. */
    method FindChainLast(f: Func, i: nat) returns (last: nat)
      requires i < |f| && f[i].Binary?
      ensures last == ChainLast(f, ctx, i)
    {
      last := i;
      while SingleUseTemp(ctx, f[last]) && last + 1 < |f| && ReadsTemp(f[last + 1], f[last].dest.name)
        invariant i <= last < |f| && f[last].Binary?
        invariant ChainLast(f, ctx, last) == ChainLast(f, ctx, i)
        decreases |f| - last
      {
        last := last + 1;
      }
    }

    /** The search for a return that follows at once. */
    method FindReturn(f: Func, i: nat, t: string) returns (found: bool, ret: nat)
      ensures found == ReturnOf(f, i, t).Some? && (found ==> ReturnOf(f, i, t) == Some(ret))
    {
      found, ret := false, i + 1;
      while ret < |f| && f[ret].Nop?
        invariant ret < |f| ==> NextInBlock(f, ret) == NextInBlock(f, i + 1)
        invariant ret >= |f| ==> NextInBlock(f, i + 1) == None
        decreases |f| - ret
      {
        ret := ret + 1;
      }
      found := ret < |f| && f[ret] == Ir.Return(Ir.Temp(t));
    }

    method EmitLinks(f: Func, i: nat, last: nat) returns (ok: bool)
      requires Idle() && i <= last < |f|
      requires forall j :: i <= j <= last ==> f[j].Binary?
      requires forall j :: i <= j < last ==> f[j].dest.Temp?
      modifies this
      ensures Reached(ok, ExtendChain(f, ctx, old(State()), i, last))
    {
      hide ConsumeR11, Emit;
      ok := true;
      var p := i;
      while p < last
        invariant i <= p <= last && Idle()
        invariant ExtendChain(f, ctx, State(), p, last) == ExtendChain(f, ctx, old(State()), i, last)
      {
        ok := ConsumeFromR11(f[p + 1], f[p].dest.name);
        if !ok { return; }
        AppendAll([A.Mov(A.R11, A.R(A.RAX))]);
        p := p + 1;
      }
    }

    method EmitChainTail(f: Func, last: nat) returns (ok: bool, next: nat)
      requires Idle() && last < |f| && f[last].Binary?
      modifies this
      ensures var r := ChainTail(f, ctx, old(State()), last);
              ok == r.Some? && (if ok then Idle() && (State(), next) == r.value else hasError)
    {
      hide Store, Emit, ReturnOf;
      ok, next := true, last + 1;
      if FeedsBranch(f, ctx, last) {
        AppendAll([A.Test(A.R11)] + [A.Jcc(A.E, A.Named(f[last + 1].text))]);
        next := last + 2;
        return;
      }
      var back := [A.Mov(A.RAX, A.R(A.R11))];
      if f[last].dest.Temp? {
        var found, ret := FindReturn(f, last, f[last].dest.name);
        if found {
          EmitSplit(State(), back, [A.Jmp(A.Exit)]);
          AppendAll(back);
          AppendAll([A.Jmp(A.Exit)]);
          next := ret + 1;
          return;
        }
      }
      AppendAll(back);
      ok := StoreDestination(f[last].dest);
    }

    /** The tests of the loop body, in their order. */
    method ChooseShape(f: Func, i: nat) returns (s: Shape)
      requires i < |f|
      ensures s == ShapeAt(f, ctx, i)
    {
      hide ReturnOf, ChainLast;
      if i + 1 == |f| { return Alone; }
      if f[i].Binary? && f[i].dest.Temp? {
        if ctx.UseCount(f[i].dest.name) == 1 {
          var found, ret := FindReturn(f, i, f[i].dest.name);
          if found { return ReturnTemp(ret); }
        }
        var last := FindChainLast(f, i);
        if last >= i + 2 { return Chain(last); }
      }
      if SingleUseTemp(ctx, f[i]) && ReadsTemp(f[i + 1], f[i].dest.name) {
        if i + 2 < |f| && FeedsBranch(f, ctx, i + 1) { return CompareChain; }
        return Pair;
      }
      if FeedsBranch(f, ctx, i) {
        if i + 3 < |f| && f[i + 2].Jump? && f[i + 3] == Ir.Label(f[i + 1].text) { return CompareJumpOver; }
        return CompareBranch;
      }
      if f[i].BranchZero? && i + 2 < |f| && f[i + 1].Jump? && f[i + 2] == Ir.Label(f[i].text) { return JumpOver; }
      return Alone;
    }

    /** One round of the loop. */
    method EmitRound(f: Func, i: nat) returns (ok: bool, next: nat)
      requires Idle() && i < |f|
      modifies this
      ensures var r := Block(f, ctx, old(State()), i);
              ok == r.Some? && (if ok then Idle() && (State(), next) == r.value && i < next <= |f| else hasError)
      ensures ok <==> RoundPlaced(f, ctx, i)
    {
      hide Store, Emit, ComputeToR11, ConsumeR11, ExtendChain, ChainTail, CompareJump, CompareR11Jump, ZeroJump, Single, BinaryFallback,
           ShapeAt, RoundPlaced;
      BlockPlaced(f, ctx, State(), i);
      ok, next := true, i + 1;
      var shape := ChooseShape(f, i);
      match shape
      case ReturnTemp(ret) =>
        ok := EmitBinary(Ir.Binary(Ir.Nothing, f[i].op, f[i].lhs, f[i].rhs));
        if !ok { return; }
        AppendAll([A.Jmp(A.Exit)]);
        next := ret + 1;
      case Chain(last) =>
        ok := ComputeBinaryToR11(f[i].op, f[i].lhs, f[i].rhs);
        if !ok { return; }
        ok := EmitLinks(f, i, last);
        if !ok { return; }
        ok, next := EmitChainTail(f, last);
      case CompareChain =>
        ok := ComputeBinaryToR11(f[i].op, f[i].lhs, f[i].rhs);
        if !ok { return; }
        ok := EmitCompareR11Jump(f[i + 1], f[i].dest.name, FalseJump(f[i + 1].op), f[i + 2].text);
        next := i + 3;
      case Pair =>
        ok := ComputeBinaryToR11(f[i].op, f[i].lhs, f[i].rhs);
        if !ok { return; }
        ok := ConsumeFromR11(f[i + 1], f[i].dest.name);
        if !ok { return; }
        ok := StoreDestination(f[i + 1].dest);
        next := i + 2;
      case CompareJumpOver =>
        ok := EmitCompareJump(f[i], Invert(FalseJump(f[i].op)), f[i + 2].text);
        next := i + 3;
      case CompareBranch =>
        ok := EmitCompareJump(f[i], FalseJump(f[i].op), f[i + 1].text);
        next := i + 2;
      case JumpOver =>
        ok := EmitZeroJump(f[i].lhs, A.NE, f[i + 1].text);
        next := i + 2;
      case Alone =>
        ok := EmitInstruction(f[i]);
    }

    /** The emission loop and the exit label. */
    method Generate(f: Func) returns (ok: bool)
      requires Idle()
      modifies this
      ensures Reached(ok, EmitFunction(f, ctx, old(State())))
      ensures ok <==> RoundsPlaced(f, ctx, 0)
      ensures AllPlaced(f, ctx) ==> ok
    {
      hide Block, Emit, RoundPlaced, AllPlaced;
      FunctionEmitted(f, ctx, State());
      if AllPlaced(f, ctx) { PlacedSuffices(f, ctx, 0); }
      var i := 0;
      while i < |f|
        invariant i <= |f| && Idle()
        invariant EmitFrom(f, ctx, State(), i) == EmitFrom(f, ctx, old(State()), 0)
      {
        ok, i := EmitRound(f, i);
        if !ok { return; }
      }
      ok := true;
      AppendAll([A.LabelDef(A.Exit)]);
    }
  }
}
