/** Where labels end up in the emitted code. */
module CodeLabels {
  import opened Words
  import opened Wrappers
  import opened Emitter
  import opened EmitterProofs
  import Ir
  import A = Asm

  predicate Plain(code: Code) { forall a :: a in code ==> !a.LabelDef? }

  /** Nothing has been cached in the future. */
  predicate Clocked(g: Gen) { g.cachedSeq <= g.emitSeq }

  /** h is g's code followed by code without labels. */
  predicate PlainAfter(g: Gen, h: Gen) {
    g.out <= h.out && Plain(h.out[|g.out|..]) && (Clocked(g) ==> Clocked(h))
  }

  lemma PlainSame(g: Gen, h: Gen)
    requires g.out == h.out && (Clocked(g) ==> Clocked(h))
    ensures PlainAfter(g, h)
  {}

  lemma PlainThen(g: Gen, h: Gen, k: Gen)
    requires PlainAfter(g, h) && PlainAfter(h, k)
    ensures PlainAfter(g, k)
  {
    assert k.out[|g.out|..] == h.out[|g.out|..] + k.out[|h.out|..];
  }

  lemma EmitPlain(g: Gen, code: Code)
    requires Plain(code)
    ensures PlainAfter(g, Emit(g, code))
  {
    if code != [] { assert Emit(g, code).out[|g.out|..] == SpillCode(g) + code; }
  }

  lemma LoadPlain(g: Gen, ctx: Ctx, o: Ir.Operand)
    ensures Load(g, ctx, o).Some? ==> PlainAfter(g, Load(g, ctx, o).value)
  {
    match o
    case Nothing => EmitPlain(g, [A.Mov(A.RAX, A.I(0))]);
    case Int(v) => EmitPlain(g, [A.Mov(A.RAX, A.I(v))]);
    case Symbol(s) =>
      if s in ctx.symbols { EmitPlain(g, [A.Comment, LoadFrom(s, ctx.symbols[s])]); }
    case Temp(t) =>
      EmitPlain(g, [A.LoadSlot(A.RAX, ctx.TempOff(t))]);
      FlushPlain(g);
  }

  lemma FlushPlain(g: Gen)
    ensures PlainAfter(g, Flush(g))
  {
    assert Flush(g).out[|g.out|..] == SpillCode(g);
  }

  lemma LoadIntoPlain(g: Gen, ctx: Ctx, o: Ir.Operand)
    ensures LoadInto(g, ctx, o, A.R10).Some? ==> PlainAfter(g, LoadInto(g, ctx, o, A.R10).value)
  {
    LoadPlain(g, ctx, o);
    var h := Load(g, ctx, o);
    if h.Some? {
      EmitPlain(h.value, [A.Mov(A.R10, A.R(A.RAX))]);
      PlainThen(g, h.value, Emit(h.value, [A.Mov(A.R10, A.R(A.RAX))]));
    }
  }

  lemma StorePlain(g: Gen, ctx: Ctx, d: Ir.Operand)
    ensures Store(g, ctx, d).Some? ==> PlainAfter(g, Store(g, ctx, d).value)
  {
    if d.Symbol? && d.name in ctx.symbols { EmitPlain(g, [A.Comment, StoreTo(d.name, ctx.symbols[d.name])]); }
    FlushPlain(g);
    PlainSame(g, g);
  }

  lemma OperatorPlain(op: Ir.BinOp, r: A.Reg, v: Word)
    ensures Plain(RegisterCode(op, r)) && (ImmediateCode(op, v).Some? ==> Plain(ImmediateCode(op, v).value))
  {}

  /** Load an operand, then emit plain code. */
  lemma LoadEmitPlain(g: Gen, ctx: Ctx, o: Ir.Operand, code: Code)
    requires Plain(code)
    ensures Load(g, ctx, o).Some? ==> PlainAfter(g, Emit(Load(g, ctx, o).value, code))
  {
    LoadPlain(g, ctx, o);
    var h := Load(g, ctx, o);
    if h.Some? {
      EmitPlain(h.value, code);
      PlainThen(g, h.value, Emit(h.value, code));
    }
  }

  /** Load both operands, then emit plain code. */
  lemma LoadBothPlain(g: Gen, ctx: Ctx, x: Ir.Operand, y: Ir.Operand, code: Code)
    requires Plain(code)
    ensures var h := LoadInto(g, ctx, y, A.R10);
            h.Some? && Load(h.value, ctx, x).Some? ==> PlainAfter(g, Emit(Load(h.value, ctx, x).value, code))
  {
    LoadIntoPlain(g, ctx, y);
    var h := LoadInto(g, ctx, y, A.R10);
    if h.Some? && Load(h.value, ctx, x).Some? {
      LoadEmitPlain(h.value, ctx, x, code);
      PlainThen(g, h.value, Emit(Load(h.value, ctx, x).value, code));
    }
  }

  lemma TryImmediatePlain(g: Gen, ctx: Ctx, op: Ir.BinOp, value: Ir.Operand, literal: Ir.Operand)
    ensures TryImmediate(g, ctx, op, value, literal).Some? ==> PlainAfter(g, TryImmediate(g, ctx, op, value, literal).value.0)
  {
    PlainSame(g, g);
    if SmallInt(literal) {
      LoadPlain(g, ctx, value);
      OperatorPlain(op, A.R10, literal.value);
      var code := ImmediateCode(op, literal.value);
      hide ImmediateCode;
      if code.Some? { LoadEmitPlain(g, ctx, value, code.value + [A.Mov(A.R11, A.R(A.RAX))]); }
    }
  }

  /** The form that brings both operands into registers. */
  lemma RegistersPlain(g: Gen, ctx: Ctx, op: Ir.BinOp, lhs: Ir.Operand, rhs: Ir.Operand)
    ensures var h := LoadInto(g, ctx, rhs, A.R10);
            h.Some? && Load(h.value, ctx, lhs).Some? ==>
              PlainAfter(g, Emit(Load(h.value, ctx, lhs).value, RegisterCode(op, A.R10) + [A.Mov(A.R11, A.R(A.RAX))]))
  {
    OperatorPlain(op, A.R10, 0);
    OnePlain(A.Mov(A.R11, A.R(A.RAX)));
    hide *;
    PlainConcat(RegisterCode(op, A.R10), [A.Mov(A.R11, A.R(A.RAX))]);
    LoadBothPlain(g, ctx, lhs, rhs, RegisterCode(op, A.R10) + [A.Mov(A.R11, A.R(A.RAX))]);
  }

  /** The second try, with the operands exchanged. */
  function SecondTry(g: Gen, ctx: Ctx, op: Ir.BinOp, lhs: Ir.Operand, rhs: Ir.Operand): Option<(Gen, bool)> {
    if Ir.IsCommutative(op) then TryImmediate(g, ctx, op, rhs, lhs) else Some((g, false))
  }

  lemma SecondTryPlain(g: Gen, ctx: Ctx, op: Ir.BinOp, lhs: Ir.Operand, rhs: Ir.Operand)
    ensures SecondTry(g, ctx, op, lhs, rhs).Some? ==> PlainAfter(g, SecondTry(g, ctx, op, lhs, rhs).value.0)
  {
    hide TryImmediate;
    TryImmediatePlain(g, ctx, op, rhs, lhs);
    PlainSame(g, g);
  }

  /** Which of the three forms it is. */
  lemma ComputeForms(g: Gen, ctx: Ctx, op: Ir.BinOp, lhs: Ir.Operand, rhs: Ir.Operand)
    requires ComputeToR11(g, ctx, op, lhs, rhs).Some?
    ensures var r, first := ComputeToR11(g, ctx, op, lhs, rhs).value, TryImmediate(g, ctx, op, lhs, rhs);
            first.Some? &&
            if first.value.1 then r == first.value.0
            else
              var second := SecondTry(first.value.0, ctx, op, lhs, rhs);
              second.Some? &&
              if second.value.1 then r == second.value.0
              else
                var h := LoadInto(second.value.0, ctx, rhs, A.R10);
                h.Some? && Load(h.value, ctx, lhs).Some? &&
                r == Emit(Load(h.value, ctx, lhs).value, RegisterCode(op, A.R10) + [A.Mov(A.R11, A.R(A.RAX))])
  {
    hide TryImmediate, RegisterCode, Emit, Load, LoadInto, Ir.IsCommutative;
  }

  lemma ComputePlain(g: Gen, ctx: Ctx, op: Ir.BinOp, lhs: Ir.Operand, rhs: Ir.Operand)
    ensures ComputeToR11(g, ctx, op, lhs, rhs).Some? ==> PlainAfter(g, ComputeToR11(g, ctx, op, lhs, rhs).value)
  {
    hide *;
    if ComputeToR11(g, ctx, op, lhs, rhs).Some? {
      var r := ComputeToR11(g, ctx, op, lhs, rhs).value;
      ComputeForms(g, ctx, op, lhs, rhs);
      TryImmediatePlain(g, ctx, op, lhs, rhs);
      var first := TryImmediate(g, ctx, op, lhs, rhs).value;
      if !first.1 {
        SecondTryPlain(first.0, ctx, op, lhs, rhs);
        var second := SecondTry(first.0, ctx, op, lhs, rhs).value;
        PlainThen(g, first.0, second.0);
        if !second.1 {
          RegistersPlain(second.0, ctx, op, lhs, rhs);
          PlainThen(g, second.0, r);
        }
      }
    }
  }

  lemma OnePlain(a: A.Instr)
    requires !a.LabelDef?
    ensures Plain([a])
  {}

  lemma PlainConcat(a: Code, b: Code)
    requires Plain(a) && Plain(b)
    ensures Plain(a + b)
  {}

  lemma ConsumePlain(g: Gen, ctx: Ctx, b: Ir.Instr, t: string)
    requires b.Binary?
    ensures ConsumeR11(g, ctx, b, t).Some? ==> PlainAfter(g, ConsumeR11(g, ctx, b, t).value)
  {
    var back := [A.Mov(A.RAX, A.R(A.R11))];
    OperatorPlain(b.op, A.R10, if b.lhs == Ir.Temp(t) then (if b.rhs.Int? then b.rhs.value else 0) else if b.lhs.Int? then b.lhs.value else 0);
    OperatorPlain(b.op, A.R11, 0);
    hide RegisterCode, ImmediateCode, Emit, Load, LoadInto;
    EmitPlain(g, back);
    PlainSame(g, g);
    if b.lhs == Ir.Temp(t) {
      if SmallInt(b.rhs) && ImmediateCode(b.op, b.rhs.value).Some? {
        EmitPlain(g, back + ImmediateCode(b.op, b.rhs.value).value);
      } else {
        var g1 := if SmallInt(b.rhs) then Emit(g, back) else g;
        LoadIntoPlain(g1, ctx, b.rhs);
        var g2 := LoadInto(g1, ctx, b.rhs, A.R10);
        if g2.Some? {
          PlainThen(g, g1, g2.value);
          EmitPlain(g2.value, back + RegisterCode(b.op, A.R10));
          PlainThen(g, g2.value, Emit(g2.value, back + RegisterCode(b.op, A.R10)));
        }
      }
    } else if SmallInt(b.lhs) && Ir.IsCommutative(b.op) && ImmediateCode(b.op, b.lhs.value).Some? {
      EmitPlain(g, back + ImmediateCode(b.op, b.lhs.value).value);
    } else {
      var g1 := if SmallInt(b.lhs) && Ir.IsCommutative(b.op) then Emit(g, back) else g;
      LoadEmitPlain(g1, ctx, b.lhs, RegisterCode(b.op, A.R11));
      var g2 := Load(g1, ctx, b.lhs);
      if g2.Some? { PlainThen(g, g1, Emit(g2.value, RegisterCode(b.op, A.R11))); }
    }
  }

  lemma ShiftPlain(k: nat, mask: Word)
    requires k < 63
    ensures Plain(ShiftDivCode(k, mask)) && Plain(ShiftRemCode(k, mask))
  {}

  lemma StoreAfter(g: Gen, h: Gen, ctx: Ctx, d: Ir.Operand)
    requires PlainAfter(g, h)
    ensures Store(h, ctx, d).Some? ==> PlainAfter(g, Store(h, ctx, d).value)
  {
    StorePlain(h, ctx, d);
    if Store(h, ctx, d).Some? { PlainThen(g, h, Store(h, ctx, d).value); }
  }

  lemma FallbackPlain(g: Gen, ctx: Ctx, b: Ir.Instr)
    requires b.Binary?
    ensures BinaryFallback(g, ctx, b).Some? ==> PlainAfter(g, BinaryFallback(g, ctx, b).value)
  {
    OperatorPlain(b.op, A.R10, if b.rhs.Int? then b.rhs.value else 0);
    var fast := RegisterFastPath(ctx, b);
    if fast.Some? {
      assert Plain(fast.value);
      EmitPlain(g, fast.value);
    } else {
      hide RegisterFastPath, RegisterCode, ImmediateCode, Emit, Load, LoadInto, Store, PowerOfTwo, ShiftDivCode, ShiftRemCode;
      if (b.op.Div? || b.op.Mod?) && b.rhs.Int? && PowerOfTwo(b.rhs.value).Some? {
        var k := PowerOfTwo(b.rhs.value).value;
        var mask: Word := b.rhs.value - 1;
        ShiftPlain(k, mask);
        var code := if b.op.Div? then ShiftDivCode(k, mask) else ShiftRemCode(k, mask);
        LoadEmitPlain(g, ctx, b.lhs, code);
        if Load(g, ctx, b.lhs).Some? { StoreAfter(g, Emit(Load(g, ctx, b.lhs).value, code), ctx, b.dest); }
      } else if SmallInt(b.rhs) && ImmediateCode(b.op, b.rhs.value).Some? {
        var code := ImmediateCode(b.op, b.rhs.value).value;
        LoadEmitPlain(g, ctx, b.lhs, code);
        if Load(g, ctx, b.lhs).Some? { StoreAfter(g, Emit(Load(g, ctx, b.lhs).value, code), ctx, b.dest); }
      } else {
        LoadBothPlain(g, ctx, b.lhs, b.rhs, RegisterCode(b.op, A.R10));
        var h := LoadInto(g, ctx, b.rhs, A.R10);
        if h.Some? && Load(h.value, ctx, b.lhs).Some? {
          StoreAfter(g, Emit(Load(h.value, ctx, b.lhs).value, RegisterCode(b.op, A.R10)), ctx, b.dest);
        }
      }
    }
  }

  lemma JumpsPlain(g: Gen, ctx: Ctx, b: Ir.Instr, c: A.Cond, l: string)
    requires b.Binary?
    ensures CompareJump(g, ctx, b, c, l).Some? ==> PlainAfter(g, CompareJump(g, ctx, b, c, l).value)
  {
    var j := [A.Jcc(c, A.Named(l))];
    if ctx.RegSymbol(b.lhs) && SmallInt(b.rhs) {
      EmitPlain(g, [A.Cmp(ctx.RegOf(b.lhs), A.I(b.rhs.value))] + j);
    } else if ctx.RegSymbol(b.lhs) && ctx.RegSymbol(b.rhs) {
      EmitPlain(g, [A.Cmp(ctx.RegOf(b.lhs), A.R(ctx.RegOf(b.rhs)))] + j);
    } else {
      if SmallInt(b.rhs) { LoadEmitPlain(g, ctx, b.lhs, [A.Cmp(A.RAX, A.I(b.rhs.value))] + j); }
      LoadBothPlain(g, ctx, b.lhs, b.rhs, [A.Cmp(A.RAX, A.R(A.R10))] + j);
    }
  }

  lemma CompareR11Plain(g: Gen, ctx: Ctx, b: Ir.Instr, t: string, c: A.Cond, l: string)
    requires b.Binary?
    ensures CompareR11Jump(g, ctx, b, t, c, l).Some? ==> PlainAfter(g, CompareR11Jump(g, ctx, b, t, c, l).value)
  {
    var j := [A.Jcc(c, A.Named(l))];
    if SmallInt(b.rhs) { EmitPlain(g, [A.Cmp(A.R11, A.I(b.rhs.value))] + j); }
    LoadEmitPlain(g, ctx, b.lhs, [A.Cmp(A.RAX, A.R(A.R11))] + j);
    LoadIntoPlain(g, ctx, b.rhs);
    var h := LoadInto(g, ctx, b.rhs, A.R10);
    if h.Some? {
      EmitPlain(h.value, [A.Cmp(A.R11, A.R(A.R10))] + j);
      PlainThen(g, h.value, Emit(h.value, [A.Cmp(A.R11, A.R(A.R10))] + j));
    }
  }

  lemma ZeroJumpPlain(g: Gen, ctx: Ctx, o: Ir.Operand, c: A.Cond, l: string)
    requires c.E? || c.NE?
    ensures ZeroJump(g, ctx, o, c, l).Some? ==> PlainAfter(g, ZeroJump(g, ctx, o, c, l).value)
  {
    var j := [A.Jcc(c, A.Named(l))];
    PlainSame(g, g);
    EmitPlain(g, [A.Jmp(A.Named(l))]);
    if ctx.RegSymbol(o) { EmitPlain(g, [A.Test(ctx.RegOf(o))] + j); }
    if o.Symbol? && o.name in ctx.symbols && ctx.symbols[o.name].InSlot? {
      EmitPlain(g, [A.CmpSlotZero(ctx.symbols[o.name].off)] + j);
    }
    if o.Temp? { EmitPlain(g, [A.CmpSlotZero(ctx.TempOff(o.name))] + j); }
    LoadEmitPlain(g, ctx, o, [A.Test(A.RAX)] + j);
  }

  lemma EqualJumpPlain(g: Gen, ctx: Ctx, x: Ir.Operand, y: Ir.Operand, l: string)
    ensures EqualJump(g, ctx, x, y, l).Some? ==> PlainAfter(g, EqualJump(g, ctx, x, y, l).value)
  {
    var j := [A.Jcc(A.E, A.Named(l))];
    if SmallInt(y) { LoadEmitPlain(g, ctx, x, [A.Cmp(A.RAX, A.I(y.value))] + j); }
    if SmallInt(x) { LoadEmitPlain(g, ctx, y, [A.Cmp(A.RAX, A.I(x.value))] + j); }
    LoadBothPlain(g, ctx, x, y, [A.Cmp(A.RAX, A.R(A.R10))] + j);
  }

  lemma AssignPlain(g: Gen, ctx: Ctx, d: Ir.Operand, x: Ir.Operand)
    ensures AssignCode(g, ctx, d, x).Some? ==> PlainAfter(g, AssignCode(g, ctx, d, x).value)
  {
    if ctx.RegSymbol(d) && ctx.RegSymbol(x) {
      PlainSame(g, g);
      EmitPlain(g, [A.Mov(ctx.RegOf(d), A.R(ctx.RegOf(x)))]);
    } else {
      LoadPlain(g, ctx, x);
      var h := Load(g, ctx, x);
      if h.Some? { StoreAfter(g, h.value, ctx, d); }
    }
  }

  lemma SinglePlain(g: Gen, ctx: Ctx, a: Ir.Instr)
    requires !a.Label?
    ensures Single(g, ctx, a).Some? ==> PlainAfter(g, Single(g, ctx, a).value)
  {
    hide BinaryFallback, ZeroJump, EqualJump, AssignCode, Load, Store, Emit, PlainAfter;
    match a
    case Nop => PlainSame(g, g);
    case DeclareLocal(_) => PlainSame(g, g);
    case Jump(l) => EmitPlain(g, [A.Jmp(A.Named(l))]);
    case BranchZero(x, l) => ZeroJumpPlain(g, ctx, x, A.E, l);
    case BranchEq(x, y, l) => EqualJumpPlain(g, ctx, x, y, l);
    case Assign(d, x) => AssignPlain(g, ctx, d, x);
    case Unary(d, op, x) =>
      LoadEmitPlain(g, ctx, x, UnaryCode(op));
      if Load(g, ctx, x).Some? { StoreAfter(g, Emit(Load(g, ctx, x).value, UnaryCode(op)), ctx, d); }
    case Binary(_, _, _, _) => FallbackPlain(g, ctx, a);
    case Return(x) =>
      EmitPlain(g, [A.Jmp(A.Exit)]);
      LoadEmitPlain(g, ctx, x, [A.Jmp(A.Exit)]);
  }

  lemma {:induction false} ExtendPlain(f: Func, ctx: Ctx, g: Gen, i: nat, last: nat)
    requires i <= last < |f|
    requires forall j :: i <= j <= last ==> f[j].Binary?
    requires forall j :: i <= j < last ==> f[j].dest.Temp?
    ensures ExtendChain(f, ctx, g, i, last).Some? ==> PlainAfter(g, ExtendChain(f, ctx, g, i, last).value)
    decreases last - i
  {
    hide ConsumeR11, Emit, PlainAfter;
    if i == last {
      PlainSame(g, g);
    } else {
      var h := ConsumeR11(g, ctx, f[i + 1], f[i].dest.name);
      if h.Some? {
        var copy := [A.Mov(A.R11, A.R(A.RAX))];
        ConsumePlain(g, ctx, f[i + 1], f[i].dest.name);
        EmitPlain(h.value, copy);
        PlainThen(g, h.value, Emit(h.value, copy));
        ExtendPlain(f, ctx, Emit(h.value, copy), i + 1, last);
        var k := ExtendChain(f, ctx, g, i, last);
        if k.Some? { PlainThen(g, Emit(h.value, copy), k.value); }
      }
    }
  }

  lemma TailPlain(f: Func, ctx: Ctx, k: Gen, last: nat)
    requires last < |f| && f[last].Binary?
    ensures ChainTail(f, ctx, k, last).Some? ==> PlainAfter(k, ChainTail(f, ctx, k, last).value.0)
  {
    hide ReturnOf, Store, Emit, PlainAfter;
    var back := [A.Mov(A.RAX, A.R(A.R11))];
    if FeedsBranch(f, ctx, last) { EmitPlain(k, [A.Test(A.R11)] + [A.Jcc(A.E, A.Named(f[last + 1].text))]); }
    EmitPlain(k, back + [A.Jmp(A.Exit)]);
    EmitPlain(k, back);
    StoreAfter(k, Emit(k, back), ctx, f[last].dest);
  }

  /** Only a label instruction puts a label into the code. */
  lemma BlockPlain(f: Func, ctx: Ctx, g: Gen, i: nat)
    requires i < |f| && !f[i].Label?
    ensures Block(f, ctx, g, i).Some? ==> PlainAfter(g, Block(f, ctx, g, i).value.0)
  {
    hide ShapeAt, BinaryFallback, ComputeToR11, CompareJump, ConsumeR11, ReturnOf, CompareR11Jump, ZeroJump, Single, Emit, Store,
         ExtendChain, ChainTail, PlainAfter;
    match ShapeAt(f, ctx, i)
    case ReturnTemp(_) =>
      var b := Ir.Binary(Ir.Nothing, f[i].op, f[i].lhs, f[i].rhs);
      FallbackPlain(g, ctx, b);
      var h := BinaryFallback(g, ctx, b);
      if h.Some? {
        EmitPlain(h.value, [A.Jmp(A.Exit)]);
        PlainThen(g, h.value, Emit(h.value, [A.Jmp(A.Exit)]));
      }
    case Chain(last) =>
      ComputePlain(g, ctx, f[i].op, f[i].lhs, f[i].rhs);
      var h := ComputeToR11(g, ctx, f[i].op, f[i].lhs, f[i].rhs);
      if h.Some? {
        ExtendPlain(f, ctx, h.value, i, last);
        var k := ExtendChain(f, ctx, h.value, i, last);
        if k.Some? {
          TailPlain(f, ctx, k.value, last);
          PlainThen(g, h.value, k.value);
          var e := ChainTail(f, ctx, k.value, last);
          if e.Some? { PlainThen(g, k.value, e.value.0); }
        }
      }
    case CompareChain =>
      ComputePlain(g, ctx, f[i].op, f[i].lhs, f[i].rhs);
      var h := ComputeToR11(g, ctx, f[i].op, f[i].lhs, f[i].rhs);
      if h.Some? {
        CompareR11Plain(h.value, ctx, f[i + 1], f[i].dest.name, FalseJump(f[i + 1].op), f[i + 2].text);
        var k := CompareR11Jump(h.value, ctx, f[i + 1], f[i].dest.name, FalseJump(f[i + 1].op), f[i + 2].text);
        if k.Some? { PlainThen(g, h.value, k.value); }
      }
    case Pair =>
      ComputePlain(g, ctx, f[i].op, f[i].lhs, f[i].rhs);
      var h := ComputeToR11(g, ctx, f[i].op, f[i].lhs, f[i].rhs);
      if h.Some? {
        ConsumePlain(h.value, ctx, f[i + 1], f[i].dest.name);
        var k := ConsumeR11(h.value, ctx, f[i + 1], f[i].dest.name);
        if k.Some? {
          PlainThen(g, h.value, k.value);
          StoreAfter(g, k.value, ctx, f[i + 1].dest);
        }
      }
    case CompareJumpOver => JumpsPlain(g, ctx, f[i], Invert(FalseJump(f[i].op)), f[i + 2].text);
    case CompareBranch => JumpsPlain(g, ctx, f[i], FalseJump(f[i].op), f[i + 1].text);
    case JumpOver => ZeroJumpPlain(g, ctx, f[i].lhs, A.NE, f[i + 1].text);
    case Alone => SinglePlain(g, ctx, f[i]);
  }

  /** A label instruction is a round of its own. */
  lemma BlockLabel(f: Func, ctx: Ctx, g: Gen, i: nat)
    requires i < |f| && f[i].Label?
    ensures Block(f, ctx, g, i) == Some((Emit(g, [A.LabelDef(A.Named(f[i].text))]), i + 1))
  {}

  /** No round starts before a label and ends after it. */
  lemma BlockStopsAtLabels(f: Func, ctx: Ctx, g: Gen, i: nat, k: nat)
    requires i < |f| && Block(f, ctx, g, i).Some? && i < k < Block(f, ctx, g, i).value.1
    ensures !f[k].Label?
  {
    hide BinaryFallback, ComputeToR11, CompareJump, ConsumeR11, CompareR11Jump, ZeroJump, Single, Emit, Store, ExtendChain;
  }
}
