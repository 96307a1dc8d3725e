/** What the IR backend emits, as functions of the generator's state: delayed spills, the
    operand loads and stores on top of them, and the emission loop with its fusions.
    CodeGenerator.dfy is the same code over mutable fields, proved equal to these functions. */
module Emitter {
  import opened Words
  import opened Wrappers
  import Ir
  import A = Asm

  type Func = seq<Ir.Instr>
  type Code = seq<A.Instr>

  datatype Loc = InReg(reg: A.Reg) | InSlot(off: int) | InGlobal

  /** Where symbols and temps live, and how often each temp is used. */
  datatype Ctx = Ctx(symbols: map<string, Loc>, tempOffset: map<string, int>, uses: map<string, nat>) {
    function TempOff(t: string): int { if t in tempOffset then tempOffset[t] else -1 }

    function UseCount(t: string): nat { if t in uses then uses[t] else 0 }

    predicate RegSymbol(o: Ir.Operand) {
      o.Symbol? && o.name in symbols && symbols[o.name].InReg?
    }

    function RegOf(o: Ir.Operand): A.Reg
      requires RegSymbol(o)
    {
      symbols[o.name].reg
    }
  }

  /** The generator's fields that matter for emission. `pending` is the frame offset of a
      store that has been promised but not written (0: none), `single` whether the stored
      temp has one static use, and the `cached` pair names the slot whose value rax held
      when `emitSeq` had the recorded value. */
  datatype Gen = Gen(out: Code, emitSeq: nat, pending: int, single: bool, cachedOff: int, cachedSeq: nat)

  // ----- spills -----

  function SpillCode(g: Gen): Code {
    if g.pending == 0 then [] else [A.StoreSlot(g.pending, A.RAX)]
  }

  function Flush(g: Gen): Gen {
    if g.pending == 0 then g
    else g.(out := g.out + SpillCode(g), emitSeq := g.emitSeq + 1, pending := 0, single := false)
  }

  /** Emitting several chunks: the promised store goes out before the first of them. */
  function Emit(g: Gen, code: Code): Gen {
    if code == [] then g
    else
      var h := Flush(g);
      h.(out := h.out + code, emitSeq := h.emitSeq + |code|)
  }

  // ----- operands -----

  function LoadFrom(s: string, loc: Loc): A.Instr {
    match loc
    case InReg(r) => A.Mov(A.RAX, A.R(r))
    case InSlot(off) => A.LoadSlot(A.RAX, off)
    case InGlobal => A.LoadGlobal(A.RAX, s)
  }

  function StoreTo(s: string, loc: Loc): A.Instr {
    match loc
    case InReg(r) => A.Mov(r, A.R(A.RAX))
    case InSlot(off) => A.StoreSlot(off, A.RAX)
    case InGlobal => A.StoreGlobal(s, A.RAX)
  }

  function LoadTemp(g: Gen, off: int): Gen {
    if off == g.pending && g.emitSeq == g.cachedSeq then
      if g.single then g.(pending := 0, single := false) else Flush(g)
    else if off == g.cachedOff && g.emitSeq == g.cachedSeq then g
    else Emit(g, [A.LoadSlot(A.RAX, off)])
  }

  /** Bring an operand into rax; fails on unknown names. */
  function Load(g: Gen, ctx: Ctx, o: Ir.Operand): Option<Gen> {
    match o
    case Nothing => Some(Emit(g, [A.Mov(A.RAX, A.I(0))]))
    case Int(v) => Some(Emit(g, [A.Mov(A.RAX, A.I(v))]))
    case Symbol(s) =>
      if s in ctx.symbols then Some(Emit(g, [A.Comment, LoadFrom(s, ctx.symbols[s])])) else None
    case Temp(t) =>
      if ctx.TempOff(t) <= 0 then None else Some(LoadTemp(g, ctx.TempOff(t)))
  }

  function LoadInto(g: Gen, ctx: Ctx, o: Ir.Operand, r: A.Reg): Option<Gen> {
    var h :- Load(g, ctx, o);
    Some(if r == A.RAX then h else Emit(h, [A.Mov(r, A.R(A.RAX))]))
  }

  function StoreTemp(g: Gen, off: int, single: bool): Gen {
    var h := if g.pending != 0 && g.pending != off then Flush(g) else g;
    h.(pending := off, single := single, cachedOff := off, cachedSeq := h.emitSeq)
  }

  /** Record rax as the value of a destination; a temp's store is only promised. */
  function Store(g: Gen, ctx: Ctx, d: Ir.Operand): Option<Gen> {
    match d
    case Nothing => Some(g)
    case Int(_) => None
    case Symbol(s) =>
      if s in ctx.symbols then Some(Emit(g, [A.Comment, StoreTo(s, ctx.symbols[s])])) else None
    case Temp(t) =>
      if ctx.TempOff(t) <= 0 then None
      else Some(StoreTemp(g, ctx.TempOff(t), ctx.UseCount(t) == 1))
  }

  // ----- operators -----

  function CondOf(op: Ir.BinOp): A.Cond
    requires Ir.IsComparison(op)
  {
    match op
    case Eq => A.E case Ne => A.NE case Lt => A.L case Le => A.LE case Gt => A.G case Ge => A.GE
  }

  /** The jump taken when the comparison is false. */
  function FalseJump(op: Ir.BinOp): A.Cond
    requires Ir.IsComparison(op)
  {
    match op
    case Eq => A.NE case Ne => A.E case Lt => A.GE case Le => A.G case Gt => A.LE case Ge => A.L
  }

  function Invert(c: A.Cond): A.Cond {
    match c
    case E => A.NE case NE => A.E case L => A.GE case GE => A.L case LE => A.G case G => A.LE
  }

  function AluOf(op: Ir.BinOp): Option<A.AluOp> {
    match op
    case Add => Some(A.AddOp) case Sub => Some(A.SubOp) case Mul => Some(A.ImulOp)
    case And => Some(A.AndOp) case Or => Some(A.OrOp) case Xor => Some(A.XorOp)
    case _ => None
  }

  function ShiftOf(op: Ir.BinOp): A.ShiftOp {
    if op.Shl? then A.ShlOp else A.SarOp
  }

  /** rax := rax op imm, or None where the literal form is refused. */
  function ImmediateCode(op: Ir.BinOp, v: Word): Option<Code> {
    if AluOf(op).Some? then Some([A.Alu(AluOf(op).value, A.RAX, A.I(v))])
    else if op.Shl? || op.Shr? then
      if 0 <= v < 64 then Some([A.ShiftImm(ShiftOf(op), A.RAX, v)]) else None
    else if Ir.IsComparison(op) then
      Some([A.Cmp(A.RAX, A.I(v)), A.Setcc(CondOf(op)), A.MovzxAl])
    else None
  }

  /** rax := rax op r. */
  function RegisterCode(op: Ir.BinOp, r: A.Reg): Code {
    if AluOf(op).Some? then [A.Alu(AluOf(op).value, A.RAX, A.R(r))]
    else if op.Div? || op.Mod? then
      (if r != A.R10 then [A.Mov(A.R10, A.R(r))] else []) + [A.Cqo, A.Idiv(A.R10)]
      + (if op.Mod? then [A.Mov(A.RAX, A.R(A.RDX))] else [])
    else if op.Shl? || op.Shr? then
      (if r != A.RCX then [A.Mov(A.RCX, A.R(r))] else []) + [A.ShiftCl(ShiftOf(op), A.RAX)]
    else if op.LogAnd? then [A.Cmp(A.RAX, A.R(r)), A.Alu(A.AndOp, A.RAX, A.R(r)), A.Setcc(A.NE), A.MovzxAl]
    else if op.LogOr? then [A.Cmp(A.RAX, A.R(r)), A.Alu(A.OrOp, A.RAX, A.R(r)), A.Setcc(A.NE), A.MovzxAl]
    else if Ir.IsComparison(op) then [A.Cmp(A.RAX, A.R(r)), A.Setcc(CondOf(op)), A.MovzxAl]
    else []
  }

  predicate SmallInt(o: Ir.Operand) { o.Int? && A.Fits32(o.value) }

  /** Tries `value op literal` with the literal as an immediate. The value is loaded before
      the operator is known to have an immediate form. */
  function TryImmediate(g: Gen, ctx: Ctx, op: Ir.BinOp, value: Ir.Operand, literal: Ir.Operand): Option<(Gen, bool)> {
    if !SmallInt(literal) then Some((g, false))
    else
      var h :- Load(g, ctx, value);
      match ImmediateCode(op, literal.value)
      case Some(code) => Some((Emit(h, code + [A.Mov(A.R11, A.R(A.RAX))]), true))
      case None => Some((h, false))
  }

  /** r11 := lhs op rhs. */
  function ComputeToR11(g: Gen, ctx: Ctx, op: Ir.BinOp, lhs: Ir.Operand, rhs: Ir.Operand): Option<Gen> {
    var first :- TryImmediate(g, ctx, op, lhs, rhs);
    if first.1 then Some(first.0)
    else
      var second :- if Ir.IsCommutative(op) then TryImmediate(first.0, ctx, op, rhs, lhs) else Some((first.0, false));
      if second.1 then Some(second.0)
      else
        var h :- LoadInto(second.0, ctx, rhs, A.R10);
        var k :- Load(h, ctx, lhs);
        Some(Emit(k, RegisterCode(op, A.R10) + [A.Mov(A.R11, A.R(A.RAX))]))
  }

  /** rax := the consumer's value, the producer's being in r11. */
  function ConsumeR11(g: Gen, ctx: Ctx, b: Ir.Instr, t: string): Option<Gen>
    requires b.Binary?
  {
    if b.lhs == Ir.Temp(t) then
      if SmallInt(b.rhs) && ImmediateCode(b.op, b.rhs.value).Some? then
        Some(Emit(g, [A.Mov(A.RAX, A.R(A.R11))] + ImmediateCode(b.op, b.rhs.value).value))
      else
        var g1 := if SmallInt(b.rhs) then Emit(g, [A.Mov(A.RAX, A.R(A.R11))]) else g;
        var g2 :- LoadInto(g1, ctx, b.rhs, A.R10);
        Some(Emit(g2, [A.Mov(A.RAX, A.R(A.R11))] + RegisterCode(b.op, A.R10)))
    else
      if SmallInt(b.lhs) && Ir.IsCommutative(b.op) && ImmediateCode(b.op, b.lhs.value).Some? then
        Some(Emit(g, [A.Mov(A.RAX, A.R(A.R11))] + ImmediateCode(b.op, b.lhs.value).value))
      else
        var g1 := if SmallInt(b.lhs) && Ir.IsCommutative(b.op) then Emit(g, [A.Mov(A.RAX, A.R(A.R11))]) else g;
        var g2 :- Load(g1, ctx, b.lhs);
        Some(Emit(g2, RegisterCode(b.op, A.R11)))
  }

  // ----- one binary instruction on its own -----

  function FastAlu(op: Ir.BinOp): bool { op.Add? || op.Sub? || op.And? || op.Or? || op.Xor? }

  /** Arithmetic directly between promoted registers, or None where it does not apply. */
  function RegisterFastPath(ctx: Ctx, b: Ir.Instr): Option<Code>
    requires b.Binary?
  {
    if !FastAlu(b.op) || !ctx.RegSymbol(b.dest) || !ctx.RegSymbol(b.lhs) then None
    else
      var alu := AluOf(b.op).value;
      var d := ctx.RegOf(b.dest);
      if SmallInt(b.rhs) && b.lhs == b.dest then Some([A.Alu(alu, d, A.I(b.rhs.value))])
      else if !ctx.RegSymbol(b.rhs) then None
      else if b.dest == b.lhs then Some([A.Alu(alu, d, A.R(ctx.RegOf(b.rhs)))])
      else if b.dest == b.rhs then
        if b.op.Sub? then None else Some([A.Alu(alu, d, A.R(ctx.RegOf(b.lhs)))])
      else Some([A.Mov(d, A.R(ctx.RegOf(b.lhs))), A.Alu(alu, d, A.R(ctx.RegOf(b.rhs)))])
  }

  /** log2 of a positive power of two, or None. */
  function PowerOfTwo(v: Word): (k: Option<nat>)
    ensures k.Some? ==> k.value < 63 && v == Pow2(k.value)
  {
    if v <= 0 then None
    else if v == 1 then Some(0)
    else if v % 2 != 0 then None
    else
      match PowerOfTwo(v / 2)
      case Some(k) => WordPower(v, k + 1); Some(k + 1)
      case None => None
  }

  lemma WordPower(v: Word, k: nat)
    requires v == Pow2(k)
    ensures k < 63
  {
    if k >= 63 {
      Pow2Of63();
      Pow2Monotone(63, k);
    }
  }

  function MaskCode(mask: Word): Code {
    if mask <= 0x7fff_ffff then [A.Alu(A.AndOp, A.RCX, A.I(mask))]
    else [A.Mov(A.R10, A.I(mask)), A.Alu(A.AndOp, A.RCX, A.R(A.R10))]
  }

  /** Division of rax by 2^k truncating toward zero, with shifts. */
  function ShiftDivCode(k: nat, mask: Word): Code
    requires k < 63
  {
    if k == 0 then []
    else
      [A.Mov(A.RCX, A.R(A.RAX)), A.ShiftImm(A.SarOp, A.RCX, 63)] + MaskCode(mask)
      + [A.Alu(A.AddOp, A.RAX, A.R(A.RCX)), A.ShiftImm(A.SarOp, A.RAX, k)]
  }

  function ShiftRemCode(k: nat, mask: Word): Code
    requires k < 63
  {
    if k == 0 then [A.Mov(A.RAX, A.I(0))]
    else
      [A.Mov(A.R11, A.R(A.RAX))] + ShiftDivCode(k, mask)
      + [A.ShiftImm(A.ShlOp, A.RAX, k), A.Alu(A.SubOp, A.R11, A.R(A.RAX)), A.Mov(A.RAX, A.R(A.R11))]
  }

  function BinaryFallback(g: Gen, ctx: Ctx, b: Ir.Instr): Option<Gen>
    requires b.Binary?
  {
    var fast := RegisterFastPath(ctx, b);
    if fast.Some? then Some(Emit(g, fast.value))
    else if (b.op.Div? || b.op.Mod?) && b.rhs.Int? && PowerOfTwo(b.rhs.value).Some? then
      var k := PowerOfTwo(b.rhs.value).value;
      var h :- Load(g, ctx, b.lhs);
      var mask := b.rhs.value - 1;
      Store(Emit(h, if b.op.Div? then ShiftDivCode(k, mask) else ShiftRemCode(k, mask)), ctx, b.dest)
    else if SmallInt(b.rhs) && ImmediateCode(b.op, b.rhs.value).Some? then
      var h :- Load(g, ctx, b.lhs);
      Store(Emit(h, ImmediateCode(b.op, b.rhs.value).value), ctx, b.dest)
    else
      var h :- LoadInto(g, ctx, b.rhs, A.R10);
      var k :- Load(h, ctx, b.lhs);
      Store(Emit(k, RegisterCode(b.op, A.R10)), ctx, b.dest)
  }

  function UnaryCode(op: Ir.UnOp): Code {
    match op
    case Neg => [A.NegR(A.RAX)]
    case LogNot => [A.Test(A.RAX), A.Setcc(A.E), A.MovzxAl]
    case Compl => [A.NotR(A.RAX)]
    case Plus => []
  }

  // ----- branches -----

  /** Compare and jump when `jump` holds. */
  function CompareJump(g: Gen, ctx: Ctx, b: Ir.Instr, jump: A.Cond, l: string): Option<Gen>
    requires b.Binary?
  {
    var tail := [A.Jcc(jump, A.Named(l))];
    if ctx.RegSymbol(b.lhs) && SmallInt(b.rhs) then
      Some(Emit(g, [A.Cmp(ctx.RegOf(b.lhs), A.I(b.rhs.value))] + tail))
    else if ctx.RegSymbol(b.lhs) && ctx.RegSymbol(b.rhs) then
      Some(Emit(g, [A.Cmp(ctx.RegOf(b.lhs), A.R(ctx.RegOf(b.rhs)))] + tail))
    else if SmallInt(b.rhs) then
      var h :- Load(g, ctx, b.lhs);
      Some(Emit(h, [A.Cmp(A.RAX, A.I(b.rhs.value))] + tail))
    else
      var h :- LoadInto(g, ctx, b.rhs, A.R10);
      var k :- Load(h, ctx, b.lhs);
      Some(Emit(k, [A.Cmp(A.RAX, A.R(A.R10))] + tail))
  }

  /** Compare r11 with the comparison's other operand and jump. */
  function CompareR11Jump(g: Gen, ctx: Ctx, b: Ir.Instr, t: string, jump: A.Cond, l: string): Option<Gen>
    requires b.Binary?
  {
    var tail := [A.Jcc(jump, A.Named(l))];
    if b.lhs == Ir.Temp(t) then
      if SmallInt(b.rhs) then Some(Emit(g, [A.Cmp(A.R11, A.I(b.rhs.value))] + tail))
      else
        var h :- LoadInto(g, ctx, b.rhs, A.R10);
        Some(Emit(h, [A.Cmp(A.R11, A.R(A.R10))] + tail))
    else
      var h :- Load(g, ctx, b.lhs);
      Some(Emit(h, [A.Cmp(A.RAX, A.R(A.R11))] + tail))
  }

  /** Jump to l if the operand is zero (E) or nonzero (NE). */
  function ZeroJump(g: Gen, ctx: Ctx, o: Ir.Operand, jump: A.Cond, l: string): Option<Gen>
    requires jump.E? || jump.NE?
  {
    var tail := [A.Jcc(jump, A.Named(l))];
    if o.Int? then
      Some(if (o.value == 0) == jump.E? then Emit(g, [A.Jmp(A.Named(l))]) else g)
    else if ctx.RegSymbol(o) then
      Some(Emit(g, [A.Test(ctx.RegOf(o))] + tail))
    else if o.Symbol? && o.name in ctx.symbols && ctx.symbols[o.name].InSlot? && ctx.symbols[o.name].off > 0 then
      Some(Emit(g, [A.CmpSlotZero(ctx.symbols[o.name].off)] + tail))
    else if o.Temp? && ctx.TempOff(o.name) > 0 then
      Some(Emit(g, [A.CmpSlotZero(ctx.TempOff(o.name))] + tail))
    else
      var h :- Load(g, ctx, o);
      Some(Emit(h, [A.Test(A.RAX)] + tail))
  }

  function EqualJump(g: Gen, ctx: Ctx, x: Ir.Operand, y: Ir.Operand, l: string): Option<Gen> {
    var tail := [A.Jcc(A.E, A.Named(l))];
    if SmallInt(y) && !x.Int? then
      var h :- Load(g, ctx, x);
      Some(Emit(h, [A.Cmp(A.RAX, A.I(y.value))] + tail))
    else if !SmallInt(y) && SmallInt(x) && !y.Int? then
      var h :- Load(g, ctx, y);
      Some(Emit(h, [A.Cmp(A.RAX, A.I(x.value))] + tail))
    else
      var h :- LoadInto(g, ctx, y, A.R10);
      var k :- Load(h, ctx, x);
      Some(Emit(k, [A.Cmp(A.RAX, A.R(A.R10))] + tail))
  }

  function AssignCode(g: Gen, ctx: Ctx, d: Ir.Operand, x: Ir.Operand): Option<Gen> {
    if ctx.RegSymbol(d) && ctx.RegSymbol(x) then
      Some(if ctx.RegOf(d) == ctx.RegOf(x) then g else Emit(g, [A.Mov(ctx.RegOf(d), A.R(ctx.RegOf(x)))]))
    else
      var h :- Load(g, ctx, x);
      Store(h, ctx, d)
  }

  /** An instruction that takes part in no fusion. */
  function Single(g: Gen, ctx: Ctx, a: Ir.Instr): Option<Gen> {
    match a
    case Nop | DeclareLocal(_) => Some(g)
    case Label(l) => Some(Emit(g, [A.LabelDef(A.Named(l))]))
    case Jump(l) => Some(Emit(g, [A.Jmp(A.Named(l))]))
    case BranchZero(x, l) => ZeroJump(g, ctx, x, A.E, l)
    case BranchEq(x, y, l) => EqualJump(g, ctx, x, y, l)
    case Assign(d, x) => AssignCode(g, ctx, d, x)
    case Unary(d, op, x) =>
      var h :- Load(g, ctx, x);
      Store(Emit(h, UnaryCode(op)), ctx, d)
    case Binary(_, _, _, _) => BinaryFallback(g, ctx, a)
    case Return(x) =>
      if x.Nothing? then Some(Emit(g, [A.Jmp(A.Exit)]))
      else
        var h :- Load(g, ctx, x);
        Some(Emit(h, [A.Jmp(A.Exit)]))
  }

  // ----- fusions -----

  /** A binary instruction whose temp result is used once in the function. */
  predicate SingleUseTemp(ctx: Ctx, a: Ir.Instr) {
    a.Binary? && a.dest.Temp? && ctx.UseCount(a.dest.name) == 1
  }

  predicate ReadsTemp(a: Ir.Instr, t: string) {
    a.Binary? && (a.lhs == Ir.Temp(t) || a.rhs == Ir.Temp(t))
  }

  /** The next instruction that is not a Nop, unless a label comes first. */
  function NextInBlock(f: Func, i: nat): (k: Option<nat>)
    ensures k.Some? ==> i <= k.value < |f| && forall j :: i <= j < k.value ==> f[j].Nop?
    decreases |f| - i
  {
    if i >= |f| || f[i].Label? then None
    else if f[i].Nop? then NextInBlock(f, i + 1)
    else Some(i)
  }

  /** The return that consumes temp t right after instruction i, if there is one. */
  function ReturnOf(f: Func, i: nat, t: string): (k: Option<nat>)
    ensures k.Some? ==> i < k.value < |f| && f[k.value] == Ir.Return(Ir.Temp(t)) &&
                        forall j :: i < j < k.value ==> f[j].Nop?
  {
    match NextInBlock(f, i + 1)
    case None => None
    case Some(k) => if f[k] == Ir.Return(Ir.Temp(t)) then Some(k) else None
  }

  /** The last instruction of the maximal chain through `i`: each link reads the single-use
      temp of the one before. */
  function ChainLast(f: Func, ctx: Ctx, i: nat): (last: nat)
    requires i < |f| && f[i].Binary?
    ensures i <= last < |f|
    ensures forall j :: i <= j <= last ==> f[j].Binary?
    ensures forall j :: i <= j < last ==> SingleUseTemp(ctx, f[j]) && ReadsTemp(f[j + 1], f[j].dest.name)
    decreases |f| - i
  {
    if SingleUseTemp(ctx, f[i]) && i + 1 < |f| && ReadsTemp(f[i + 1], f[i].dest.name)
    then ChainLast(f, ctx, i + 1)
    else i
  }

  /** Links i+1..last of a chain, each extending r11. */
  function ExtendChain(f: Func, ctx: Ctx, g: Gen, i: nat, last: nat): Option<Gen>
    requires i <= last < |f|
    requires forall j :: i <= j <= last ==> f[j].Binary?
    requires forall j :: i <= j < last ==> f[j].dest.Temp?
    decreases last - i
  {
    if i == last then Some(g)
    else
      var h :- ConsumeR11(g, ctx, f[i + 1], f[i].dest.name);
      ExtendChain(f, ctx, Emit(h, [A.Mov(A.R11, A.R(A.RAX))]), i + 1, last)
  }

  /** A comparison whose single-use result the next instruction branches on. */
  predicate FeedsBranch(f: Func, ctx: Ctx, i: nat)
    requires i < |f|
  {
    SingleUseTemp(ctx, f[i]) && Ir.IsComparison(f[i].op) && i + 1 < |f| &&
    f[i + 1].BranchZero? && f[i + 1].lhs == f[i].dest
  }

  /** How a chain ends: the last value is branched on, returned, or stored. */
  function ChainTail(f: Func, ctx: Ctx, k: Gen, last: nat): (r: Option<(Gen, nat)>)
    requires last < |f| && f[last].Binary?
    ensures r.Some? ==> last < r.value.1 <= |f|
  {
    if FeedsBranch(f, ctx, last) then
      Some((Emit(k, [A.Test(A.R11)] + [A.Jcc(A.E, A.Named(f[last + 1].text))]), last + 2))
    else
      var back := [A.Mov(A.RAX, A.R(A.R11))];
      var ret := if f[last].dest.Temp? then ReturnOf(f, last, f[last].dest.name) else None;
      if ret.Some? then Some((Emit(k, back + [A.Jmp(A.Exit)]), ret.value + 1))
      else
        var s :- Store(Emit(k, back), ctx, f[last].dest);
        Some((s, last + 1))
  }

  function EmitChain(f: Func, ctx: Ctx, g: Gen, i: nat, last: nat): (r: Option<(Gen, nat)>)
    requires i < last < |f|
    requires forall j :: i <= j <= last ==> f[j].Binary?
    requires forall j :: i <= j < last ==> f[j].dest.Temp?
    ensures r.Some? ==> i < r.value.1 <= |f|
  {
    var h :- ComputeToR11(g, ctx, f[i].op, f[i].lhs, f[i].rhs);
    var k :- ExtendChain(f, ctx, h, i, last);
    ChainTail(f, ctx, k, last)
  }

  /** Which of the loop's shapes applies at instruction i. The order is the loop's. */
  datatype Shape =
    | ReturnTemp(ret: nat)
    | Chain(last: nat)
    | CompareChain
    | Pair
    | CompareJumpOver
    | CompareBranch
    | JumpOver
    | Alone

  function ShapeAt(f: Func, ctx: Ctx, i: nat): (s: Shape)
    requires i < |f|
    ensures s.ReturnTemp? ==> SingleUseTemp(ctx, f[i]) && ReturnOf(f, i, f[i].dest.name) == Some(s.ret)
    ensures s.Chain? ==> f[i].Binary? && i + 2 <= s.last == ChainLast(f, ctx, i)
    ensures s.CompareChain? ==> i + 2 < |f| && SingleUseTemp(ctx, f[i]) &&
                                ReadsTemp(f[i + 1], f[i].dest.name) && FeedsBranch(f, ctx, i + 1)
    ensures s.Pair? ==> i + 1 < |f| && SingleUseTemp(ctx, f[i]) && ReadsTemp(f[i + 1], f[i].dest.name)
    ensures s.CompareJumpOver? || s.CompareBranch? ==> FeedsBranch(f, ctx, i)
    ensures s.CompareJumpOver? ==> i + 3 < |f| && f[i + 2].Jump? && f[i + 3] == Ir.Label(f[i + 1].text)
    ensures s.JumpOver? ==> i + 2 < |f| && f[i].BranchZero? && f[i + 1].Jump? && f[i + 2] == Ir.Label(f[i].text)
  {
    if i + 1 == |f| then Alone
    else if f[i].Binary? && f[i].dest.Temp? && ctx.UseCount(f[i].dest.name) == 1 &&
            ReturnOf(f, i, f[i].dest.name).Some? then ReturnTemp(ReturnOf(f, i, f[i].dest.name).value)
    else if f[i].Binary? && f[i].dest.Temp? && ChainLast(f, ctx, i) >= i + 2 then Chain(ChainLast(f, ctx, i))
    else if i + 2 < |f| && SingleUseTemp(ctx, f[i]) && ReadsTemp(f[i + 1], f[i].dest.name) &&
            FeedsBranch(f, ctx, i + 1) then CompareChain
    else if SingleUseTemp(ctx, f[i]) && ReadsTemp(f[i + 1], f[i].dest.name) then Pair
    else if FeedsBranch(f, ctx, i) then
      if i + 3 < |f| && f[i + 2].Jump? && f[i + 3] == Ir.Label(f[i + 1].text) then CompareJumpOver
      else CompareBranch
    else if f[i].BranchZero? && i + 2 < |f| && f[i + 1].Jump? && f[i + 2] == Ir.Label(f[i].text) then JumpOver
    else Alone
  }

  /** One round of the emission loop: the new state and the next instruction to look at. */
  function Block(f: Func, ctx: Ctx, g: Gen, i: nat): (r: Option<(Gen, nat)>)
    requires i < |f|
    ensures r.Some? ==> i < r.value.1 <= |f|
  {
    match ShapeAt(f, ctx, i)
    case ReturnTemp(ret) =>
      var h :- BinaryFallback(g, ctx, Ir.Binary(Ir.Nothing, f[i].op, f[i].lhs, f[i].rhs));
      Some((Emit(h, [A.Jmp(A.Exit)]), ret + 1))
    case Chain(last) => EmitChain(f, ctx, g, i, last)
    case CompareChain =>
      var h :- ComputeToR11(g, ctx, f[i].op, f[i].lhs, f[i].rhs);
      var k :- CompareR11Jump(h, ctx, f[i + 1], f[i].dest.name, FalseJump(f[i + 1].op), f[i + 2].text);
      Some((k, i + 3))
    case Pair =>
      var h :- ComputeToR11(g, ctx, f[i].op, f[i].lhs, f[i].rhs);
      var k :- ConsumeR11(h, ctx, f[i + 1], f[i].dest.name);
      var s :- Store(k, ctx, f[i + 1].dest);
      Some((s, i + 2))
    case CompareJumpOver =>
      var h :- CompareJump(g, ctx, f[i], Invert(FalseJump(f[i].op)), f[i + 2].text);
      Some((h, i + 3))
    case CompareBranch =>
      var h :- CompareJump(g, ctx, f[i], FalseJump(f[i].op), f[i + 1].text);
      Some((h, i + 2))
    case JumpOver =>
      var h :- ZeroJump(g, ctx, f[i].lhs, A.NE, f[i + 1].text);
      Some((h, i + 2))
    case Alone =>
      var h :- Single(g, ctx, f[i]);
      Some((h, i + 1))
  }

  function EmitFrom(f: Func, ctx: Ctx, g: Gen, i: nat): Option<Gen>
    requires i <= |f|
    decreases |f| - i
  {
    if i == |f| then Some(g)
    else
      var b :- Block(f, ctx, g, i);
      EmitFrom(f, ctx, b.0, b.1)
  }

  function Start(seq0: nat, stale: nat): Gen { Gen([], seq0, 0, false, 0, stale) }

  /** The body of a function and its exit label. */
  function EmitFunction(f: Func, ctx: Ctx, start: Gen): Option<Gen> {
    var g :- EmitFrom(f, ctx, start, 0);
    Some(Emit(g, [A.LabelDef(A.Exit)]))
  }
}
