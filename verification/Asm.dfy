/** The part of x86-64 the IR backend emits: instructions as data, a machine state and its
    step function. Frame slots are named by their distance below rbp. */
module Asm {
  import opened Words
  import opened Wrappers

  datatype Reg = RAX | RBX | RCX | RDX | RSI | RDI | R8 | R9 | R10 | R11 | R12 | R13 | R14 | R15

  datatype Cond = E | NE | L | LE | G | GE

  datatype Target = Named(name: string) | Exit

  datatype Src = R(reg: Reg) | I(imm: Word)

  datatype AluOp = AddOp | SubOp | ImulOp | AndOp | OrOp | XorOp

  datatype ShiftOp = ShlOp | SarOp

  datatype Instr =
    | Comment
    | LabelDef(target: Target)
    | Jmp(target: Target)
    | Jcc(cond: Cond, target: Target)
    | Mov(dst: Reg, src: Src)
    | LoadSlot(dst: Reg, off: int)
    | StoreSlot(off: int, reg: Reg)
    | LoadGlobal(dst: Reg, name: string)
    | StoreGlobal(name: string, reg: Reg)
    | Alu(alu: AluOp, dst: Reg, src: Src)
    | ShiftImm(shift: ShiftOp, dst: Reg, count: Word)
    | ShiftCl(shift: ShiftOp, dst: Reg)
    | Cmp(left: Reg, src: Src)
    | CmpSlotZero(off: int)
    | Test(reg: Reg)
    | Setcc(cond: Cond)
    | MovzxAl
    | NegR(dst: Reg)
    | NotR(dst: Reg)
    | Cqo
    | Idiv(reg: Reg)

  /** What a signed comparison left behind; Undefined after instructions whose flags the
      emitted code must not read. */
  datatype Flags = Undefined | Compared(zero: bool, less: bool)

  /** `passed` records the labels control has gone through, oldest first; the program
      cannot observe it. */
  datatype Machine = Machine(regs: map<Reg, Word>, flags: Flags, slots: map<int, Word>, globals: map<string, Word>,
                             passed: seq<string>) {
    function Get(r: Reg): Word { if r in regs then regs[r] else 0 }

    function Set(r: Reg, v: Word): Machine { this.(regs := regs[r := v]) }

    function Pass(t: Target): Machine {
      if t.Named? then this.(passed := passed + [t.name]) else this
    }

    function Slot(off: int): Word { if off in slots then slots[off] else 0 }

    function Global(name: string): Word { if name in globals then globals[name] else 0 }

    function Src(s: Src): Word {
      match s
      case R(r) => Get(r)
      case I(v) => v
    }
  }

  predicate Fits32(v: int) { -0x8000_0000 <= v < 0x8000_0000 }

  /** Only mov takes a full 64-bit immediate. */
  predicate Encodable(s: Src) { s.I? ==> Fits32(s.imm) }

  predicate Holds(c: Cond, zero: bool, less: bool) {
    match c
    case E => zero
    case NE => !zero
    case L => less
    case LE => less || zero
    case G => !less && !zero
    case GE => !less
  }

  function AluResult(op: AluOp, a: Word, b: Word): Word {
    match op
    case AddOp => Wrap(a + b)
    case SubOp => Wrap(a - b)
    case ImulOp => Wrap(a * b)
    case AndOp => AndW(a, b)
    case OrOp => OrW(a, b)
    case XorOp => XorW(a, b)
  }

  function AluFlags(op: AluOp, v: Word): Flags {
    if op.AndOp? || op.OrOp? || op.XorOp? then Compared(v == 0, v < 0) else Undefined
  }

  function ShiftResult(op: ShiftOp, a: Word, n: nat): Word {
    if op.ShlOp? then ShlW(a, n) else SarW(a, n)
  }

  /** How control leaves an instruction, or a list of them. */
  datatype Flow = Fall(m: Machine) | Goto(target: Target, m: Machine) | Fault(m: Machine) | Wrong

  /** rdx:rax as one signed number. */
  function Dividend(m: Machine): int { m.Get(RDX) * 0x1_0000_0000_0000_0000 + Unsigned(m.Get(RAX)) }

  function IdivStep(m: Machine, b: Word): Flow {
    var d := Dividend(m);
    if b == 0 || !IsWord(TruncDiv(d, b)) then Fault(m)
    else
      TruncRemRange(d, b);
      Fall(m.Set(RAX, TruncDiv(d, b)).Set(RDX, TruncRem(d, b)).(flags := Undefined))
  }

  function Step(a: Instr, m: Machine): Flow {
    match a
    case Comment => Fall(m)
    case LabelDef(t) => Fall(m.Pass(t))
    case Jmp(t) => Goto(t, m)
    case Jcc(c, t) =>
      if m.flags.Undefined? then Wrong
      else if Holds(c, m.flags.zero, m.flags.less) then Goto(t, m) else Fall(m)
    case Mov(d, s) => Fall(m.Set(d, m.Src(s)))
    case LoadSlot(d, off) => Fall(m.Set(d, m.Slot(off)))
    case StoreSlot(off, r) => Fall(m.(slots := m.slots[off := m.Get(r)]))
    case LoadGlobal(d, x) => Fall(m.Set(d, m.Global(x)))
    case StoreGlobal(x, r) => Fall(m.(globals := m.globals[x := m.Get(r)]))
    case Alu(op, d, s) =>
      if !Encodable(s) then Wrong
      else
        var v := AluResult(op, m.Get(d), m.Src(s));
        Fall(m.Set(d, v).(flags := AluFlags(op, v)))
    case ShiftImm(op, d, n) =>
      if 0 <= n < 64 then Fall(m.Set(d, ShiftResult(op, m.Get(d), n)).(flags := Undefined)) else Wrong
    case ShiftCl(op, d) =>
      Fall(m.Set(d, ShiftResult(op, m.Get(d), m.Get(RCX) % 64)).(flags := Undefined))
    case Cmp(r, s) =>
      if !Encodable(s) then Wrong
      else Fall(m.(flags := Compared(m.Get(r) == m.Src(s), m.Get(r) < m.Src(s))))
    case CmpSlotZero(off) => Fall(m.(flags := Compared(m.Slot(off) == 0, m.Slot(off) < 0)))
    case Test(r) => Fall(m.(flags := Compared(m.Get(r) == 0, m.Get(r) < 0)))
    case Setcc(c) =>
      if m.flags.Undefined? then Wrong
      else
        var a := m.Get(RAX);
        Fall(m.Set(RAX, a - a % 256 + B2W(Holds(c, m.flags.zero, m.flags.less))))
    case MovzxAl => Fall(m.Set(RAX, m.Get(RAX) % 256))
    case NegR(d) => Fall(m.Set(d, Wrap(0 - m.Get(d))).(flags := Undefined))
    case NotR(d) => Fall(m.Set(d, NotW(m.Get(d))))
    case Cqo => Fall(m.Set(RDX, if m.Get(RAX) < 0 then -1 else 0))
    case Idiv(r) => IdivStep(m, m.Get(r))
  }

  /** Running a list of instructions until control leaves it. */
  function Run(code: seq<Instr>, m: Machine): Flow {
    if code == [] then Fall(m)
    else
      var s := Step(code[0], m);
      if s.Fall? then Run(code[1..], s.m) else s
  }

  function Then(s: Flow, rest: seq<Instr>): Flow {
    if s.Fall? then Run(rest, s.m) else s
  }

  lemma {:induction false} RunAppend(a: seq<Instr>, b: seq<Instr>, m: Machine)
    ensures Run(a + b, m) == Then(Run(a, m), b)
    decreases |a|
  {
    if a == [] {
      assert a + b == b;
    } else {
      assert (a + b)[0] == a[0] && (a + b)[1..] == a[1..] + b;
      var s := Step(a[0], m);
      if s.Fall? { RunAppend(a[1..], b, s.m); }
    }
  }

  lemma RunSplit(a: seq<Instr>, b: seq<Instr>, c: seq<Instr>, m: Machine, m1: Machine, m2: Machine)
    requires Run(a, m) == Fall(m1) && Run(b, m1) == Fall(m2)
    ensures Run(a + b + c, m) == Run(c, m2)
  {
    RunAppend(a, b, m);
    RunAppend(a + b, c, m);
  }

  lemma RunOne(a: Instr, m: Machine)
    ensures Run([a], m) == Step(a, m)
  {
    var s := Step(a, m);
    assert [a][1..] == [];
    if s.Fall? { assert Run([], s.m) == s; }
  }

  lemma RunCons(a: Instr, rest: seq<Instr>, m: Machine)
    ensures Run([a] + rest, m) == Then(Step(a, m), rest)
  {
    RunOne(a, m);
    RunAppend([a], rest, m);
  }

  lemma RunTwo(a: Instr, b: Instr, m: Machine)
    ensures Run([a, b], m) == (var s := Step(a, m); if s.Fall? then Step(b, s.m) else s)
  {
    assert [a, b] == [a] + [b];
    RunCons(a, [b], m);
    var s := Step(a, m);
    if s.Fall? { RunOne(b, s.m); }
  }

  lemma RunThree(a: Instr, b: Instr, c: Instr, m: Machine)
    ensures Run([a, b, c], m) ==
            (var s := Step(a, m); if !s.Fall? then s else
             var t := Step(b, s.m); if !t.Fall? then t else Step(c, t.m))
  {
    assert [a, b, c] == [a] + [b, c];
    RunCons(a, [b, c], m);
    var s := Step(a, m);
    if s.Fall? { RunTwo(b, c, s.m); }
  }

  // ----- whole programs -----

  datatype Config = At(pc: nat, m: Machine) | Halted(m: Machine) | Faulted(m: Machine) | Lost

  function FindTarget(code: seq<Instr>, t: Target, from: nat): (k: Option<nat>)
    requires from <= |code|
    ensures k.Some? ==> from <= k.value < |code| && code[k.value] == LabelDef(t)
    decreases |code| - from
  {
    if from == |code| then None
    else if code[from] == LabelDef(t) then Some(from)
    else FindTarget(code, t, from + 1)
  }

  function Arrive(code: seq<Instr>, t: Target, m: Machine): Config {
    match FindTarget(code, t, 0)
    case Some(k) => At(k, m)
    case None => Lost
  }

  /** One machine step; arriving at the exit label ends the run. */
  function Next(code: seq<Instr>, c: Config): Config {
    if !c.At? then c
    else if c.pc >= |code| then Lost
    else if code[c.pc] == LabelDef(Exit) then Halted(c.m)
    else
      match Step(code[c.pc], c.m)
      case Fall(m) => At(c.pc + 1, m)
      case Goto(t, m) => Arrive(code, t, m)
      case Fault(m) => Faulted(m)
      case Wrong => Lost
  }

  function Nexts(code: seq<Instr>, n: nat, c: Config): Config {
    if n == 0 then c else Nexts(code, n - 1, Next(code, c))
  }

  lemma {:induction false} NextsAdd(code: seq<Instr>, m: nat, n: nat, c: Config)
    ensures Nexts(code, m + n, c) == Nexts(code, n, Nexts(code, m, c))
  {
    if m != 0 { NextsAdd(code, m - 1, n, Next(code, c)); }
  }

  lemma {:induction false} NextsFinal(code: seq<Instr>, n: nat, c: Config)
    requires !c.At?
    ensures Nexts(code, n, c) == c
  {
    if n != 0 { NextsFinal(code, n - 1, c); }
  }

  lemma {:induction false} FindTargetUnique(code: seq<Instr>, t: Target, from: nat, k: nat)
    requires from <= k < |code| && code[k] == LabelDef(t)
    requires forall j :: 0 <= j < k ==> code[j] != LabelDef(t)
    ensures FindTarget(code, t, from) == Some(k)
    decreases |code| - from
  {
    if from < k { FindTargetUnique(code, t, from + 1, k); }
  }

  /** Where a list of instructions sits in a program, the program runs as the list does. */
  lemma {:induction false} NextsRun(code: seq<Instr>, p: nat, q: nat, m: Machine) returns (n: nat)
    requires p <= q <= |code|
    requires LabelDef(Exit) !in code[p..q]
    ensures Run(code[p..q], m).Fall? ==> n == q - p && Nexts(code, n, At(p, m)) == At(q, Run(code[p..q], m).m)
    ensures Run(code[p..q], m).Goto? ==> n >= 1
    ensures Run(code[p..q], m).Goto? ==>
              Nexts(code, n, At(p, m)) == Arrive(code, Run(code[p..q], m).target, Run(code[p..q], m).m)
    ensures Run(code[p..q], m).Fault? ==> Nexts(code, n, At(p, m)) == Faulted(Run(code[p..q], m).m)
    decreases q - p
  {
    if p == q {
      n := 0;
    } else {
      var frag := code[p..q];
      assert frag[0] == code[p] && frag[1..] == code[p + 1..q];
      assert frag[0] in frag;
      var s := Step(code[p], m);
      if s.Fall? {
        assert forall x :: x in frag[1..] ==> x in frag;
        var k := NextsRun(code, p + 1, q, s.m);
        n := k + 1;
        assert Next(code, At(p, m)) == At(p + 1, s.m);
        assert Nexts(code, n, At(p, m)) == Nexts(code, k, At(p + 1, s.m));
      } else {
        n := 1;
        assert Nexts(code, 1, At(p, m)) == Nexts(code, 0, Next(code, At(p, m)));
      }
    }
  }
}
