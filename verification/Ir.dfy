/** The flat intermediate representation: 64-bit integer symbols and temps, labels, jumps
    and branches, with a small-step semantics that knows nothing about the target. */
module Ir {
  import opened Words
  import opened Wrappers

  datatype BinOp =
    | Add | Sub | Mul | Div | Mod
    | And | Or | Xor | Shl | Shr
    | Eq | Ne | Lt | Le | Gt | Ge
    | LogAnd | LogOr

  datatype UnOp = Neg | LogNot | Compl | Plus

  datatype Operand = Nothing | Int(value: Word) | Symbol(name: string) | Temp(name: string)

  datatype Instr =
    | Nop
    | DeclareLocal(local: string)
    | Label(text: string)
    | Jump(text: string)
    | BranchZero(lhs: Operand, text: string)
    | BranchEq(lhs: Operand, rhs: Operand, text: string)
    | Assign(dest: Operand, lhs: Operand)
    | Unary(dest: Operand, uop: UnOp, lhs: Operand)
    | Binary(dest: Operand, op: BinOp, lhs: Operand, rhs: Operand)
    | Return(lhs: Operand)

  predicate IsComparison(op: BinOp) {
    op.Eq? || op.Ne? || op.Lt? || op.Le? || op.Gt? || op.Ge?
  }

  predicate IsCommutative(op: BinOp) {
    op.Add? || op.Mul? || op.And? || op.Or? || op.Xor? || op.Eq? || op.Ne?
  }

  // ----- values -----

  function Compare(op: BinOp, a: Word, b: Word): bool
    requires IsComparison(op)
  {
    match op
    case Eq => a == b
    case Ne => a != b
    case Lt => a < b
    case Le => a <= b
    case Gt => a > b
    case Ge => a >= b
  }

  /** A quotient that does not exist, or does not fit a word, is a fault. */
  predicate DivFaults(a: Word, b: Word) {
    b == 0 || !IsWord(TruncDiv(a, b))
  }

  function Quotient(a: Word, b: Word): Word
    requires !DivFaults(a, b)
  {
    TruncDiv(a, b)
  }

  function Remainder(a: Word, b: Word): Word
    requires b != 0
  {
    TruncRemRange(a, b);
    TruncRem(a, b)
  }

  /** The result of a binary operator; None when the division faults. Shift counts are
      taken modulo 64. `&&` tests the bitwise conjunction: see LogAndIsLogical. */
  function Eval(op: BinOp, a: Word, b: Word): Option<Word> {
    match op
    case Add => Some(Wrap(a + b))
    case Sub => Some(Wrap(a - b))
    case Mul => Some(Wrap(a * b))
    case Div => if DivFaults(a, b) then None else Some(Quotient(a, b))
    case Mod => if DivFaults(a, b) then None else Some(Remainder(a, b))
    case And => Some(AndW(a, b))
    case Or => Some(OrW(a, b))
    case Xor => Some(XorW(a, b))
    case Shl => Some(ShlW(a, b % 64))
    case Shr => Some(SarW(a, b % 64))
    case LogAnd => Some(B2W(AndW(a, b) != 0))
    case LogOr => Some(B2W(OrW(a, b) != 0))
    case _ => Some(B2W(Compare(op, a, b)))
  }

  function EvalUnary(op: UnOp, a: Word): Word {
    match op
    case Neg => Wrap(0 - a)
    case LogNot => B2W(a == 0)
    case Compl => NotW(a)
    case Plus => a
  }

  // ----- states -----

  /** Variable values, and the labels control has passed so far: the branch decisions. */
  datatype Env = Env(symbols: map<string, Word>, temps: map<string, Word>, passed: seq<string>) {
    function Sym(s: string): Word { if s in symbols then symbols[s] else 0 }

    function Tmp(t: string): Word { if t in temps then temps[t] else 0 }

    function Value(o: Operand): Word {
      match o
      case Nothing => 0
      case Int(v) => v
      case Symbol(s) => Sym(s)
      case Temp(t) => Tmp(t)
    }

    function Pass(l: string): Env { this.(passed := passed + [l]) }

    function Put(d: Operand, v: Word): Env
      requires !d.Int?
    {
      match d
      case Nothing => this
      case Symbol(s) => this.(symbols := symbols[s := v])
      case Temp(t) => this.(temps := temps[t := v])
    }
  }

  datatype Config =
    | At(pc: nat, env: Env)
    | Done(value: Option<Word>, env: Env)
    | Trapped(env: Env)
    | Stuck

  /** Index of the first definition of a label at or after `from`. */
  function FindLabel(f: seq<Instr>, l: string, from: nat): (k: Option<nat>)
    requires from <= |f|
    ensures k.Some? ==> from <= k.value < |f| && f[k.value] == Label(l)
    decreases |f| - from
  {
    if from == |f| then None
    else if f[from] == Label(l) then Some(from)
    else FindLabel(f, l, from + 1)
  }

  function JumpTo(f: seq<Instr>, l: string, env: Env): Config {
    match FindLabel(f, l, 0)
    case Some(k) => At(k, env)
    case None => Stuck
  }

  function Step(f: seq<Instr>, c: Config): Config {
    if !c.At? then c
    else if c.pc >= |f| then Done(None, c.env)
    else
      var env := c.env;
      match f[c.pc]
      case Nop | DeclareLocal(_) => At(c.pc + 1, env)
      case Label(l) => At(c.pc + 1, env.Pass(l))
      case Jump(l) => JumpTo(f, l, env)
      case BranchZero(x, l) =>
        if env.Value(x) == 0 then JumpTo(f, l, env) else At(c.pc + 1, env)
      case BranchEq(x, y, l) =>
        if env.Value(x) == env.Value(y) then JumpTo(f, l, env) else At(c.pc + 1, env)
      case Assign(d, x) =>
        if d.Int? then Stuck else At(c.pc + 1, env.Put(d, env.Value(x)))
      case Unary(d, op, x) =>
        if d.Int? then Stuck else At(c.pc + 1, env.Put(d, EvalUnary(op, env.Value(x))))
      case Binary(d, op, x, y) =>
        if d.Int? then Stuck
        else
          (match Eval(op, env.Value(x), env.Value(y))
           case None => Trapped(env)
           case Some(v) => At(c.pc + 1, env.Put(d, v)))
      case Return(x) =>
        Done(if x.Nothing? then None else Some(env.Value(x)), env)
  }

  function Steps(f: seq<Instr>, n: nat, c: Config): Config {
    if n == 0 then c else Steps(f, n - 1, Step(f, c))
  }

  lemma {:induction false} StepsAdd(f: seq<Instr>, m: nat, n: nat, c: Config)
    ensures Steps(f, m + n, c) == Steps(f, n, Steps(f, m, c))
  {
    if m != 0 { StepsAdd(f, m - 1, n, Step(f, c)); }
  }

  /** A configuration that is no longer running stays as it is. */
  lemma {:induction false} StepsFinal(f: seq<Instr>, n: nat, c: Config)
    requires !c.At?
    ensures Steps(f, n, c) == c
  {
    if n != 0 { StepsFinal(f, n - 1, c); }
  }

  // ----- static uses of temps -----

  function UsesOperand(o: Operand, t: string): nat {
    if o == Temp(t) then 1 else 0
  }

  /** How often one instruction names temp t as a source operand. */
  function UsesIn(a: Instr, t: string): nat {
    match a
    case BranchZero(x, _) => UsesOperand(x, t)
    case BranchEq(x, y, _) => UsesOperand(x, t) + UsesOperand(y, t)
    case Assign(_, x) => UsesOperand(x, t)
    case Unary(_, _, x) => UsesOperand(x, t)
    case Binary(_, _, x, y) => UsesOperand(x, t) + UsesOperand(y, t)
    case Return(x) => UsesOperand(x, t)
    case _ => 0
  }

  function Uses(f: seq<Instr>, t: string): nat {
    if f == [] then 0 else Uses(f[..|f| - 1], t) + UsesIn(f[|f| - 1], t)
  }

  lemma {:induction false} UsesAtLeast(f: seq<Instr>, t: string, k: nat)
    requires k < |f|
    ensures Uses(f, t) >= UsesIn(f[k], t)
  {
    if k < |f| - 1 { UsesAtLeast(f[..|f| - 1], t, k); }
  }

  /** A temp used exactly once in the whole function is used by one instruction only. */
  lemma {:induction false} SingleUse(f: seq<Instr>, t: string, j: nat, k: nat)
    requires j < k < |f| && UsesIn(f[j], t) > 0 && UsesIn(f[k], t) > 0
    ensures Uses(f, t) > 1
  {
    if k == |f| - 1 {
      UsesAtLeast(f[..k], t, j);
      assert f[..k][j] == f[j];
    } else {
      SingleUse(f[..|f| - 1], t, j, k);
    }
  }

  predicate Defines(a: Instr, t: string) {
    (a.Assign? || a.Unary? || a.Binary?) && a.dest == Temp(t)
  }

  /** Assemblers reject a label defined twice. */
  ghost predicate UniqueLabels(f: seq<Instr>) {
    forall j, k :: 0 <= j < k < |f| && f[j].Label? && f[k].Label? ==> f[j] != f[k]
  }

  lemma {:induction false} FindLabelUnique(f: seq<Instr>, l: string, from: nat, k: nat)
    requires UniqueLabels(f) && from <= k < |f| && f[k] == Label(l)
    ensures FindLabel(f, l, from) == Some(k)
    decreases |f| - from
  {
    if from < k { FindLabelUnique(f, l, from + 1, k); }
  }

  /** The program's `&&` is the logical connective exactly when the operands are not two
      nonzero words without a common bit; 1 && 2 is the smallest such pair. */
  lemma LogAndIsLogical(a: Word, b: Word)
    ensures Eval(LogAnd, a, b) == Some(B2W(a != 0 && b != 0))
            <==> !(a != 0 && b != 0 && AndW(a, b) == 0)
    ensures Eval(LogAnd, 1, 2) == Some(0)
  {
    assert AndW(1, 2) == 0 by { assert BitAnd(0, 1) == 0; }
    if b == 0 { BitAndZero(a); }
  }

  /** `||` is the logical connective on all words. */
  lemma LogOrIsLogical(a: Word, b: Word)
    ensures Eval(LogOr, a, b) == Some(B2W(a != 0 || b != 0))
  {
    BitAndAllOnes(NotW(a), NotW(b));
  }

  lemma {:induction false} BitAndAllOnes(a: int, b: int)
    ensures BitAnd(a, b) == -1 <==> a == -1 && b == -1
    decreases if a < 0 then -a else a
  {
    if a != 0 && a != -1 { BitAndAllOnes(a / 2, b / 2); }
  }
}
