/** Division and remainder by a literal power of two with shifts and a mask. */
module ShiftDivision {
  import opened Words
  import opened Wrappers
  import opened Emitter
  import Ir
  import A = Asm

  /** PowerOfTwo accepts a literal exactly when it is a power of two. */
  lemma {:induction false} PowerOfTwoAccepts(v: Word, k: nat)
    requires v == Pow2(k)
    ensures PowerOfTwo(v) == Some(k)
  {
    if k != 0 { PowerOfTwoAccepts(v / 2, k - 1); }
  }

  lemma EvenMask(v: Word)
    requires v > 1 && v % 2 == 0
    ensures BitAnd(v, v - 1) == 2 * BitAnd(v / 2, v / 2 - 1)
    ensures PowerOfTwo(v).Some? <==> PowerOfTwo(v / 2).Some?
  {
    assert (v - 1) / 2 == v / 2 - 1 && v % 2 == 0;
    BitAndUnfold(v, v - 1);
    hide BitAnd;
  }

  lemma OddMask(v: Word)
    requires v > 1 && v % 2 == 1
    ensures BitAnd(v, v - 1) == 2 * (v / 2) && PowerOfTwo(v).None?
  {
    assert (v - 1) / 2 == v / 2 && (v - 1) % 2 == 0;
    BitAndUnfold(v, v - 1);
    BitAndSelf(v / 2);
    hide BitAnd;
  }

  /** The recognizer's test: `v & (v - 1)` is zero. */
  lemma {:induction false} PowerOfTwoByMask(v: Word)
    requires v > 0
    ensures PowerOfTwo(v).Some? <==> BitAnd(v, v - 1) == 0
  {
    if v == 1 {
      BitAndUnfold(1, 0);
    } else {
      hide *;
      if v % 2 == 0 {
        EvenMask(v);
        PowerOfTwoByMask(v / 2);
      } else {
        OddMask(v);
      }
    }
  }

  lemma {:induction false} BitAndSelf(v: int)
    ensures BitAnd(v, v) == v
    decreases if v < 0 then -v else v
  {
    if v != 0 && v != -1 { BitAndSelf(v / 2); }
  }

  /** The loop that recognizes a power of two: test with a mask, then count shifts. */
  method ExtractPositivePowerOfTwo(value: Word) returns (ok: bool, shift: nat, mask: Word)
    ensures ok <==> PowerOfTwo(value).Some?
    ensures ok ==> value == Pow2(shift) && PowerOfTwo(value) == Some(shift) && mask == value - 1
  {
    ok, shift, mask := false, 0, 0;
    if value <= 0 { return; }
    PowerOfTwoByMask(value);
    if BitAnd(value, value - 1) != 0 { return; }
    var cursor := value;
    while cursor > 1
      invariant 1 <= cursor <= value
      invariant PowerOfTwo(cursor).Some?
      invariant PowerOfTwo(value) == Some(PowerOfTwo(cursor).value + shift)
    {
      cursor := cursor / 2;
      shift := shift + 1;
    }
    ok, mask := true, value - 1;
  }

  lemma SignMask(x: Word)
    ensures SarW(x, 63) == if x < 0 then -1 else 0
  {
    Pow2Of63();
  }

  lemma MaskOfSign(x: Word, mask: Word)
    ensures AndW(SarW(x, 63), mask) == if x < 0 then mask else 0
  {
    SignMask(x);
  }

  lemma FloorOfBiased(x: int, p: int)
    requires p > 0
    ensures TruncDiv(x, p) == if x < 0 then (x + (p - 1)) / p else x / p
  {
    if x < 0 {
      var q, r := -x / p, -x % p;
      assert -x == p * q + r;
      assert p * -q == -(p * q);
      DivUnique(x + (p - 1), p, -q, p - 1 - r);
    }
  }

  /** Adding the divisor's mask to negative dividends turns floor into truncation, and the
      addition never overflows. */
  lemma BiasedShift(x: Word, k: nat, p: Word)
    requires 0 < k < 63 && p == Pow2(k)
    ensures var biased := x + AndW(SarW(x, 63), p - 1);
            IsWord(biased) && SarW(biased, k) == TruncDiv(x, p)
  {
    MaskOfSign(x, p - 1);
    FloorOfBiased(x, p);
    hide AndW, TruncDiv, Pow2;
    var biased := x + AndW(SarW(x, 63), p - 1);
    assert SarW(biased, k) == biased / Pow2(k);
  }

  lemma MaskRuns(mask: Word, m: A.Machine) returns (m': A.Machine)
    requires mask >= 0
    ensures A.Run(MaskCode(mask), m) == A.Fall(m')
    ensures m'.Get(A.RCX) == AndW(m.Get(A.RCX), mask)
    ensures forall r :: r != A.RCX && r != A.R10 ==> m'.Get(r) == m.Get(r)
    ensures m'.slots == m.slots && m'.globals == m.globals && m'.passed == m.passed
  {
    if mask <= 0x7fff_ffff {
      A.RunOne(A.Alu(A.AndOp, A.RCX, A.I(mask)), m);
    } else {
      A.RunTwo(A.Mov(A.R10, A.I(mask)), A.Alu(A.AndOp, A.RCX, A.R(A.R10)), m);
    }
    m' := A.Run(MaskCode(mask), m).m;
  }

  lemma HeadRuns(m: A.Machine) returns (m': A.Machine)
    ensures A.Run([A.Mov(A.RCX, A.R(A.RAX)), A.ShiftImm(A.SarOp, A.RCX, 63)], m) == A.Fall(m')
    ensures m'.Get(A.RCX) == SarW(m.Get(A.RAX), 63)
    ensures forall r :: r != A.RCX ==> m'.Get(r) == m.Get(r)
    ensures m'.slots == m.slots && m'.globals == m.globals && m'.passed == m.passed
  {
    hide SarW, A.Run;
    A.RunTwo(A.Mov(A.RCX, A.R(A.RAX)), A.ShiftImm(A.SarOp, A.RCX, 63), m);
    m' := m.Set(A.RCX, m.Get(A.RAX)).Set(A.RCX, SarW(m.Get(A.RAX), 63)).(flags := A.Undefined);
  }

  lemma TailRuns(k: nat, m: A.Machine) returns (m': A.Machine)
    requires k < 63
    ensures A.Run([A.Alu(A.AddOp, A.RAX, A.R(A.RCX)), A.ShiftImm(A.SarOp, A.RAX, k)], m) == A.Fall(m')
    ensures m'.Get(A.RAX) == SarW(Wrap(m.Get(A.RAX) + m.Get(A.RCX)), k)
    ensures forall r :: r != A.RAX ==> m'.Get(r) == m.Get(r)
    ensures m'.slots == m.slots && m'.globals == m.globals && m'.passed == m.passed
  {
    hide Wrap, SarW, Pow2;
    A.RunTwo(A.Alu(A.AddOp, A.RAX, A.R(A.RCX)), A.ShiftImm(A.SarOp, A.RAX, k), m);
    var sum := Wrap(m.Get(A.RAX) + m.Get(A.RCX));
    m' := m.Set(A.RAX, sum).(flags := A.Undefined).Set(A.RAX, SarW(sum, k)).(flags := A.Undefined);
  }

  lemma ShiftDivPositive(k: nat, p: Word, m: A.Machine) returns (m': A.Machine)
    requires 0 < k < 63 && p == Pow2(k)
    ensures A.Run([A.Mov(A.RCX, A.R(A.RAX)), A.ShiftImm(A.SarOp, A.RCX, 63)] + MaskCode(p - 1)
                  + [A.Alu(A.AddOp, A.RAX, A.R(A.RCX)), A.ShiftImm(A.SarOp, A.RAX, k)], m) == A.Fall(m')
    ensures m'.Get(A.RAX) == TruncDiv(m.Get(A.RAX), p)
    ensures forall r :: r != A.RAX && r != A.RCX && r != A.R10 ==> m'.Get(r) == m.Get(r)
    ensures m'.slots == m.slots && m'.globals == m.globals && m'.passed == m.passed
  {
    hide *;
    var x := m.Get(A.RAX);
    var m1 := HeadRuns(m);
    var m2 := MaskRuns(p - 1, m1);
    m' := TailRuns(k, m2);
    A.RunSplit([A.Mov(A.RCX, A.R(A.RAX)), A.ShiftImm(A.SarOp, A.RCX, 63)], MaskCode(p - 1),
               [A.Alu(A.AddOp, A.RAX, A.R(A.RCX)), A.ShiftImm(A.SarOp, A.RAX, k)], m, m1, m2);
    BiasedShift(x, k, p);
  }

  /** The shift sequence leaves the quotient truncated toward zero in rax. */
  lemma ShiftDivRuns(k: nat, p: Word, m: A.Machine) returns (m': A.Machine)
    requires k < 63 && p == Pow2(k)
    ensures A.Run(ShiftDivCode(k, p - 1), m) == A.Fall(m')
    ensures m'.Get(A.RAX) == TruncDiv(m.Get(A.RAX), p)
    ensures forall r :: r != A.RAX && r != A.RCX && r != A.R10 ==> m'.Get(r) == m.Get(r)
    ensures m'.slots == m.slots && m'.globals == m.globals && m'.passed == m.passed
  {
    hide TruncDiv;
    if k == 0 {
      DivByOne(m.Get(A.RAX));
      m' := m;
    } else {
      m' := ShiftDivPositive(k, p, m);
    }
  }

  lemma DivByOne(x: int)
    ensures TruncDiv(x, 1) == x && TruncRem(x, 1) == 0
  {}

  lemma BackShift(x: Word, k: nat, p: Word)
    requires k < 63 && p == Pow2(k)
    ensures var q := TruncDiv(x, p);
            IsWord(q) && ShlW(q, k) == p * q && Wrap(x - ShlW(q, k)) == TruncRem(x, p) && IsWord(p * q)
  {
    TruncRemRange(x, p);
  }

  lemma BackRuns(k: nat, m: A.Machine) returns (m': A.Machine)
    requires k < 63
    ensures A.Run([A.ShiftImm(A.ShlOp, A.RAX, k), A.Alu(A.SubOp, A.R11, A.R(A.RAX)), A.Mov(A.RAX, A.R(A.R11))], m) == A.Fall(m')
    ensures m'.Get(A.RAX) == Wrap(m.Get(A.R11) - ShlW(m.Get(A.RAX), k))
    ensures forall r :: r != A.RAX && r != A.R11 ==> m'.Get(r) == m.Get(r)
    ensures m'.slots == m.slots && m'.globals == m.globals && m'.passed == m.passed
  {
    hide Wrap, ShlW, Pow2, A.Run;
    var shift, sub, copy := A.ShiftImm(A.ShlOp, A.RAX, k), A.Alu(A.SubOp, A.R11, A.R(A.RAX)), A.Mov(A.RAX, A.R(A.R11));
    A.RunThree(shift, sub, copy, m);
    var product := ShlW(m.Get(A.RAX), k);
    var m1 := m.Set(A.RAX, product).(flags := A.Undefined);
    assert A.Step(shift, m) == A.Fall(m1);
    m' := SubtractRuns(m1);
  }

  lemma SubtractRuns(m: A.Machine) returns (m': A.Machine)
    ensures A.Step(A.Alu(A.SubOp, A.R11, A.R(A.RAX)), m).Fall?
    ensures A.Step(A.Mov(A.RAX, A.R(A.R11)), A.Step(A.Alu(A.SubOp, A.R11, A.R(A.RAX)), m).m) == A.Fall(m')
    ensures m'.Get(A.RAX) == Wrap(m.Get(A.R11) - m.Get(A.RAX))
    ensures forall r :: r != A.RAX && r != A.R11 ==> m'.Get(r) == m.Get(r)
    ensures m'.slots == m.slots && m'.globals == m.globals && m'.passed == m.passed
  {
    hide Wrap;
    var left := Wrap(m.Get(A.R11) - m.Get(A.RAX));
    m' := m.Set(A.R11, left).(flags := A.Undefined).Set(A.RAX, left);
  }

  /** The longer sequence leaves the remainder, with the dividend's sign, in rax. */
  lemma ShiftRemRuns(k: nat, p: Word, m: A.Machine) returns (m': A.Machine)
    requires k < 63 && p == Pow2(k)
    ensures A.Run(ShiftRemCode(k, p - 1), m) == A.Fall(m')
    ensures m'.Get(A.RAX) == TruncRem(m.Get(A.RAX), p)
    ensures forall r :: r != A.RAX && r != A.RCX && r != A.R10 && r != A.R11 ==> m'.Get(r) == m.Get(r)
    ensures m'.slots == m.slots && m'.globals == m.globals && m'.passed == m.passed
  {
    if k == 0 {
      A.RunOne(A.Mov(A.RAX, A.I(0)), m);
      m' := m.Set(A.RAX, 0);
    } else {
      m' := ShiftRemPositive(k, p, m);
    }
  }

  /** The dividend is kept in r11 while the quotient is computed, multiplied back and subtracted. */
  lemma ShiftRemPositive(k: nat, p: Word, m: A.Machine) returns (m': A.Machine)
    requires 0 < k < 63 && p == Pow2(k)
    ensures A.Run(ShiftRemCode(k, p - 1), m) == A.Fall(m')
    ensures m'.Get(A.RAX) == TruncRem(m.Get(A.RAX), p)
    ensures forall r :: r != A.RAX && r != A.RCX && r != A.R10 && r != A.R11 ==> m'.Get(r) == m.Get(r)
    ensures m'.slots == m.slots && m'.globals == m.globals && m'.passed == m.passed
  {
    hide *;
    var back := [A.ShiftImm(A.ShlOp, A.RAX, k), A.Alu(A.SubOp, A.R11, A.R(A.RAX)), A.Mov(A.RAX, A.R(A.R11))];
    ShiftRemParts(k, p);
    var m1 := SaveRuns(m);
    var m2 := ShiftDivRuns(k, p, m1);
    m' := BackRuns(k, m2);
    BackShift(m.Get(A.RAX), k, p);
    A.RunSplit([A.Mov(A.R11, A.R(A.RAX))], ShiftDivCode(k, p - 1), back, m, m1, m2);
  }

  lemma ShiftRemParts(k: nat, p: Word)
    requires 0 < k < 63 && p == Pow2(k)
    ensures ShiftRemCode(k, p - 1) == [A.Mov(A.R11, A.R(A.RAX))] + ShiftDivCode(k, p - 1)
      + [A.ShiftImm(A.ShlOp, A.RAX, k), A.Alu(A.SubOp, A.R11, A.R(A.RAX)), A.Mov(A.RAX, A.R(A.R11))]
  {
    hide Pow2;
  }

  lemma SaveRuns(m: A.Machine) returns (m': A.Machine)
    ensures A.Run([A.Mov(A.R11, A.R(A.RAX))], m) == A.Fall(m')
    ensures m'.Get(A.R11) == m.Get(A.RAX) && forall r :: r != A.R11 ==> m'.Get(r) == m.Get(r)
    ensures m'.slots == m.slots && m'.globals == m.globals && m'.passed == m.passed
  {
    A.RunOne(A.Mov(A.R11, A.R(A.RAX)), m);
    m' := m.Set(A.R11, m.Get(A.RAX));
  }
}
