/** Two's-complement 64-bit words as bounded integers, and the operators the compiler's
    source language, its IR and the target machine share. Nothing here is target specific:
    each operator is given by its mathematical meaning. */
module Words {
  type Word = x: int | -0x8000_0000_0000_0000 <= x < 0x8000_0000_0000_0000

  predicate IsWord(x: int) {
    -0x8000_0000_0000_0000 <= x < 0x8000_0000_0000_0000
  }

  /** The word congruent to x modulo 2^64. */
  function Wrap(x: int): (w: Word)
    ensures IsWord(x) ==> w == x
  {
    (x + 0x8000_0000_0000_0000) % 0x1_0000_0000_0000_0000 - 0x8000_0000_0000_0000
  }

  /** The same 64 bits read without a sign. */
  function Unsigned(x: Word): nat {
    if x < 0 then x + 0x1_0000_0000_0000_0000 else x
  }

  function Pow2(n: nat): (p: int)
    ensures p >= 1
  {
    if n == 0 then 1 else 2 * Pow2(n - 1)
  }

  lemma Pow2Of63()
    ensures Pow2(63) == 0x8000_0000_0000_0000
  {
    assert Pow2(7) == 128;
    Pow2Sum(7, 7);
    Pow2Sum(14, 7);
    Pow2Sum(21, 21);
    Pow2Sum(42, 21);
  }

  lemma {:induction false} Pow2Sum(a: nat, b: nat)
    ensures Pow2(a + b) == Pow2(a) * Pow2(b)
  {
    if a != 0 {
      Pow2Sum(a - 1, b);
      assert Pow2(a + b) == 2 * Pow2(a + b - 1);
    }
  }

  lemma {:induction false} Pow2Monotone(a: nat, b: nat)
    requires a <= b
    ensures Pow2(a) <= Pow2(b)
    decreases b
  {
    if a < b { Pow2Monotone(a, b - 1); }
  }

  // ----- bitwise operators -----

  /** Bitwise conjunction of two's-complement integers of unbounded width. */
  function BitAnd(x: int, y: int): int
    decreases if x < 0 then -x else x
  {
    if x == 0 then 0
    else if x == -1 then y
    else 2 * BitAnd(x / 2, y / 2) + (x % 2) * (y % 2)
  }

  function BitNot(x: int): int { -1 - x }

  function BitOr(x: int, y: int): int { BitNot(BitAnd(BitNot(x), BitNot(y))) }

  lemma {:induction false} BitAndRange(x: int, y: int, k: nat)
    requires -Pow2(k) <= x < Pow2(k) && -Pow2(k) <= y < Pow2(k)
    ensures -Pow2(k) <= BitAnd(x, y) < Pow2(k)
    decreases k
  {
    if x != 0 && x != -1 {
      assert k != 0;
      BitAndRange(x / 2, y / 2, k - 1);
    }
  }

  lemma BitAndIsWord(x: Word, y: Word)
    ensures IsWord(BitAnd(x, y))
  {
    Pow2Of63();
    BitAndRange(x, y, 63);
  }

  function AndW(x: Word, y: Word): Word { BitAndIsWord(x, y); BitAnd(x, y) }
  function NotW(x: Word): Word { BitNot(x) }
  function OrW(x: Word, y: Word): Word { NotW(AndW(NotW(x), NotW(y))) }
  function XorW(x: Word, y: Word): Word { AndW(OrW(x, y), NotW(AndW(x, y))) }

  /** Bit k of a two's-complement integer. */
  function Bit(x: int, k: nat): bool {
    (x / Pow2(k)) % 2 == 1
  }

  lemma HalfThenShift(x: int, k: nat)
    requires k > 0
    ensures x / Pow2(k) == (x / 2) / Pow2(k - 1)
  {
    DivDiv(x, 2, Pow2(k - 1));
  }

  lemma DivDiv(x: int, a: int, b: int)
    requires a > 0 && b > 0
    ensures a * b > 0 && x / (a * b) == (x / a) / b
  {
    var q := x / a;
    var r := x % a;
    var q2 := q / b;
    var r2 := q % b;
    assert a * b > 0;
    assert x == a * (b * q2 + r2) + r;
    assert x == (a * b) * q2 + (a * r2 + r) by { Distribute(a, b * q2, r2); Assoc(a, b, q2); }
    assert 0 <= a * r2 <= a * (b - 1) by { MulMono(a, r2, b - 1); MulMono(a, 0, r2); }
    assert a * (b - 1) == a * b - a;
    DivUnique(x, a * b, q2, a * r2 + r);
  }

  lemma Assoc(a: int, b: int, c: int)
    ensures a * (b * c) == (a * b) * c
  {}

  lemma Distribute(a: int, b: int, c: int)
    ensures a * (b + c) == a * b + a * c
  {}

  lemma MulMono(a: int, x: int, y: int)
    requires a >= 0 && x <= y
    ensures a * x <= a * y
  {}

  lemma DivUnique(x: int, d: int, q: int, r: int)
    requires d > 0 && x == d * q + r && 0 <= r < d
    ensures x / d == q && x % d == r
  {
    var q', r' := x / d, x % d;
    assert d * (q - q') == r' - r by { Distribute(d, q, -q'); }
    if q > q' { MulMono(d, 1, q - q'); } else if q < q' { MulMono(d, q - q', -1); }
  }

  /** BitAnd is conjunction bit by bit; with BitNot this fixes every bitwise operator. */
  lemma {:induction false} BitAndMeaning(x: int, y: int, k: nat)
    ensures Bit(BitAnd(x, y), k) <==> Bit(x, k) && Bit(y, k)
    decreases k
  {
    if x == 0 {
      assert 0 / Pow2(k) == 0 by { DivUnique(0, Pow2(k), 0, 0); }
    } else if x == -1 {
      assert -1 / Pow2(k) == -1 by { DivUnique(-1, Pow2(k), -1, Pow2(k) - 1); }
    } else {
      var z := BitAnd(x, y);
      var low := (x % 2) * (y % 2);
      assert 0 <= low <= 1 && (low == 1 <==> x % 2 == 1 && y % 2 == 1);
      assert z == 2 * BitAnd(x / 2, y / 2) + low;
      assert z / 2 == BitAnd(x / 2, y / 2) && z % 2 == low;
      if k == 0 {
      } else {
        BitAndMeaning(x / 2, y / 2, k - 1);
        HalfThenShift(x, k);
        HalfThenShift(y, k);
        HalfThenShift(z, k);
      }
    }
  }

  lemma BitAndUnfold(x: int, y: int)
    ensures BitAnd(x, y) == 2 * BitAnd(x / 2, y / 2) + (x % 2) * (y % 2)
  {}

  lemma {:induction false} BitAndCommutes(x: int, y: int)
    ensures BitAnd(x, y) == BitAnd(y, x)
    decreases (if x < 0 then -x else x) + (if y < 0 then -y else y)
  {
    if (x == 0 || x == -1) && (y == 0 || y == -1) {
    } else {
      BitAndUnfold(x, y);
      BitAndUnfold(y, x);
      BitAndCommutes(x / 2, y / 2);
    }
  }

  lemma {:induction false} BitAndZero(a: int)
    ensures BitAnd(a, 0) == 0
    decreases if a < 0 then -a else a
  {
    if a != 0 && a != -1 { BitAndZero(a / 2); }
  }

  /** Masking with a power of two less one takes the remainder. */
  lemma {:induction false} MaskIsRemainder(x: nat, k: nat)
    ensures BitAnd(x, Pow2(k) - 1) == x % Pow2(k)
    decreases k
  {
    var p := Pow2(k);
    if k == 0 {
      BitAndZero(x);
    } else {
      MaskIsRemainder(x / 2, k - 1);
      var half := Pow2(k - 1);
      HalfMask(half);
      HalfRemainder(x, half);
      BitAndUnfold(x, p - 1);
      hide BitAnd, Pow2;
      assert (x % 2) * 1 == x % 2;
    }
  }

  lemma HalfMask(half: nat)
    requires half >= 1
    ensures (2 * half - 1) / 2 == half - 1 && (2 * half - 1) % 2 == 1
  {}

  lemma HalfRemainder(x: nat, half: nat)
    requires half >= 1
    ensures x % (2 * half) == 2 * ((x / 2) % half) + x % 2
  {
    var q, r := (x / 2) / half, (x / 2) % half;
    assert x / 2 == half * q + r;
    assert x == (2 * half) * q + (2 * r + x % 2);
    DivUnique(x, 2 * half, q, 2 * r + x % 2);
  }

  // ----- shifts and division -----

  function ShlW(x: Word, n: nat): Word { Wrap(x * Pow2(n)) }

  lemma FloorShrinks(x: Word, p: int)
    requires p >= 1
    ensures IsWord(x / p)
    ensures x >= 0 ==> x / p >= 0
    ensures x < 0 ==> x / p < 0
  {
    var q := x / p;
    var r := x % p;
    assert x == p * q + r;
    if q > 0 { MulMono(q, 1, p); }
    if q < -1 { MulMono(-(q + 1), 1, p); assert p * q + p == -((-(q + 1)) * p) ; }
    if x >= 0 && q < 0 { MulMono(p, q, -1); }
    if x < 0 && q >= 0 { MulMono(p, 0, q); }
  }

  /** Arithmetic right shift: floor division by a power of two. */
  function SarW(x: Word, n: nat): Word { FloorShrinks(x, Pow2(n)); x / Pow2(n) }

  /** Integer division truncating toward zero, as the source language and idiv do it. */
  function TruncDiv(a: int, b: int): int
    requires b != 0
  {
    if a >= 0 then if b > 0 then a / b else -(a / -b)
    else if b > 0 then -(-a / b) else -a / -b
  }

  function TruncRem(a: int, b: int): int
    requires b != 0
  {
    a - b * TruncDiv(a, b)
  }

  /** The remainder has the dividend's sign and is smaller than the divisor. */
  lemma TruncRemRange(a: int, b: int)
    requires b != 0
    ensures a >= 0 ==> 0 <= TruncRem(a, b)
    ensures a <= 0 ==> TruncRem(a, b) <= 0
    ensures b > 0 ==> -b < TruncRem(a, b) < b
    ensures b < 0 ==> b < TruncRem(a, b) < -b
  {
    var n, d := if a >= 0 then a else -a, if b > 0 then b else -b;
    var q, r := n / d, n % d;
    assert n == d * q + r;
  }

  function B2W(b: bool): Word { if b then 1 else 0 }
}
