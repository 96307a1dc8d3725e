/** The vectorized word counter against the scalar loop it stands in for. */
module WordCounter {
  import opened Words
  import opened ByteCodec
  import ShiftDivision

  predicate IsSpace(c: Byte) { c == 32 || c == 9 || c == 10 || c == 13 }

  // ----- what is counted -----

  /** Positions where a word starts: a non-space with nothing or a space before it. */
  function StartsOf(buf: Bytes): set<nat> {
    set i: nat | 0 <= i < |buf| && StartsAt(buf, i)
  }

  predicate StartsAt(buf: Bytes, i: nat)
    requires i < |buf|
  {
    buf[i] !in {32, 9, 10, 13} && (i == 0 || buf[i - 1] in {32, 9, 10, 13})
  }

  /** The same number, counted from the left; `inWord` says whether a word is already open. */
  function CountFrom(buf: Bytes, inWord: bool): nat {
    if buf == [] then 0
    else
      var open := !IsSpace(buf[0]);
      (if open && !inWord then 1 else 0) + CountFrom(buf[1..], open)
  }

  function Open(buf: Bytes, inWord: bool): bool {
    if buf == [] then inWord else !IsSpace(buf[|buf| - 1])
  }

  lemma {:induction false} CountSplit(a: Bytes, b: Bytes, inWord: bool)
    ensures CountFrom(a + b, inWord) == CountFrom(a, inWord) + CountFrom(b, Open(a, inWord))
  {
    if a == [] {
      assert a + b == b;
    } else {
      assert (a + b)[1..] == a[1..] + b;
      CountSplit(a[1..], b, !IsSpace(a[0]));
    }
  }

  /** CountFrom counts the word starts. */
  lemma {:induction false} CountIsStarts(buf: Bytes)
    ensures |StartsOf(buf)| == CountFrom(buf, false)
  {
    if buf == [] {
      assert StartsOf(buf) == {};
    } else {
      var n := |buf| - 1;
      var front := buf[..n];
      CountIsStarts(front);
      assert buf == front + [buf[n]];
      CountSplit(front, [buf[n]], false);
      assert CountFrom([buf[n]], Open(front, false)) == if !IsSpace(buf[n]) && !Open(front, false) then 1 else 0 by {
        assert [buf[n]][1..] == [];
      }
      if !IsSpace(buf[n]) && !Open(front, false) {
        assert StartsOf(buf) == StartsOf(front) + {n};
      } else {
        assert StartsOf(buf) == StartsOf(front);
      }
    }
  }

  /** The scalar reference. */
  method WordCount(buf: Bytes) returns (count: nat)
    ensures count == CountFrom(buf, false) == |StartsOf(buf)|
  {
    count := 0;
    var inWord := false;
    for i := 0 to |buf|
      invariant count == CountFrom(buf[..i], false) && inWord == Open(buf[..i], false)
    {
      CountSplit(buf[..i], [buf[i]], false);
      assert buf[..i] + [buf[i]] == buf[..i + 1];
      assert [buf[i]][1..] == [];
      if IsSpace(buf[i]) {
        inWord := false;
      } else {
        if !inWord { count := count + 1; }
        inWord := true;
      }
    }
    assert buf[..|buf|] == buf;
    CountIsStarts(buf);
  }

  // ----- bits -----

  /** Bit i of the number is bits[i]. */
  function Val(bits: seq<bool>): nat {
    if bits == [] then 0 else (if bits[0] then 1 else 0) + 2 * Val(bits[1..])
  }

  function PopCount(x: nat): nat {
    if x == 0 then 0 else x % 2 + PopCount(x / 2)
  }

  lemma {:induction false} ValBound(bits: seq<bool>)
    ensures Val(bits) < Pow2(|bits|)
  {
    if bits != [] { ValBound(bits[1..]); }
  }

  /** Bits of y from k up do not matter to a number below 2^k. */
  lemma {:induction false} HighBitsIgnored(x: nat, y: int, z: int, k: nat)
    requires x < Pow2(k)
    ensures BitAnd(x, y + Pow2(k) * z) == BitAnd(x, y)
  {
    if x != 0 {
      var p := Pow2(k - 1);
      HighBitsIgnored(x / 2, y / 2, z, k - 1);
      assert y + Pow2(k) * z == y + 2 * (p * z) by { Assoc(2, p, z); }
      BitAndUnfold(x, y);
      BitAndUnfold(x, y + 2 * (p * z));
    }
  }

  /** nw & ~((nw << 1) | carry): the set bits with a clear bit below. */
  function Risen(bits: seq<bool>, carry: bool): int {
    BitAnd(Val(bits), -1 - (2 * Val(bits) + if carry then 1 else 0))
  }

  lemma {:induction false} RisenStep(bits: seq<bool>, carry: bool)
    requires bits != []
    ensures Risen(bits, carry) == (if bits[0] && !carry then 1 else 0) + 2 * Risen(bits[1..], bits[0])
  {
    var v: int := Val(bits);
    var c: int := if carry then 1 else 0;
    var y: int := -1 - (2 * v + c);
    BitAndUnfold(v, y);
    assert v / 2 == Val(bits[1..]) && v % 2 == if bits[0] then 1 else 0;
    assert y / 2 == -1 - v && y % 2 == 1 - c;
  }

  lemma {:induction false} RisenBound(bits: seq<bool>, carry: bool)
    ensures 0 <= Risen(bits, carry) < Pow2(|bits|)
  {
    if bits != [] {
      RisenStep(bits, carry);
      RisenBound(bits[1..], bits[0]);
    }
  }

  function NonSpace(buf: Bytes): (bits: seq<bool>)
    ensures |bits| == |buf|
  {
    seq(|buf|, i requires 0 <= i < |buf| => !IsSpace(buf[i]))
  }

  /** The population count of those bits is the number of words that start in the chunk. */
  lemma {:induction false} PopCountIsCount(buf: Bytes, carry: bool)
    ensures Risen(NonSpace(buf), carry) >= 0 && PopCount(Risen(NonSpace(buf), carry)) == CountFrom(buf, carry)
  {
    var bits := NonSpace(buf);
    RisenBound(bits, carry);
    if buf != [] {
      assert bits[1..] == NonSpace(buf[1..]);
      RisenStep(bits, carry);
      RisenBound(bits[1..], bits[0]);
      PopCountIsCount(buf[1..], bits[0]);
    } else {
      assert BitAnd(0, -1 - (2 * 0 + if carry then 1 else 0)) == 0;
    }
  }

  // ----- lanes -----

  /** All ones where the bytes are equal. */
  function CompareLanes(a: Bytes, c: Byte): (r: Bytes)
    ensures |r| == |a| && forall i :: 0 <= i < |a| ==> r[i] == if a[i] == c then 255 else 0
  {
    seq(|a|, i requires 0 <= i < |a| => if a[i] == c then 255 else 0)
  }

  predicate Uniform(a: Bytes) { forall i :: 0 <= i < |a| ==> a[i] == 0 || a[i] == 255 }

  lemma OrUniform(x: Byte, y: Byte)
    requires (x == 0 || x == 255) && (y == 0 || y == 255)
    ensures BitOr(x, y) == if x == 255 || y == 255 then 255 else 0
  {
    BitAndCommutes(BitNot(x), BitNot(y));
    ShiftDivision.BitAndSelf(-256);
  }

  function OrByte(x: Byte, y: Byte): (r: Byte)
    requires (x == 0 || x == 255) && (y == 0 || y == 255)
    ensures r == if x == 255 || y == 255 then 255 else 0
  {
    OrUniform(x, y);
    BitOr(x, y)
  }

  function OrLanes(a: Bytes, b: Bytes): (r: Bytes)
    requires |a| == |b| && Uniform(a) && Uniform(b)
    ensures |r| == |a| && Uniform(r) && forall i :: 0 <= i < |a| ==> (r[i] == 255 <==> a[i] == 255 || b[i] == 255)
  {
    seq(|a|, i requires 0 <= i < |a| => OrByte(a[i], b[i]))
  }

  /** The top bit of every lane. */
  function MoveMask(a: Bytes): nat {
    Val(seq(|a|, i requires 0 <= i < |a| => a[i] >= 128))
  }

  function Spaces(buf: Bytes): (bits: seq<bool>)
    ensures |bits| == |buf|
  {
    seq(|buf|, i requires 0 <= i < |buf| => IsSpace(buf[i]))
  }

  lemma {:induction false} ValComplement(buf: Bytes)
    ensures Val(NonSpace(buf)) == Pow2(|buf|) - 1 - Val(Spaces(buf))
  {
    if buf != [] {
      ValComplement(buf[1..]);
      assert NonSpace(buf)[1..] == NonSpace(buf[1..]) && Spaces(buf)[1..] == Spaces(buf[1..]);
    }
  }

  lemma MaskLow(x: nat, k: nat)
    requires x < Pow2(k)
    ensures BitAnd(x, Pow2(k) - 1) == x
  {
    MaskIsRemainder(x, k);
    DivUnique(x, Pow2(k), 0, x);
  }

  const TWO32: nat := 0x1_0000_0000

  function Not32(x: nat): nat
    requires x < TWO32
  {
    TWO32 - 1 - x
  }

  lemma Powers()
    ensures Pow2(16) == 0x1_0000 && Pow2(17) == 0x2_0000 && Pow2(32) == TWO32 && Pow2(15) == 0x8000
  {
    assert Pow2(4) == 16;
    Pow2Sum(4, 4);
    Pow2Sum(8, 8);
    Pow2Sum(16, 16);
    Pow2Sum(8, 7);
    assert Pow2(7) == 128;
  }

  /** Sixteen bytes to the mask of spaces. */
  method SpaceMask(chunk: Bytes) returns (mask: nat)
    ensures mask == Val(Spaces(chunk))
  {
    var spaces := CompareLanes(chunk, 32);
    spaces := OrLanes(spaces, CompareLanes(chunk, 9));
    spaces := OrLanes(spaces, CompareLanes(chunk, 10));
    spaces := OrLanes(spaces, CompareLanes(chunk, 13));
    mask := MoveMask(spaces);
    assert Spaces(chunk) == seq(|spaces|, i requires 0 <= i < |spaces| => spaces[i] >= 128);
  }

  /** One round of the vector loop: the words that start in the chunk, and the new carry. */
  method CountChunk(chunk: Bytes, carry: nat) returns (starts: nat, next: nat)
    requires |chunk| == 16 && carry <= 1
    ensures starts == CountFrom(chunk, carry == 1)
    ensures next == if Open(chunk, carry == 1) then 1 else 0
  {
    hide Val, BitAnd, BitOr, PopCount, CountFrom, Pow2, Risen;
    var r9 := SpaceMask(chunk);
    ghost var nw := Val(NonSpace(chunk));
    ChunkMasks(chunk);
    var r10 := BitAnd(0xFFFF, Not32(r9));
    var r11 := r10 * 2 % TWO32;
    OrLowBit(nw, carry);
    r11 := BitOr(r11, carry);
    next := r10 / 0x8000 % 2;
    Carried(chunk, carry == 1);
    RisenIs32(NonSpace(chunk), carry == 1);
    Masked(NonSpace(chunk), carry == 1);
    var left := BitAnd(r10, Not32(r11));
    left := BitAnd(left, 0xFFFF);
    starts := PopCount(left);
    PopCountIsCount(chunk, carry == 1);
  }

  lemma ChunkMasks(chunk: Bytes)
    requires |chunk| == 16
    ensures Val(Spaces(chunk)) < 0x1_0000 && Val(NonSpace(chunk)) < 0x1_0000
    ensures BitAnd(0xFFFF, Not32(Val(Spaces(chunk)))) == Val(NonSpace(chunk))
  {
    hide Val, BitAnd, Pow2;
    Powers();
    ValBound(Spaces(chunk));
    ValBound(NonSpace(chunk));
    ValComplement(chunk);
    HighBitsOfNot(Val(Spaces(chunk)));
  }

  lemma Carried(chunk: Bytes, inWord: bool)
    requires |chunk| == 16
    ensures Val(NonSpace(chunk)) / 0x8000 % 2 == if Open(chunk, inWord) then 1 else 0
  {
    hide Val, Pow2;
    Powers();
    TopBit(NonSpace(chunk));
  }

  lemma Masked(bits: seq<bool>, carry: bool)
    requires |bits| == 16
    ensures Risen(bits, carry) >= 0 && BitAnd(Risen(bits, carry), 0xFFFF) == Risen(bits, carry)
  {
    hide BitAnd, Risen, Pow2;
    Powers();
    RisenBound(bits, carry);
    MaskLow(Risen(bits, carry), 16);
  }

  /** ~ws & 0xFFFF. */
  lemma HighBitsOfNot(ws: nat)
    requires ws < 0x1_0000
    ensures BitAnd(0xFFFF, Not32(ws)) == 0xFFFF - ws
  {
    Powers();
    var x := 0xFFFF - ws;
    assert Not32(ws) == x + Pow2(16) * 0xFFFF;
    HighBitsIgnored(0xFFFF, x, 0xFFFF, 16);
    MaskLow(x, 16);
    BitAndCommutes(0xFFFF, x);
  }

  lemma OrLowBit(nw: nat, carry: nat)
    requires carry <= 1
    ensures BitOr(2 * nw, carry) == 2 * nw + carry
  {
    var a, b := -1 - 2 * nw, -1 - carry;
    BitAndUnfold(a, b);
    assert a / 2 == -1 - nw && a % 2 == 1 && b / 2 == -1 && b % 2 == 1 - carry;
    BitAndCommutes(-1 - nw, -1);
  }

  lemma RisenIs32(bits: seq<bool>, carry: bool)
    requires |bits| == 16
    ensures 2 * Val(bits) + (if carry then 1 else 0) < TWO32
    ensures BitAnd(Val(bits), Not32(2 * Val(bits) + if carry then 1 else 0)) == Risen(bits, carry)
  {
    ValBound(bits);
    Powers();
    var prev := 2 * Val(bits) + if carry then 1 else 0;
    HighBitsIgnored(Val(bits), -1 - prev, 0x1_0000, 16);
  }

  lemma {:induction false} TopBit(bits: seq<bool>)
    requires bits != []
    ensures Val(bits) / Pow2(|bits| - 1) % 2 == if bits[|bits| - 1] then 1 else 0
  {
    ValBound(bits);
    var rest := bits[1..];
    if |bits| > 1 {
      TopBit(rest);
      HalfThenShift(Val(bits), |bits| - 1);
    }
  }

  /** The counter as emitted: sixteen bytes at a time with a carry, then the rest one by one.
      It adds to the prior count, modulo 2^64. */
  method CountWordStarts(buf: Bytes, prior: Word) returns (rax: Word)
    ensures rax == Wrap(prior + CountFrom(buf, false)) && rax == Wrap(prior + |StartsOf(buf)|)
  {
    rax := prior;
    var rcx, rdx, r8 := 0, |buf|, 0;
    ghost var done := 0;
    while rdx >= 16
      invariant 0 <= rcx <= |buf| && rcx + rdx == |buf| && r8 == (if Open(buf[..rcx], false) then 1 else 0)
      invariant done == CountFrom(buf[..rcx], false) && rax == Wrap(prior + done)
    {
      var chunk := buf[rcx..rcx + 16];
      CountSplit(buf[..rcx], chunk, false);
      assert buf[..rcx] + chunk == buf[..rcx + 16];
      var starts, carry := CountChunk(chunk, r8);
      WrapAdd(prior, done, starts);
      rax := Wrap(rax + starts);
      done := done + starts;
      r8, rcx, rdx := carry, rcx + 16, rdx - 16;
    }
    while rdx > 0
      invariant 0 <= rcx <= |buf| && rcx + rdx == |buf| && r8 == (if Open(buf[..rcx], false) then 1 else 0)
      invariant done == CountFrom(buf[..rcx], false) && rax == Wrap(prior + done)
    {
      CountSplit(buf[..rcx], [buf[rcx]], false);
      assert buf[..rcx] + [buf[rcx]] == buf[..rcx + 1];
      assert [buf[rcx]][1..] == [];
      if IsSpace(buf[rcx]) {
        r8 := 0;
      } else {
        if r8 == 0 {
          WrapAdd(prior, done, 1);
          rax := Wrap(rax + 1);
          done := done + 1;
        }
        r8 := 1;
      }
      rcx, rdx := rcx + 1, rdx - 1;
    }
    assert buf[..rcx] == buf;
    CountIsStarts(buf);
  }

  lemma WrapAdd(a: int, b: int, c: int)
    ensures Wrap(Wrap(a + b) + c) == Wrap(a + (b + c))
  {}
}
