/** Records read by the places of their fields. */
module ByteFields {
  import opened ByteCodec
  import Words

  /** Byte k counts for 256 to the power of k. */
  lemma {:induction false} LittleEndian(n: nat, v: nat, k: nat)
    requires k < n
    ensures Le(n, v)[k] == v / Pow256(k) % 256
  {
    if k > 0 {
      LittleEndian(n - 1, v / 256, k - 1);
      Words.DivDiv(v, 256, Pow256(k - 1));
    }
  }

  /** The number in n bytes from `from` on. */
  function NumAt(b: Bytes, from: nat, n: nat): nat
    requires from + n <= |b|
  {
    Num(b[from..from + n])
  }

  lemma NumAtIs(b: Bytes, from: nat, n: nat)
    requires from + n <= |b|
    ensures NumAt(b, from, n) == Num(b[from..from + n])
  {
  }

  /** A number in a part of a file. */
  lemma NumInPart(file: Bytes, at: nat, size: nat, from: nat, n: nat)
    requires at + size <= |file| && from + n <= size
    ensures NumAt(file, at + from, n) == NumAt(file[at..at + size], from, n)
  {
    hide Num;
    SubSlice(file, at, size, from, from + n);
  }

  lemma TwoParts(b: Bytes, from: nat, n: nat)
    requires from + 2 * n <= |b|
    ensures b[from..from + 2 * n] == b[from..from + n] + b[from + n..from + n + n]
  {
  }

  /** A number in halves. */
  lemma Halves(b: Bytes, from: nat, n: nat)
    requires from + 2 * n <= |b|
    ensures NumAt(b, from, n) < Pow256(n)
    ensures NumAt(b, from, 2 * n) == NumAt(b, from, n) + Pow256(n) * NumAt(b, from + n, n)
  {
    var low, high := b[from..from + n], b[from + n..from + n + n];
    assert |low| == n;
    hide *;
    TwoParts(b, from, n);
    NumAppend(low, high);
    LeNum(low);
    NumAtIs(b, from, n);
    NumAtIs(b, from + n, n);
    NumAtIs(b, from, 2 * n);
  }

  lemma {:induction false} NumAppend(a: Bytes, b: Bytes)
    ensures Num(a + b) == Num(a) + Pow256(|a|) * Num(b)
    decreases |a|
  {
    if a == [] {
      assert a + b == b;
    } else {
      assert (a + b)[1..] == a[1..] + b;
      assert Num(a + b) == a[0] + 256 * Num(a[1..] + b) && Num(a) == a[0] + 256 * Num(a[1..]);
      assert Pow256(|a|) == 256 * Pow256(|a| - 1);
      hide Num, Pow256;
      NumAppend(a[1..], b);
      Scaled(Pow256(|a| - 1), Num(b));
    }
  }

  lemma Scaled(p: nat, n: nat)
    ensures 256 * (p * n) == (256 * p) * n
  {
  }

  /** Where field k of a record starts. */
  function FieldAt(w: seq<nat>, k: nat): nat
    requires k <= |w|
  {
    if k == 0 then 0 else FieldAt(w, k - 1) + w[k - 1]
  }

  lemma {:induction false} FieldAtTail(w: seq<nat>, k: nat)
    requires 0 < k <= |w|
    ensures FieldAt(w, k) == w[0] + FieldAt(w[1..], k - 1)
  {
    if k > 1 { FieldAtTail(w, k - 1); }
  }

  lemma NumInRest(b: Bytes, from: nat, p: nat, n: nat)
    requires from + p + n <= |b|
    ensures NumAt(b[from..], p, n) == NumAt(b, from + p, n)
  {
    assert b[from..][p..p + n] == b[from + p..from + p + n];
  }

  lemma DecParts(w: seq<nat>, b: Bytes)
    requires w != [] && |b| == Width(w)
    ensures w[0] <= |b| && |b[w[0]..]| == Width(w[1..]) && Dec(w, b) == [NumAt(b, 0, w[0])] + Dec(w[1..], b[w[0]..])
  {
    assert b[0..w[0]] == b[..w[0]];
  }

  lemma FieldAtStart(w: seq<nat>)
    ensures FieldAt(w, 0) == 0
  {
  }

  /** Field k of a record is the number in its bytes. */
  lemma {:induction false} DecAt(w: seq<nat>, b: Bytes, k: nat)
    requires k < |w| && |b| == Width(w)
    ensures FieldAt(w, k) + w[k] <= |b|
    ensures Dec(w, b)[k] == NumAt(b, FieldAt(w, k), w[k])
  {
    hide *;
    DecParts(w, b);
    if k == 0 {
      FieldAtStart(w);
    } else {
      DecAt(w[1..], b[w[0]..], k - 1);
      FieldAtTail(w, k);
      NumInRest(b, w[0], FieldAt(w[1..], k - 1), w[k]);
    }
  }

  /** A record read at its fields' places. */
  lemma FieldReadBack(w: seq<nat>, v: seq<nat>, k: nat)
    requires Fits(w, v) && k < |w|
    ensures FieldAt(w, k) + w[k] <= |Enc(w, v)|
    ensures NumAt(Enc(w, v), FieldAt(w, k), w[k]) == v[k]
  {
    DecEnc(w, v);
    DecAt(w, Enc(w, v), k);
  }
}
