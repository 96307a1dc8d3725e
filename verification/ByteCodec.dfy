/** Little-endian numbers, fixed-width records, string tables and padded layouts: what the
    object formats are made of. */
module ByteCodec {
  import Words

  type Byte = x: int | 0 <= x < 256

  type Bytes = seq<Byte>

  function Pow256(n: nat): (p: nat)
    ensures p >= 1
  {
    if n == 0 then 1 else 256 * Pow256(n - 1)
  }

  lemma Pow256Values()
    ensures Pow256(1) == 0x100 && Pow256(2) == 0x1_0000 && Pow256(4) == 0x1_0000_0000
    ensures Pow256(8) == 0x1_0000_0000_0000_0000
  {
    assert Pow256(2) == 256 * Pow256(1);
    assert Pow256(4) == 256 * (256 * Pow256(2));
    assert Pow256(6) == 256 * (256 * Pow256(4));
    assert Pow256(8) == 256 * (256 * Pow256(6));
  }

  // ----- numbers -----

  /** The low n bytes of v, least significant first. */
  function Le(n: nat, v: nat): (b: Bytes)
    ensures |b| == n
  {
    if n == 0 then [] else [v % 256] + Le(n - 1, v / 256)
  }

  function Num(b: Bytes): nat {
    if b == [] then 0 else b[0] + 256 * Num(b[1..])
  }

  /** Reading back what was written gives the value truncated to the field. */
  lemma {:induction false} NumLe(n: nat, v: nat)
    ensures Num(Le(n, v)) == v % Pow256(n)
  {
    if n != 0 {
      NumLe(n - 1, v / 256);
      var p := Pow256(n - 1);
      assert Le(n, v)[1..] == Le(n - 1, v / 256);
      Truncate(v, p);
    }
  }

  lemma Truncate(v: nat, p: nat)
    requires p >= 1
    ensures 256 * p > 0 && v % 256 + 256 * ((v / 256) % p) == v % (256 * p)
  {
    var q, r := (v / 256) / p, (v / 256) % p;
    assert v / 256 == p * q + r;
    var rest := v % 256 + 256 * r;
    assert v == (256 * p) * q + rest;
    assert rest < 256 * p;
    Words.DivUnique(v, 256 * p, q, rest);
  }

  /** Bytes are recovered from their value and their number. */
  lemma {:induction false} LeNum(b: Bytes)
    ensures Le(|b|, Num(b)) == b && Num(b) < Pow256(|b|)
  {
    if b != [] {
      LeNum(b[1..]);
      assert Num(b) == b[0] + 256 * Num(b[1..]);
      assert Num(b) % 256 == b[0] && Num(b) / 256 == Num(b[1..]);
      assert b == [b[0]] + b[1..];
    }
  }

  lemma NumOfFitting(n: nat, v: nat)
    requires v < Pow256(n)
    ensures Num(Le(n, v)) == v
  {
    NumLe(n, v);
  }

  /** Two's complement in n bytes. */
  function Twos(n: nat, v: int): nat { v % Pow256(n) }

  function Signed(n: nat, u: nat): int {
    if 2 * u < Pow256(n) then u else u - Pow256(n)
  }

  lemma SignedTwos(n: nat, v: int)
    requires 0 <= Pow256(n) + 2 * v && 2 * v < Pow256(n)
    ensures Signed(n, Twos(n, v)) == v && Twos(n, v) < Pow256(n)
  {
    if v < 0 { Words.DivUnique(v, Pow256(n), -1, v + Pow256(n)); } else { Words.DivUnique(v, Pow256(n), 0, v); }
  }

  // ----- records -----

  function Width(w: seq<nat>): nat {
    if w == [] then 0 else w[0] + Width(w[1..])
  }

  lemma {:induction false} WidthAppend(a: seq<nat>, b: seq<nat>)
    ensures Width(a + b) == Width(a) + Width(b)
  {
    if a == [] {
      assert a + b == b;
    } else {
      assert (a + b)[1..] == a[1..] + b;
      WidthAppend(a[1..], b);
    }
  }

  /** Fields of the given widths, one after the other. */
  function Enc(w: seq<nat>, v: seq<nat>): (b: Bytes)
    requires |w| == |v|
    ensures |b| == Width(w)
  {
    if w == [] then [] else Le(w[0], v[0]) + Enc(w[1..], v[1..])
  }

  function Dec(w: seq<nat>, b: Bytes): (v: seq<nat>)
    requires |b| == Width(w)
    ensures |v| == |w|
  {
    if w == [] then [] else [Num(b[..w[0]])] + Dec(w[1..], b[w[0]..])
  }

  ghost predicate Fits(w: seq<nat>, v: seq<nat>) {
    |w| == |v| && forall i :: 0 <= i < |w| ==> v[i] < Pow256(w[i])
  }

  lemma {:induction false} DecEnc(w: seq<nat>, v: seq<nat>)
    requires Fits(w, v)
    ensures Dec(w, Enc(w, v)) == v
  {
    if w != [] {
      var b := Enc(w, v);
      assert b[..w[0]] == Le(w[0], v[0]) && b[w[0]..] == Enc(w[1..], v[1..]);
      NumOfFitting(w[0], v[0]);
      assert Fits(w[1..], v[1..]);
      DecEnc(w[1..], v[1..]);
    }
  }

  lemma {:induction false} EncAppend(w: seq<nat>, w': seq<nat>, v: seq<nat>, v': seq<nat>)
    requires |w| == |v| && |w'| == |v'|
    ensures Enc(w + w', v + v') == Enc(w, v) + Enc(w', v')
  {
    if w == [] {
      assert w + w' == w' && v + v' == v';
    } else {
      assert (w + w')[1..] == w[1..] + w' && (v + v')[1..] == v[1..] + v';
      EncAppend(w[1..], w', v[1..], v');
    }
  }

  /** Records of one shape, one after the other. */
  function EncTable(w: seq<nat>, rows: seq<seq<nat>>): (b: Bytes)
    requires forall r :: r in rows ==> |r| == |w|
    ensures |b| == |rows| * Width(w)
  {
    if rows == [] then []
    else
      MulStep(|rows| - 1, Width(w));
      EncTable(w, rows[..|rows| - 1]) + Enc(w, rows[|rows| - 1])
  }

  lemma MulStep(n: nat, size: nat)
    ensures (n + 1) * size == n * size + size
  {}

  lemma RowBounds(k: nat, n: nat, size: nat)
    requires k < n
    ensures 0 <= k * size && k * size + size <= n * size
  {
    MulStep(k, size);
    Words.MulMono(size, 0, k);
    Words.MulMono(size, k + 1, n);
  }

  lemma {:induction false} RowAt(w: seq<nat>, rows: seq<seq<nat>>, k: nat)
    requires (forall r :: r in rows ==> |r| == |w|) && k < |rows|
    ensures k * Width(w) + Width(w) <= |EncTable(w, rows)|
    ensures EncTable(w, rows)[k * Width(w)..k * Width(w) + Width(w)] == Enc(w, rows[k])
  {
    hide Enc, Width;
    var front := rows[..|rows| - 1];
    RowBounds(k, |rows|, Width(w));
    MulStep(|rows| - 1, Width(w));
    var t, e := EncTable(w, front), Enc(w, rows[|rows| - 1]);
    var b, p := EncTable(w, rows), k * Width(w);
    assert b == t + e;
    if k < |rows| - 1 {
      RowAt(w, front, k);
      assert front[k] == rows[k];
      PrefixSlice(b, t, p, p + Width(w));
    } else {
      SuffixSlice(t, e);
      assert |t| == p && |t + e| == p + Width(w);
    }
  }

  lemma SuffixSlice(a: Bytes, b: Bytes)
    ensures (a + b)[|a|..|a + b|] == b
  {}

  lemma SubSlice(b: Bytes, from: nat, size: nat, p: nat, q: nat)
    requires p <= q <= size && from + size <= |b|
    ensures b[from..from + size][p..q] == b[from + p..from + q]
  {
    var s := b[from..from + size];
    forall i | 0 <= i < q - p ensures s[p..q][i] == b[from + p..from + q][i] {
      assert s[p + i] == b[from + p + i];
    }
  }

  predicate Inside(file: Bytes, offset: nat, size: nat) { offset + size <= |file| }

  lemma TableSize(w: seq<nat>, rows: seq<seq<nat>>, width: nat)
    requires (forall r :: r in rows ==> |r| == |w|) && Width(w) == width
    ensures |EncTable(w, rows)| == width * |rows|
  {}

  lemma TableGrows(w: seq<nat>, rows: seq<seq<nat>>, k: nat)
    requires (forall r :: r in rows ==> |r| == |w|) && k < |rows|
    ensures (forall r :: r in rows[..k] ==> |r| == |w|) && (forall r :: r in rows[..k + 1] ==> |r| == |w|)
    ensures EncTable(w, rows[..k + 1]) == EncTable(w, rows[..k]) + Enc(w, rows[k])
  {
    assert rows[..k + 1][..k] == rows[..k];
  }

  /** Row k of a table that starts at `from` in the file. */
  lemma RowInFile(file: Bytes, from: nat, w: seq<nat>, rows: seq<seq<nat>>, k: nat)
    requires (forall r :: r in rows ==> |r| == |w|) && k < |rows|
    requires from + |EncTable(w, rows)| <= |file| && file[from..from + |EncTable(w, rows)|] == EncTable(w, rows)
    ensures 0 <= k * Width(w) && from + k * Width(w) + Width(w) <= |file|
    ensures file[from + k * Width(w)..from + k * Width(w) + Width(w)] == Enc(w, rows[k])
  {
    hide EncTable, Enc, Width;
    RowAt(w, rows, k);
    RowBounds(k, |rows|, Width(w));
    SubSlice(file, from, |EncTable(w, rows)|, k * Width(w), k * Width(w) + Width(w));
  }

  // ----- decimal -----

  /** Decimal digits, most significant first. */
  function Decimal(n: nat): (b: Bytes)
    ensures |b| >= 1
  {
    (if n < 10 then [] else Decimal(n / 10)) + [48 + n % 10]
  }

  function ParseDecimal(b: Bytes): nat {
    if b == [] then 0
    else ParseDecimal(b[..|b| - 1]) * 10 + if 48 <= b[|b| - 1] < 58 then b[|b| - 1] - 48 else 0
  }

  lemma {:induction false} ParseBack(n: nat)
    ensures ParseDecimal(Decimal(n)) == n
  {
    var b := Decimal(n);
    if n >= 10 {
      ParseBack(n / 10);
      assert b[..|b| - 1] == Decimal(n / 10);
    } else {
      assert b[..|b| - 1] == [];
    }
  }

  lemma {:induction false} DecimalDigits(n: nat)
    ensures forall c :: c in Decimal(n) ==> 48 <= c < 58
  {
    if n >= 10 { DecimalDigits(n / 10); }
  }

  // ----- string tables -----

  /** A NUL, then every non-empty name with its own NUL. */
  function StrTab(names: seq<Bytes>): (b: Bytes)
    ensures |b| >= 1
  {
    if names == [] then [0]
    else
      var last := names[|names| - 1];
      StrTab(names[..|names| - 1]) + if last == [] then [] else last + [0]
  }

  /** Where StrTab puts the k-th name: the empty name is the leading NUL. */
  function NameOffset(names: seq<Bytes>, k: nat): nat
    requires k < |names|
  {
    if names[k] == [] then 0 else |StrTab(names[..k])|
  }

  /** The bytes from an offset up to a NUL or the end. */
  function ReadStr(b: Bytes, off: nat): Bytes
    decreases |b| - off
  {
    if off >= |b| || b[off] == 0 then [] else [b[off]] + ReadStr(b, off + 1)
  }

  predicate NulFree(name: Bytes) { 0 !in name }

  lemma {:induction false} ReadStrAt(b: Bytes, off: nat, name: Bytes)
    requires off + |name| < |b| && b[off..off + |name|] == name && b[off + |name|] == 0 && NulFree(name)
    ensures ReadStr(b, off) == name
    decreases |name|
  {
    if name != [] {
      assert b[off] == name[0] && name[0] in name;
      assert b[off + 1..off + |name|] == name[1..];
      ReadStrAt(b, off + 1, name[1..]);
    }
  }

  lemma {:induction false} StrTabPrefix(names: seq<Bytes>, k: nat)
    requires k <= |names|
    ensures StrTab(names[..k]) <= StrTab(names)
    decreases |names|
  {
    if k < |names| {
      var front := names[..|names| - 1];
      assert front[..k] == names[..k];
      StrTabPrefix(front, k);
    } else {
      assert names[..k] == names;
    }
  }

  /** Every name can be read back at its offset. */
  lemma NameReadBack(names: seq<Bytes>, k: nat)
    requires k < |names| && NulFree(names[k])
    ensures ReadStr(StrTab(names), NameOffset(names, k)) == names[k]
    ensures NameOffset(names, k) < |StrTab(names)|
  {
    if names[k] == [] {
      StrTabPrefix(names, 0);
      assert names[..0] == [];
    } else {
      StrTabPrefix(names, k + 1);
      StrTabStep(names, k);
      var head, part := StrTab(names[..k]), StrTab(names[..k + 1]);
      hide StrTab;
      PrefixSlice(StrTab(names), part, |head|, |head| + |names[k]|);
      ReadStrAt(StrTab(names), |head|, names[k]);
    }
  }

  lemma StrTabStep(names: seq<Bytes>, k: nat)
    requires k < |names| && names[k] != []
    ensures var head, part := StrTab(names[..k]), StrTab(names[..k + 1]);
            |part| == |head| + |names[k]| + 1 && part[|head|..|head| + |names[k]|] == names[k] && part[|head| + |names[k]|] == 0
  {
    var upto := names[..k + 1];
    assert upto[..k] == names[..k] && upto[k] == names[k];
    assert StrTab(upto) == StrTab(names[..k]) + (names[k] + [0]);
  }

  lemma PrefixSlice(b: Bytes, part: Bytes, p: nat, q: nat)
    requires part <= b && p <= q <= |part|
    ensures b[p..q] == part[p..q] && forall i :: 0 <= i < |part| ==> b[i] == part[i]
  {}

  // ----- layout -----

  /** value rounded up to a multiple of align; 0 and 1 align nothing. */
  function AlignUp(value: nat, align: nat): (r: nat)
    ensures r >= value
    ensures align > 1 ==> r % align == 0 && r < value + align
    ensures align <= 1 ==> r == value
  {
    if align <= 1 then value
    else
      var remainder := value % align;
      if remainder == 0 then value
      else
        AlignedSum(value, align);
        value + (align - remainder)
  }

  lemma AlignedSum(value: nat, align: nat)
    requires align > 1 && value % align != 0
    ensures (value + (align - value % align)) % align == 0
  {
    var q := value / align;
    assert value + (align - value % align) == align * (q + 1) + 0;
    Words.DivUnique(value + (align - value % align), align, q + 1, 0);
  }

  datatype Slot = Slot(align: nat, size: nat)

  datatype Piece = Piece(align: nat, data: Bytes) {
    function Shape(): Slot { Slot(align, |data|) }
  }

  function Shapes(ps: seq<Piece>): (s: seq<Slot>)
    ensures |s| == |ps|
  {
    seq(|ps|, i requires 0 <= i < |ps| => ps[i].Shape())
  }

  /** Where slots of these sizes end when laid out in order. */
  function End(s: seq<Slot>): nat {
    if s == [] then 0
    else AlignUp(End(s[..|s| - 1]), s[|s| - 1].align) + s[|s| - 1].size
  }

  function Begin(s: seq<Slot>, k: nat): nat
    requires k < |s|
  {
    AlignUp(End(s[..k]), s[k].align)
  }

  function Zeros(n: nat): (b: Bytes)
    ensures |b| == n
  {
    seq(n, _ => 0)
  }

  /** The pieces written in order, padded with zeros. */
  function Place(ps: seq<Piece>): (b: Bytes)
    ensures |b| == End(Shapes(ps))
  {
    if ps == [] then []
    else
      var front, last := ps[..|ps| - 1], ps[|ps| - 1];
      assert Shapes(ps)[..|ps| - 1] == Shapes(front);
      var b := Place(front);
      b + Zeros(AlignUp(|b|, last.align) - |b|) + last.data
  }

  lemma {:induction false} EndMonotone(s: seq<Slot>, k: nat)
    requires k <= |s|
    ensures End(s[..k]) <= End(s)
    decreases |s|
  {
    if k < |s| {
      assert s[..|s| - 1][..k] == s[..k];
      EndMonotone(s[..|s| - 1], k);
    } else {
      assert s[..k] == s;
    }
  }

  /** The place a layout pass computes from sizes alone is where the write pass puts the bytes. */
  lemma {:induction false} PlacedAt(ps: seq<Piece>, k: nat)
    requires k < |ps|
    ensures var b, from := Place(ps), Begin(Shapes(ps), k);
            from + |ps[k].data| <= |b| && b[from..from + |ps[k].data|] == ps[k].data
    decreases |ps|
  {
    var s, n := Shapes(ps), |ps|;
    var front := ps[..n - 1];
    assert s[..n - 1] == Shapes(front);
    var b, from := Place(ps), Begin(s, k);
    assert Place(front) <= b;
    if k < n - 1 {
      assert s[..n - 1][..k] == s[..k];
      PlacedAt(front, k);
      PrefixSlice(b, Place(front), from, from + |ps[k].data|);
    }
  }

  /** Writing one more piece pads to its place and appends it. */
  lemma PlaceGrows(ps: seq<Piece>, k: nat)
    requires k < |ps|
    ensures |Place(ps[..k])| == End(Shapes(ps)[..k]) <= Begin(Shapes(ps), k)
    ensures Place(ps[..k + 1]) == Place(ps[..k]) + Zeros(Begin(Shapes(ps), k) - |Place(ps[..k])|) + ps[k].data
  {
    assert ps[..k + 1][..k] == ps[..k];
    assert Shapes(ps[..k]) == Shapes(ps)[..k];
  }

  /** Slots do not overlap: each begins after the one before it ends. */
  lemma BeginAfter(s: seq<Slot>, j: nat, k: nat)
    requires j < k < |s|
    ensures Begin(s, j) + s[j].size <= Begin(s, k)
  {
    assert s[..j + 1][..j] == s[..j];
    EndMonotone(s[..k], j + 1);
    assert s[..k][..j + 1] == s[..j + 1];
  }
}
