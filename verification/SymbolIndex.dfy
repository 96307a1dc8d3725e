/** The symbol table with its open-addressing name index: defining, finding, growing. */
module SymbolIndex {
  import opened ByteCodec
  import opened ObjectModel
  import opened Wrappers
  import Words

  // ----- probing -----

  /** The e-th bucket a probe from hash h looks at. */
  function Probe(h: nat, e: nat, len: nat): (p: nat)
    requires len > 0
    ensures p < len
  {
    (h + e) % len
  }

  lemma NextSlot(h: nat, e: nat, len: nat)
    requires len > 0
    ensures (Probe(h, e, len) + 1) % len == Probe(h, e + 1, len)
  {
    var q, r := (h + e) / len, (h + e) % len;
    assert h + e == len * q + r;
    if r + 1 < len {
      Words.DivUnique(h + e + 1, len, q, r + 1);
      Words.DivUnique(r + 1, len, 0, r + 1);
    } else {
      assert h + e + 1 == len * (q + 1) + 0;
      Words.DivUnique(h + e + 1, len, q + 1, 0);
      Words.DivUnique(r + 1, len, 1, 0);
    }
  }

  /** Every bucket is reached within one round. */
  lemma SlotReached(h: nat, z: nat, len: nat) returns (e: nat)
    requires z < len
    ensures e < len && Probe(h, e, len) == z
  {
    var q, r := h / len, h % len;
    assert h == len * q + r;
    if r <= z {
      e := z - r;
      Words.DivUnique(h + e, len, q, z);
    } else {
      e := z + len - r;
      assert h + e == len * (q + 1) + z;
      Words.DivUnique(h + e, len, q + 1, z);
    }
  }

  /** Bucket counts: 256, doubled each time the table grows. */
  ghost predicate PowerSize(len: nat) { exists k: nat :: len == 256 * Words.Pow2(k) }

  /** The bucket a hash starts at: its low bits. */
  function Masked(h: nat, len: nat): int { Words.BitAnd(h, len - 1) }

  lemma MaskedIs(h: nat, len: nat)
    requires PowerSize(len)
    ensures len > 0 && Masked(h, len) == h % len
  {
    var k: nat :| len == 256 * Words.Pow2(k);
    assert Words.Pow2(8) == 256 by { assert Words.Pow2(4) == 16; }
    Words.Pow2Sum(8, k);
    Words.MaskIsRemainder(h, 8 + k);
  }

  lemma SizesGrow(len: nat)
    ensures PowerSize(256)
    ensures PowerSize(len) ==> PowerSize(2 * len)
  {
    assert 256 == 256 * Words.Pow2(0);
    if PowerSize(len) {
      var k: nat :| len == 256 * Words.Pow2(k);
      assert 2 * len == 256 * Words.Pow2(k + 1);
    }
  }

  // ----- the index -----

  function CountUsed(b: seq<nat>): nat {
    if b == [] then 0 else CountUsed(b[..|b| - 1]) + if b[|b| - 1] != 0 then 1 else 0
  }

  lemma {:induction false} CountUsedFull(b: seq<nat>)
    requires forall p :: 0 <= p < |b| ==> b[p] != 0
    ensures CountUsed(b) == |b|
  {
    if b != [] { CountUsedFull(b[..|b| - 1]); }
  }

  lemma {:induction false} CountUsedPut(b: seq<nat>, p: nat, v: nat)
    requires p < |b| && b[p] == 0 && v != 0
    ensures CountUsed(b[p := v]) == CountUsed(b) + 1
  {
    var c := b[p := v];
    if p == |b| - 1 {
      assert c[..|c| - 1] == b[..|b| - 1];
    } else {
      CountUsedPut(b[..|b| - 1], p, v);
      assert c[..|c| - 1] == b[..|b| - 1][p := v];
    }
  }

  lemma {:induction false} CountUsedZero(b: seq<nat>)
    requires forall p :: 0 <= p < |b| ==> b[p] == 0
    ensures CountUsed(b) == 0
  {
    if b != [] { CountUsedZero(b[..|b| - 1]); }
  }

  /** Buckets before the e-th of a probe are in use. */
  ghost predicate Passes(b: seq<nat>, h: nat, e: nat) {
    |b| > 0 && forall a {:trigger Probe(h, a, |b|)} :: 0 <= a < e ==> b[Probe(h, a, |b|)] != 0
  }

  /** Symbol i is where a probe for its name finds it. */
  ghost predicate Sits(hash: Bytes -> nat, symbols: seq<Symbol>, b: seq<nat>, i: nat, e: nat) {
    i < |symbols| && Passes(b, hash(symbols[i].name), e) && b[Probe(hash(symbols[i].name), e, |b|)] == i + 1
  }

  ghost predicate Seated(hash: Bytes -> nat, symbols: seq<Symbol>, b: seq<nat>, i: nat) {
    exists e: nat :: Sits(hash, symbols, b, i, e)
  }

  /** The buckets index the first n symbols. */
  ghost predicate Indexed(hash: Bytes -> nat, symbols: seq<Symbol>, n: nat, b: seq<nat>) {
    && |b| > 0 && n <= |symbols| && CountUsed(b) <= n
    && (forall p :: 0 <= p < |b| ==> b[p] <= n)
    && (forall i :: 0 <= i < n ==> Seated(hash, symbols, b, i))
  }

  ghost predicate Distinct(symbols: seq<Symbol>) {
    forall i, j :: 0 <= i < j < |symbols| ==> symbols[i].name != symbols[j].name
  }

  lemma FreeBucket(hash: Bytes -> nat, symbols: seq<Symbol>, n: nat, b: seq<nat>, h: nat) returns (e: nat)
    requires Indexed(hash, symbols, n, b) && n < |b|
    ensures e < |b| && b[Probe(h, e, |b|)] == 0
  {
    if forall p :: 0 <= p < |b| ==> b[p] != 0 { CountUsedFull(b); }
    var z :| 0 <= z < |b| && b[z] == 0;
    e := SlotReached(h, z, |b|);
  }

  /** Putting the next symbol into the first free bucket of its probe keeps everyone findable. */
  lemma PutIndexed(hash: Bytes -> nat, symbols: seq<Symbol>, n: nat, b: seq<nat>, e: nat)
    requires Indexed(hash, symbols, n, b) && n < |symbols|
    requires var h := hash(symbols[n].name); Passes(b, h, e) && b[Probe(h, e, |b|)] == 0
    ensures Indexed(hash, symbols, n + 1, b[Probe(hash(symbols[n].name), e, |b|) := n + 1])
  {
    hide Probe;
    var p := Probe(hash(symbols[n].name), e, |b|);
    var b' := b[p := n + 1];
    CountUsedPut(b, p, n + 1);
    forall i | 0 <= i < n + 1 ensures Seated(hash, symbols, b', i) {
      if i == n {
        assert Sits(hash, symbols, b', n, e);
      } else {
        assert Seated(hash, symbols, b, i);
        var d: nat :| Sits(hash, symbols, b, i, d);
        assert Sits(hash, symbols, b', i, d);
      }
    }
  }

  lemma {:induction false} FindIs(symbols: seq<Symbol>, i: nat, from: nat)
    requires Distinct(symbols) && from <= i < |symbols|
    ensures FindFrom(symbols, symbols[i].name, from) == Some(i)
    decreases i - from
  {
    if from < i { FindIs(symbols, i, from + 1); }
  }

  // ----- definitions as a value -----

  datatype Action =
    | Define(name: Bytes, binding: Binding, section: Option<nat>, value: nat, size: nat)
    | Reset

  function Record(a: Action): Symbol
    requires a.Define?
  {
    Symbol(a.name, a.binding, a.section, a.value, a.size)
  }

  /** A new name is appended, a known one redefined in its place; the empty name is refused. */
  function Applied(symbols: seq<Symbol>, a: Action): seq<Symbol> {
    match a
    case Reset => []
    case Define(name, _, _, _, _) =>
      if name == [] then symbols
      else
        var k := Find(symbols, name);
        if k.Some? then symbols[k.value := Record(a)] else symbols + [Record(a)]
  }

  function AppliedAll(actions: seq<Action>): seq<Symbol> {
    if actions == [] then [] else Applied(AppliedAll(actions[..|actions| - 1]), actions[|actions| - 1])
  }

  lemma AppliedDistinct(symbols: seq<Symbol>, a: Action)
    requires Distinct(symbols)
    ensures Distinct(Applied(symbols, a))
  {}

  /** The definition of a name in force after the actions: the last one since the last reset. */
  function InForce(actions: seq<Action>, name: Bytes): Option<Symbol> {
    if actions == [] then None
    else
      var a := actions[|actions| - 1];
      if a.Reset? then None
      else if a.name == name && name != [] then Some(Symbol(name, a.binding, a.section, a.value, a.size))
      else InForce(actions[..|actions| - 1], name)
  }

  /** After any run, names are unique and looking a name up gives the definition in force. */
  lemma {:induction false} LastDefinitionWins(actions: seq<Action>, name: Bytes)
    ensures Distinct(AppliedAll(actions))
    ensures var k := Find(AppliedAll(actions), name);
            InForce(actions, name) == if k.Some? then Some(AppliedAll(actions)[k.value]) else None
  {
    if actions != [] {
      var front, a := actions[..|actions| - 1], actions[|actions| - 1];
      LastDefinitionWins(front, name);
      AppliedDistinct(AppliedAll(front), a);
      AppliedFind(AppliedAll(front), a, name);
    }
  }

  lemma AppliedFind(symbols: seq<Symbol>, a: Action, name: Bytes)
    requires Distinct(symbols) && Distinct(Applied(symbols, a))
    ensures var k, k' := Find(symbols, name), Find(Applied(symbols, a), name);
            if a.Reset? then k' == None
            else if a.name == name && name != [] then k'.Some? && Applied(symbols, a)[k'.value] == Record(a)
            else k' == k && (k.Some? ==> Applied(symbols, a)[k.value] == symbols[k.value])
  {
    var s := Applied(symbols, a);
    if a.Define? {
      if a.name != [] && a.name == name {
        var at := if Find(symbols, name).Some? then Find(symbols, name).value else |symbols|;
        FindIs(s, at, 0);
      } else if Find(symbols, name).Some? {
        FindIs(s, Find(symbols, name).value, 0);
      }
    }
  }

  // ----- the table -----

  class SymbolTable {
    const hash: Bytes -> nat
    var symbols: seq<Symbol>
    var buckets: array<nat>
    ghost var actions: seq<Action>

    /** The index covers all symbols, is never more than seven tenths full, and its size is a power of two. */
    ghost predicate Consistent()
      reads this, buckets
    {
      && Distinct(symbols)
      && (if buckets.Length == 0 then symbols == []
          else Indexed(hash, symbols, |symbols|, buckets[..]) && |symbols| * 10 < buckets.Length * 7 && PowerSize(buckets.Length))
    }

    /** The symbols are what the actions so far have made of them. */
    ghost predicate Valid()
      reads this, buckets
    {
      symbols == AppliedAll(actions) && Consistent()
    }

    constructor (hash: Bytes -> nat)
      ensures Valid() && actions == [] && fresh(buckets) && this.hash == hash
    {
      this.hash := hash;
      symbols, actions := [], [];
      buckets := new nat[0];
    }

    /** Everything is dropped, the index included. */
    method Clear()
      requires Valid()
      modifies this
      ensures Valid() && actions == old(actions) + [Reset] && fresh(buckets)
    {
      symbols := [];
      buckets := new nat[0];
      actions := actions + [Reset];
      assert actions[..|actions| - 1] == old(actions);
    }

    /** The same answer as a linear scan, for every name and every hash function. */
    method FindIndex(name: Bytes) returns (k: Option<nat>)
      requires Consistent()
      ensures k == Find(symbols, name)
    {
      hide Probe, CountUsed, PowerSize, Masked;
      if buckets.Length == 0 { return None; }
      var len := buckets.Length;
      ghost var b, h := buckets[..], hash(name);
      ghost var free := FreeBucket(hash, symbols, |symbols|, b, h);
      ghost var e: nat := 0;
      ProbeStart(h, len);
      MaskedIs(h, len);
      var pos := Masked(hash(name), len);
      while buckets[pos] != 0
        invariant e <= free && pos == Probe(h, e, len) && Passes(b, h, e) && Misses(symbols, b, h, e, name)
        decreases free - e
      {
        var i := buckets[pos] - 1;
        assert b[pos] <= |symbols|;
        if symbols[i].name == name {
          FindIs(symbols, i, 0);
          return Some(i);
        }
        NextSlot(h, e, len);
        MaskedIs(pos + 1, len);
        pos := Masked(pos + 1, len);
        e := e + 1;
      }
      k := None;
      KnownIsMet(hash, symbols, b, name, e);
    }

    /** Rebuilds the index over all symbols with a new number of buckets. */
    method Rehash(newCount: nat)
      requires Distinct(symbols) && |symbols| < newCount && PowerSize(newCount)
      modifies this`buckets
      ensures fresh(buckets) && buckets.Length == newCount && Indexed(hash, symbols, |symbols|, buckets[..])
    {
      hide Probe, CountUsed, PowerSize;
      var grown := new nat[newCount](_ => 0);
      NoneIndexed(hash, symbols, grown[..]);
      for i := 0 to |symbols|
        invariant Indexed(hash, symbols, i, grown[..])
      {
        Seat(grown, i);
      }
      buckets := grown;
    }

    /** Linear probing from the symbol's own bucket to the first free one. */
    method Seat(b: array<nat>, i: nat)
      requires i < |symbols| && Indexed(hash, symbols, i, b[..]) && i < b.Length && PowerSize(b.Length)
      modifies b
      ensures Indexed(hash, symbols, i + 1, b[..])
    {
      hide Probe, CountUsed, PowerSize, Masked;
      var h := hash(symbols[i].name);
      ghost var was := b[..];
      ghost var free := FreeBucket(hash, symbols, i, was, h);
      ghost var e: nat := 0;
      ProbeStart(h, b.Length);
      MaskedIs(h, b.Length);
      var pos := Masked(h, b.Length);
      while b[pos] != 0
        invariant b[..] == was && e <= free && pos == Probe(h, e, b.Length) && Passes(was, h, e)
        decreases free - e
      {
        NextSlot(h, e, b.Length);
        MaskedIs(pos + 1, b.Length);
        pos := Masked(pos + 1, b.Length);
        e := e + 1;
      }
      PutIndexed(hash, symbols, i, was, e);
      b[pos] := i + 1;
      ghost var entry: nat := i + 1;
      assert b[..] == was[pos := entry];
    }

    /** Enters the symbol just appended. Growing already seats every symbol, that one included;
        the probe that follows then finds it and stops. */
    method InsertLast()
      requires symbols != [] && Distinct(symbols)
      requires if buckets.Length == 0 then |symbols| == 1
               else Indexed(hash, symbols, |symbols| - 1, buckets[..]) && (|symbols| - 1) * 10 < buckets.Length * 7
                    && PowerSize(buckets.Length)
      modifies this`buckets, buckets
      ensures buckets == old(buckets) || fresh(buckets)
      ensures buckets.Length > 0 && Indexed(hash, symbols, |symbols|, buckets[..]) && |symbols| * 10 < buckets.Length * 7
      ensures PowerSize(buckets.Length)
    {
      hide Probe, CountUsed, Indexed, PowerSize;
      SizesGrow(buckets.Length);
      var live := |symbols|;
      if buckets.Length == 0 || live * 10 >= buckets.Length * 7 {
        var next := if buckets.Length == 0 then 256 else buckets.Length * 2;
        IndexedLength(hash, symbols, |symbols| - 1, buckets[..]);
        Rehash(next);
        FindSeated(live - 1);
      } else {
        Seat(buckets, live - 1);
      }
    }

    /** The probe after a growth: it meets the symbol's own entry before any free bucket. */
    method FindSeated(i: nat)
      requires i < |symbols| && Indexed(hash, symbols, |symbols|, buckets[..]) && PowerSize(buckets.Length)
    {
      hide Probe, CountUsed, PowerSize, Masked;
      var h := hash(symbols[i].name);
      ghost var b := buckets[..];
      assert Seated(hash, symbols, b, i);
      ghost var d: nat :| Sits(hash, symbols, b, i, d);
      ghost var e: nat := 0;
      ProbeStart(h, buckets.Length);
      MaskedIs(h, buckets.Length);
      var pos := Masked(h, buckets.Length);
      while buckets[pos] != i + 1
        invariant e <= d && pos == Probe(h, e, buckets.Length)
        decreases d - e
      {
        assert buckets[pos] != 0;
        NextSlot(h, e, buckets.Length);
        MaskedIs(pos + 1, buckets.Length);
        pos := Masked(pos + 1, buckets.Length);
        e := e + 1;
      }
    }

    /** Redefines a known name in its place, appends and indexes a new one, refuses the empty one. */
    method DefineSymbol(name: Bytes, binding: Binding, section: Option<nat>, value: nat, size: nat) returns (ok: bool)
      requires Valid()
      modifies this, buckets
      ensures Valid() && ok == (name != []) && (buckets == old(buckets) || fresh(buckets))
      ensures actions == old(actions) + [Define(name, binding, section, value, size)]
      ensures |old(symbols)| <= |symbols| <= |old(symbols)| + 1
      ensures forall i :: 0 <= i < |old(symbols)| ==>
                symbols[i] == if old(symbols)[i].name == name && ok then Symbol(name, binding, section, value, size) else old(symbols)[i]
      ensures |symbols| > |old(symbols)| ==> symbols[|old(symbols)|] == Symbol(name, binding, section, value, size)
    {
      hide Probe, CountUsed, PowerSize, Indexed, InForce;
      ghost var action := Define(name, binding, section, value, size);
      actions := actions + [action];
      assert actions[..|actions| - 1] == old(actions);
      AppliedDistinct(symbols, action);
      hide AppliedAll, Distinct;
      ok := name != [];
      if !ok { return; }
      var k := FindIndex(name);
      var symbol := Symbol(name, binding, section, value, size);
      if k.Some? {
        if buckets.Length > 0 { SameNames(hash, symbols, symbols[k.value := symbol], buckets[..]); }
        symbols := symbols[k.value := symbol];
      } else {
        if buckets.Length > 0 { MoreSymbols(hash, symbols, symbol, buckets[..]); }
        symbols := symbols + [symbol];
        InsertLast();
      }
    }
  }

  lemma ProbeStart(h: nat, len: nat)
    requires len > 0
    ensures Probe(h, 0, len) == h % len
  {}

  /** The probe has met no symbol of that name. */
  ghost predicate Misses(symbols: seq<Symbol>, b: seq<nat>, h: nat, e: nat, name: Bytes) {
    |b| > 0 && forall a {:trigger Probe(h, a, |b|)} :: 0 <= a < e ==> NotNamed(symbols, b[Probe(h, a, |b|)], name)
  }

  predicate NotNamed(symbols: seq<Symbol>, entry: nat, name: Bytes) {
    0 < entry <= |symbols| && symbols[entry - 1].name != name
  }

  /** A known name is met before any free bucket: a probe at a free bucket has passed the name's symbol. */
  lemma KnownIsMet(hash: Bytes -> nat, symbols: seq<Symbol>, b: seq<nat>, name: Bytes, e: nat)
    requires Indexed(hash, symbols, |symbols|, b)
    ensures Find(symbols, name).Some? ==>
      b[Probe(hash(name), e, |b|)] != 0 || !Passes(b, hash(name), e) || !Misses(symbols, b, hash(name), e, name)
  {
    hide Probe, CountUsed;
    var k := Find(symbols, name);
    if k.Some? {
      assert Seated(hash, symbols, b, k.value);
      var d: nat :| Sits(hash, symbols, b, k.value, d);
      if d < e { assert !NotNamed(symbols, b[Probe(hash(name), d, |b|)], name); }
    }
  }

  lemma NoneIndexed(hash: Bytes -> nat, symbols: seq<Symbol>, b: seq<nat>)
    requires |b| > 0 && forall p :: 0 <= p < |b| ==> b[p] == 0
    ensures Indexed(hash, symbols, 0, b)
  {
    CountUsedZero(b);
  }

  lemma IndexedLength(hash: Bytes -> nat, symbols: seq<Symbol>, n: nat, b: seq<nat>)
    ensures Indexed(hash, symbols, n, b) ==> |b| > 0
  {}

  lemma SameNames(hash: Bytes -> nat, symbols: seq<Symbol>, symbols': seq<Symbol>, b: seq<nat>)
    requires Indexed(hash, symbols, |symbols|, b) && |symbols'| == |symbols|
    requires forall i :: 0 <= i < |symbols| ==> symbols'[i].name == symbols[i].name
    ensures Indexed(hash, symbols', |symbols'|, b)
  {
    hide Probe, CountUsed;
    forall i | 0 <= i < |symbols| ensures Seated(hash, symbols', b, i) {
      assert Seated(hash, symbols, b, i);
      var d: nat :| Sits(hash, symbols, b, i, d);
      assert Sits(hash, symbols', b, i, d);
    }
  }

  lemma MoreSymbols(hash: Bytes -> nat, symbols: seq<Symbol>, s: Symbol, b: seq<nat>)
    requires Indexed(hash, symbols, |symbols|, b)
    ensures Indexed(hash, symbols + [s], |symbols|, b)
  {
    hide Probe, CountUsed;
    forall i | 0 <= i < |symbols| ensures Seated(hash, symbols + [s], b, i) {
      assert Seated(hash, symbols, b, i);
      var d: nat :| Sits(hash, symbols, b, i, d);
      assert Sits(hash, symbols + [s], b, i, d);
    }
  }
}
