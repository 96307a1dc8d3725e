/** The stack frame: sized by one pass over the code, handed out piece by piece by another. */
module FramePlan {
  import opened Rounding
  import opened Words
  import opened Wrappers

  /** What the sizing pass adds to each local and temp for alignment. */
  const SLACK := 15

  /** A declaration carries the size of the local's type, 0 when that is unknown. */
  datatype Instr = DeclareLocal(name: string, size: nat) | WriteTemp(name: string) | Other

  datatype Local = Local(name: string, size: nat)

  /** The bytes from rbp - hi up to rbp - lo. */
  datatype Region = Region(lo: nat, hi: nat)

  /** The size is kept as an int. */
  function LocalSize(size: nat): (n: nat)
    ensures 0 < n <= INT_MAX
  {
    if AsInt(size) <= 0 then 8 else AsInt(size)
  }

  /** A local gets room for its type exactly when an int can hold the size. */
  lemma LocalHeldExactly(size: nat)
    ensures LocalSize(size) >= size <==> size <= INT_MAX
  {
  }

  /** A type of four gigabytes and one byte gets one byte. */
  lemma TruncatedLocal()
    ensures LocalSize(0x1_0000_0001) == 1
  {
  }

  /** The bytes of an indirect result's slot, also an int; the sizing pass refuses a negative one. */
  function SlotSize(size: nat): int { AsInt(RoundUp16(size)) }

  lemma SlotHeldExactly(size: nat)
    ensures SlotSize(size) >= size <==> size <= INT_MAX - 15
  {
  }

  function SlotRoom(size: nat): nat { if SlotSize(size) < 0 then 0 else SlotSize(size) }

  predicate SlotsCounted(results: seq<nat>) { forall k :: 0 <= k < |results| ==> SlotSize(results[k]) >= 0 }

  function Alignment(size: nat): nat { if size > 4 then 8 else size }

  // ----- rounding to an alignment that need not be a power of two -----

  /** (x + a - 1) & ~(a - 1), with a raised to at least one. */
  function AlignOffset(x: nat, alignment: nat): (r: nat)
    ensures x <= r < x + alignment || r == x
  {
    if alignment <= 1 then x
    else
      MaskedBounds(x + alignment - 1, alignment - 1);
      BitAnd(x + alignment - 1, BitNot(alignment - 1))
  }

  lemma {:induction false} MaskedBounds(x: nat, m: nat)
    ensures x - m <= BitAnd(x, BitNot(m)) <= x
    ensures BitAnd(x, BitNot(m)) >= 0
    decreases x
  {
    if x > 0 {
      assert BitNot(m) / 2 == BitNot(m / 2) && BitNot(m) % 2 == 1 - m % 2;
      MaskedBounds(x / 2, m / 2);
      BitAndUnfold(x, BitNot(m));
    }
  }

  lemma {:induction false} MaskedMultiple(x: nat, k: nat)
    ensures BitAnd(x, BitNot(Pow2(k) - 1)) % Pow2(k) == 0
    decreases k
  {
    if k == 0 {
      assert Pow2(0) == 1;
    } else if x == 0 {
      DivUnique(0, Pow2(k), 0, 0);
    } else {
      var m, half := Pow2(k) - 1, BitAnd(x / 2, BitNot(Pow2(k - 1) - 1));
      assert Pow2(k) == 2 * Pow2(k - 1);
      hide Pow2;
      assert BitNot(m) / 2 == BitNot(Pow2(k - 1) - 1) && BitNot(m) % 2 == 0;
      MaskedMultiple(x / 2, k - 1);
      BitAndUnfold(x, BitNot(m));
      hide BitAnd, BitNot;
      DoubledMultiple(half, Pow2(k - 1));
    }
  }

  lemma DoubledMultiple(half: int, d: int)
    requires d > 0 && half % d == 0
    ensures 2 * half % (2 * d) == 0
  {
    var q := half / d;
    assert half == d * q;
    assert 2 * half == 2 * (d * q) == 2 * d * q by { Assoc(2, d, q); }
    DivUnique(2 * half, 2 * d, q, 0);
  }

  /** For a power of two the result is the next multiple. */
  lemma AlignedToPower(x: nat, k: nat)
    ensures AlignOffset(x, Pow2(k)) % Pow2(k) == 0 && x <= AlignOffset(x, Pow2(k)) < x + Pow2(k)
  {
    if k > 0 {
      MaskedBounds(x + Pow2(k) - 1, Pow2(k) - 1);
      MaskedMultiple(x + Pow2(k) - 1, k);
    }
  }

  // ----- the tables of the sizing pass -----

  predicate Named(locals: seq<Local>, name: string) { exists i :: 0 <= i < |locals| && locals[i].name == name }

  function LocalsOf(code: seq<Instr>, n: nat): (ls: seq<Local>)
    requires n <= |code|
  {
    if n == 0 then []
    else
      var ls := LocalsOf(code, n - 1);
      match code[n - 1]
      case DeclareLocal(name, size) => if Named(ls, name) then ls else ls + [Local(name, LocalSize(size))]
      case _ => ls
  }

  function TempsOf(code: seq<Instr>, n: nat): (ts: seq<string>)
    requires n <= |code|
  {
    if n == 0 then []
    else
      var ts := TempsOf(code, n - 1);
      match code[n - 1]
      case WriteTemp(name) => if name in ts then ts else ts + [name]
      case _ => ts
  }

  function DeclaredBytes(code: seq<Instr>, n: nat): nat
    requires n <= |code|
  {
    if n == 0 then 0
    else DeclaredBytes(code, n - 1) + if code[n - 1].DeclareLocal? then LocalSize(code[n - 1].size) + SLACK else 0
  }

  /** The locals that stay in memory. */
  function Kept(locals: seq<Local>, promoted: seq<string>): seq<Local> {
    if locals == [] then []
    else
      var rest := Kept(locals[..|locals| - 1], promoted);
      if locals[|locals| - 1].name in promoted then rest else rest + [locals[|locals| - 1]]
  }

  function Sizes(locals: seq<Local>): (s: seq<nat>)
    ensures |s| == |locals|
  {
    if locals == [] then [] else Sizes(locals[..|locals| - 1]) + [locals[|locals| - 1].size]
  }

  function Eights(n: nat): (s: seq<nat>)
    ensures |s| == n && forall i :: 0 <= i < n ==> s[i] == 8
  {
    if n == 0 then [] else Eights(n - 1) + [8]
  }

  // ----- the regions -----

  /** The offset after handing out the pieces in order. */
  function Top(base: nat, sizes: seq<nat>): (t: nat)
    ensures t >= base
  {
    if sizes == [] then base
    else AlignOffset(Top(base, sizes[..|sizes| - 1]), Alignment(sizes[|sizes| - 1])) + sizes[|sizes| - 1]
  }

  function Stacked(base: nat, sizes: seq<nat>): (rs: seq<Region>)
    ensures |rs| == |sizes|
  {
    if sizes == [] then []
    else
      var hi := Top(base, sizes);
      Stacked(base, sizes[..|sizes| - 1]) + [Region(hi - sizes[|sizes| - 1], hi)]
  }

  function Cells(n: nat): (rs: seq<Region>)
    ensures |rs| == n && forall i :: 0 <= i < n ==> rs[i] == Region(8 * i, 8 * i + 8)
  {
    if n == 0 then [] else Cells(n - 1) + [Region(8 * (n - 1), 8 * n)]
  }

  /** The slots of indirect results, from `base` on. */
  function Slots(base: nat, results: seq<nat>): (rs: seq<Region>)
    ensures |rs| == |results|
    decreases |results|
  {
    if results == [] then []
    else [Region(base, base + SlotRoom(results[0]))] + Slots(base + SlotRoom(results[0]), results[1..])
  }

  function SlotBytes(results: seq<nat>): nat
    decreases |results|
  {
    if results == [] then 0 else SlotRoom(results[0]) + SlotBytes(results[1..])
  }

  /** What is known before offsets are handed out: parameter homes, code, promoted symbols, indirect results. */
  datatype Plan = Plan(homes: nat, code: seq<Instr>, promoted: seq<string>, results: seq<nat>) {
    function Memory(): seq<nat> { Sizes(Kept(LocalsOf(code, |code|), promoted)) + Eights(|TempsOf(code, |code|)|) }

    function Budgeted(): nat { 8 * homes + DeclaredBytes(code, |code|) + 23 * |TempsOf(code, |code|)| }

    function Budget(): nat { Budgeted() + SlotBytes(results) + 8 * |promoted| }

    /** The sizing pass succeeds. */
    predicate Fits() { SlotsCounted(results) && Budget() <= INT_MAX }

    function Fixed(): nat { homes + |promoted| }

    function Regions(): seq<Region> { Cells(Fixed()) + Stacked(8 * Fixed(), Memory()) }
  }

  // ----- no overlap -----

  ghost predicate Apart(rs: seq<Region>) {
    && (forall i :: 0 <= i < |rs| ==> rs[i].lo < rs[i].hi)
    && (forall i, j :: 0 <= i < j < |rs| ==> rs[i].hi <= rs[j].lo)
  }

  ghost predicate Between(rs: seq<Region>, lo: nat, hi: nat) {
    forall i :: 0 <= i < |rs| ==> lo <= rs[i].lo && rs[i].hi <= hi
  }

  predicate Positive(sizes: seq<nat>) { forall i :: 0 <= i < |sizes| ==> sizes[i] > 0 }

  lemma {:induction false} StackedApart(base: nat, sizes: seq<nat>)
    requires Positive(sizes)
    ensures Apart(Stacked(base, sizes)) && Between(Stacked(base, sizes), base, Top(base, sizes))
    decreases |sizes|
  {
    if sizes != [] {
      StackedApart(base, sizes[..|sizes| - 1]);
    }
  }

  function Demand(sizes: seq<nat>): nat {
    if sizes == [] then 0 else Demand(sizes[..|sizes| - 1]) + sizes[|sizes| - 1] + SLACK
  }

  lemma {:induction false} TopWithinDemand(base: nat, sizes: seq<nat>)
    ensures Top(base, sizes) <= base + Demand(sizes)
    decreases |sizes|
  {
    if sizes != [] { TopWithinDemand(base, sizes[..|sizes| - 1]); }
  }

  lemma {:induction false} DemandAppend(a: seq<nat>, b: seq<nat>)
    ensures Demand(a + b) == Demand(a) + Demand(b)
    decreases |b|
  {
    if b == [] {
      assert a + b == a;
    } else {
      assert (a + b)[..|a + b| - 1] == a + b[..|b| - 1];
      DemandAppend(a, b[..|b| - 1]);
    }
  }

  lemma {:induction false} DemandOfEights(n: nat)
    ensures Demand(Eights(n)) == 23 * n
  {
    if n > 0 {
      DemandOfEights(n - 1);
      assert Eights(n)[..n - 1] == Eights(n - 1);
    }
  }

  lemma KeptStep(locals: seq<Local>, promoted: seq<string>)
    requires locals != []
    ensures var shorter, last := locals[..|locals| - 1], locals[|locals| - 1];
            Kept(locals, promoted) == Kept(shorter, promoted) + if last.name in promoted then [] else [last]
  {
    hide Sizes, Demand;
    var shorter := locals[..|locals| - 1];
    assert Kept(shorter, promoted) + [] == Kept(shorter, promoted);
  }

  /** One more local. */
  lemma KeptMore(shorter: seq<Local>, kept: seq<Local>, last: Local, keeps: bool)
    requires Demand(Sizes(kept)) <= Demand(Sizes(shorter))
    ensures Demand(Sizes(kept + if keeps then [last] else [])) <= Demand(Sizes(shorter + [last]))
  {
    hide Sizes, Demand;
    SizesLast(kept, last);
    SizesLast(shorter, last);
    assert kept + (if keeps then [last] else []) == if keeps then kept + [last] else kept;
  }

  lemma {:induction false} KeptDemand(locals: seq<Local>, promoted: seq<string>)
    ensures Demand(Sizes(Kept(locals, promoted))) <= Demand(Sizes(locals))
    decreases |locals|
  {
    hide Sizes, Demand;
    if locals == [] {
      assert Kept(locals, promoted) == locals;
    } else {
      hide Kept;
      var shorter, last := locals[..|locals| - 1], locals[|locals| - 1];
      KeptStep(locals, promoted);
      KeptDemand(shorter, promoted);
      KeptMore(shorter, Kept(shorter, promoted), last, last.name !in promoted);
      assert locals == shorter + [last];
    }
  }

  lemma SizesLast(locals: seq<Local>, l: Local)
    ensures Sizes(locals + [l]) == Sizes(locals) + [l.size]
    ensures Demand(Sizes(locals + [l])) == Demand(Sizes(locals)) + l.size + SLACK
  {
    assert (locals + [l])[..|locals|] == locals;
    assert (Sizes(locals) + [l.size])[..|locals|] == Sizes(locals);
  }

  /** Every local is paid for where it is first declared. */
  lemma {:induction false} LocalsDemand(code: seq<Instr>, n: nat)
    requires n <= |code|
    ensures Demand(Sizes(LocalsOf(code, n))) <= DeclaredBytes(code, n)
  {
    if n > 0 {
      LocalsDemand(code, n - 1);
      if code[n - 1].DeclareLocal? {
        SizesLast(LocalsOf(code, n - 1), Local(code[n - 1].name, LocalSize(code[n - 1].size)));
      }
    }
  }

  lemma {:induction false} LocalsPositive(code: seq<Instr>, n: nat)
    requires n <= |code|
    ensures AllPositive(LocalsOf(code, n))
  {
    if n > 0 { LocalsPositive(code, n - 1); }
  }

  ghost predicate AllPositive(locals: seq<Local>) { forall l :: l in locals ==> l.size > 0 }

  lemma {:induction false} KeptPositive(locals: seq<Local>, promoted: seq<string>)
    requires AllPositive(locals)
    ensures AllPositive(Kept(locals, promoted))
    decreases |locals|
  {
    if locals != [] { KeptPositive(locals[..|locals| - 1], promoted); }
  }

  lemma {:induction false} SizesPositive(locals: seq<Local>)
    requires AllPositive(locals)
    ensures Positive(Sizes(locals))
    decreases |locals|
  {
    if locals != [] {
      var shorter, last := locals[..|locals| - 1], locals[|locals| - 1];
      SizesPositive(shorter);
      assert Sizes(locals) == Sizes(shorter) + [last.size];
      hide Sizes;
      assert last in locals;
    }
  }

  lemma MemoryDemand(p: Plan)
    ensures 8 * p.Fixed() + Demand(p.Memory()) <= p.Budgeted() + 8 * |p.promoted|
  {
    var locals, temps := LocalsOf(p.code, |p.code|), |TempsOf(p.code, |p.code|)|;
    DemandAppend(Sizes(Kept(locals, p.promoted)), Eights(temps));
    DemandOfEights(temps);
    KeptDemand(locals, p.promoted);
    LocalsDemand(p.code, |p.code|);
  }

  lemma MemoryFits(p: Plan)
    ensures Positive(p.Memory()) && Top(8 * p.Fixed(), p.Memory()) <= p.Budgeted() + 8 * |p.promoted|
  {
    var locals := LocalsOf(p.code, |p.code|);
    TopWithinDemand(8 * p.Fixed(), p.Memory());
    MemoryDemand(p);
    LocalsPositive(p.code, |p.code|);
    KeptPositive(locals, p.promoted);
    SizesPositive(Kept(locals, p.promoted));
  }

  /**
    * For every mix of sizes and alignments: parameter homes, register save slots, locals and temps are pairwise
    * disjoint, and all of them lie in the bytes the sizing pass counted.
    */
  lemma FrameSound(p: Plan)
    ensures Apart(p.Regions()) && Between(p.Regions(), 0, p.Budget())
  {
    MemoryFits(p);
    StackedApart(8 * p.Fixed(), p.Memory());
    hide Plan.Memory, Plan.Budgeted, Stacked, Top, Cells;
    assert Between(Cells(p.Fixed()), 0, 8 * p.Fixed());
  }

  // ----- room and alignment -----

  lemma AlignedToSmall(x: nat)
    ensures AlignOffset(x, 2) % 2 == 0 && AlignOffset(x, 4) % 4 == 0 && AlignOffset(x, 8) % 8 == 0
  {
    assert Pow2(1) == 2;
    assert Pow2(2) == 4;
    assert Pow2(3) == 8;
    hide AlignOffset;
    AlignedToPower(x, 1);
    AlignedToPower(x, 2);
    AlignedToPower(x, 3);
  }

  lemma {:induction false} PieceBegins(base: nat, sizes: seq<nat>, i: nat)
    requires i < |sizes|
    ensures var lo := AlignOffset(Top(base, sizes[..i]), Alignment(sizes[i]));
            Stacked(base, sizes)[i] == Region(lo, lo + sizes[i])
    decreases |sizes|
  {
    hide AlignOffset, Alignment;
    var shorter := sizes[..|sizes| - 1];
    if i < |shorter| {
      PieceBegins(base, shorter, i);
      assert shorter[..i] == sizes[..i];
    }
  }

  lemma SumMultiple(lo: nat, size: nat, n: nat)
    requires n in {1, 2, 4, 8} && lo % n == 0
    ensures (lo + size) % n == 0 <==> size % n == 0
  {
  }

  /** A piece in memory has its size, and starts at a multiple of eight when it has more than four bytes and at a
      multiple of its size when it has one, two or four. As the frame is addressed from the piece's end, the address
      is a multiple of eight exactly when the size is. */
  lemma PieceAligned(base: nat, sizes: seq<nat>, i: nat)
    requires i < |sizes|
    ensures var r := Stacked(base, sizes)[i];
            && r.hi == r.lo + sizes[i]
            && (sizes[i] in {1, 2, 4} ==> r.lo % sizes[i] == 0 && r.hi % sizes[i] == 0)
            && (sizes[i] > 4 ==> r.lo % 8 == 0 && (r.hi % 8 == 0 <==> sizes[i] % 8 == 0))
  {
    var t := Top(base, sizes[..i]);
    PieceBegins(base, sizes, i);
    AlignedToSmall(t);
    hide Stacked, AlignOffset, Top;
    var lo := AlignOffset(t, Alignment(sizes[i]));
    if sizes[i] in {1, 2, 4} { SumMultiple(lo, sizes[i], sizes[i]); }
    if sizes[i] > 4 { SumMultiple(lo, sizes[i], 8); }
  }

  lemma {:induction false} FirstListed(code: seq<Instr>, n: nat, i: nat)
    requires i < n <= |code| && code[i].DeclareLocal?
    requires forall j :: 0 <= j < i ==> !code[j].DeclareLocal? || code[j].name != code[i].name
    ensures Local(code[i].name, LocalSize(code[i].size)) in LocalsOf(code, n)
    decreases n
  {
    if i < n - 1 { FirstListed(code, n - 1, i); } else { NotYetNamed(code, i, code[i].name); }
  }

  lemma {:induction false} NotYetNamed(code: seq<Instr>, n: nat, name: string)
    requires n <= |code| && forall j :: 0 <= j < n ==> !code[j].DeclareLocal? || code[j].name != name
    ensures !Named(LocalsOf(code, n), name)
  {
    if n > 0 { NotYetNamed(code, n - 1, name); }
  }

  lemma {:induction false} KeptHas(locals: seq<Local>, promoted: seq<string>, l: Local)
    requires l in locals && l.name !in promoted
    ensures l in Kept(locals, promoted)
    decreases |locals|
  {
    if l != locals[|locals| - 1] { KeptHas(locals[..|locals| - 1], promoted, l); }
  }

  lemma {:induction false} SizesHave(locals: seq<Local>, l: Local)
    requires l in locals
    ensures l.size in Sizes(locals)
    decreases |locals|
  {
    if l != locals[|locals| - 1] { SizesHave(locals[..|locals| - 1], l); }
  }

  lemma MemoryHas(p: Plan, l: Local)
    requires l in Kept(LocalsOf(p.code, |p.code|), p.promoted)
    ensures l.size in p.Memory()
  {
    hide LocalsOf, TempsOf, Kept, Sizes;
    SizesHave(Kept(LocalsOf(p.code, |p.code|), p.promoted), l);
  }

  lemma RegionOfPiece(p: Plan, m: nat)
    requires m < |p.Memory()|
    ensures var k := p.Fixed() + m; k < |p.Regions()| && p.Regions()[k].hi == p.Regions()[k].lo + p.Memory()[m]
  {
    hide Plan.Memory, Stacked, Cells;
    PieceAligned(8 * p.Fixed(), p.Memory(), m);
  }

  lemma SizeOf(size: nat)
    ensures LocalSize(size) == if AsInt(size) <= 0 then 8 else AsInt(size)
  {}

  /** Every local that is not promoted has a piece of the size of its first declaration, as an int holds it and 8
      when that is not positive. */
  lemma LocalHasRoom(p: Plan, i: nat) returns (k: nat)
    requires i < |p.code| && p.code[i].DeclareLocal? && p.code[i].name !in p.promoted
    requires forall j :: 0 <= j < i ==> !p.code[j].DeclareLocal? || p.code[j].name != p.code[i].name
    ensures k < |p.Regions()|
    ensures p.Regions()[k].hi == p.Regions()[k].lo + if AsInt(p.code[i].size) <= 0 then 8 else AsInt(p.code[i].size)
  {
    hide *;
    var l := Local(p.code[i].name, LocalSize(p.code[i].size));
    FirstListed(p.code, |p.code|, i);
    KeptHas(LocalsOf(p.code, |p.code|), p.promoted, l);
    MemoryHas(p, l);
    var m :| 0 <= m < |p.Memory()| && p.Memory()[m] == l.size;
    RegionOfPiece(p, m);
    SizeOf(p.code[i].size);
    k := p.Fixed() + m;
  }

  // ----- ints -----

  lemma {:induction false} DemandGrows(sizes: seq<nat>, i: nat)
    requires i <= |sizes|
    ensures Demand(sizes[..i]) <= Demand(sizes)
    decreases |sizes|
  {
    if i == |sizes| {
      assert sizes[..i] == sizes;
    } else {
      assert sizes[..|sizes| - 1][..i] == sizes[..i];
      DemandGrows(sizes[..|sizes| - 1], i);
    }
  }

  /** When the sizing pass succeeds, no int overflows where the pieces are handed out. */
  lemma HandsOutInts(p: Plan, i: nat)
    requires p.Budget() <= INT_MAX && i < |p.Memory()|
    ensures Top(8 * p.Fixed(), p.Memory()[..i]) + Alignment(p.Memory()[i]) - 1 <= INT_MAX
    ensures AlignOffset(Top(8 * p.Fixed(), p.Memory()[..i]), Alignment(p.Memory()[i])) + p.Memory()[i] <= INT_MAX
  {
    var sizes, base := p.Memory(), 8 * p.Fixed();
    MemoryDemand(p);
    DemandGrows(sizes, i + 1);
    assert sizes[..i + 1][..i] == sizes[..i];
    hide Plan.Memory;
    TopWithinDemand(base, sizes[..i]);
  }

  lemma {:induction false} NoLocals(code: seq<Instr>, n: nat)
    requires n <= |code| && LocalsOf(code, n) == []
    ensures DeclaredBytes(code, n) == 0
  {
    if n > 0 { NoLocals(code, n - 1); }
  }

  lemma {:induction false} AllKept(locals: seq<Local>)
    ensures Kept(locals, []) == locals
    decreases |locals|
  {
    if locals != [] { AllKept(locals[..|locals| - 1]); }
  }

  /** Without pieces and slots nothing has been counted. */
  lemma NothingCounted(p: Plan)
    requires p.Regions() == [] && p.results == []
    ensures p.Budget() == 0
  {
    assert |p.Regions()| == p.Fixed() + |p.Memory()|;
    var locals := LocalsOf(p.code, |p.code|);
    assert p.promoted == [];
    AllKept(locals);
    assert |Sizes(locals)| == |locals|;
    NoLocals(p.code, |p.code|);
  }

  // ----- the slots of indirect results -----

  /** Some byte is in both. */
  ghost predicate Overlap(a: Region, b: Region) { exists x :: InRegion(a, x) && InRegion(b, x) }

  predicate InRegion(a: Region, x: nat) { a.lo <= x < a.hi }

  ghost predicate Clear(rs: seq<Region>, slots: seq<Region>) {
    forall i, j :: 0 <= i < |rs| && 0 <= j < |slots| ==> !Overlap(rs[i], slots[j])
  }

  lemma {:induction false} SlotsApart(base: nat, results: seq<nat>)
    ensures Between(Slots(base, results), base, base + SlotBytes(results))
    ensures forall i, j :: 0 <= i < j < |results| ==> Slots(base, results)[i].hi <= Slots(base, results)[j].lo
    decreases |results|
  {
    if results != [] { SlotsApart(base + SlotRoom(results[0]), results[1..]); }
  }

  /** The piece that reaches over a boundary starts less than eight bytes beyond it. */
  lemma {:induction false} CrossingPiece(base: nat, sizes: seq<nat>, limit: nat) returns (i: nat)
    requires Positive(sizes) && base <= limit < Top(base, sizes)
    ensures i < |sizes| && Stacked(base, sizes)[i].lo < limit + 8 && Stacked(base, sizes)[i].hi > limit
    decreases |sizes|
  {
    var shorter := sizes[..|sizes| - 1];
    if Top(base, shorter) <= limit {
      i := |sizes| - 1;
    } else {
      i := CrossingPiece(base, shorter, limit);
    }
  }

  /**
    * The slots are placed before the save slots are counted: they are clear of the rest of the frame exactly
    * when what is handed out ends below them.
    */
  lemma SlotsClearExactly(p: Plan)
    ensures Clear(p.Regions(), Slots(p.Budgeted(), p.results))
      <==> SlotBytes(p.results) == 0 || Top(8 * p.Fixed(), p.Memory()) <= p.Budgeted()
  {
    var top, base := Top(8 * p.Fixed(), p.Memory()), p.Budgeted();
    MemoryFits(p);
    StackedApart(8 * p.Fixed(), p.Memory());
    SlotsApart(base, p.results);
    if SlotBytes(p.results) > 0 && top > base {
      var i := OverlappingPiece(p);
      var k := FirstSlot(base, p.results);
      var x := if p.Regions()[i].lo < base then base else p.Regions()[i].lo;
      assert InRegion(p.Regions()[i], x) && InRegion(Slots(base, p.results)[k], x);
    } else if SlotBytes(p.results) == 0 {
      NoSlotBytes(base, p.results);
    } else {
      hide Plan.Memory, Plan.Budgeted, Stacked, Top, Cells;
      assert Between(Cells(p.Fixed()), 0, 8 * p.Fixed());
    }
  }

  /** The first slot with bytes starts where the slots start. */
  lemma {:induction false} FirstSlot(base: nat, results: seq<nat>) returns (k: nat)
    requires SlotBytes(results) > 0
    ensures k < |results| && Slots(base, results)[k].lo == base && Slots(base, results)[k].hi >= base + 16
    decreases |results|
  {
    if SlotRoom(results[0]) > 0 {
      k := 0;
      assert SlotSize(results[0]) % 16 == 0;
    } else {
      var rest := FirstSlot(base, results[1..]);
      k := rest + 1;
    }
  }

  lemma {:induction false} NoSlotBytes(base: nat, results: seq<nat>)
    requires SlotBytes(results) == 0
    ensures forall k :: 0 <= k < |results| ==> Slots(base, results)[k] == Region(base, base)
    decreases |results|
  {
    if results != [] { NoSlotBytes(base, results[1..]); }
  }

  lemma OverlappingPiece(p: Plan) returns (i: nat)
    requires Top(8 * p.Fixed(), p.Memory()) > p.Budgeted()
    ensures i < |p.Regions()| && p.Regions()[i].lo < p.Budgeted() + 8 && p.Regions()[i].hi > p.Budgeted()
  {
    MemoryFits(p);
    if p.Budgeted() < 8 * p.Fixed() {
      i := p.Budgeted() / 8;
      assert p.Regions()[i] == Cells(p.Fixed())[i];
    } else {
      var k := CrossingPiece(8 * p.Fixed(), p.Memory(), p.Budgeted());
      i := p.Fixed() + k;
    }
  }

  lemma MemoryTop(p: Plan, size: nat)
    requires p.Memory() == [size]
    ensures Top(8 * p.Fixed(), p.Memory()) == AlignOffset(8 * p.Fixed(), Alignment(size)) + size
  {
    assert [size][..0] == [];
    assert Top(8 * p.Fixed(), []) == 8 * p.Fixed();
  }

  function OverlapExample(): Plan { Plan(5, [WriteTemp("t")], ["a", "b", "c", "d", "e"], [16]) }

  lemma OneTemp(name: string)
    ensures var code := [WriteTemp(name)];
            LocalsOf(code, 1) == [] && TempsOf(code, 1) == [name] && DeclaredBytes(code, 1) == 0
  {
    var code := [WriteTemp(name)];
    assert LocalsOf(code, 0) == [] && TempsOf(code, 0) == [] && DeclaredBytes(code, 0) == 0;
  }

  lemma OneSlot(size: nat)
    ensures SlotBytes([size]) == SlotRoom(size)
  {
    hide SlotRoom;
    assert [size][1..] == [];
  }

  lemma OneTempMemory(homes: nat, name: string, promoted: seq<string>, results: seq<nat>)
    ensures var p := Plan(homes, [WriteTemp(name)], promoted, results); p.Memory() == [8] && p.Budgeted() == 8 * homes + 23
  {
    OneTemp(name);
    hide LocalsOf, TempsOf, DeclaredBytes;
    assert Kept([], promoted) == [] && Sizes([]) == [];
    assert Eights(1) == [8];
  }

  /** One temp, five promoted parameters and one call with an indirect result: the slot overlaps save slots. */
  lemma SlotOverlapExample()
    ensures var p := OverlapExample(); !Clear(p.Regions(), Slots(p.Budgeted(), p.results))
  {
    var p := OverlapExample();
    OneTempMemory(5, "t", ["a", "b", "c", "d", "e"], [16]);
    OneSlot(16);
    MemoryTop(p, 8);
    hide Plan.Memory, Plan.Budgeted, Slots, SlotBytes, Plan.Regions, Clear, Top;
    SlotsClearExactly(p);
  }

  // ----- the two passes -----

  class FramePlanner {
    var stackSize: nat
    var currentStackOffset: nat

    constructor ()
      ensures stackSize == 0 && currentStackOffset == 0
    {
      stackSize, currentStackOffset := 0, 0;
    }

    method AddStackSize(amount: int) returns (ok: bool)
      modifies `stackSize
      ensures ok <==> amount >= 0 && old(stackSize) + amount <= INT_MAX
      ensures stackSize == if ok then old(stackSize) + amount else old(stackSize)
    {
      if amount < 0 || stackSize > INT_MAX - amount { return false; }
      stackSize := stackSize + amount;
      return true;
    }

    method AllocateStackSpace(size: nat, alignment: nat) returns (offset: nat)
      modifies `currentStackOffset
      ensures offset == currentStackOffset == AlignOffset(old(currentStackOffset), alignment) + size
    {
      var a := if alignment < 1 then 1 else alignment;
      var aligned := currentStackOffset;
      if a > 1 {
        MaskedBounds(aligned + a - 1, a - 1);
        aligned := BitAnd(aligned + a - 1, BitNot(a - 1));
      }
      currentStackOffset := aligned + size;
      return currentStackOffset;
    }

    /** The sizing pass over the code. */
    method Scan(p: Plan) returns (ok: bool, locals: seq<Local>, temps: seq<string>)
      requires stackSize == 8 * p.homes <= INT_MAX
      modifies `stackSize
      ensures ok ==> locals == LocalsOf(p.code, |p.code|) && temps == TempsOf(p.code, |p.code|) && stackSize == p.Budgeted()
      ensures ok <==> p.Budgeted() <= INT_MAX
    {
      locals, temps := [], [];
      for i := 0 to |p.code|
        invariant locals == LocalsOf(p.code, i) && temps == TempsOf(p.code, i)
        invariant stackSize == 8 * p.homes + DeclaredBytes(p.code, i) <= INT_MAX
      {
        DeclaredGrows(p.code, i, |p.code|);
        DeclaredGrows(p.code, i + 1, |p.code|);
        match p.code[i] {
          case DeclareLocal(name, size) =>
            var localSize := LocalSize(size);
            locals := AddLocal(locals, name, localSize);
            ok := AddStackSize(AsInt(localSize + SLACK));
            if !ok { return; }
          case WriteTemp(name) =>
            if name !in temps { temps := temps + [name]; }
          case Other =>
        }
      }
      ok := |temps| <= INT_MAX / 23;
      if ok { ok := AddStackSize(|temps| * 23); }
    }

    static lemma DeclaredGrows(code: seq<Instr>, i: nat, n: nat)
      requires i <= n <= |code|
      ensures DeclaredBytes(code, i) <= DeclaredBytes(code, n)
      decreases n - i
    {
      if i < n { DeclaredGrows(code, i, n - 1); }
    }

    method AddLocal(locals: seq<Local>, name: string, size: nat) returns (table: seq<Local>)
      ensures table == if Named(locals, name) then locals else locals + [Local(name, size)]
    {
      for i := 0 to |locals|
        invariant forall j :: 0 <= j < i ==> locals[j].name != name
      {
        if locals[i].name == name { return locals; }
      }
      return locals + [Local(name, size)];
    }

    static lemma SlotNext(base: nat, results: seq<nat>, i: nat)
      requires i < |results|
      ensures SlotBytes(results[i..]) == SlotRoom(results[i]) + SlotBytes(results[i + 1..])
      ensures Slots(base, results[i..]) == [Region(base, base + SlotRoom(results[i]))] + Slots(base + SlotRoom(results[i]), results[i + 1..])
      ensures results[..i + 1] == results[..i] + [results[i]]
    {
      hide SlotRoom;
      assert results[i..][0] == results[i] && results[i..][1..] == results[i + 1..];
    }

    static lemma SlotsEnd(base: nat)
      ensures SlotBytes([]) == 0 && Slots(base, []) == []
    {
    }

    /** The slots of indirect results, counted and placed in instruction order. */
    method PlaceSlots(results: seq<nat>) returns (ok: bool, slots: seq<Region>)
      requires stackSize <= INT_MAX
      modifies `stackSize
      ensures ok <==> SlotsCounted(results) && old(stackSize) + SlotBytes(results) <= INT_MAX
      ensures ok ==> stackSize == old(stackSize) + SlotBytes(results) && slots == Slots(old(stackSize), results)
    {
      hide SlotSize, Slots, SlotBytes;
      SlotsEnd(stackSize);
      slots := [];
      for i := 0 to |results|
        invariant stackSize <= INT_MAX && SlotsCounted(results[..i])
        invariant stackSize + SlotBytes(results[i..]) == old(stackSize) + SlotBytes(results)
        invariant slots + Slots(stackSize, results[i..]) == Slots(old(stackSize), results)
      {
        SlotNext(stackSize, results, i);
        var slotBytes := SlotSize(results[i]);
        var previous := stackSize;
        ok := AddStackSize(slotBytes);
        if !ok { return; }
        slots := slots + [Region(previous, previous + slotBytes)];
      }
      SlotsEnd(stackSize);
      assert results[|results|..] == [] && results[..|results|] == results;
      ok := true;
    }

    /** Hands out the pieces in order from the current offset. */
    method HandOut(sizes: seq<nat>) returns (regions: seq<Region>)
      modifies `currentStackOffset
      ensures regions == Stacked(old(currentStackOffset), sizes) && currentStackOffset == Top(old(currentStackOffset), sizes)
    {
      regions := [];
      for i := 0 to |sizes|
        invariant regions == Stacked(old(currentStackOffset), sizes[..i])
        invariant currentStackOffset == Top(old(currentStackOffset), sizes[..i])
      {
        assert sizes[..i + 1][..i] == sizes[..i];
        var offset := AllocateStackSpace(sizes[i], Alignment(sizes[i]));
        regions := regions + [Region(offset - sizes[i], offset)];
      }
      assert sizes[..|sizes|] == sizes;
    }

    method KeepUnpromoted(locals: seq<Local>, promoted: seq<string>) returns (sizes: seq<nat>)
      ensures sizes == Sizes(Kept(locals, promoted))
    {
      sizes := [];
      for i := 0 to |locals|
        invariant sizes == Sizes(Kept(locals[..i], promoted))
      {
        assert locals[..i + 1][..i] == locals[..i];
        if locals[i].name !in promoted {
          SizesLast(Kept(locals[..i], promoted), locals[i]);
          sizes := sizes + [locals[i].size];
        }
      }
      assert locals[..|locals|] == locals;
    }

    /** Both passes; the plan fails exactly when the frame's byte count passes the largest int. */
    method LayOut(p: Plan) returns (ok: bool, regions: seq<Region>, slots: seq<Region>)
      modifies this
      ensures ok <==> p.Fits()
      ensures ok ==> stackSize == p.Budget() && regions == p.Regions() && slots == Slots(p.Budgeted(), p.results)
    {
      hide *;
      Parts(p);
      slots, regions := [], [];
      if p.homes > INT_MAX / 8 { return false, regions, slots; }
      stackSize := 8 * p.homes;
      var locals, temps;
      ok, locals, temps := Scan(p);
      if !ok { return; }
      ok, slots := PlaceSlots(p.results);
      if !ok { return; }
      ok := AddStackSize(8 * |p.promoted|);
      if !ok { return; }
      currentStackOffset := 8 * p.homes + 8 * |p.promoted|;
      var sizes := KeepUnpromoted(locals, p.promoted);
      regions := HandOut(sizes + Eights(|temps|));
      regions := Cells(p.homes + |p.promoted|) + regions;
    }

    static lemma Parts(p: Plan)
      ensures p.Fits() <==> SlotsCounted(p.results) && p.Budget() <= INT_MAX
      ensures p.Budget() == p.Budgeted() + SlotBytes(p.results) + 8 * |p.promoted| && p.Budgeted() >= 8 * p.homes
      ensures p.Memory() == Sizes(Kept(LocalsOf(p.code, |p.code|), p.promoted)) + Eights(|TempsOf(p.code, |p.code|)|)
      ensures p.Regions() == Cells(p.homes + |p.promoted|) + Stacked(8 * p.homes + 8 * |p.promoted|, p.Memory())
    {
    }
  }
}
