/** Loop depths from backward branches, and the weighted use counts built on them. */
module LoopDepth {
  import opened Wrappers

  datatype Operand = Symbol(name: string) | NotSymbol

  datatype Op = Label | Branch | AddressOf | RotateAdd | Plain

  /** `text` is the label's name or the branch's target. */
  datatype Instr = Instr(op: Op, text: string, dest: Operand, lhs: Operand, rhs: Operand, arguments: seq<Operand>)

  // ----- depth -----

  predicate Names(x: Instr, target: string) { x.op == Label && x.text == target }

  /** The first label with the name, if any. */
  function LabelAt(code: seq<Instr>, target: string, j: nat): (k: nat)
    requires j <= |code|
    ensures j <= k <= |code| && (k < |code| ==> Names(code[k], target))
    ensures forall i :: j <= i < k ==> !Names(code[i], target)
    decreases |code| - j
  {
    if j < |code| && !Names(code[j], target) then LabelAt(code, target, j + 1) else j
  }

  /** The branch at b closes a loop, from its label on, that covers instruction i. */
  predicate Covers(code: seq<Instr>, b: nat, i: nat)
    requires b < |code|
  {
    code[b].op == Branch && LabelAt(code, code[b].text, 0) <= i <= b
  }

  /** The number of loops closed by the first k instructions that cover i. */
  function Covering(code: seq<Instr>, k: nat, i: nat): (n: nat)
    requires k <= |code|
    ensures n <= k
  {
    if k == 0 then 0 else Covering(code, k - 1, i) + if Covers(code, k - 1, i) then 1 else 0
  }

  function Depth(code: seq<Instr>, i: nat): nat {
    var n := Covering(code, |code|, i);
    if n > 255 then 255 else n
  }

  /** Instruction i lies between the first label of the branch's name and the branch at b. */
  ghost predicate InLoop(code: seq<Instr>, b: nat, i: nat)
    requires b < |code|
  {
    && code[b].op == Branch && i <= b
    && exists j :: 0 <= j <= i && code[j].op == Label && code[j].text == code[b].text &&
                   forall k :: 0 <= k < j ==> code[k].op != Label || code[k].text != code[b].text
  }

  ghost function LoopsAround(code: seq<Instr>, k: nat, i: nat): set<nat>
    requires k <= |code|
  {
    set b: nat | b < k && InLoop(code, b, i)
  }

  lemma CoversIs(code: seq<Instr>, b: nat, i: nat)
    requires b < |code|
    ensures Covers(code, b, i) <==> InLoop(code, b, i)
  {
    var l := LabelAt(code, code[b].text, 0);
    if Covers(code, b, i) { assert Names(code[l], code[b].text); }
    hide LabelAt;
  }

  lemma LoopsStep(code: seq<Instr>, k: nat, i: nat)
    requires k < |code|
    ensures |LoopsAround(code, k + 1, i)| == |LoopsAround(code, k, i)| + if InLoop(code, k, i) then 1 else 0
  {
    hide InLoop;
    var s := LoopsAround(code, k, i);
    if InLoop(code, k, i) {
      assert LoopsAround(code, k + 1, i) == s + {k};
    } else {
      assert LoopsAround(code, k + 1, i) == s;
    }
  }

  lemma {:induction false} CoveringCount(code: seq<Instr>, k: nat, i: nat)
    requires k <= |code|
    ensures Covering(code, k, i) == |LoopsAround(code, k, i)|
  {
    hide InLoop, Covers;
    if k > 0 {
      CoveringCount(code, k - 1, i);
      CoversIs(code, k - 1, i);
      hide LoopsAround;
      LoopsStep(code, k - 1, i);
    }
  }

  /** The depth is the number of loops around the instruction, up to 255. */
  lemma DepthIs(code: seq<Instr>, i: nat)
    ensures var n := |LoopsAround(code, |code|, i)|; Depth(code, i) == if n <= 255 then n else 255
  {
    CoveringCount(code, |code|, i);
  }

  function Sum(s: seq<int>, n: nat): int
    requires n <= |s|
  {
    if n == 0 then 0 else Sum(s, n - 1) + s[n - 1]
  }

  lemma {:induction false} SumUpdate(s: seq<int>, j: nat, d: int, n: nat)
    requires j < |s| && n <= |s|
    ensures Sum(s[j := s[j] + d], n) == Sum(s, n) + if j < n then d else 0
  {
    if n > 0 { SumUpdate(s, j, d, n - 1); }
  }

  /** Opening at j and closing after b adds one to the sums from j to b and changes no other. */
  lemma SumInterval(s: seq<int>, j: nat, b: nat, n: nat)
    requires j <= b < |s| - 1 && n <= |s|
    ensures var t := s[j := s[j] + 1];
            Sum(t[b + 1 := t[b + 1] - 1], n) == Sum(s, n) + if j < n <= b + 1 then 1 else 0
  {
    var t := s[j := s[j] + 1];
    SumUpdate(s, j, 1, n);
    SumUpdate(t, b + 1, -1, n);
  }

  lemma {:induction false} SumZero(s: seq<int>, n: nat)
    requires n <= |s| && forall i :: 0 <= i < |s| ==> s[i] == 0
    ensures Sum(s, n) == 0
  {
    if n > 0 { SumZero(s, n - 1); }
  }

  ghost predicate Counted(code: seq<Instr>, k: nat, s: seq<int>)
    requires k <= |code|
  {
    |s| == |code| + 1 && forall i :: 0 <= i < |code| ==> Sum(s, i + 1) == Covering(code, k, i)
  }

  lemma CountedStep(code: seq<Instr>, b: nat, s: seq<int>, j: nat)
    requires b < |code| && Counted(code, b, s) && code[b].op == Branch && j == LabelAt(code, code[b].text, 0) <= b
    ensures var t := s[j := s[j] + 1]; Counted(code, b + 1, t[b + 1 := t[b + 1] - 1])
  {
    var t, next := s[j := s[j] + 1], b + 1;
    forall i | 0 <= i < |code| ensures Sum(t[next := t[next] - 1], i + 1) == Covering(code, next, i) {
      SumInterval(s, j, b, i + 1);
    }
  }

  lemma CountedSkip(code: seq<Instr>, b: nat, s: seq<int>)
    requires b < |code| && Counted(code, b, s) && (code[b].op == Branch ==> LabelAt(code, code[b].text, 0) > b)
    ensures Counted(code, b + 1, s)
  {
    var next := b + 1;
    forall i | 0 <= i < |code| ensures Sum(s, i + 1) == Covering(code, next, i) {
      assert !Covers(code, b, i);
    }
  }

  /** The difference array and its running sum. */
  method ComputeLoopDepths(code: seq<Instr>) returns (depth: seq<nat>)
    ensures |depth| == |code| && forall i :: 0 <= i < |code| ==> depth[i] == Depth(code, i)
    ensures forall i :: 0 <= i < |code| ==>
              var n := |LoopsAround(code, |code|, i)|; depth[i] == if n <= 255 then n else 255
  {
    var n := |code|;
    forall i | 0 <= i < n ensures var l := |LoopsAround(code, n, i)|; Depth(code, i) == if l <= 255 then l else 255 { DepthIs(code, i); }
    hide LoopsAround, Depth;
    var delta := new int[n + 1](_ => 0);
    forall i | 0 <= i < n ensures Sum(delta[..], i + 1) == Covering(code, 0, i) { SumZero(delta[..], i + 1); }
    for i := 0 to n
      invariant Counted(code, i, delta[..])
    {
      if code[i].op == Branch {
        var j := FindLabel(code, code[i].text, i);
        if j <= i {
          CountedStep(code, i, delta[..], j);
          delta[j] := delta[j] + 1;
          delta[i + 1] := delta[i + 1] - 1;
        } else {
          CountedSkip(code, i, delta[..]);
        }
      } else {
        CountedSkip(code, i, delta[..]);
      }
    }
    var level := 0;
    depth := [];
    for i := 0 to n
      invariant Counted(code, n, delta[..])
      invariant level == Sum(delta[..], i) && |depth| == i && forall k :: 0 <= k < i ==> depth[k] == Depth(code, k)
    {
      level := level + delta[i];
      assert level == Sum(delta[..], i + 1) == Covering(code, n, i);
      if level < 0 { level := 0; }
      depth := depth + [if level > 255 then 255 else level];
    }
  }

  method FindLabel(code: seq<Instr>, target: string, limit: nat) returns (j: nat)
    requires limit < |code|
    ensures if j <= limit then j == LabelAt(code, target, 0) else LabelAt(code, target, 0) > limit
  {
    j := 0;
    while j <= limit
      invariant 0 <= j <= limit + 1 && LabelAt(code, target, 0) == LabelAt(code, target, j)
    {
      if Names(code[j], target) { return; }
      j := j + 1;
    }
  }

  // ----- weighted use counts -----

  function Weight(depth: nat): (w: nat) {
    if depth == 0 then 1 else if depth >= 3 then 4096 else if depth == 1 then 16 else 256
  }

  function Power(base: nat, e: nat): nat { if e == 0 then 1 else base * Power(base, e - 1) }

  /** Each loop multiplies the weight of an occurrence by 16, up to three of them. */
  lemma WeightIs(depth: nat)
    ensures Weight(depth) == Power(16, if depth < 3 then depth else 3)
  {
    assert Power(16, 1) == 16;
    assert Power(16, 2) == 256;
    assert Power(16, 3) == 4096;
  }

  const MAX_COUNT := 0xFFFF_FFFF_FFFF_FFFF

  function Clamp(n: nat): nat { if n > MAX_COUNT then MAX_COUNT else n }

  function Hit(operand: Operand, name: string): nat { if operand == Symbol(name) then 1 else 0 }

  function Hits(operands: seq<Operand>, n: nat, name: string): nat
    requires n <= |operands|
  {
    if n == 0 then 0 else Hits(operands, n - 1, name) + Hit(operands[n - 1], name)
  }

  function Operands(x: Instr): seq<Operand> { [x.dest, x.lhs, x.rhs] + x.arguments }

  function Uses(x: Instr, name: string): nat { Hits(Operands(x), |Operands(x)|, name) }

  lemma {:induction false} HitsAre(operands: seq<Operand>, n: nat, name: string)
    requires n <= |operands|
    ensures Hits(operands, n, name) == multiset(operands[..n])[Symbol(name)]
  {
    if n > 0 {
      HitsAre(operands, n - 1, name);
      assert operands[..n] == operands[..n - 1] + [operands[n - 1]];
    }
  }

  /** An instruction uses a symbol as often as it names it: as destination, on either side or as an argument. */
  lemma UsesAre(x: Instr, name: string)
    ensures Uses(x, name) == multiset{x.dest, x.lhs, x.rhs}[Symbol(name)] + multiset(x.arguments)[Symbol(name)]
  {
    var operands := Operands(x);
    HitsAre(operands, |operands|, name);
    assert operands[..|operands|] == [x.dest, x.lhs, x.rhs] + x.arguments;
  }

  /** Every occurrence of the name in the first n instructions, weighted by its depth. */
  function Pressure(code: seq<Instr>, n: nat, name: string): nat
    requires n <= |code|
  {
    if n == 0 then 0 else Pressure(code, n - 1, name) + Uses(code[n - 1], name) * Weight(Depth(code, n - 1))
  }

  lemma {:induction false} NoUse(code: seq<Instr>, n: nat, name: string)
    requires n <= |code| && forall j :: 0 <= j < n ==> Uses(code[j], name) == 0
    ensures Pressure(code, n, name) == 0
  {
    hide Uses, Weight, Depth;
    if n > 0 { NoUse(code, n - 1, name); }
  }

  /** A symbol that one instruction alone names weighs as much as its uses there. */
  lemma {:induction false} OnlyUse(code: seq<Instr>, n: nat, i: nat, name: string)
    requires i < n <= |code| && forall j :: 0 <= j < n && j != i ==> Uses(code[j], name) == 0
    ensures Pressure(code, n, name) == Uses(code[i], name) * Weight(Depth(code, i))
    decreases n
  {
    hide Uses, Weight, Depth;
    if i == n - 1 { NoUse(code, n - 1, name); } else { OnlyUse(code, n - 1, i, name); }
  }

  predicate TakesAddress(x: Instr, name: string) { x.op == AddressOf && x.lhs == Symbol(name) }

  predicate AddressTaken(code: seq<Instr>, n: nat, name: string)
    requires n <= |code|
  {
    exists i :: 0 <= i < n && TakesAddress(code[i], name)
  }

  datatype Entry = Entry(name: string, useCount: nat, addressTaken: bool)

  function Find(items: seq<Entry>, name: string, i: nat): (k: nat)
    requires i <= |items|
    ensures i <= k <= |items| && (k < |items| ==> items[k].name == name)
    ensures forall j :: i <= j < k ==> items[j].name != name
    decreases |items| - i
  {
    if i < |items| && items[i].name != name then Find(items, name, i + 1) else i
  }

  function CountIn(items: seq<Entry>, name: string): nat {
    var k := Find(items, name, 0);
    if k < |items| then items[k].useCount else 0
  }

  predicate TakenIn(items: seq<Entry>, name: string) {
    var k := Find(items, name, 0);
    k < |items| && items[k].addressTaken
  }

  /** Every count has grown by the uses among the first n operands, saturating; the other marks are as before. */
  ghost predicate Grown(before: seq<Entry>, after: seq<Entry>, operands: seq<Operand>, n: nat, weight: nat)
    requires n <= |operands|
  {
    forall name ::
      && CountIn(after, name) == Clamp(CountIn(before, name) + Hits(operands, n, name) * weight)
      && TakenIn(after, name) == TakenIn(before, name)
  }

  ghost predicate Bounded(items: seq<Entry>) { forall name :: CountIn(items, name) <= MAX_COUNT }

  lemma HitsStep(operands: seq<Operand>, i: nat, name: string, count: nat, weight: nat)
    requires i < |operands|
    ensures Clamp(Clamp(count + Hits(operands, i, name) * weight) + Hit(operands[i], name) * weight)
      == Clamp(count + Hits(operands, i + 1, name) * weight)
  {
    var a, b := Hits(operands, i, name), Hit(operands[i], name);
    assert Hits(operands, i + 1, name) == a + b;
    assert a * weight + b * weight == (a + b) * weight;
  }

  lemma GrownNone(items: seq<Entry>, operands: seq<Operand>, weight: nat)
    requires Bounded(items)
    ensures Grown(items, items, operands, 0, weight)
  {
    hide Find, CountIn, TakenIn;
  }

  lemma GrownBounded(before: seq<Entry>, after: seq<Entry>, operands: seq<Operand>, n: nat, weight: nat)
    requires n <= |operands| && Grown(before, after, operands, n, weight)
    ensures Bounded(after)
  {
    hide Find, CountIn, TakenIn;
  }

  lemma GrownStep(before: seq<Entry>, mid: seq<Entry>, after: seq<Entry>, operands: seq<Operand>, i: nat, weight: nat)
    requires i < |operands| && Grown(before, mid, operands, i, weight)
    requires forall name :: CountIn(after, name) == Clamp(CountIn(mid, name) + Hit(operands[i], name) * weight)
    requires forall name :: TakenIn(after, name) == TakenIn(mid, name)
    ensures Grown(before, after, operands, i + 1, weight)
  {
    hide Find, CountIn, TakenIn, Clamp, Hit, Hits;
    forall name ensures CountIn(after, name) == Clamp(CountIn(before, name) + Hits(operands, i + 1, name) * weight) {
      HitsStep(operands, i, name, CountIn(before, name), weight);
    }
  }

  /** The symbol statistics, a table searched from the front. */
  class SymbolStats {
    var items: seq<Entry>

    constructor ()
      ensures items == []
    {
      items := [];
    }

    function UseCount(name: string): nat
      reads this
    {
      CountIn(items, name)
    }

    function IsTaken(name: string): bool
      reads this
    {
      TakenIn(items, name)
    }

    method GetOrAdd(name: string) returns (k: nat)
      modifies this
      ensures k < |items| && k == Find(items, name, 0)
      ensures forall n :: CountIn(items, n) == CountIn(old(items), n) && TakenIn(items, n) == TakenIn(old(items), n)
    {
      k := 0;
      while k < |items|
        invariant 0 <= k <= |items| && forall j :: 0 <= j < k ==> items[j].name != name
        invariant items == old(items)
      {
        if items[k].name == name { return; }
        k := k + 1;
      }
      ghost var before := items;
      items := items + [Entry(name, 0, false)];
      forall n ensures CountIn(items, n) == CountIn(before, n) && TakenIn(items, n) == TakenIn(before, n) {
        FindLonger(before, Entry(name, 0, false), n);
      }
      FindLonger(before, Entry(name, 0, false), name);
    }

    static lemma FindLonger(items: seq<Entry>, e: Entry, name: string)
      ensures Find(items, name, 0) < |items| ==> Find(items + [e], name, 0) == Find(items, name, 0)
      ensures Find(items, name, 0) == |items| ==> Find(items + [e], name, 0) == |items| + if e.name == name then 0 else 1
    {
      var k := Find(items + [e], name, 0);
      assert forall j :: 0 <= j < |items| ==> (items + [e])[j] == items[j];
      assert (items + [e])[|items|] == e;
      assert k < |items| ==> items[k].name == name;
    }

    static lemma FindSame(items: seq<Entry>, k: nat, e: Entry, name: string)
      requires k < |items| && e.name == items[k].name
      ensures Find(items[k := e], name, 0) == Find(items, name, 0)
    {
      var a, b := Find(items, name, 0), Find(items[k := e], name, 0);
      assert b < |items| ==> items[b].name == name;
      assert a < |items| ==> items[k := e][a].name == name;
    }

    /** A saturating addition. */
    method AddUseWeighted(name: string, weight: nat)
      requires weight <= MAX_COUNT && UseCount(name) <= MAX_COUNT
      modifies this
      ensures CountIn(items, name) == Clamp(CountIn(old(items), name) + weight)
      ensures CountIn(items, name) <= 0xFFFF_FFFF_FFFF_FFFF
      ensures CountIn(items, name) < 0xFFFF_FFFF_FFFF_FFFF ==> CountIn(items, name) == CountIn(old(items), name) + weight
      ensures forall n :: n != name ==> CountIn(items, n) == CountIn(old(items), n)
      ensures forall n :: TakenIn(items, n) == TakenIn(old(items), n)
    {
      var k := GetOrAdd(name);
      ghost var before := items;
      var count := items[k].useCount;
      var e := items[k].(useCount := if count > MAX_COUNT - weight then MAX_COUNT else count + weight);
      items := items[k := e];
      forall n ensures Find(items, n, 0) == Find(before, n, 0) { FindSame(before, k, e, n); }
    }

    method MarkAddressTaken(name: string)
      modifies this
      ensures TakenIn(items, name) && forall n :: n != name ==> TakenIn(items, n) == TakenIn(old(items), n)
      ensures forall n :: CountIn(items, n) == CountIn(old(items), n)
    {
      var k := GetOrAdd(name);
      ghost var before := items;
      var e := items[k].(addressTaken := true);
      items := items[k := e];
      forall n ensures Find(items, n, 0) == Find(before, n, 0) { FindSame(before, k, e, n); }
    }

    method RecordOperand(operand: Operand, weight: nat)
      requires weight <= MAX_COUNT && Bounded(items)
      modifies this
      ensures forall n :: CountIn(items, n) == Clamp(CountIn(old(items), n) + Hit(operand, n) * weight)
      ensures forall n :: TakenIn(items, n) == TakenIn(old(items), n)
    {
      hide Find, CountIn, TakenIn;
      if operand.Symbol? { AddUseWeighted(operand.name, weight); }
    }

    /** All the operands of an instruction in turn. */
    method RecordOperands(operands: seq<Operand>, weight: nat)
      requires weight <= MAX_COUNT && Bounded(items)
      modifies this
      ensures Grown(old(items), items, operands, |operands|, weight)
    {
      hide *;
      GrownNone(items, operands, weight);
      for i := 0 to |operands|
        invariant Grown(old(items), items, operands, i, weight)
      {
        ghost var before := items;
        GrownBounded(old(items), items, operands, i, weight);
        RecordOperand(operands[i], weight);
        GrownStep(old(items), before, items, operands, i, weight);
      }
    }

    /** The counts after the whole function are the weighted sums, clamped once. */
    method RecordFunction(code: seq<Instr>, depths: seq<nat>)
      requires items == [] && |depths| == |code| && forall i :: 0 <= i < |code| ==> depths[i] == Depth(code, i)
      modifies this
      ensures Recorded(code, |code|, items)
    {
      RecordedNone(code);
      for i := 0 to |code|
        invariant Recorded(code, i, items)
      {
        hide *;
        var x := code[i];
        var weight := Weight(depths[i]);
        WeightBound(depths[i]);
        ghost var before := items;
        RecordedBounded(code, i, items);
        RecordOperands([x.dest, x.lhs, x.rhs] + x.arguments, weight);
        ghost var mid := items;
        if x.op == AddressOf && x.lhs.Symbol? { MarkAddressTaken(x.lhs.name); }
        RecordedStep(code, i, before, mid, items);
      }
    }
  }

  /** What the table says once the first k instructions are recorded. */
  ghost predicate Recorded(code: seq<Instr>, k: nat, items: seq<Entry>)
    requires k <= |code|
  {
    forall n :: CountIn(items, n) == Clamp(Pressure(code, k, n)) && TakenIn(items, n) == AddressTaken(code, k, n)
  }

  lemma RecordedNone(code: seq<Instr>)
    ensures Recorded(code, 0, [])
  {
  }

  lemma WeightBound(depth: nat)
    ensures Weight(depth) <= MAX_COUNT
  {
  }

  lemma RecordedBounded(code: seq<Instr>, k: nat, items: seq<Entry>)
    requires k <= |code| && Recorded(code, k, items)
    ensures Bounded(items)
  {
    hide CountIn, TakenIn, Pressure, AddressTaken;
  }

  lemma RecordedStep(code: seq<Instr>, i: nat, before: seq<Entry>, mid: seq<Entry>, after: seq<Entry>)
    requires i < |code| && Recorded(code, i, before)
    requires Grown(before, mid, Operands(code[i]), |Operands(code[i])|, Weight(Depth(code, i)))
    requires forall n :: CountIn(after, n) == CountIn(mid, n)
    requires if code[i].op == AddressOf && code[i].lhs.Symbol?
             then TakenIn(after, code[i].lhs.name)
               && forall n :: n != code[i].lhs.name ==> TakenIn(after, n) == TakenIn(mid, n)
             else forall n :: TakenIn(after, n) == TakenIn(mid, n)
    ensures Recorded(code, i + 1, after)
  {
    hide CountIn, TakenIn, Weight, Depth, Clamp, Hits;
    forall n ensures CountIn(after, n) == Clamp(Pressure(code, i + 1, n)) && TakenIn(after, n) == AddressTaken(code, i + 1, n) {
      assert Pressure(code, i + 1, n) == Pressure(code, i, n) + Uses(code[i], n) * Weight(Depth(code, i));
      ClampTwice(Pressure(code, i, n), Uses(code[i], n) * Weight(Depth(code, i)));
      TakenStep(code, i, n);
    }
  }

  lemma TakenStep(code: seq<Instr>, i: nat, n: string)
    requires i < |code|
    ensures AddressTaken(code, i + 1, n) == (AddressTaken(code, i, n) || TakesAddress(code[i], n))
  {
  }

  lemma ClampTwice(a: nat, b: nat)
    ensures Clamp(Clamp(a) + b) == Clamp(a + b)
  {
  }
}
