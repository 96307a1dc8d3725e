/** Which symbols live in registers: rotate operands first, then the heaviest remaining symbol for each register. */
module Promotion {
  import opened LoopDepth

  datatype Register = R12 | R13 | R14 | R15 | Rbx | Rsi | Rdi

  function Registers(): (rs: seq<Register>)
    ensures |rs| == 7 && forall i, j :: 0 <= i < j < |rs| ==> rs[i] != rs[j]
  {
    [R12, R13, R14, R15, Rbx, Rsi, Rdi]
  }

  /** A parameter or local; `promotable` says that its type is an integer or a pointer of at most eight bytes. */
  datatype Candidate = Candidate(name: string, promotable: bool)

  /** rsi and rdi are the last two; they are used only where the calls of the function allow it. */
  datatype Function = Function(code: seq<Instr>, parameters: seq<Candidate>, locals: seq<Candidate>,
                               rotates: bool, spareIndexRegisters: bool) {
    function Limit(): nat { if spareIndexRegisters then 7 else 5 }

    function Candidates(): seq<Candidate> { parameters + locals }

    ghost predicate Free(c: Candidate) { c.promotable && !AddressTaken(code, |code|, c.name) }

    function Count(c: Candidate): nat { Clamp(Pressure(code, |code|, c.name)) }
  }

  datatype Promoted = Promoted(name: string, register: Register)

  predicate Taken(chosen: seq<Promoted>, name: string) { exists i :: 0 <= i < |chosen| && chosen[i].name == name }

  /** The registers are handed out in order, to different symbols that a register can hold. */
  ghost predicate Assigned(f: Function, chosen: seq<Promoted>) {
    && |chosen| <= (if f.spareIndexRegisters then 7 else 5)
    && (forall i :: 0 <= i < |chosen| ==> chosen[i].register == [R12, R13, R14, R15, Rbx, Rsi, Rdi][i])
    && (forall i, j :: 0 <= i < j < |chosen| ==> chosen[i].name != chosen[j].name)
    && (forall i :: 0 <= i < |chosen| ==> Holdable(f, chosen[i].name))
  }

  ghost predicate Holdable(f: Function, name: string) {
    exists k :: 0 <= k < |f.Candidates()| && f.Candidates()[k].name == name && f.Free(f.Candidates()[k])
  }

  /** A candidate still to be considered when `chosen` is done. */
  ghost predicate Open(f: Function, chosen: seq<Promoted>, k: nat)
    requires k < |f.Candidates()|
  {
    f.Free(f.Candidates()[k]) && !Taken(chosen, f.Candidates()[k].name)
  }

  /** The first of the heaviest open candidates, and heavy enough. */
  ghost predicate Best(f: Function, chosen: seq<Promoted>, k: nat)
    requires k < |f.Candidates()|
  {
    && Open(f, chosen, k) && f.Count(f.Candidates()[k]) >= 3
    && (forall j :: 0 <= j < |f.Candidates()| && Open(f, chosen, j) ==> f.Count(f.Candidates()[j]) <= f.Count(f.Candidates()[k]))
    && (forall j :: 0 <= j < k && Open(f, chosen, j) ==> f.Count(f.Candidates()[j]) < f.Count(f.Candidates()[k]))
  }

  ghost predicate PickedAt(f: Function, chosen: seq<Promoted>, i: nat)
    requires i < |chosen|
  {
    exists k :: 0 <= k < |f.Candidates()| && f.Candidates()[k].name == chosen[i].name && Best(f, chosen[..i], k)
  }

  /** From `start` on, every choice was the best at its time. */
  ghost predicate Greedy(f: Function, chosen: seq<Promoted>, start: nat) {
    start <= |chosen| && forall i :: start <= i < |chosen| ==> PickedAt(f, chosen, i)
  }

  /** A register is left over only when no open candidate is heavy enough. */
  ghost predicate Exhausted(f: Function, chosen: seq<Promoted>) {
    |chosen| < f.Limit() ==> forall j :: 0 <= j < |f.Candidates()| && Open(f, chosen, j) ==> f.Count(f.Candidates()[j]) < 3
  }

  // ----- what greed guarantees -----

  lemma TakenGrows(chosen: seq<Promoted>, i: nat, name: string)
    requires i <= |chosen|
    ensures !Taken(chosen, name) ==> !Taken(chosen[..i], name)
  {
    assert forall j :: 0 <= j < i ==> chosen[..i][j] == chosen[j];
  }

  /** No symbol left in memory is heavier than one that the greedy stage put in a register. */
  lemma NoBetterLeft(f: Function, chosen: seq<Promoted>, start: nat, i: nat, j: nat)
    requires Greedy(f, chosen, start) && start <= i < |chosen|
    requires j < |f.Candidates()| && Open(f, chosen, j)
    ensures Clamp(Pressure(f.code, |f.code|, chosen[i].name)) >= f.Count(f.Candidates()[j])
  {
    assert PickedAt(f, chosen, i);
    var k :| 0 <= k < |f.Candidates()| && f.Candidates()[k].name == chosen[i].name && Best(f, chosen[..i], k);
    TakenGrows(chosen, i, f.Candidates()[j].name);
    assert Open(f, chosen[..i], j);
  }

  /** The greedy choices come in order of weight. */
  lemma GreedyDescends(f: Function, chosen: seq<Promoted>, start: nat, i: nat, j: nat)
    requires Greedy(f, chosen, start) && Assigned(f, chosen) && start <= i < j < |chosen|
    ensures Clamp(Pressure(f.code, |f.code|, chosen[i].name)) >= Clamp(Pressure(f.code, |f.code|, chosen[j].name))
  {
    assert PickedAt(f, chosen, i) && PickedAt(f, chosen, j);
    var k :| 0 <= k < |f.Candidates()| && f.Candidates()[k].name == chosen[i].name && Best(f, chosen[..i], k);
    var l :| 0 <= l < |f.Candidates()| && f.Candidates()[l].name == chosen[j].name && Best(f, chosen[..j], l);
    assert chosen[..j][..i] == chosen[..i];
    TakenGrows(chosen[..j], i, chosen[j].name);
    assert Open(f, chosen[..i], l);
  }

  // ----- the two stages -----

  method FindPromoted(chosen: seq<Promoted>, name: string) returns (found: bool)
    ensures found == Taken(chosen, name)
  {
    for i := 0 to |chosen|
      invariant forall j :: 0 <= j < i ==> chosen[j].name != name
    {
      if chosen[i].name == name { return true; }
    }
    return false;
  }

  /** The first local of the name decides. */
  predicate PromotableFrom(locals: seq<Candidate>, name: string, i: nat)
    requires i <= |locals|
    decreases |locals| - i
  {
    i < |locals| && if locals[i].name == name then locals[i].promotable else PromotableFrom(locals, name, i + 1)
  }

  lemma {:induction false} PromotableIsListed(locals: seq<Candidate>, name: string, i: nat)
    requires i <= |locals| && PromotableFrom(locals, name, i)
    ensures Candidate(name, true) in locals
    decreases |locals| - i
  {
    if locals[i].name != name { PromotableIsListed(locals, name, i + 1); }
  }

  method IsPromotableLocal(f: Function, name: string) returns (yes: bool)
    ensures yes == PromotableFrom(f.locals, name, 0)
  {
    for i := 0 to |f.locals|
      invariant PromotableFrom(f.locals, name, 0) == PromotableFrom(f.locals, name, i)
    {
      if f.locals[i].name == name { return f.locals[i].promotable; }
    }
    return false;
  }

  // ----- the operands of rotate instructions -----

  predicate Rotated(x: Instr, name: string) {
    x.op == RotateAdd && (x.dest == Symbol(name) || x.lhs == Symbol(name) || x.rhs == Symbol(name))
  }

  ghost predicate RotatedBefore(f: Function, n: nat, name: string)
    requires n <= |f.code|
  {
    exists i :: 0 <= i < n && Rotated(f.code[i], name)
  }

  ghost predicate Suitable(f: Function, name: string) {
    PromotableFrom(f.locals, name, 0) && !AddressTaken(f.code, |f.code|, name)
  }

  ghost predicate Served(f: Function, chosen: seq<Promoted>, name: string) {
    Suitable(f, name) ==> Taken(chosen, name) || |chosen| == f.Limit()
  }

  /** Every suitable local that a rotate instruction names has a register, unless they have run out; nothing else has. */
  ghost predicate RotatesServed(f: Function, chosen: seq<Promoted>, n: nat)
    requires n <= |f.code|
  {
    && (forall name :: RotatedBefore(f, n, name) ==> Served(f, chosen, name))
    && (forall i :: 0 <= i < |chosen| ==> RotatedBefore(f, n, chosen[i].name))
  }

  lemma ServedGrows(f: Function, chosen: seq<Promoted>, more: seq<Promoted>, name: string)
    requires chosen <= more && |more| <= f.Limit() && Served(f, chosen, name)
    ensures Served(f, more, name)
  {
    assert forall i :: 0 <= i < |chosen| ==> more[i] == chosen[i];
  }

  /** One operand of a rotate instruction. */
  method PromoteOperand(f: Function, stats: SymbolStats, chosen: seq<Promoted>, operand: Operand) returns (more: seq<Promoted>)
    requires Recorded(f.code, |f.code|, stats.items) && Assigned(f, chosen)
    ensures Assigned(f, more) && Step(f, chosen, more, operand)
  {
    more := chosen;
    if |chosen| < f.Limit() && operand.Symbol? && !stats.IsTaken(operand.name) {
      var found := FindPromoted(chosen, operand.name);
      var local := IsPromotableLocal(f, operand.name);
      if !found && local {
        PromotableIsListed(f.locals, operand.name, 0);
        var k :| 0 <= k < |f.locals| && f.locals[k] == Candidate(operand.name, true);
        assert f.Candidates()[|f.parameters| + k] == Candidate(operand.name, true);
        assert Holdable(f, operand.name);
        more := chosen + [Promoted(operand.name, Registers()[|chosen|])];
        assert more[|chosen|].name == operand.name;
      }
    }
  }

  method PromoteRotates(f: Function, stats: SymbolStats) returns (chosen: seq<Promoted>)
    requires Recorded(f.code, |f.code|, stats.items)
    ensures Assigned(f, chosen) && if f.rotates then RotatesServed(f, chosen, |f.code|) else chosen == []
  {
    chosen := [];
    assert RotatesServed(f, chosen, 0);
    if f.rotates {
      hide Assigned, RotatesServed, Step;
      for i := 0 to |f.code|
        invariant Assigned(f, chosen) && RotatesServed(f, chosen, i)
      {
        ghost var before := chosen;
        if f.code[i].op == RotateAdd {
          chosen := PromoteOperand(f, stats, chosen, f.code[i].dest);
          ghost var first := chosen;
          chosen := PromoteOperand(f, stats, chosen, f.code[i].lhs);
          ghost var second := chosen;
          chosen := PromoteOperand(f, stats, chosen, f.code[i].rhs);
          RotateStep(f, i, before, first, second, chosen);
        } else {
          RotateSkip(f, i, chosen);
        }
      }
    }
  }

  ghost predicate Step(f: Function, chosen: seq<Promoted>, more: seq<Promoted>, operand: Operand) {
    && |more| <= f.Limit() && chosen <= more
    && (forall i :: |chosen| <= i < |more| ==> operand == Symbol(more[i].name))
    && (operand.Symbol? ==> Served(f, more, operand.name))
  }

  lemma RotateStep(f: Function, i: nat, a: seq<Promoted>, b: seq<Promoted>, c: seq<Promoted>, d: seq<Promoted>)
    requires i < |f.code| && f.code[i].op == RotateAdd && RotatesServed(f, a, i)
    requires Step(f, a, b, f.code[i].dest) && Step(f, b, c, f.code[i].lhs) && Step(f, c, d, f.code[i].rhs)
    ensures RotatesServed(f, d, i + 1)
  {
    hide Served, Suitable;
    var x := f.code[i];
    forall name | RotatedBefore(f, i + 1, name) ensures Served(f, d, name) {
      if RotatedBefore(f, i, name) { ServedGrows(f, a, d, name); }
      if x.dest == Symbol(name) { ServedGrows(f, b, d, name); }
      if x.lhs == Symbol(name) { ServedGrows(f, c, d, name); }
    }
    forall k | 0 <= k < |d| ensures RotatedBefore(f, i + 1, d[k].name) {
      if k < |a| {
        assert d[k] == a[k] && RotatedBefore(f, i, a[k].name);
      } else {
        assert d[k] == if k < |b| then b[k] else if k < |c| then c[k] else d[k];
        assert Rotated(x, d[k].name);
      }
    }
  }

  lemma RotateSkip(f: Function, i: nat, chosen: seq<Promoted>)
    requires i < |f.code| && f.code[i].op != RotateAdd && RotatesServed(f, chosen, i)
    ensures RotatesServed(f, chosen, i + 1)
  {
    forall name | RotatedBefore(f, i + 1, name) ensures RotatedBefore(f, i, name) {
    }
    forall name | RotatedBefore(f, i, name) ensures RotatedBefore(f, i + 1, name) {
    }
  }

  /** The best of the first n candidates so far. */
  ghost predicate BestSoFar(f: Function, chosen: seq<Promoted>, n: nat, best: int, count: nat)
    requires n <= |f.Candidates()|
  {
    && (forall j :: 0 <= j < n && Open(f, chosen, j) ==> f.Count(f.Candidates()[j]) <= count)
    && (if best < 0 then count == 0
        else
          && best < n && Open(f, chosen, best) && count == f.Count(f.Candidates()[best]) > 0
          && (forall j :: 0 <= j < best && Open(f, chosen, j) ==> f.Count(f.Candidates()[j]) < count))
  }

  /** One scan over parameters, then locals. */
  method FindBest(f: Function, stats: SymbolStats, chosen: seq<Promoted>) returns (best: int, count: nat)
    requires Recorded(f.code, |f.code|, stats.items)
    ensures BestSoFar(f, chosen, |f.Candidates()|, best, count)
  {
    best, count := -1, 0;
    for i := 0 to |f.Candidates()|
      invariant BestSoFar(f, chosen, i, best, count)
    {
      var c := f.Candidates()[i];
      var found := FindPromoted(chosen, c.name);
      if !found && !stats.IsTaken(c.name) && c.promotable {
        var useCount := stats.UseCount(c.name);
        if useCount > count { best, count := i, useCount; }
      }
    }
  }

  method PromoteGreedily(f: Function, stats: SymbolStats, first: seq<Promoted>) returns (chosen: seq<Promoted>)
    requires Recorded(f.code, |f.code|, stats.items) && Assigned(f, first)
    ensures first <= chosen && Assigned(f, chosen) && Greedy(f, chosen, |first|) && Exhausted(f, chosen)
  {
    chosen := first;
    while |chosen| < f.Limit()
      invariant first <= chosen && Assigned(f, chosen) && Greedy(f, chosen, |first|)
      decreases f.Limit() - |chosen|
    {
      var best, count := FindBest(f, stats, chosen);
      if best < 0 || count < 3 { break; }
      Extends(f, chosen, |first|, best, count);
      chosen := chosen + [Promoted(f.Candidates()[best].name, Registers()[|chosen|])];
    }
  }

  lemma Extends(f: Function, chosen: seq<Promoted>, start: nat, best: nat, count: nat)
    requires Assigned(f, chosen) && Greedy(f, chosen, start) && |chosen| < f.Limit()
    requires best < |f.Candidates()| && BestSoFar(f, chosen, |f.Candidates()|, best, count) && count >= 3
    ensures var longer := chosen + [Promoted(f.Candidates()[best].name, Registers()[|chosen|])];
            Assigned(f, longer) && Greedy(f, longer, start)
  {
    var longer := chosen + [Promoted(f.Candidates()[best].name, Registers()[|chosen|])];
    assert Holdable(f, f.Candidates()[best].name);
    forall i | start <= i < |longer| ensures PickedAt(f, longer, i) {
      if i < |chosen| {
        assert PickedAt(f, chosen, i) && longer[..i] == chosen[..i];
      } else {
        assert longer[..i] == chosen && Best(f, chosen, best);
      }
    }
  }

  /** Depths, counts, and both stages. */
  method Promote(f: Function) returns (chosen: seq<Promoted>, rotated: nat)
    ensures rotated <= |chosen| && if f.rotates then RotatesServed(f, chosen[..rotated], |f.code|) else rotated == 0
    ensures Assigned(f, chosen) && Greedy(f, chosen, rotated) && Exhausted(f, chosen)
  {
    hide *;
    var depths := ComputeLoopDepths(f.code);
    var stats := new SymbolStats();
    stats.RecordFunction(f.code, depths);
    var first := PromoteRotates(f, stats);
    chosen := PromoteGreedily(f, stats, first);
    rotated := |first|;
    assert chosen[..rotated] == first;
  }
}
