/** The prologue's stack allocation, with the page-by-page loop for large frames on Windows. */
module StackProbe {
  import opened FramePlan
  import opened Rounding

  const PAGE := 4096

  datatype Instr =
    | MovRax(n: int)
    | ProbeLabel
    | CmpRax(n: int)
    | JumpBelowOrEqualDone
    | SubRsp(n: int)
    | TouchRsp
    | SubRax(n: int)
    | JumpProbe
    | DoneLabel
    | SubRspRax

  /** The size rounded up to 16 in an int, which wraps. */
  function RoundedInt(stackSize: nat): int { AsInt(stackSize + 15) / 16 * 16 }

  /** Only the last fifteen ints are rounded to something else, the smallest int. */
  lemma RoundedExactly(stackSize: nat)
    requires stackSize <= INT_MAX
    ensures RoundedInt(stackSize) == if stackSize <= INT_MAX - 15 then RoundUp16(stackSize) else -INT_MAX - 1
  {
  }

  /** The prologue's choice. */
  method EmitAllocation(stackSize: nat, windows: bool) returns (code: seq<Instr>)
    requires stackSize <= INT_MAX
    ensures code == Allocation(stackSize, windows)
  {
    code := [];
    if stackSize > 0 {
      var aligned := AsInt(stackSize + 15) / 16 * 16;
      if windows && aligned > PAGE {
        code := code + [MovRax(aligned), ProbeLabel, CmpRax(PAGE), JumpBelowOrEqualDone];
        code := code + [SubRsp(PAGE), TouchRsp, SubRax(PAGE), JumpProbe];
        code := code + [DoneLabel, SubRspRax, TouchRsp];
      } else {
        code := code + [SubRsp(aligned)];
      }
    }
  }

  function ProbeCode(size: int): (code: seq<Instr>)
    ensures |code| == 11
  {
    [MovRax(size), ProbeLabel, CmpRax(PAGE), JumpBelowOrEqualDone, SubRsp(PAGE), TouchRsp, SubRax(PAGE), JumpProbe,
     DoneLabel, SubRspRax, TouchRsp]
  }

  function Allocation(stackSize: nat, windows: bool): seq<Instr> {
    if stackSize == 0 then []
    else if windows && RoundedInt(stackSize) > PAGE then ProbeCode(RoundedInt(stackSize))
    else [SubRsp(RoundedInt(stackSize))]
  }

  /** `belowOrEqual` is what the last comparison left in the flags; `touched` lists the addresses read, in order. */
  datatype Machine = Machine(pc: nat, rsp: int, rax: int, belowOrEqual: bool, touched: seq<int>)

  function Position(code: seq<Instr>, x: Instr, i: nat): (p: nat)
    requires i <= |code|
    decreases |code| - i
  {
    if i < |code| && code[i] != x then Position(code, x, i + 1) else i
  }

  function Step(code: seq<Instr>, m: Machine): Machine {
    if m.pc >= |code| then m
    else
      var next := m.(pc := m.pc + 1);
      match code[m.pc]
      case MovRax(n) => next.(rax := n)
      case ProbeLabel => next
      case CmpRax(n) => next.(belowOrEqual := m.rax <= n)
      case JumpBelowOrEqualDone => if m.belowOrEqual then m.(pc := Position(code, DoneLabel, 0)) else next
      case SubRsp(n) => next.(rsp := m.rsp - n)
      case TouchRsp => next.(touched := m.touched + [m.rsp])
      case SubRax(n) => next.(rax := m.rax - n)
      case JumpProbe => m.(pc := Position(code, ProbeLabel, 0))
      case DoneLabel => next
      case SubRspRax => next.(rsp := m.rsp - m.rax)
  }

  function Run(code: seq<Instr>, m: Machine, n: nat): Machine
    decreases n
  {
    if n == 0 then m else Run(code, Step(code, m), n - 1)
  }

  lemma {:induction false} RunAdd(code: seq<Instr>, m: Machine, a: nat, b: nat)
    ensures Run(code, m, a + b) == Run(code, Run(code, m, a), b)
    decreases a
  {
    if a > 0 { RunAdd(code, Step(code, m), a - 1, b); }
  }

  /** The touched addresses go down from `top` to `bottom` in strides of at most a page, 4096 bytes. */
  ghost predicate Strides(top: int, touched: seq<int>, bottom: int) {
    if touched == [] then bottom == top
    else
      && touched[|touched| - 1] == bottom
      && (forall i :: 0 <= i < |touched| ==> 0 < Previous(top, touched, i) - touched[i] <= 4096)
  }

  function Previous(top: int, touched: seq<int>, i: nat): int
    requires i <= |touched|
  {
    if i == 0 then top else touched[i - 1]
  }

  lemma StridesExtend(top: int, touched: seq<int>, bottom: int, x: int)
    requires Strides(top, touched, bottom) && 0 < bottom - x <= PAGE
    ensures Strides(top, touched + [x], x)
  {
    var longer := touched + [x];
    forall i | 0 <= i < |longer| ensures 0 < Previous(top, longer, i) - longer[i] <= PAGE {
      if i < |touched| { assert Previous(top, longer, i) == Previous(top, touched, i); }
    }
  }

  lemma Labels(size: int)
    ensures Position(ProbeCode(size), ProbeLabel, 0) == 1 && Position(ProbeCode(size), DoneLabel, 0) == 8
  {
    var code := ProbeCode(size);
    assert Position(code, DoneLabel, 6) == 8 by { assert Position(code, DoneLabel, 7) == Position(code, DoneLabel, 8); }
    assert Position(code, DoneLabel, 4) == Position(code, DoneLabel, 5) == Position(code, DoneLabel, 6);
    assert Position(code, DoneLabel, 2) == Position(code, DoneLabel, 3) == Position(code, DoneLabel, 4);
    assert Position(code, DoneLabel, 0) == Position(code, DoneLabel, 1) == Position(code, DoneLabel, 2);
    assert Position(code, ProbeLabel, 0) == Position(code, ProbeLabel, 1);
  }

  /** One turn of the loop lowers rsp by a page and touches it. */
  lemma LoopTurn(size: int, m: Machine)
    requires m.pc == 1 && m.rax > PAGE
    ensures Run(ProbeCode(size), m, 7)
      == Machine(1, m.rsp - PAGE, m.rax - PAGE, false, m.touched + [m.rsp - PAGE])
  {
    Labels(size);
    var code := ProbeCode(size);
    hide ProbeCode, Position;
    CodeAt(size);
    var a := m.(pc := 2);
    var b := Machine(3, m.rsp, m.rax, false, m.touched);
    var c := b.(pc := 4);
    var d := c.(pc := 5, rsp := m.rsp - PAGE);
    var e := d.(pc := 6, touched := m.touched + [d.rsp]);
    var f := e.(pc := 7, rax := m.rax - PAGE);
    assert Step(code, m) == a && Step(code, a) == b && Step(code, b) == c && Step(code, c) == d;
    assert Step(code, d) == e && Step(code, e) == f;
    Seven(code, m, a, b, c, d, e, f);
  }

  lemma CodeAt(size: int)
    ensures var code := ProbeCode(size);
            && code[0] == MovRax(size) && code[1] == ProbeLabel && code[2] == CmpRax(PAGE) && code[3] == JumpBelowOrEqualDone
            && code[4] == SubRsp(PAGE) && code[5] == TouchRsp && code[6] == SubRax(PAGE) && code[7] == JumpProbe
            && code[8] == DoneLabel && code[9] == SubRspRax && code[10] == TouchRsp
  {
  }

  lemma Seven(code: seq<Instr>, m: Machine, a: Machine, b: Machine, c: Machine, d: Machine, e: Machine, f: Machine)
    requires Step(code, m) == a && Step(code, a) == b && Step(code, b) == c && Step(code, c) == d
    requires Step(code, d) == e && Step(code, e) == f
    ensures Run(code, m, 7) == Step(code, f)
  {
    hide Step;
    assert Run(code, f, 1) == Step(code, f) by { assert Run(code, Step(code, f), 0) == Step(code, f); }
    assert Run(code, d, 3) == Run(code, e, 2) == Run(code, f, 1);
    assert Run(code, b, 5) == Run(code, c, 4) == Run(code, d, 3);
    assert Run(code, m, 7) == Run(code, a, 6) == Run(code, b, 5);
  }

  /** The way out of the loop takes the rest. */
  lemma LoopExit(size: int, m: Machine)
    requires m.pc == 1 && 0 < m.rax <= PAGE
    ensures var n := Run(ProbeCode(size), m, 6);
            n.pc == 11 && n.rsp == m.rsp - m.rax && n.touched == m.touched + [m.rsp - m.rax]
  {
    Labels(size);
    var code := ProbeCode(size);
    hide ProbeCode, Position;
    CodeAt(size);
    var a := m.(pc := 2);
    var b := Machine(3, m.rsp, m.rax, true, m.touched);
    var c := b.(pc := 8);
    var d := c.(pc := 9);
    var e := d.(pc := 10, rsp := m.rsp - m.rax);
    var f := e.(pc := 11, touched := m.touched + [e.rsp]);
    assert Step(code, m) == a && Step(code, a) == b && Step(code, b) == c && Step(code, c) == d;
    assert Step(code, d) == e && Step(code, e) == f;
    hide Step;
    assert Run(code, e, 1) == f by { assert Run(code, f, 0) == f; }
    assert Run(code, c, 3) == Run(code, d, 2) == Run(code, e, 1);
    assert Run(code, m, 6) == Run(code, a, 5) == Run(code, b, 4) == Run(code, c, 3);
  }

  lemma {:induction false} LoopRuns(size: int, m: Machine, top: int) returns (n: nat)
    requires m.pc == 1 && m.rax > 0 && Strides(top, m.touched, m.rsp)
    ensures var f := Run(ProbeCode(size), m, n);
            f.pc == 11 && f.rsp == m.rsp - m.rax && Strides(top, f.touched, f.rsp) && |f.touched| > 0
    decreases m.rax
  {
    hide Run, ProbeCode, Strides;
    if m.rax <= PAGE {
      StridesExtend(top, m.touched, m.rsp, m.rsp - m.rax);
      LoopExit(size, m);
      n := 6;
    } else {
      LoopTurn(size, m);
      StridesExtend(top, m.touched, m.rsp, m.rsp - PAGE);
      var next := Run(ProbeCode(size), m, 7);
      var rest := LoopRuns(size, next, top);
      RunAdd(ProbeCode(size), m, 7, rest);
      n := 7 + rest;
    }
  }

  /** The machine when the prologue's allocation has run. */
  ghost predicate Ends(stackSize: nat, windows: bool, rsp: int, rax: int, n: nat, f: Machine) {
    var code := Allocation(stackSize, windows);
    f == Run(code, Machine(0, rsp, rax, false, []), n) && f.pc == |code|
  }

  /** The allocation ends with rsp lowered by the rounded int, a whole number of 16s. */
  lemma AllocationRuns(stackSize: nat, windows: bool, rsp: int, rax: int) returns (n: nat, f: Machine)
    ensures Ends(stackSize, windows, rsp, rax, n, f) && f.rsp == rsp - RoundedInt(stackSize)
    ensures windows ==> Strides(rsp, f.touched, f.rsp) || (f.touched == [] && rsp - f.rsp <= 4096)
    ensures (rsp - f.rsp) % 16 == 0
  {
    var code := Allocation(stackSize, windows);
    var m := Machine(0, rsp, rax, false, []);
    if windows && RoundedInt(stackSize) > PAGE {
      var size := RoundedInt(stackSize);
      var next := m.(pc := 1, rax := size);
      assert Step(code, m) == next;
      assert Run(code, m, 1) == next by { assert Run(code, next, 0) == next; }
      var rest := LoopRuns(size, next, rsp);
      RunAdd(code, m, 1, rest);
      n := 1 + rest;
    } else if stackSize > 0 {
      n := 1;
      assert Run(code, Step(code, m), 0) == Step(code, m);
    } else {
      n := 0;
    }
    f := Run(code, m, n);
  }

  /**
    * For every size that an int holds the prologue lowers rsp by the size rounded up, touching every page on
    * Windows, if and only if the size is not one of the last fifteen ints; for those it raises rsp by two gigabytes.
    */
  lemma AllocatesExactly(stackSize: nat, windows: bool, rsp: int, rax: int) returns (n: nat, f: Machine)
    requires stackSize <= INT_MAX
    ensures Ends(stackSize, windows, rsp, rax, n, f)
    ensures f.rsp == rsp - RoundUp16(stackSize) <==> stackSize <= INT_MAX - 15
    ensures stackSize > INT_MAX - 15 ==> f.rsp == rsp + INT_MAX + 1
    ensures windows && stackSize <= INT_MAX - 15 ==>
      Strides(rsp, f.touched, f.rsp) || (f.touched == [] && rsp - f.rsp <= 4096)
  {
    RoundedExactly(stackSize);
    n, f := AllocationRuns(stackSize, windows, rsp, rax);
  }

  // ----- the planned frame -----

  /** The bytes rbp - r.hi up to rbp - r.lo are above the stack pointer. */
  ghost predicate Allocated(rs: seq<Region>, rbp: int, rsp: int) {
    forall i :: 0 <= i < |rs| ==> rsp <= rbp - rs[i].hi
  }

  /** The sizing pass, the pieces and the prologue of one function. */
  method PrepareFrame(p: Plan, windows: bool) returns (ok: bool, regions: seq<Region>, slots: seq<Region>, code: seq<Instr>)
    ensures ok <==> p.Fits()
    ensures ok ==> regions == p.Regions() && slots == Slots(p.Budgeted(), p.results)
    ensures ok ==> code == Allocation(p.Budget(), windows)
  {
    var planner := new FramePlanner();
    ok, regions, slots := planner.LayOut(p);
    code := [];
    if ok { code := EmitAllocation(planner.stackSize, windows); }
  }

  lemma PiecesWithin(p: Plan)
    ensures var rs := p.Regions() + Slots(p.Budgeted(), p.results);
            Between(rs, 0, p.Budget()) && (rs == [] ==> p.Budget() == 0)
  {
    FrameSound(p);
    SlotsApart(p.Budgeted(), p.results);
    if p.Regions() == [] && p.results == [] { NothingCounted(p); }
    hide Plan.Regions, Slots, Plan.Budgeted, SlotBytes;
  }

  /**
    * A frame that passes the sizing pass has its pieces and its slots in allocated memory once the prologue has run,
    * if and only if its byte count is not one of the last fifteen ints.
    */
  lemma FrameAllocatedExactly(p: Plan, windows: bool, rbp: int, rax: int) returns (n: nat, f: Machine)
    requires p.Fits()
    ensures Ends(p.Budget(), windows, rbp, rax, n, f)
    ensures Allocated(p.Regions() + Slots(p.Budgeted(), p.results), rbp, f.rsp) <==> p.Budget() <= INT_MAX - 15
  {
    hide Plan.Regions, Slots, Plan.Budgeted, Plan.Budget, Ends;
    n, f := AllocatesExactly(p.Budget(), windows, rbp, rax);
    PiecesWithin(p);
    var rs := p.Regions() + Slots(p.Budgeted(), p.results);
    if p.Budget() > INT_MAX - 15 { assert rs[0].hi <= p.Budget(); }
  }

  /** One local of 2147483625 bytes: the frame has 2147483640 bytes and the prologue makes it the wrong way. */
  lemma RaisedExample(windows: bool, rbp: int, rax: int) returns (n: nat, f: Machine)
    ensures var p := Plan(0, [DeclareLocal("a", 0x7FFF_FFE9)], [], []);
            p.Fits() && p.Budget() == 0x7FFF_FFF8 && Ends(p.Budget(), windows, rbp, rax, n, f) && f.rsp == rbp + 0x8000_0000
  {
    var p := Plan(0, [DeclareLocal("a", 0x7FFF_FFE9)], [], []);
    assert DeclaredBytes(p.code, 1) == 0x7FFF_FFF8 by { assert DeclaredBytes(p.code, 0) == 0; }
    assert TempsOf(p.code, 1) == [] by { assert TempsOf(p.code, 0) == []; }
    n, f := AllocatesExactly(p.Budget(), windows, rbp, rax);
  }
}
