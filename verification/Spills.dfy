/** Delayed and dropped temp stores against code that stores and loads every time. */
module Spills {
  import opened Words
  import opened Wrappers
  import opened Emitter
  import opened EmitterProofs
  import FusionProofs
  import Ir
  import A = Asm

  datatype Action = Scratch(code: Code) | Save(temp: string) | Fetch(temp: string)

  /** Register code that leaves promoted registers, memory and control alone. */
  predicate ScratchOnly(a: A.Instr) {
    match a
    case Comment => true
    case Mov(d, _) => !Promotable(d)
    case Alu(_, d, _) => !Promotable(d)
    case ShiftImm(_, d, _) => !Promotable(d)
    case ShiftCl(_, d) => !Promotable(d)
    case Cmp(_, _) => true
    case Test(_) => true
    case Setcc(_) => true
    case MovzxAl => true
    case NegR(d) => !Promotable(d)
    case NotR(d) => !Promotable(d)
    case Cqo => true
    case Idiv(_) => true
    case _ => false
  }

  predicate Usable(ctx: Ctx, a: Action) {
    match a
    case Scratch(code) => code != [] && forall i :: 0 <= i < |code| ==> ScratchOnly(code[i])
    case Save(t) => ctx.TempOff(t) > 0
    case Fetch(t) => ctx.TempOff(t) > 0
  }

  /** Single-use temps that have been fetched since they were saved. */
  function Spend(ctx: Ctx, spent: set<string>, a: Action): set<string> {
    match a
    case Scratch(_) => spent
    case Save(t) => spent - {t}
    case Fetch(t) => if ctx.UseCount(t) == 1 then spent + {t} else spent
  }

  /** Every action can be emitted, and no single-use temp is fetched twice without a save between. */
  predicate Disciplined(ctx: Ctx, actions: seq<Action>, spent: set<string>)
    decreases |actions|
  {
    actions == []
    || (Usable(ctx, actions[0]) && (actions[0].Fetch? ==> actions[0].temp !in spent)
        && Disciplined(ctx, actions[1..], Spend(ctx, spent, actions[0])))
  }

  function SpentAfter(ctx: Ctx, actions: seq<Action>, spent: set<string>): set<string>
    decreases |actions|
  {
    if actions == [] then spent else SpentAfter(ctx, actions[1..], Spend(ctx, spent, actions[0]))
  }

  /** The generator: stores are promised, loads of what rax holds are dropped. */
  function Lazy(g: Gen, ctx: Ctx, a: Action): Gen {
    match a
    case Scratch(code) => Emit(g, code)
    case Save(t) => StoreTemp(g, ctx.TempOff(t), ctx.UseCount(t) == 1)
    case Fetch(t) => LoadTemp(g, ctx.TempOff(t))
  }

  function LazyAll(g: Gen, ctx: Ctx, actions: seq<Action>): Gen
    decreases |actions|
  {
    if actions == [] then g else LazyAll(Lazy(g, ctx, actions[0]), ctx, actions[1..])
  }

  /** The plain code: every save stores, every fetch loads. */
  function Eager(ctx: Ctx, a: Action): Code {
    match a
    case Scratch(code) => code
    case Save(t) => [A.StoreSlot(ctx.TempOff(t), A.RAX)]
    case Fetch(t) => [A.LoadSlot(A.RAX, ctx.TempOff(t))]
  }

  function EagerAll(ctx: Ctx, actions: seq<Action>): Code
    decreases |actions|
  {
    if actions == [] then [] else Eager(ctx, actions[0]) + EagerAll(ctx, actions[1..])
  }

  // ----- the same registers -----

  ghost predicate SameRegisters(m: A.Machine, e: A.Machine) {
    && (forall r :: m.Get(r) == e.Get(r))
    && m.flags == e.flags && m.globals == e.globals && m.passed == e.passed
  }

  /** Both go on with the same registers, or both fault. */
  ghost predicate SameFlow(s: A.Flow, t: A.Flow) {
    match (s, t)
    case (Fall(m), Fall(e)) => SameRegisters(m, e)
    case (Fault(m), Fault(e)) => SameRegisters(m, e)
    case (Wrong, Wrong) => true
    case _ => false
  }

  ghost predicate Scratched(m: A.Machine, flow: A.Flow) {
    flow.Wrong? || (!flow.Goto? && SameStore(m, flow.m))
  }

  lemma SetSame(m: A.Machine, e: A.Machine, d: A.Reg, v: Word, f: A.Flags)
    requires SameRegisters(m, e)
    ensures SameRegisters(m.Set(d, v), e.Set(d, v))
    ensures SameRegisters(m.Set(d, v).(flags := f), e.Set(d, v).(flags := f))
  {
    forall r ensures m.Set(d, v).Get(r) == e.Set(d, v).Get(r) {
      assert m.Get(r) == e.Get(r);
    }
    FlagsSame(m.Set(d, v), e.Set(d, v), f);
  }

  lemma SourceSame(m: A.Machine, e: A.Machine, x: A.Src)
    requires SameRegisters(m, e)
    ensures m.Src(x) == e.Src(x)
  {
    if x.R? { assert m.Get(x.reg) == e.Get(x.reg); }
  }

  lemma DivideSame(m: A.Machine, e: A.Machine, r: A.Reg)
    requires SameRegisters(m, e)
    ensures SameFlow(A.Step(A.Idiv(r), m), A.Step(A.Idiv(r), e))
  {
    hide TruncDiv, TruncRem;
    var d, b := A.Dividend(m), m.Get(r);
    assert A.Dividend(e) == d && e.Get(r) == b;
    if b != 0 && IsWord(TruncDiv(d, b)) {
      TruncRemRange(d, b);
      SetSame(m, e, A.RAX, TruncDiv(d, b), A.Undefined);
      SetSame(m.Set(A.RAX, TruncDiv(d, b)), e.Set(A.RAX, TruncDiv(d, b)), A.RDX, TruncRem(d, b), A.Undefined);
    }
  }

  lemma StepSame(a: A.Instr, m: A.Machine, e: A.Machine)
    requires ScratchOnly(a) && SameRegisters(m, e)
    ensures SameFlow(A.Step(a, m), A.Step(a, e))
  {
    hide SameRegisters, A.AluResult, A.AluFlags, A.ShiftResult, A.Holds, Wrap, NotW;
    Scratchpad(m, e);
    match a {
      case Comment =>
      case Mov(d, x) =>
        SourceSame(m, e, x);
        SetSame(m, e, d, m.Src(x), m.flags);
      case Alu(op, d, x) =>
        SourceSame(m, e, x);
        SourceSame(m, e, A.R(d));
        var v := A.AluResult(op, m.Get(d), m.Src(x));
        SetSame(m, e, d, v, A.AluFlags(op, v));
      case ShiftImm(op, d, n) =>
        SourceSame(m, e, A.R(d));
        if 0 <= n < 64 { SetSame(m, e, d, A.ShiftResult(op, m.Get(d), n), A.Undefined); }
      case ShiftCl(op, d) =>
        SourceSame(m, e, A.R(d));
        SetSame(m, e, d, A.ShiftResult(op, m.Get(d), m.Get(A.RCX) % 64), A.Undefined);
      case Cmp(r, x) =>
        SourceSame(m, e, x);
        SourceSame(m, e, A.R(r));
        FlagsSame(m, e, A.Compared(m.Get(r) == m.Src(x), m.Get(r) < m.Src(x)));
      case Test(r) =>
        SourceSame(m, e, A.R(r));
        FlagsSame(m, e, A.Compared(m.Get(r) == 0, m.Get(r) < 0));
      case Setcc(c) =>
        if m.flags.Compared? {
          var before := m.Get(A.RAX);
          SetSame(m, e, A.RAX, before - before % 256 + B2W(A.Holds(c, m.flags.zero, m.flags.less)), m.flags);
        }
      case MovzxAl => SetSame(m, e, A.RAX, m.Get(A.RAX) % 256, m.flags);
      case NegR(d) =>
        SourceSame(m, e, A.R(d));
        SetSame(m, e, d, Wrap(0 - m.Get(d)), A.Undefined);
      case NotR(d) =>
        SourceSame(m, e, A.R(d));
        SetSame(m, e, d, NotW(m.Get(d)), m.flags);
      case Cqo => SetSame(m, e, A.RDX, if m.Get(A.RAX) < 0 then -1 else 0, m.flags);
      case Idiv(r) => DivideSame(m, e, r);
    }
  }

  lemma Scratchpad(m: A.Machine, e: A.Machine)
    requires SameRegisters(m, e)
    ensures m.Get(A.RAX) == e.Get(A.RAX) && m.Get(A.RCX) == e.Get(A.RCX) && m.Get(A.RDX) == e.Get(A.RDX)
    ensures m.flags == e.flags
  {
  }

  lemma FlagsSame(m: A.Machine, e: A.Machine, f: A.Flags)
    requires SameRegisters(m, e)
    ensures SameRegisters(m.(flags := f), e.(flags := f))
  {
    forall r ensures m.(flags := f).Get(r) == e.(flags := f).Get(r) {
      assert m.Get(r) == e.Get(r);
    }
  }

  lemma StepScratches(a: A.Instr, m: A.Machine)
    requires ScratchOnly(a)
    ensures Scratched(m, A.Step(a, m))
  {
    hide A.AluResult, A.AluFlags, A.ShiftResult, A.Holds, Wrap, NotW, B2W, TruncDiv, TruncRem;
  }

  lemma {:induction false} ScratchRun(code: Code, m: A.Machine, e: A.Machine)
    requires SameRegisters(m, e) && forall i :: 0 <= i < |code| ==> ScratchOnly(code[i])
    ensures SameFlow(A.Run(code, m), A.Run(code, e)) && Scratched(m, A.Run(code, m))
    decreases |code|
  {
    if code != [] {
      StepSame(code[0], m, e);
      StepScratches(code[0], m);
      hide A.Step;
      var s, t := A.Step(code[0], m), A.Step(code[0], e);
      if s.Fall? { ScratchRun(code[1..], s.m, t.m); }
    }
  }

  // ----- what the plain machine says every place holds -----

  function EnvOf(ctx: Ctx, e: A.Machine): Ir.Env {
    Ir.Env(map s | s in ctx.symbols :: ReadLoc(e, s, ctx.symbols[s]), map t | t in ctx.tempOffset :: e.Slot(ctx.tempOffset[t]), e.passed)
  }

  lemma EnvTemp(ctx: Ctx, e: A.Machine, t: string)
    requires ctx.TempOff(t) > 0
    ensures EnvOf(ctx, e).Tmp(t) == e.Slot(ctx.TempOff(t))
  {
  }

  lemma EnvSame(ctx: Ctx, e: A.Machine, e': A.Machine)
    requires GoodCtx(ctx) && SameStore(e, e')
    ensures EnvOf(ctx, e') == EnvOf(ctx, e)
  {
    forall s | s in ctx.symbols ensures ReadLoc(e', s, ctx.symbols[s]) == ReadLoc(e, s, ctx.symbols[s]) {
    }
  }

  lemma EnvSaved(ctx: Ctx, e: A.Machine, t: string, v: Word)
    requires GoodCtx(ctx) && ctx.TempOff(t) > 0
    ensures EnvOf(ctx, e.(slots := e.slots[ctx.TempOff(t) := v])) == EnvOf(ctx, e).Put(Ir.Temp(t), v)
  {
    var e' := e.(slots := e.slots[ctx.TempOff(t) := v]);
    TempsSaved(ctx, e, t, v);
    forall s | s in ctx.symbols ensures ReadLoc(e', s, ctx.symbols[s]) == ReadLoc(e, s, ctx.symbols[s]) {
      assert SymbolOffTemp(ctx, s, t);
    }
    hide GoodCtx, ReadLoc;
  }

  lemma TempsSaved(ctx: Ctx, e: A.Machine, t: string, v: Word)
    requires GoodCtx(ctx) && ctx.TempOff(t) > 0
    ensures var e' := e.(slots := e.slots[ctx.TempOff(t) := v]);
            forall u | u in ctx.tempOffset :: e'.Slot(ctx.tempOffset[u]) == if u == t then v else e.Slot(ctx.tempOffset[u])
  {
    var e' := e.(slots := e.slots[ctx.TempOff(t) := v]);
    forall u | u in ctx.tempOffset && u != t ensures e'.Slot(ctx.tempOffset[u]) == e.Slot(ctx.tempOffset[u]) {
      assert TempsApart(ctx, t, u);
    }
  }

  /**
    * The two machines agree: same registers, and every temp not spent is where the generator believes it is,
    * in its slot or, while its store is only promised, in rax.
    */
  ghost predicate Tracks(ctx: Ctx, spent: set<string>, g: Gen, m: A.Machine, e: A.Machine) {
    SameRegisters(m, e) && GenInv(ctx, g) && Rel(ctx, spent, g, EnvOf(ctx, e), m)
  }

  /** Machines that start alike, with nothing promised and nothing cached. */
  lemma StartTracks(ctx: Ctx, g: Gen, m: A.Machine)
    requires Settled(g) && !g.single
    ensures Tracks(ctx, {}, g, m, m)
  {
    forall t | ctx.TempOff(t) > 0 ensures m.Slot(ctx.TempOff(t)) == EnvOf(ctx, m).Tmp(t) { EnvTemp(ctx, m, t); }
  }

  /** After the promised store is written every slot but the spent ones holds what the plain code left there. */
  lemma EverySlotAgrees(ctx: Ctx, spent: set<string>, g: Gen, m: A.Machine, e: A.Machine, t: string)
    requires GoodCtx(ctx) && Tracks(ctx, spent, g, m, e) && ctx.TempOff(t) > 0 && t !in spent
    ensures AfterSpill(g, m).Slot(ctx.TempOff(t)) == e.Slot(ctx.TempOff(t))
    ensures ctx.TempOff(t) == g.pending ==> m.Get(A.RAX) == e.Slot(ctx.TempOff(t))
  {
    EnvTemp(ctx, e, t);
  }

  // ----- one action -----

  lemma StoreTail(g: Gen, off: int, single: bool, m: A.Machine, m': A.Machine)
    requires Exits(g, StoreTemp(g, off, single), m, A.Fall(m'))
    ensures m' == m || m' == AfterSpill(g, m)
  {
    var h := StoreTemp(g, off, single);
    if g.pending != 0 && g.pending != off {
      assert h.out[|g.out|..] == SpillCode(g);
      SpillRuns(g, m);
    } else {
      assert h.out[|g.out|..] == [];
    }
  }

  lemma LoadTail(g: Gen, off: int, m: A.Machine, m': A.Machine)
    requires Exits(g, LoadTemp(g, off), m, A.Fall(m'))
    ensures m'.flags == m.flags && m'.globals == m.globals && m'.passed == m.passed
  {
    var h := LoadTemp(g, off);
    if h == Emit(g, [A.LoadSlot(A.RAX, off)]) {
      EmitRuns(g, [A.LoadSlot(A.RAX, off)], m);
      A.RunOne(A.LoadSlot(A.RAX, off), AfterSpill(g, m));
    } else if h.out == g.out {
      assert h.out[|g.out|..] == [];
    } else {
      assert h.out[|g.out|..] == SpillCode(g);
      SpillRuns(g, m);
    }
  }

  lemma ScratchTracks(ctx: Ctx, spent: set<string>, g: Gen, m: A.Machine, e: A.Machine, code: Code)
    requires GoodCtx(ctx) && Tracks(ctx, spent, g, m, e) && Usable(ctx, Scratch(code)) && !A.Run(code, e).Wrong?
    ensures var flow, plain := A.Run(code, AfterSpill(g, m)), A.Run(code, e);
            && SameFlow(flow, plain) && Exits(g, Emit(g, code), m, flow)
            && (flow.Fall? ==> Tracks(ctx, spent, Emit(g, code), flow.m, plain.m))
  {
    hide A.Run, Rel, GoodCtx, GenInv, EnvOf, SameStore;
    var m1 := AfterSpill(g, m);
    ScratchRun(code, m1, e);
    ScratchRun(code, e, e);
    EmitKeeps(ctx, spent, g, EnvOf(ctx, e), m, code, A.Run(code, m1));
    EnvSame(ctx, e, A.Run(code, e).m);
  }

  lemma SaveTracks(ctx: Ctx, spent: set<string>, g: Gen, m: A.Machine, e: A.Machine, t: string) returns (m': A.Machine)
    requires GoodCtx(ctx) && Tracks(ctx, spent, g, m, e) && ctx.TempOff(t) > 0
    ensures Exits(g, Lazy(g, ctx, Save(t)), m, A.Fall(m'))
    ensures Tracks(ctx, spent - {t}, Lazy(g, ctx, Save(t)), m', e.(slots := e.slots[ctx.TempOff(t) := e.Get(A.RAX)]))
  {
    hide A.Run, Rel, GoodCtx, GenInv, EnvOf;
    m' := StoreTempCorrect(ctx, spent, g, EnvOf(ctx, e), m, t);
    StoreTail(g, ctx.TempOff(t), ctx.UseCount(t) == 1, m, m');
    assert SameRegisters(m', e) && m.Get(A.RAX) == e.Get(A.RAX);
    EnvSaved(ctx, e, t, e.Get(A.RAX));
  }

  lemma FetchTracks(ctx: Ctx, spent: set<string>, g: Gen, m: A.Machine, e: A.Machine, t: string) returns (m': A.Machine)
    requires GoodCtx(ctx) && Tracks(ctx, spent, g, m, e) && ctx.TempOff(t) > 0 && t !in spent
    ensures Exits(g, Lazy(g, ctx, Fetch(t)), m, A.Fall(m'))
    ensures Tracks(ctx, Spend(ctx, spent, Fetch(t)), Lazy(g, ctx, Fetch(t)), m', e.Set(A.RAX, e.Slot(ctx.TempOff(t))))
  {
    var e' := e.Set(A.RAX, e.Slot(ctx.TempOff(t)));
    assert SameStore(e, e');
    assert Dropped(g, ctx, Ir.Temp(t)) <= (if ctx.UseCount(t) == 1 then {t} else {});
    hide A.Run, Rel, GoodCtx, GenInv, EnvOf, SameStore, LoadTemp, Dropped;
    m' := LoadTempCorrect(ctx, spent, g, EnvOf(ctx, e), m, t);
    LoadTail(g, ctx.TempOff(t), m, m');
    EnvTemp(ctx, e, t);
    EnvSame(ctx, e, e');
    FusionProofs.RelWeaken(ctx, spent + Dropped(g, ctx, Ir.Temp(t)), Spend(ctx, spent, Fetch(t)), Lazy(g, ctx, Fetch(t)), EnvOf(ctx, e), m');
  }

  // ----- every sequence of actions -----

  /** The generated code has followed the plain code through the actions. */
  ghost predicate Followed(ctx: Ctx, actions: seq<Action>, spent: set<string>, g: Gen, m: A.Machine, e: A.Machine, flow: A.Flow) {
    var h, plain := LazyAll(g, ctx, actions), A.Run(EagerAll(ctx, actions), e);
    && Exits(g, h, m, flow) && SameFlow(flow, plain)
    && (flow.Fall? ==> Tracks(ctx, SpentAfter(ctx, actions, spent), h, flow.m, plain.m))
  }

  /**
    * For every sequence of emits, temp stores and temp loads in which each single-use temp is fetched at most once
    * after a save, delayed and dropped spills cannot be observed: the generated code ends with the registers and
    * flags of the code that stores and loads every time, or faults with them.
    */
  lemma {:induction false} SpillsUnobservable(ctx: Ctx, actions: seq<Action>, spent: set<string>, g: Gen, m: A.Machine, e: A.Machine)
    returns (flow: A.Flow)
    requires GoodCtx(ctx) && Tracks(ctx, spent, g, m, e) && Disciplined(ctx, actions, spent)
    requires !A.Run(EagerAll(ctx, actions), e).Wrong?
    ensures Followed(ctx, actions, spent, g, m, e, flow)
    decreases |actions|
  {
    if actions == [] {
      flow := A.Fall(m);
      ExitsSame(g, m);
    } else {
      flow := FollowFirst(ctx, actions, spent, g, m, e);
    }
  }

  lemma {:induction false} FollowFirst(ctx: Ctx, actions: seq<Action>, spent: set<string>, g: Gen, m: A.Machine, e: A.Machine)
    returns (flow: A.Flow)
    requires actions != [] && GoodCtx(ctx) && Tracks(ctx, spent, g, m, e) && Disciplined(ctx, actions, spent)
    requires !A.Run(EagerAll(ctx, actions), e).Wrong?
    ensures Followed(ctx, actions, spent, g, m, e, flow)
    decreases |actions|, 0
  {
    hide A.Run, Tracks, GoodCtx, SameFlow, Exits, Emit, StoreTemp, LoadTemp, Usable;
    var a := actions[0];
    var h := Lazy(g, ctx, a);
    A.RunAppend(Eager(ctx, a), EagerAll(ctx, actions[1..]), e);
    var first := FollowOne(ctx, a, spent, g, m, e);
    var plain := A.Run(Eager(ctx, a), e);
    FlowShapes(first, plain);
    if first.Fall? {
      flow := SpillsUnobservable(ctx, actions[1..], Spend(ctx, spent, a), h, first.m, plain.m);
      ExitsThen(g, h, LazyAll(h, ctx, actions[1..]), m, first.m, flow);
    } else {
      flow := first;
      LazyGrows(h, ctx, actions[1..]);
      ExitsFault(g, h, LazyAll(h, ctx, actions[1..]), m, first.m);
    }
  }

  lemma FlowShapes(s: A.Flow, t: A.Flow)
    requires SameFlow(s, t) && !t.Wrong?
    ensures (s.Fall? && t.Fall?) || (s.Fault? && t.Fault?)
  {
  }

  lemma FollowOne(ctx: Ctx, a: Action, spent: set<string>, g: Gen, m: A.Machine, e: A.Machine) returns (flow: A.Flow)
    requires GoodCtx(ctx) && Tracks(ctx, spent, g, m, e) && Usable(ctx, a) && (a.Fetch? ==> a.temp !in spent)
    requires !A.Run(Eager(ctx, a), e).Wrong?
    ensures var plain := A.Run(Eager(ctx, a), e);
            && Exits(g, Lazy(g, ctx, a), m, flow) && SameFlow(flow, plain)
            && (flow.Fall? ==> Tracks(ctx, Spend(ctx, spent, a), Lazy(g, ctx, a), flow.m, plain.m))
  {
    hide A.Run, GoodCtx, Rel, GenInv, Exits, Emit, StoreTemp, LoadTemp, SameRegisters;
    match a {
      case Scratch(code) =>
        ScratchTracks(ctx, spent, g, m, e, code);
        flow := A.Run(code, AfterSpill(g, m));
      case Save(t) =>
        var m' := SaveTracks(ctx, spent, g, m, e, t);
        A.RunOne(A.StoreSlot(ctx.TempOff(t), A.RAX), e);
        flow := A.Fall(m');
      case Fetch(t) =>
        var m' := FetchTracks(ctx, spent, g, m, e, t);
        A.RunOne(A.LoadSlot(A.RAX, ctx.TempOff(t)), e);
        flow := A.Fall(m');
    }
  }

  lemma {:induction false} LazyGrows(g: Gen, ctx: Ctx, actions: seq<Action>)
    ensures g.out <= LazyAll(g, ctx, actions).out
    decreases |actions|
  {
    if actions != [] { LazyGrows(Lazy(g, ctx, actions[0]), ctx, actions[1..]); }
  }
}
