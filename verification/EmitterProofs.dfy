/** What the emitted pieces compute: operand loads and stores under delayed spills, operator
    code, and the r11 building blocks of the fusions. */
module EmitterProofs {
  import opened Words
  import opened Wrappers
  import opened Emitter
  import Ir
  import A = Asm

  // ----- the relation between IR environments and machine states -----

  /** The registers symbols may be promoted to; emitted scratch code uses none of them. */
  predicate Promotable(r: A.Reg) {
    r in {A.R12, A.R13, A.R14, A.R15, A.RBX, A.RSI, A.RDI}
  }

  ghost predicate SymbolsApart(ctx: Ctx, s: string, s': string) {
    s in ctx.symbols && s' in ctx.symbols && s != s' && ctx.symbols[s] == ctx.symbols[s'] ==> ctx.symbols[s].InGlobal?
  }

  ghost predicate SymbolOffTemp(ctx: Ctx, s: string, t: string) {
    s in ctx.symbols && ctx.TempOff(t) > 0 ==> ctx.symbols[s] != InSlot(ctx.TempOff(t))
  }

  ghost predicate TempsApart(ctx: Ctx, t: string, t': string) {
    ctx.TempOff(t) > 0 && t != t' ==> ctx.TempOff(t) != ctx.TempOff(t')
  }

  /** Symbols and temps have their own places. */
  ghost predicate GoodCtx(ctx: Ctx) {
    && (forall s :: s in ctx.symbols && ctx.symbols[s].InReg? ==> Promotable(ctx.symbols[s].reg))
    && (forall s, s' :: SymbolsApart(ctx, s, s'))
    && (forall s, t :: SymbolOffTemp(ctx, s, t))
    && (forall t, t' :: TempsApart(ctx, t, t'))
  }

  function ReadLoc(m: A.Machine, s: string, loc: Loc): Word {
    match loc
    case InReg(r) => m.Get(r)
    case InSlot(off) => m.Slot(off)
    case InGlobal => m.Global(s)
  }

  ghost predicate SymRel(ctx: Ctx, env: Ir.Env, m: A.Machine) {
    m.passed == env.passed && forall s :: s in ctx.symbols ==> ReadLoc(m, s, ctx.symbols[s]) == env.Sym(s)
  }

  /** `stale` holds temps whose slot nothing will read before it is written again. The slot
      of a pending temp is also out of date: rax has its value. */
  ghost predicate Rel(ctx: Ctx, stale: set<string>, g: Gen, env: Ir.Env, m: A.Machine) {
    && SymRel(ctx, env, m)
    && (forall t :: ctx.TempOff(t) > 0 && t !in stale && ctx.TempOff(t) != g.pending ==>
          m.Slot(ctx.TempOff(t)) == env.Tmp(t))
    && (forall t :: ctx.TempOff(t) > 0 && ctx.TempOff(t) == g.pending ==> m.Get(A.RAX) == env.Tmp(t))
    && (forall t :: ctx.TempOff(t) > 0 && ctx.TempOff(t) == g.cachedOff && g.cachedSeq == g.emitSeq ==>
          m.Get(A.RAX) == env.Tmp(t))
  }

  ghost predicate GenInv(ctx: Ctx, g: Gen) {
    && g.cachedSeq <= g.emitSeq
    && (g.pending != 0 ==> g.cachedOff == g.pending && g.cachedSeq == g.emitSeq)
    && (g.pending != 0 ==> g.pending > 0 && exists t :: ctx.TempOff(t) == g.pending)
    && (g.single ==> forall t :: ctx.TempOff(t) > 0 && ctx.TempOff(t) == g.pending ==> ctx.UseCount(t) == 1)
  }

  /** No promise outstanding and nothing cached. */
  predicate Settled(g: Gen) { g.pending == 0 && g.cachedSeq < g.emitSeq }

  /** From m, the code h emitted on top of g leaves control as `flow` says. */
  predicate Exits(g: Gen, h: Gen, m: A.Machine, flow: A.Flow) {
    g.out <= h.out && A.Run(h.out[|g.out|..], m) == flow
  }

  lemma ExitsSame(g: Gen, m: A.Machine)
    ensures Exits(g, g, m, A.Fall(m))
  {
    assert g.out[|g.out|..] == [];
  }

  lemma ExitsThen(g: Gen, h: Gen, k: Gen, m: A.Machine, m1: A.Machine, flow: A.Flow)
    requires Exits(g, h, m, A.Fall(m1)) && Exits(h, k, m1, flow)
    ensures Exits(g, k, m, flow)
  {
    var a, b := h.out[|g.out|..], k.out[|h.out|..];
    assert k.out[|g.out|..] == a + b;
    A.RunAppend(a, b, m);
  }

  lemma ExitsFault(g: Gen, h: Gen, k: Gen, m: A.Machine, m1: A.Machine)
    requires Exits(g, h, m, A.Fault(m1)) && h.out <= k.out
    ensures Exits(g, k, m, A.Fault(m1))
  {
    var a, b := h.out[|g.out|..], k.out[|h.out|..];
    assert k.out[|g.out|..] == a + b;
    A.RunAppend(a, b, m);
  }

  // ----- the code only grows -----

  lemma EmitGrows(g: Gen, code: Code)
    ensures g.out <= Emit(g, code).out
  {}

  lemma LoadGrows(g: Gen, ctx: Ctx, o: Ir.Operand)
    ensures Load(g, ctx, o).Some? ==> g.out <= Load(g, ctx, o).value.out
  {}

  lemma StoreGrows(g: Gen, ctx: Ctx, d: Ir.Operand)
    ensures Store(g, ctx, d).Some? ==> g.out <= Store(g, ctx, d).value.out
  {}

  lemma LoadIntoGrows(g: Gen, ctx: Ctx, o: Ir.Operand, r: A.Reg)
    ensures LoadInto(g, ctx, o, r).Some? ==> g.out <= LoadInto(g, ctx, o, r).value.out
  {
    LoadGrows(g, ctx, o);
    var h := Load(g, ctx, o);
    if h.Some? { EmitGrows(h.value, [A.Mov(r, A.R(A.RAX))]); }
  }

  lemma ConsumeGrows(g: Gen, ctx: Ctx, b: Ir.Instr, t: string)
    requires b.Binary?
    ensures ConsumeR11(g, ctx, b, t).Some? ==> g.out <= ConsumeR11(g, ctx, b, t).value.out
  {
    var back := [A.Mov(A.RAX, A.R(A.R11))];
    EmitGrows(g, back);
    if b.lhs == Ir.Temp(t) {
      if SmallInt(b.rhs) && ImmediateCode(b.op, b.rhs.value).Some? {
        EmitGrows(g, back + ImmediateCode(b.op, b.rhs.value).value);
      } else {
        var g1 := if SmallInt(b.rhs) then Emit(g, back) else g;
        LoadIntoGrows(g1, ctx, b.rhs, A.R10);
        var g2 := LoadInto(g1, ctx, b.rhs, A.R10);
        if g2.Some? { EmitGrows(g2.value, back + RegisterCode(b.op, A.R10)); }
      }
    } else if SmallInt(b.lhs) && Ir.IsCommutative(b.op) && ImmediateCode(b.op, b.lhs.value).Some? {
      EmitGrows(g, back + ImmediateCode(b.op, b.lhs.value).value);
    } else {
      var g1 := if SmallInt(b.lhs) && Ir.IsCommutative(b.op) then Emit(g, back) else g;
      LoadGrows(g1, ctx, b.lhs);
      var g2 := Load(g1, ctx, b.lhs);
      if g2.Some? { EmitGrows(g2.value, RegisterCode(b.op, A.R11)); }
    }
  }

  lemma {:induction false} ExtendGrows(f: Func, ctx: Ctx, g: Gen, i: nat, last: nat)
    requires i <= last < |f|
    requires forall j :: i <= j <= last ==> f[j].Binary?
    requires forall j :: i <= j < last ==> f[j].dest.Temp?
    ensures ExtendChain(f, ctx, g, i, last).Some? ==> g.out <= ExtendChain(f, ctx, g, i, last).value.out
    decreases last - i
  {
    if i < last {
      var h := ConsumeR11(g, ctx, f[i + 1], f[i].dest.name);
      if h.Some? {
        ConsumeGrows(g, ctx, f[i + 1], f[i].dest.name);
        ExtendGrows(f, ctx, Emit(h.value, [A.Mov(A.R11, A.R(A.RAX))]), i + 1, last);
      }
    }
  }

  // ----- spills -----

  /** The machine once a promised store has been written. */
  function AfterSpill(g: Gen, m: A.Machine): A.Machine {
    if g.pending == 0 then m else m.(slots := m.slots[g.pending := m.Get(A.RAX)])
  }

  /** Nothing a symbol or a slot holds has changed. */
  ghost predicate SameStore(m: A.Machine, m': A.Machine) {
    m'.slots == m.slots && m'.globals == m.globals && m'.passed == m.passed && forall r :: Promotable(r) ==> m'.Get(r) == m.Get(r)
  }

  lemma SpillRuns(g: Gen, m: A.Machine)
    ensures A.Run(SpillCode(g), m) == A.Fall(AfterSpill(g, m))
  {
    if g.pending != 0 { A.RunOne(A.StoreSlot(g.pending, A.RAX), m); }
  }

  lemma SpillKeeps(ctx: Ctx, stale: set<string>, g: Gen, env: Ir.Env, m: A.Machine, h: Gen)
    requires GoodCtx(ctx) && GenInv(ctx, g) && Rel(ctx, stale, g, env, m)
    requires h.pending == 0
    requires h.cachedSeq == h.emitSeq ==> h.cachedOff == g.cachedOff && g.cachedSeq == g.emitSeq
    ensures Rel(ctx, stale, h, env, AfterSpill(g, m))
  {
    var m' := AfterSpill(g, m);
    if g.pending != 0 {
      var p :| ctx.TempOff(p) == g.pending;
      forall s | s in ctx.symbols ensures ReadLoc(m', s, ctx.symbols[s]) == env.Sym(s) {
        assert ReadLoc(m, s, ctx.symbols[s]) == env.Sym(s);
        assert SymbolOffTemp(ctx, s, p);
      }
      forall t | ctx.TempOff(t) > 0 && t !in stale ensures m'.Slot(ctx.TempOff(t)) == env.Tmp(t) {
        assert TempsApart(ctx, t, p);
      }
    }
  }

  /** Emitting code that keeps every symbol and slot keeps the relation and settles it. */
  lemma EmitKeeps(ctx: Ctx, stale: set<string>, g: Gen, env: Ir.Env, m: A.Machine, code: Code, flow: A.Flow)
    requires GoodCtx(ctx) && GenInv(ctx, g) && Rel(ctx, stale, g, env, m)
    requires code != [] && A.Run(code, AfterSpill(g, m)) == flow && !flow.Wrong?
    requires SameStore(AfterSpill(g, m), flow.m)
    ensures Exits(g, Emit(g, code), m, flow)
    ensures Settled(Emit(g, code)) && GenInv(ctx, Emit(g, code))
    ensures Rel(ctx, stale, Emit(g, code), env, flow.m)
  {
    var h := Emit(g, code);
    EmitRuns(g, code, m);
    SpillKeeps(ctx, stale, g, env, m, h);
    var m1 := AfterSpill(g, m);
    forall s | s in ctx.symbols ensures ReadLoc(flow.m, s, ctx.symbols[s]) == env.Sym(s) {
      assert ReadLoc(m1, s, ctx.symbols[s]) == env.Sym(s);
    }
  }

  lemma EmitRuns(g: Gen, code: Code, m: A.Machine)
    requires code != []
    ensures Exits(g, Emit(g, code), m, A.Run(code, AfterSpill(g, m)))
  {
    var h := Emit(g, code);
    assert h.out == g.out + (SpillCode(g) + code);
    assert h.out[|g.out|..] == SpillCode(g) + code;
    SpillRuns(g, m);
    A.RunAppend(SpillCode(g), code, m);
  }

  // ----- loads -----

  /** Loading this operand throws away a promised store. */
  predicate Drops(g: Gen, ctx: Ctx, o: Ir.Operand) {
    o.Temp? && ctx.TempOff(o.name) > 0 && ctx.TempOff(o.name) == g.pending && g.single
  }

  function Dropped(g: Gen, ctx: Ctx, o: Ir.Operand): set<string> {
    if Drops(g, ctx, o) then {o.name} else {}
  }

  /** A load puts the operand's value into rax, whatever the delayed spills did, and changes
      no other register. */
  lemma LoadCorrect(ctx: Ctx, stale: set<string>, g: Gen, env: Ir.Env, m: A.Machine, o: Ir.Operand, h: Gen)
    returns (m': A.Machine)
    requires GoodCtx(ctx) && GenInv(ctx, g) && Rel(ctx, stale, g, env, m)
    requires Load(g, ctx, o) == Some(h)
    requires o.Temp? ==> o.name !in stale
    ensures Exits(g, h, m, A.Fall(m'))
    ensures m'.Get(A.RAX) == env.Value(o)
    ensures forall r :: r != A.RAX ==> m'.Get(r) == m.Get(r)
    ensures GenInv(ctx, h) && Rel(ctx, stale + Dropped(g, ctx, o), h, env, m')
    ensures Settled(g) ==> Settled(h)
  {
    match o
    case Nothing =>
      m' := LoadByOne(ctx, stale, g, env, m, A.Mov(A.RAX, A.I(0)));
    case Int(v) =>
      m' := LoadByOne(ctx, stale, g, env, m, A.Mov(A.RAX, A.I(v)));
    case Symbol(s) =>
      m' := LoadSymbol(ctx, stale, g, env, m, s);
    case Temp(t) =>
      m' := LoadTempCorrect(ctx, stale, g, env, m, t);
  }

  lemma LoadByOne(ctx: Ctx, stale: set<string>, g: Gen, env: Ir.Env, m: A.Machine, a: A.Instr) returns (m': A.Machine)
    requires GoodCtx(ctx) && GenInv(ctx, g) && Rel(ctx, stale, g, env, m)
    requires a.Mov? || a.LoadSlot?
    requires a.dst == A.RAX
    ensures Exits(g, Emit(g, [a]), m, A.Fall(m')) && A.Step(a, AfterSpill(g, m)) == A.Fall(m')
    ensures forall r :: r != A.RAX ==> m'.Get(r) == m.Get(r)
    ensures Settled(Emit(g, [a])) && GenInv(ctx, Emit(g, [a])) && Rel(ctx, stale, Emit(g, [a]), env, m')
  {
    var m1 := AfterSpill(g, m);
    m' := A.Step(a, m1).m;
    A.RunOne(a, m1);
    EmitKeeps(ctx, stale, g, env, m, [a], A.Fall(m'));
  }

  lemma LoadSymbol(ctx: Ctx, stale: set<string>, g: Gen, env: Ir.Env, m: A.Machine, s: string) returns (m': A.Machine)
    requires GoodCtx(ctx) && GenInv(ctx, g) && Rel(ctx, stale, g, env, m) && s in ctx.symbols
    ensures var h := Emit(g, [A.Comment, LoadFrom(s, ctx.symbols[s])]);
            Exits(g, h, m, A.Fall(m')) && Settled(h) && GenInv(ctx, h) && Rel(ctx, stale, h, env, m')
    ensures m'.Get(A.RAX) == env.Sym(s)
    ensures forall r :: r != A.RAX ==> m'.Get(r) == m.Get(r)
  {
    var a := LoadFrom(s, ctx.symbols[s]);
    var m1 := AfterSpill(g, m);
    SpillKeeps(ctx, stale, g, env, m, Emit(g, [A.Comment, a]));
    m' := m1.Set(A.RAX, ReadLoc(m1, s, ctx.symbols[s]));
    A.RunTwo(A.Comment, a, m1);
    assert A.Step(a, m1) == A.Fall(m');
    EmitKeeps(ctx, stale, g, env, m, [A.Comment, a], A.Fall(m'));
  }

  lemma LoadTempCorrect(ctx: Ctx, stale: set<string>, g: Gen, env: Ir.Env, m: A.Machine, t: string) returns (m': A.Machine)
    requires GoodCtx(ctx) && GenInv(ctx, g) && Rel(ctx, stale, g, env, m)
    requires ctx.TempOff(t) > 0 && t !in stale
    ensures var h := LoadTemp(g, ctx.TempOff(t));
            Exits(g, h, m, A.Fall(m')) && GenInv(ctx, h) && (Settled(g) ==> Settled(h)) &&
            Rel(ctx, stale + Dropped(g, ctx, Ir.Temp(t)), h, env, m')
    ensures m'.Get(A.RAX) == env.Tmp(t)
    ensures forall r :: r != A.RAX ==> m'.Get(r) == m.Get(r)
  {
    var off := ctx.TempOff(t);
    var h := LoadTemp(g, off);
    if off == g.pending {
      forall u | ctx.TempOff(u) > 0 ensures ctx.TempOff(u) == off <==> u == t { assert TempsApart(ctx, t, u); }
      if g.single {
        ExitsSame(g, m);
        m' := m;
      } else {
        m' := AfterSpill(g, m);
        SpillRuns(g, m);
        assert h.out[|g.out|..] == SpillCode(g);
        SpillKeeps(ctx, stale, g, env, m, h);
      }
    } else if off == g.cachedOff && g.emitSeq == g.cachedSeq {
      ExitsSame(g, m);
      m' := m;
    } else {
      m' := LoadByOne(ctx, stale, g, env, m, A.LoadSlot(A.RAX, off));
      SpillKeeps(ctx, stale, g, env, m, h);
    }
  }

  lemma LoadIntoCorrect(ctx: Ctx, stale: set<string>, g: Gen, env: Ir.Env, m: A.Machine, o: Ir.Operand, h: Gen)
    returns (m': A.Machine)
    requires GoodCtx(ctx) && GenInv(ctx, g) && Rel(ctx, stale, g, env, m)
    requires LoadInto(g, ctx, o, A.R10) == Some(h)
    requires o.Temp? ==> o.name !in stale
    ensures Exits(g, h, m, A.Fall(m')) && Settled(h)
    ensures m'.Get(A.R10) == env.Value(o) && m'.Get(A.R11) == m.Get(A.R11)
    ensures GenInv(ctx, h) && Rel(ctx, stale + Dropped(g, ctx, o), h, env, m')
  {
    hide A.Run, Rel, GoodCtx, GenInv, Load;
    var k := Load(g, ctx, o).value;
    var m1 := LoadCorrect(ctx, stale, g, env, m, o, k);
    var a := A.Mov(A.R10, A.R(A.RAX));
    var m2 := AfterSpill(k, m1);
    A.RunOne(a, m2);
    m' := m2.Set(A.R10, m2.Get(A.RAX));
    EmitKeeps(ctx, stale + Dropped(g, ctx, o), k, env, m1, [a], A.Fall(m'));
    ExitsThen(g, k, h, m, m1, A.Fall(m'));
  }

  // ----- stores -----

  function Defined(d: Ir.Operand): set<string> {
    if d.Temp? then {d.name} else {}
  }

  /** A store makes rax the destination's value; for a temp it only promises to write it. */
  lemma StoreCorrect(ctx: Ctx, stale: set<string>, g: Gen, env: Ir.Env, m: A.Machine, d: Ir.Operand, h: Gen)
    returns (m': A.Machine)
    requires GoodCtx(ctx) && GenInv(ctx, g) && Rel(ctx, stale, g, env, m)
    requires Store(g, ctx, d) == Some(h)
    ensures !d.Int?
    ensures Exits(g, h, m, A.Fall(m')) && m'.Get(A.RAX) == m.Get(A.RAX)
    ensures GenInv(ctx, h) && Rel(ctx, stale - Defined(d), h, env.Put(d, m.Get(A.RAX)), m')
  {
    var v := m.Get(A.RAX);
    match d
    case Nothing =>
      ExitsSame(g, m);
      m' := m;
    case Symbol(s) =>
      m' := StoreSymbol(ctx, stale, g, env, m, s);
    case Temp(t) =>
      m' := StoreTempCorrect(ctx, stale, g, env, m, t);
  }

  lemma StoreTempCorrect(ctx: Ctx, stale: set<string>, g: Gen, env: Ir.Env, m: A.Machine, t: string) returns (m': A.Machine)
    requires GoodCtx(ctx) && GenInv(ctx, g) && Rel(ctx, stale, g, env, m) && ctx.TempOff(t) > 0
    ensures var h := StoreTemp(g, ctx.TempOff(t), ctx.UseCount(t) == 1);
            Exits(g, h, m, A.Fall(m')) && GenInv(ctx, h) &&
            Rel(ctx, stale - {t}, h, env.Put(Ir.Temp(t), m.Get(A.RAX)), m')
    ensures m'.Get(A.RAX) == m.Get(A.RAX)
  {
    var off := ctx.TempOff(t);
    var h := StoreTemp(g, off, ctx.UseCount(t) == 1);
    var env' := env.Put(Ir.Temp(t), m.Get(A.RAX));
    if g.pending != 0 && g.pending != off {
      m' := AfterSpill(g, m);
      SpillRuns(g, m);
      assert h.out[|g.out|..] == SpillCode(g);
      SpillKeeps(ctx, stale, g, env, m, Flush(g));
    } else {
      ExitsSame(g, m);
      assert h.out == g.out;
      m' := m;
    }
    forall s | s in ctx.symbols ensures ReadLoc(m', s, ctx.symbols[s]) == env'.Sym(s) {
      assert ReadLoc(m', s, ctx.symbols[s]) == env.Sym(s);
    }
    forall u | ctx.TempOff(u) > 0 ensures ctx.TempOff(u) == off <==> u == t { assert TempsApart(ctx, t, u); }
  }

  /** Writing one symbol's place leaves every other symbol's place as it was. */
  lemma WriteLocSymbols(ctx: Ctx, env: Ir.Env, m: A.Machine, s: string)
    requires GoodCtx(ctx) && SymRel(ctx, env, m) && s in ctx.symbols && A.Step(StoreTo(s, ctx.symbols[s]), m).Fall?
    ensures SymRel(ctx, env.Put(Ir.Symbol(s), m.Get(A.RAX)), A.Step(StoreTo(s, ctx.symbols[s]), m).m)
  {
    var m' := A.Step(StoreTo(s, ctx.symbols[s]), m).m;
    var env' := env.Put(Ir.Symbol(s), m.Get(A.RAX));
    forall x | x in ctx.symbols ensures ReadLoc(m', x, ctx.symbols[x]) == env'.Sym(x) {
      assert ReadLoc(m, x, ctx.symbols[x]) == env.Sym(x);
      assert SymbolsApart(ctx, x, s);
    }
  }

  lemma WriteLoc(ctx: Ctx, stale: set<string>, g: Gen, env: Ir.Env, m: A.Machine, s: string)
    requires GoodCtx(ctx) && Rel(ctx, stale, g, env, m) && s in ctx.symbols && Settled(g)
    ensures A.Step(StoreTo(s, ctx.symbols[s]), m).Fall?
    ensures var m' := A.Step(StoreTo(s, ctx.symbols[s]), m).m;
            m'.Get(A.RAX) == m.Get(A.RAX) && Rel(ctx, stale, g, env.Put(Ir.Symbol(s), m.Get(A.RAX)), m')
  {
    var loc := ctx.symbols[s];
    var m' := A.Step(StoreTo(s, loc), m).m;
    var env' := env.Put(Ir.Symbol(s), m.Get(A.RAX));
    WriteLocSymbols(ctx, env, m, s);
    hide SymRel;
    forall t | ctx.TempOff(t) > 0 && t !in stale ensures m'.Slot(ctx.TempOff(t)) == env'.Tmp(t) {
      assert SymbolOffTemp(ctx, s, t);
      assert m.Slot(ctx.TempOff(t)) == env.Tmp(t);
    }
  }

  lemma StoreSymbol(ctx: Ctx, stale: set<string>, g: Gen, env: Ir.Env, m: A.Machine, s: string) returns (m': A.Machine)
    requires GoodCtx(ctx) && GenInv(ctx, g) && Rel(ctx, stale, g, env, m) && s in ctx.symbols
    ensures var h := Emit(g, [A.Comment, StoreTo(s, ctx.symbols[s])]);
            Exits(g, h, m, A.Fall(m')) && Settled(h) && GenInv(ctx, h) &&
            Rel(ctx, stale, h, env.Put(Ir.Symbol(s), m.Get(A.RAX)), m')
    ensures m'.Get(A.RAX) == m.Get(A.RAX)
  {
    var a := StoreTo(s, ctx.symbols[s]);
    var h := Emit(g, [A.Comment, a]);
    var m1 := AfterSpill(g, m);
    SpillKeeps(ctx, stale, g, env, m, h);
    WriteLoc(ctx, stale, h, env, m1, s);
    m' := A.Step(a, m1).m;
    A.RunTwo(A.Comment, a, m1);
    EmitRuns(g, [A.Comment, a], m);
  }

  // ----- operator code -----

  lemma SetccMovzx(c: A.Cond, m: A.Machine)
    requires m.flags.Compared?
    ensures A.Run([A.Setcc(c), A.MovzxAl], m).Fall?
    ensures var m' := A.Run([A.Setcc(c), A.MovzxAl], m).m;
            m'.Get(A.RAX) == B2W(A.Holds(c, m.flags.zero, m.flags.less)) && SameStore(m, m') &&
            forall r :: r != A.RAX ==> m'.Get(r) == m.Get(r)
  {
    A.RunTwo(A.Setcc(c), A.MovzxAl, m);
    var a, b := m.Get(A.RAX), B2W(A.Holds(c, m.flags.zero, m.flags.less));
    assert (a - a % 256 + b) % 256 == b;
    hide B2W;
  }

  lemma CompareCode(op: Ir.BinOp, s: A.Src, m: A.Machine) returns (m': A.Machine)
    requires Ir.IsComparison(op) && A.Encodable(s)
    ensures A.Run([A.Cmp(A.RAX, s), A.Setcc(CondOf(op)), A.MovzxAl], m) == A.Fall(m')
    ensures m'.Get(A.RAX) == B2W(Ir.Compare(op, m.Get(A.RAX), m.Src(s))) && SameStore(m, m')
    ensures forall r :: r != A.RAX ==> m'.Get(r) == m.Get(r)
  {
    var a := A.Cmp(A.RAX, s);
    assert [a, A.Setcc(CondOf(op)), A.MovzxAl] == [a] + [A.Setcc(CondOf(op)), A.MovzxAl];
    A.RunCons(a, [A.Setcc(CondOf(op)), A.MovzxAl], m);
    var m1 := A.Step(a, m).m;
    SetccMovzx(CondOf(op), m1);
    m' := A.Run([A.Setcc(CondOf(op)), A.MovzxAl], m1).m;
  }

  lemma EvalAlu(op: Ir.BinOp, a: Word, b: Word)
    requires AluOf(op).Some?
    ensures Ir.Eval(op, a, b) == Some(A.AluResult(AluOf(op).value, a, b))
  {}

  lemma EvalShift(op: Ir.BinOp, a: Word, b: Word)
    requires op.Shl? || op.Shr?
    ensures Ir.Eval(op, a, b) == Some(A.ShiftResult(ShiftOf(op), a, b % 64))
  {}

  lemma AluCode(alu: A.AluOp, s: A.Src, m: A.Machine) returns (m': A.Machine)
    requires A.Encodable(s)
    ensures A.Run([A.Alu(alu, A.RAX, s)], m) == A.Fall(m')
    ensures m'.Get(A.RAX) == A.AluResult(alu, m.Get(A.RAX), m.Src(s)) && SameStore(m, m')
    ensures forall r :: r != A.RAX ==> m'.Get(r) == m.Get(r)
  {
    A.RunOne(A.Alu(alu, A.RAX, s), m);
    m' := A.Step(A.Alu(alu, A.RAX, s), m).m;
  }

  /** The literal forms compute the operator. */
  lemma ImmediateCorrect(op: Ir.BinOp, v: Word, m: A.Machine) returns (m': A.Machine)
    requires A.Fits32(v) && ImmediateCode(op, v).Some?
    ensures A.Run(ImmediateCode(op, v).value, m) == A.Fall(m')
    ensures Ir.Eval(op, m.Get(A.RAX), v) == Some(m'.Get(A.RAX)) && SameStore(m, m')
    ensures forall r :: r != A.RAX ==> m'.Get(r) == m.Get(r)
  {
    if AluOf(op).Some? {
      m' := AluCode(AluOf(op).value, A.I(v), m);
      EvalAlu(op, m.Get(A.RAX), v);
    } else if Ir.IsComparison(op) {
      m' := CompareCode(op, A.I(v), m);
    } else {
      m' := ShiftImmediateCode(op, v, m);
    }
  }

  lemma ShiftImmediateCode(op: Ir.BinOp, v: Word, m: A.Machine) returns (m': A.Machine)
    requires (op.Shl? || op.Shr?) && 0 <= v < 64
    ensures A.Run([A.ShiftImm(ShiftOf(op), A.RAX, v)], m) == A.Fall(m')
    ensures Ir.Eval(op, m.Get(A.RAX), v) == Some(m'.Get(A.RAX)) && SameStore(m, m')
    ensures forall r :: r != A.RAX ==> m'.Get(r) == m.Get(r)
  {
    hide Ir.Eval, A.Run, A.ShiftResult;
    A.RunOne(A.ShiftImm(ShiftOf(op), A.RAX, v), m);
    m' := A.Step(A.ShiftImm(ShiftOf(op), A.RAX, v), m).m;
    EvalShift(op, m.Get(A.RAX), v);
    assert v % 64 == v;
  }

  /** cqo and idiv: quotient in rax and remainder in rdx, or the fault that the IR's division has. */
  lemma DivisionRuns(m: A.Machine) returns (flow: A.Flow)
    ensures A.Run([A.Cqo, A.Idiv(A.R10)], m) == flow && (flow.Fall? || flow.Fault?) && SameStore(m, flow.m)
    ensures flow.m.Get(A.R11) == m.Get(A.R11) && (flow.Fault? <==> Ir.DivFaults(m.Get(A.RAX), m.Get(A.R10)))
    ensures flow.Fall? ==> flow.m.Get(A.RAX) == Ir.Quotient(m.Get(A.RAX), m.Get(A.R10)) &&
                           flow.m.Get(A.RDX) == Ir.Remainder(m.Get(A.RAX), m.Get(A.R10))
  {
    hide TruncDiv, TruncRem, A.Run;
    var m1 := A.Step(A.Cqo, m).m;
    assert A.Dividend(m1) == m.Get(A.RAX);
    A.RunTwo(A.Cqo, A.Idiv(A.R10), m);
    flow := A.Step(A.Idiv(A.R10), m1);
  }

  lemma DivisionCode(op: Ir.BinOp, m: A.Machine) returns (flow: A.Flow)
    requires op.Div? || op.Mod?
    ensures A.Run([A.Cqo, A.Idiv(A.R10)] + (if op.Mod? then [A.Mov(A.RAX, A.R(A.RDX))] else []), m) == flow
    ensures !flow.Wrong? && !flow.Goto? && SameStore(m, flow.m) && flow.m.Get(A.R11) == m.Get(A.R11)
    ensures Ir.Eval(op, m.Get(A.RAX), m.Get(A.R10)) ==
            (if flow.Fall? then Some(flow.m.Get(A.RAX)) else None)
  {
    hide TruncDiv, TruncRem, Ir.DivFaults, Ir.Quotient, Ir.Remainder;
    var s := DivisionRuns(m);
    var tail := if op.Mod? then [A.Mov(A.RAX, A.R(A.RDX))] else [];
    A.RunAppend([A.Cqo, A.Idiv(A.R10)], tail, m);
    if s.Fall? {
      assert A.Run([], s.m) == A.Fall(s.m);
      A.RunOne(A.Mov(A.RAX, A.R(A.RDX)), s.m);
    }
    hide A.Run;
    flow := A.Then(s, tail);
  }

  lemma LogicCode(alu: A.AluOp, r: A.Reg, m: A.Machine) returns (m': A.Machine)
    requires alu == A.AndOp || alu == A.OrOp
    requires r == A.R10 || r == A.R11
    ensures A.Run([A.Cmp(A.RAX, A.R(r)), A.Alu(alu, A.RAX, A.R(r)), A.Setcc(A.NE), A.MovzxAl], m) == A.Fall(m')
    ensures m'.Get(A.RAX) == B2W(A.AluResult(alu, m.Get(A.RAX), m.Get(r)) != 0) && SameStore(m, m')
    ensures m'.Get(A.R11) == m.Get(A.R11)
  {
    hide A.Run, A.AluResult;
    var c, a := A.Cmp(A.RAX, A.R(r)), A.Alu(alu, A.RAX, A.R(r));
    assert [c, a, A.Setcc(A.NE), A.MovzxAl] == [c, a] + [A.Setcc(A.NE), A.MovzxAl];
    A.RunTwo(c, a, m);
    var m2 := m.Set(A.RAX, A.AluResult(alu, m.Get(A.RAX), m.Get(r)))
               .(flags := A.AluFlags(alu, A.AluResult(alu, m.Get(A.RAX), m.Get(r))));
    assert A.Run([c, a], m) == A.Fall(m2);
    A.RunAppend([c, a], [A.Setcc(A.NE), A.MovzxAl], m);
    SetccMovzx(A.NE, m2);
    m' := A.Run([A.Setcc(A.NE), A.MovzxAl], m2).m;
  }

  lemma ShiftCode(shift: A.ShiftOp, r: A.Reg, m: A.Machine) returns (m': A.Machine)
    ensures A.Run([A.Mov(A.RCX, A.R(r)), A.ShiftCl(shift, A.RAX)], m) == A.Fall(m')
    ensures m'.Get(A.RAX) == A.ShiftResult(shift, m.Get(A.RAX), m.Get(r) % 64) && SameStore(m, m')
    ensures m'.Get(A.R11) == m.Get(A.R11)
  {
    A.RunTwo(A.Mov(A.RCX, A.R(r)), A.ShiftCl(shift, A.RAX), m);
    m' := A.Step(A.ShiftCl(shift, A.RAX), m.Set(A.RCX, m.Get(r))).m;
  }

  lemma RegisterDivision(op: Ir.BinOp, r: A.Reg, m: A.Machine) returns (flow: A.Flow)
    requires (op.Div? || op.Mod?) && (r == A.R10 || r == A.R11)
    ensures A.Run(RegisterCode(op, r), m) == flow
    ensures flow.Fall? || flow.Fault?
    ensures SameStore(m, flow.m) && flow.m.Get(A.R11) == m.Get(A.R11)
    ensures Ir.Eval(op, m.Get(A.RAX), m.Get(r)) == (if flow.Fall? then Some(flow.m.Get(A.RAX)) else None)
  {
    var tail := [A.Cqo, A.Idiv(A.R10)] + (if op.Mod? then [A.Mov(A.RAX, A.R(A.RDX))] else []);
    if r == A.R10 {
      assert RegisterCode(op, r) == tail;
      flow := DivisionCode(op, m);
    } else {
      assert RegisterCode(op, r) == [A.Mov(A.R10, A.R(r))] + tail;
      A.RunCons(A.Mov(A.R10, A.R(r)), tail, m);
      flow := DivisionCode(op, m.Set(A.R10, m.Get(r)));
    }
  }

  lemma RegisterShift(op: Ir.BinOp, r: A.Reg, m: A.Machine) returns (m': A.Machine)
    requires (op.Shl? || op.Shr?) && (r == A.R10 || r == A.R11)
    ensures A.Run(RegisterCode(op, r), m) == A.Fall(m')
    ensures SameStore(m, m') && m'.Get(A.R11) == m.Get(A.R11)
    ensures Ir.Eval(op, m.Get(A.RAX), m.Get(r)) == Some(m'.Get(A.RAX))
  {
    assert RegisterCode(op, r) == [A.Mov(A.RCX, A.R(r)), A.ShiftCl(ShiftOf(op), A.RAX)];
    m' := ShiftCode(ShiftOf(op), r, m);
    EvalShift(op, m.Get(A.RAX), m.Get(r));
  }

  lemma RegisterLogic(op: Ir.BinOp, r: A.Reg, m: A.Machine) returns (m': A.Machine)
    requires (op.LogAnd? || op.LogOr?) && (r == A.R10 || r == A.R11)
    ensures A.Run(RegisterCode(op, r), m) == A.Fall(m')
    ensures SameStore(m, m') && m'.Get(A.R11) == m.Get(A.R11)
    ensures Ir.Eval(op, m.Get(A.RAX), m.Get(r)) == Some(m'.Get(A.RAX))
  {
    m' := LogicCode(if op.LogAnd? then A.AndOp else A.OrOp, r, m);
  }

  /** The register forms compute the operator, or fault exactly when it does. */
  lemma RegisterCorrect(op: Ir.BinOp, r: A.Reg, m: A.Machine) returns (flow: A.Flow)
    requires r == A.R10 || r == A.R11
    ensures A.Run(RegisterCode(op, r), m) == flow
    ensures flow.Fall? || flow.Fault?
    ensures SameStore(m, flow.m) && flow.m.Get(A.R11) == m.Get(A.R11)
    ensures Ir.Eval(op, m.Get(A.RAX), m.Get(r)) == (if flow.Fall? then Some(flow.m.Get(A.RAX)) else None)
  {
    var m';
    if op.Div? || op.Mod? {
      flow := RegisterDivision(op, r, m);
      return;
    } else if AluOf(op).Some? {
      m' := AluCode(AluOf(op).value, A.R(r), m);
      EvalAlu(op, m.Get(A.RAX), m.Get(r));
    } else if op.Shl? || op.Shr? {
      m' := RegisterShift(op, r, m);
    } else if op.LogAnd? || op.LogOr? {
      m' := RegisterLogic(op, r, m);
    } else {
      m' := CompareCode(op, A.R(r), m);
    }
    flow := A.Fall(m');
  }
}
