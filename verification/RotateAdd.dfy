/** The rotate instruction, next := a + b; a := b; b := next, as its two forms emit it. */
module RotateAdd {
  import opened Words
  import opened Emitter
  import opened EmitterProofs
  import Ir
  import A = Asm

  // ----- meaning -----

  /** next and b take the value v, a takes b's. */
  function Assigned(env: Ir.Env, next: string, a: string, b: string, v: Word): Ir.Env {
    var first := env.Put(Ir.Symbol(next), v);
    first.Put(Ir.Symbol(a), first.Sym(b)).Put(Ir.Symbol(b), v)
  }

  /** Three assignments in order; if next is a, the second one changes what the third one copies. */
  function Rotated(env: Ir.Env, next: string, a: string, b: string): Ir.Env {
    var sum := Wrap(env.Sym(a) + env.Sym(b));
    var first := env.Put(Ir.Symbol(next), sum);
    var second := first.Put(Ir.Symbol(a), first.Sym(b));
    second.Put(Ir.Symbol(b), second.Sym(next))
  }

  // ----- code -----

  predicate InRegister(ctx: Ctx, s: string) { s in ctx.symbols && ctx.symbols[s].InReg? }

  predicate AllInRegisters(ctx: Ctx, next: string, a: string, b: string) {
    InRegister(ctx, next) && InRegister(ctx, a) && InRegister(ctx, b)
  }

  function LoadVariable(ctx: Ctx, s: string): Code
    requires s in ctx.symbols
  {
    [A.Comment, LoadFrom(s, ctx.symbols[s])]
  }

  /** rax := a, plus b. A b in memory is loaded over a, and rbx is added to it. */
  function AddCode(ctx: Ctx, a: string, b: string): Code
    requires a in ctx.symbols && b in ctx.symbols
  {
    LoadVariable(ctx, a)
    + if InRegister(ctx, b) then [A.Alu(A.AddOp, A.RAX, A.R(ctx.symbols[b].reg))]
      else LoadVariable(ctx, b) + [A.Alu(A.AddOp, A.RAX, A.R(A.RBX))]
  }

  /** s := r11. */
  function FromR11(ctx: Ctx, s: string): Code
    requires s in ctx.symbols
  {
    if InRegister(ctx, s) then [A.Mov(ctx.symbols[s].reg, A.R(A.R11))]
    else [A.Comment, A.Mov(A.RAX, A.R(A.R11)), StoreTo(s, ctx.symbols[s])]
  }

  /** a := b. */
  function CopyCode(ctx: Ctx, a: string, b: string): Code
    requires a in ctx.symbols && b in ctx.symbols
  {
    if InRegister(ctx, a) && InRegister(ctx, b) then [A.Mov(ctx.symbols[a].reg, A.R(ctx.symbols[b].reg))]
    else
      LoadVariable(ctx, b)
      + if InRegister(ctx, a) then [A.Mov(ctx.symbols[a].reg, A.R(A.RAX))] else [A.Comment, StoreTo(a, ctx.symbols[a])]
  }

  function MemoryCode(ctx: Ctx, next: string, a: string, b: string): Code
    requires next in ctx.symbols && a in ctx.symbols && b in ctx.symbols
  {
    AddCode(ctx, a, b) + [A.Mov(A.R11, A.R(A.RAX))] + FromR11(ctx, next) + CopyCode(ctx, a, b) + FromR11(ctx, b)
  }

  /** `lea d, [x + y]`, which leaves the flags alone. */
  function Lea(m: A.Machine, d: A.Reg, x: A.Reg, y: A.Reg): A.Machine { m.Set(d, Wrap(m.Get(x) + m.Get(y))) }

  /** With all three in registers, a lea and two moves; the memory form otherwise. */
  function RunRotate(ctx: Ctx, next: string, a: string, b: string, m: A.Machine): A.Flow
    requires next in ctx.symbols && a in ctx.symbols && b in ctx.symbols
  {
    if AllInRegisters(ctx, next, a, b) then
      var d, x, y := ctx.symbols[next].reg, ctx.symbols[a].reg, ctx.symbols[b].reg;
      A.Run([A.Mov(x, A.R(y)), A.Mov(y, A.R(d))], Lea(m, d, x, y))
    else A.Run(MemoryCode(ctx, next, a, b), m)
  }

  // ----- the pieces -----

  /** A machine that differs in the place of one symbol, and in registers that hold no symbol. */
  lemma Written(ctx: Ctx, env: Ir.Env, m: A.Machine, s: string, v: Word, m': A.Machine)
    requires SymRel(ctx, env, m) && s in ctx.symbols && m'.passed == m.passed && ReadLoc(m', s, ctx.symbols[s]) == v
    requires forall x :: x in ctx.symbols && x != s ==> ReadLoc(m', x, ctx.symbols[x]) == ReadLoc(m, x, ctx.symbols[x])
    ensures SymRel(ctx, env.Put(Ir.Symbol(s), v), m')
  {
  }

  lemma ScratchFree(ctx: Ctx, env: Ir.Env, m: A.Machine, r: A.Reg, v: Word)
    requires GoodCtx(ctx) && SymRel(ctx, env, m) && !Promotable(r)
    ensures SymRel(ctx, env, m.Set(r, v)) && SymRel(ctx, env, m.Set(r, v).(flags := A.Undefined))
  {
  }

  lemma LoadRuns(ctx: Ctx, env: Ir.Env, m: A.Machine, s: string)
    requires GoodCtx(ctx) && SymRel(ctx, env, m) && s in ctx.symbols
    ensures A.Run(LoadVariable(ctx, s), m) == A.Fall(m.Set(A.RAX, env.Sym(s)))
    ensures SymRel(ctx, env, m.Set(A.RAX, env.Sym(s)))
  {
    hide A.Run, GoodCtx, Wrap;
    assert SymRel(ctx, env, m.Set(A.RAX, env.Sym(s))) by { ScratchFree(ctx, env, m, A.RAX, env.Sym(s)); }
    A.RunTwo(A.Comment, LoadFrom(s, ctx.symbols[s]), m);
  }

  /** What the sum really is. */
  function AddedUp(ctx: Ctx, env: Ir.Env, m: A.Machine, a: string, b: string): Word {
    Wrap(env.Sym(b) + if InRegister(ctx, b) then env.Sym(a) else m.Get(A.RBX))
  }

  lemma MoveRuns(d: A.Reg, r: A.Reg, m: A.Machine)
    ensures A.Run([A.Mov(d, A.R(r))], m) == A.Fall(m.Set(d, m.Get(r)))
  {
    hide A.Run;
    A.RunOne(A.Mov(d, A.R(r)), m);
  }

  lemma AddRegister(ctx: Ctx, env: Ir.Env, m: A.Machine, r: A.Reg) returns (m': A.Machine)
    requires GoodCtx(ctx) && SymRel(ctx, env, m)
    ensures A.Run([A.Alu(A.AddOp, A.RAX, A.R(r))], m) == A.Fall(m') && SymRel(ctx, env, m')
    ensures m'.Get(A.RAX) == Wrap(m.Get(A.RAX) + m.Get(r))
  {
    hide A.Run, A.Step, Wrap;
    m' := AluCode(A.AddOp, A.R(r), m);
  }

  lemma AddRuns(ctx: Ctx, env: Ir.Env, m: A.Machine, a: string, b: string) returns (m': A.Machine)
    requires GoodCtx(ctx) && SymRel(ctx, env, m) && a in ctx.symbols && b in ctx.symbols
    ensures A.Run(AddCode(ctx, a, b), m) == A.Fall(m') && SymRel(ctx, env, m') && m'.Get(A.RAX) == AddedUp(ctx, env, m, a, b)
  {
    LoadRuns(ctx, env, m, a);
    var m1 := m.Set(A.RAX, env.Sym(a));
    if InRegister(ctx, b) {
      var r := ctx.symbols[b].reg;
      assert m1.Get(r) == env.Sym(b);
      hide SymRel, GoodCtx, LoadVariable, A.Run;
      m' := AddRegister(ctx, env, m1, r);
      A.RunAppend(LoadVariable(ctx, a), [A.Alu(A.AddOp, A.RAX, A.R(r))], m);
    } else {
      LoadRuns(ctx, env, m1, b);
      hide SymRel, GoodCtx, LoadVariable, A.Run;
      m' := AddRegister(ctx, env, m1.Set(A.RAX, env.Sym(b)), A.RBX);
      var add := [A.Alu(A.AddOp, A.RAX, A.R(A.RBX))];
      A.RunAppend(LoadVariable(ctx, b), add, m1);
      A.RunAppend(LoadVariable(ctx, a), LoadVariable(ctx, b) + add, m);
    }
  }

  /** Writing the register of a symbol. */
  lemma OwnRegister(ctx: Ctx, env: Ir.Env, m: A.Machine, s: string, v: Word)
    requires GoodCtx(ctx) && SymRel(ctx, env, m) && InRegister(ctx, s)
    ensures SymRel(ctx, env.Put(Ir.Symbol(s), v), m.Set(ctx.symbols[s].reg, v))
    ensures m.Set(ctx.symbols[s].reg, v).Get(A.R11) == m.Get(A.R11)
  {
    var m' := m.Set(ctx.symbols[s].reg, v);
    forall x | x in ctx.symbols && x != s ensures ReadLoc(m', x, ctx.symbols[x]) == ReadLoc(m, x, ctx.symbols[x]) {
      assert SymbolsApart(ctx, x, s);
    }
    Written(ctx, env, m, s, v, m');
  }

  /** Storing rax into a symbol in memory. */
  lemma OwnPlace(ctx: Ctx, env: Ir.Env, m: A.Machine, s: string) returns (m': A.Machine)
    requires GoodCtx(ctx) && SymRel(ctx, env, m) && s in ctx.symbols && !InRegister(ctx, s)
    ensures A.Step(StoreTo(s, ctx.symbols[s]), m) == A.Fall(m') && m'.regs == m.regs
    ensures SymRel(ctx, env.Put(Ir.Symbol(s), m.Get(A.RAX)), m')
  {
    m' := A.Step(StoreTo(s, ctx.symbols[s]), m).m;
    hide SymRel;
    WriteLocSymbols(ctx, env, m, s);
  }

  lemma FromR11Runs(ctx: Ctx, env: Ir.Env, m: A.Machine, s: string) returns (m': A.Machine)
    requires GoodCtx(ctx) && SymRel(ctx, env, m) && s in ctx.symbols
    ensures A.Run(FromR11(ctx, s), m) == A.Fall(m') && m'.Get(A.R11) == m.Get(A.R11)
    ensures SymRel(ctx, env.Put(Ir.Symbol(s), m.Get(A.R11)), m')
  {
    hide SymRel, GoodCtx, A.Run;
    if InRegister(ctx, s) {
      MoveRuns(ctx.symbols[s].reg, A.R11, m);
      OwnRegister(ctx, env, m, s, m.Get(A.R11));
      m' := m.Set(ctx.symbols[s].reg, m.Get(A.R11));
    } else {
      var m1 := m.Set(A.RAX, m.Get(A.R11));
      ScratchFree(ctx, env, m, A.RAX, m.Get(A.R11));
      m' := OwnPlace(ctx, env, m1, s);
      A.RunThree(A.Comment, A.Mov(A.RAX, A.R(A.R11)), StoreTo(s, ctx.symbols[s]), m);
    }
  }

  lemma CopyRuns(ctx: Ctx, env: Ir.Env, m: A.Machine, a: string, b: string) returns (m': A.Machine)
    requires GoodCtx(ctx) && SymRel(ctx, env, m) && a in ctx.symbols && b in ctx.symbols
    ensures A.Run(CopyCode(ctx, a, b), m) == A.Fall(m') && m'.Get(A.R11) == m.Get(A.R11)
    ensures SymRel(ctx, env.Put(Ir.Symbol(a), env.Sym(b)), m')
  {
    if InRegister(ctx, a) && InRegister(ctx, b) {
      assert m.Get(ctx.symbols[b].reg) == env.Sym(b);
      hide SymRel, GoodCtx, A.Run, A.Step;
      MoveRuns(ctx.symbols[a].reg, ctx.symbols[b].reg, m);
      OwnRegister(ctx, env, m, a, env.Sym(b));
      m' := m.Set(ctx.symbols[a].reg, env.Sym(b));
    } else {
      hide SymRel, GoodCtx, A.Run, LoadVariable;
      LoadRuns(ctx, env, m, b);
      var m1 := m.Set(A.RAX, env.Sym(b));
      if InRegister(ctx, a) {
        var move := [A.Mov(ctx.symbols[a].reg, A.R(A.RAX))];
        MoveRuns(ctx.symbols[a].reg, A.RAX, m1);
        OwnRegister(ctx, env, m1, a, env.Sym(b));
        m' := m1.Set(ctx.symbols[a].reg, env.Sym(b));
        A.RunAppend(LoadVariable(ctx, b), move, m);
      } else {
        var store := StoreTo(a, ctx.symbols[a]);
        m' := OwnPlace(ctx, env, m1, a);
        A.RunTwo(A.Comment, store, m1);
        A.RunAppend(LoadVariable(ctx, b), [A.Comment, store], m);
      }
    }
  }

  // ----- the whole -----

  lemma MemoryRuns(ctx: Ctx, env: Ir.Env, m: A.Machine, next: string, a: string, b: string) returns (m': A.Machine)
    requires GoodCtx(ctx) && SymRel(ctx, env, m) && next in ctx.symbols && a in ctx.symbols && b in ctx.symbols
    ensures A.Run(MemoryCode(ctx, next, a, b), m) == A.Fall(m')
    ensures SymRel(ctx, Assigned(env, next, a, b, AddedUp(ctx, env, m, a, b)), m')
  {
    hide SymRel, GoodCtx, AddCode, FromR11, CopyCode, AddedUp, A.Run, Wrap;
    var m1 := AddRuns(ctx, env, m, a, b);
    var v, keep := m1.Get(A.RAX), A.Mov(A.R11, A.R(A.RAX));
    var m2 := m1.Set(A.R11, v);
    A.RunOne(keep, m1);
    ScratchFree(ctx, env, m1, A.R11, v);
    var m3 := FromR11Runs(ctx, env, m2, next);
    var first := env.Put(Ir.Symbol(next), v);
    var m4 := CopyRuns(ctx, first, m3, a, b);
    m' := FromR11Runs(ctx, first.Put(Ir.Symbol(a), first.Sym(b)), m4, b);
    A.RunAppend(AddCode(ctx, a, b), [keep], m);
    A.RunAppend(AddCode(ctx, a, b) + [keep], FromR11(ctx, next), m);
    A.RunAppend(AddCode(ctx, a, b) + [keep] + FromR11(ctx, next), CopyCode(ctx, a, b), m);
    A.RunAppend(AddCode(ctx, a, b) + [keep] + FromR11(ctx, next) + CopyCode(ctx, a, b), FromR11(ctx, b), m);
  }

  lemma RegistersRun(ctx: Ctx, env: Ir.Env, m: A.Machine, next: string, a: string, b: string) returns (m': A.Machine)
    requires GoodCtx(ctx) && SymRel(ctx, env, m) && AllInRegisters(ctx, next, a, b)
    ensures RunRotate(ctx, next, a, b, m) == A.Fall(m') && SymRel(ctx, Rotated(env, next, a, b), m')
  {
    var d, x, y := ctx.symbols[next].reg, ctx.symbols[a].reg, ctx.symbols[b].reg;
    var m1 := Lea(m, d, x, y);
    var m2 := m1.Set(x, m1.Get(y));
    m' := m2.Set(y, m2.Get(d));
    assert A.Run([A.Mov(x, A.R(y)), A.Mov(y, A.R(d))], m1) == A.Fall(m') by {
      hide A.Run, Wrap;
      A.RunTwo(A.Mov(x, A.R(y)), A.Mov(y, A.R(d)), m1);
    }
    hide A.Run, A.Step, Wrap, GoodCtx;
    OwnRegister(ctx, env, m, next, m1.Get(d));
    var env1 := env.Put(Ir.Symbol(next), m1.Get(d));
    OwnRegister(ctx, env1, m1, a, m1.Get(y));
    var env2 := env1.Put(Ir.Symbol(a), env1.Sym(b));
    OwnRegister(ctx, env2, m2, b, m2.Get(d));
  }

  /** From every machine that holds an environment the code ends in one that holds the rotated environment. */
  ghost predicate RotatesRight(ctx: Ctx, next: string, a: string, b: string)
    requires next in ctx.symbols && a in ctx.symbols && b in ctx.symbols
  {
    forall env, m :: SymRel(ctx, env, m) ==> RightFrom(ctx, next, a, b, env, m)
  }

  ghost predicate RightFrom(ctx: Ctx, next: string, a: string, b: string, env: Ir.Env, m: A.Machine)
    requires next in ctx.symbols && a in ctx.symbols && b in ctx.symbols
  {
    var flow := RunRotate(ctx, next, a, b, m);
    flow.Fall? && SymRel(ctx, Rotated(env, next, a, b), flow.m)
  }

  /** b has a register, or a is in rbx, which is the register that is added to b. */
  predicate SumsRight(ctx: Ctx, a: string, b: string)
    requires a in ctx.symbols
  {
    InRegister(ctx, b) || ctx.symbols[a] == InReg(A.RBX)
  }

  /** The environment a machine holds. */
  function Held(ctx: Ctx, m: A.Machine): (env: Ir.Env)
    ensures SymRel(ctx, env, m)
  {
    Ir.Env(map s | s in ctx.symbols :: ReadLoc(m, s, ctx.symbols[s]), map[], m.passed)
  }

  /** All zero but rbx. */
  function OnlyRbx(): A.Machine { A.Machine(map[A.RBX := 1], A.Undefined, map[], map[], []) }

  /** All zero but one symbol in memory. */
  function OnlyOne(s: string, loc: Loc): A.Machine {
    A.Machine(map[], A.Undefined, if loc.InSlot? then map[loc.off := 1] else map[], if loc.InGlobal? then map[s := 1] else map[], [])
  }

  /** The code adds up to one, the meaning to zero. */
  ghost predicate Tells(ctx: Ctx, next: string, a: string, b: string, m: A.Machine)
    requires b in ctx.symbols
  {
    AddedUp(ctx, Held(ctx, m), m, a, b) == 1 && Rotated(Held(ctx, m), next, a, b).Sym(b) == 0
  }

  /** rbx is added to a b in memory. */
  lemma RbxTells(ctx: Ctx, next: string, a: string, b: string)
    requires GoodCtx(ctx) && next in ctx.symbols && a in ctx.symbols && b in ctx.symbols
    requires !InRegister(ctx, b) && (next == a || ctx.symbols[a] != InReg(A.RBX))
    ensures Tells(ctx, next, a, b, OnlyRbx())
  {
    var env := Held(ctx, OnlyRbx());
    hide GoodCtx;
    assert env.Sym(b) == 0;
    assert next != a || a == b ==> env.Sym(a) == 0;
  }

  /** The sum goes to b although a, which is next, has been given b's value. */
  lemma CopyTells(ctx: Ctx, a: string, b: string)
    requires GoodCtx(ctx) && a in ctx.symbols && !InRegister(ctx, a) && InRegister(ctx, b)
    ensures Tells(ctx, a, a, b, OnlyOne(a, ctx.symbols[a]))
  {
    var env := Held(ctx, OnlyOne(a, ctx.symbols[a]));
    hide GoodCtx;
    assert env.Sym(a) == 1 && env.Sym(b) == 0;
  }

  /** A machine from which b gets the wrong value. */
  lemma WrongFrom(ctx: Ctx, next: string, a: string, b: string) returns (m: A.Machine)
    requires GoodCtx(ctx) && next in ctx.symbols && a in ctx.symbols && b in ctx.symbols
    requires !AllInRegisters(ctx, next, a, b) && (next == a || !SumsRight(ctx, a, b))
    ensures !RightFrom(ctx, next, a, b, Held(ctx, m), m)
  {
    if InRegister(ctx, b) {
      m := OnlyOne(a, ctx.symbols[a]);
      CopyTells(ctx, a, b);
    } else {
      m := OnlyRbx();
      RbxTells(ctx, next, a, b);
    }
    hide GoodCtx, A.Run, MemoryCode, AddedUp, Held, Rotated;
    var m' := MemoryRuns(ctx, Held(ctx, m), m, next, a, b);
    assert ReadLoc(m', b, ctx.symbols[b]) == 1;
  }

  /** The rotate instruction does what it stands for exactly when all three symbols are in registers, or next is another
      symbol than a and the sum is right. */
  lemma RotateExactly(ctx: Ctx, next: string, a: string, b: string)
    requires GoodCtx(ctx) && next in ctx.symbols && a in ctx.symbols && b in ctx.symbols
    ensures RotatesRight(ctx, next, a, b) <==> AllInRegisters(ctx, next, a, b) || (next != a && SumsRight(ctx, a, b))
  {
    if AllInRegisters(ctx, next, a, b) {
      forall env, m | SymRel(ctx, env, m) ensures RightFrom(ctx, next, a, b, env, m) {
        var m' := RegistersRun(ctx, env, m, next, a, b);
      }
    } else if next != a && SumsRight(ctx, a, b) {
      forall env, m | SymRel(ctx, env, m) ensures RightFrom(ctx, next, a, b, env, m) {
        var m' := MemoryRuns(ctx, env, m, next, a, b);
        assert AddedUp(ctx, env, m, a, b) == Wrap(env.Sym(a) + env.Sym(b));
        assert Assigned(env, next, a, b, AddedUp(ctx, env, m, a, b)) == Rotated(env, next, a, b);
      }
    } else {
      var m := WrongFrom(ctx, next, a, b);
      var env := Held(ctx, m);
      assert !RightFrom(ctx, next, a, b, env, m);
    }
  }
}
