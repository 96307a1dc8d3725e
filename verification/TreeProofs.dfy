/** Compiled trees do what the trees mean. */
module TreeProofs {
  import opened Words
  import opened Wrappers
  import opened StackAsm
  import opened TreeCompiler
  import Ir
  import A = Asm
  import E = Emitter
  import EmitterProofs
  import FusionProofs
  import Simulation

  // ----- machine and environment -----

  /** Symbols have their own places; the tree compiler has no temps. */
  ghost predicate TreeCtx(ctx: E.Ctx) {
    EmitterProofs.GoodCtx(ctx) && ctx.tempOffset == map[]
  }

  ghost predicate Related(ctx: E.Ctx, env: Ir.Env, m: Machine) {
    EmitterProofs.SymRel(ctx, env, m.core)
  }

  /** The environment is env' and the stack is as it was. */
  ghost predicate Kept(ctx: E.Ctx, env: Ir.Env, m: Machine, m': Machine) {
    Related(ctx, env, m') && m'.stack == m.stack
  }

  lemma SameCore(ctx: E.Ctx, env: Ir.Env, m: Machine, core: A.Machine)
    requires TreeCtx(ctx) && Related(ctx, env, m) && EmitterProofs.SameStore(m.core, core)
    ensures Kept(ctx, env, m, m.(core := core))
  {
    forall s | s in ctx.symbols ensures EmitterProofs.ReadLoc(core, s, ctx.symbols[s]) == env.Sym(s) {
      assert EmitterProofs.ReadLoc(m.core, s, ctx.symbols[s]) == env.Sym(s);
    }
  }

  lemma StoreCore(ctx: E.Ctx, env: Ir.Env, m: Machine, x: string)
    requires TreeCtx(ctx) && Related(ctx, env, m) && x in ctx.symbols
    ensures A.Step(E.StoreTo(x, ctx.symbols[x]), m.core).Fall?
    ensures Kept(ctx, env.Put(Ir.Symbol(x), m.Rax()), m, m.(core := A.Step(E.StoreTo(x, ctx.symbols[x]), m.core).m))
  {
    var g := Simulation.Clean();
    assert EmitterProofs.Rel(ctx, {}, g, env, m.core);
    EmitterProofs.WriteLoc(ctx, {}, g, env, m.core, x);
  }

  // ----- expressions -----

  /** From p the code reaches `end` with the value in rax, or faults if there is none. */
  ghost predicate Yields(ctx: E.Ctx, code: Code, p: nat, end: nat, env: Ir.Env, m: Machine, value: Option<Word>, k: nat, m': Machine) {
    var c := Nexts(code, k, At(p, m));
    match value
    case Some(v) => c == At(end, m') && Kept(ctx, env, m, m') && m'.Rax() == v
    case None => c.Faulted? && EmitterProofs.SymRel(ctx, env, c.m.core)
  }

  /** One straight-line instruction. */
  lemma OneOp(code: Code, p: nat, a: A.Instr, m: Machine)
    requires Holds(code, p, [Op(a)]) && A.Step(a, m.core).Fall?
    ensures Nexts(code, 1, At(p, m)) == At(p + 1, m.(core := A.Step(a, m.core).m))
  {
    HoldsOne(code, p, Op(a));
    NextOnce(code, At(p, m));
  }

  lemma LoadVar(ctx: E.Ctx, x: string, env: Ir.Env, m: Machine)
    requires TreeCtx(ctx) && Related(ctx, env, m) && x in ctx.symbols
    ensures var s := A.Step(E.LoadFrom(x, ctx.symbols[x]), m.core);
            s.Fall? && Kept(ctx, env, m, m.(core := s.m)) && s.m.Get(A.RAX) == env.Sym(x)
  {
    var s := A.Step(E.LoadFrom(x, ctx.symbols[x]), m.core);
    assert EmitterProofs.ReadLoc(m.core, x, ctx.symbols[x]) == env.Sym(x);
    SameCore(ctx, env, m, s.m);
  }

  lemma SimLeaf(ctx: E.Ctx, code: Code, p: nat, e: Expr, c: Code, env: Ir.Env, m: Machine) returns (k: nat, m': Machine)
    requires TreeCtx(ctx) && Related(ctx, env, m) && (e.Num? || e.Var?)
    requires ExprCode(ctx.symbols, e) == Some(c) && Holds(code, p, c)
    ensures Yields(ctx, code, p, p + |c|, env, m, EvalExpr(e, env), k, m')
  {
    if e.Num? {
      k := 1;
      m' := m.(core := m.core.Set(A.RAX, e.value));
      OneOp(code, p, A.Mov(A.RAX, A.I(e.value)), m);
      SameCore(ctx, env, m, m'.core);
    } else {
      var load := E.LoadFrom(e.name, ctx.symbols[e.name]);
      assert c == [Op(A.Comment)] + [Op(load)];
      HoldsParts(code, p, [Op(A.Comment)], [Op(load)]);
      OneOp(code, p, A.Comment, m);
      LoadVar(ctx, e.name, env, m);
      OneOp(code, p + 1, load, m);
      NextsAdd(code, 1, 1, At(p, m));
      k := 2;
      m' := m.(core := A.Step(load, m.core).m);
    }
  }

  /** The code of an expression leaves its value in rax and everything else, the stack
      included, as it was. */
  lemma {:induction false} SimExpr(ctx: E.Ctx, code: Code, p: nat, e: Expr, c: Code, env: Ir.Env, m: Machine)
    returns (k: nat, m': Machine)
    requires TreeCtx(ctx) && Related(ctx, env, m) && ExprCode(ctx.symbols, e) == Some(c) && Holds(code, p, c)
    ensures Yields(ctx, code, p, p + |c|, env, m, EvalExpr(e, env), k, m')
    decreases e
  {
    hide TreeCtx, Related, Yields, Ir.Eval, Ir.EvalUnary, Nexts, A.Step, E.RegisterCode, E.UnaryCode, Holds;
    match e
    case Num(_) => k, m' := SimLeaf(ctx, code, p, e, c, env, m);
    case Var(_) => k, m' := SimLeaf(ctx, code, p, e, c, env, m);
    case Un(op, x) =>
      var cx := ExprCode(ctx.symbols, x).value;
      var ops := Lift(E.UnaryCode(op));
      HoldsParts(code, p, [Op(A.Comment)] + cx, ops);
      HoldsParts(code, p, [Op(A.Comment)], cx);
      var k1, m1 := SimExpr(ctx, code, p + 1, x, cx, env, m);
      k, m' := FinishUnary(ctx, code, p, op, |cx|, env, m, EvalExpr(x, env), k1, m1);
    case Bin(op, x, y) =>
      var a, b := ExprCode(ctx.symbols, x).value, ExprCode(ctx.symbols, y).value;
      BinaryParts(code, p, a, b, op);
      var k1, m1 := SimExpr(ctx, code, p, x, a, env, m);
      var vx := EvalExpr(x, env);
      if vx.None? {
        k, m' := k1, m1;
        YieldsNone(ctx, code, p, p + |a|, p + |c|, env, m, k1, m1);
      } else {
        YieldsSome(ctx, code, p, p + |a|, env, m, vx.value, k1, m1);
        var pushed := m1.(stack := m1.stack + [vx.value]);
        PushStep(code, p + |a|, m1);
        SamePush(ctx, env, m1, pushed);
        var k2, m2 := SimExpr(ctx, code, p + |a| + 1, y, b, env, pushed);
        k, m' := FinishBinary(ctx, code, p, op, |a|, |b|, env, m, k1, m1, vx.value, EvalExpr(y, env), k2, m2);
      }
  }

  lemma YieldsSome(ctx: E.Ctx, code: Code, p: nat, end: nat, env: Ir.Env, m: Machine, v: Word, k: nat, m': Machine)
    requires Yields(ctx, code, p, end, env, m, Some(v), k, m')
    ensures Nexts(code, k, At(p, m)) == At(end, m') && Kept(ctx, env, m, m') && Related(ctx, env, m') && m'.Rax() == v
  {}

  lemma YieldsNone(ctx: E.Ctx, code: Code, p: nat, end: nat, end': nat, env: Ir.Env, m: Machine, k: nat, m': Machine)
    requires Yields(ctx, code, p, end, env, m, None, k, m')
    ensures Yields(ctx, code, p, end', env, m, None, k, m')
  {}

  lemma SamePush(ctx: E.Ctx, env: Ir.Env, m: Machine, m': Machine)
    requires Related(ctx, env, m) && m'.core == m.core
    ensures Related(ctx, env, m')
  {}

  lemma PushStep(code: Code, p: nat, m: Machine)
    requires Holds(code, p, [PushRax])
    ensures Nexts(code, 1, At(p, m)) == At(p + 1, m.(stack := m.stack + [m.Rax()]))
  {
    HoldsOne(code, p, PushRax);
    NextOnce(code, At(p, m));
  }

  lemma BinaryParts(code: Code, p: nat, a: Code, b: Code, op: Ir.BinOp)
    requires Holds(code, p, a + [PushRax] + b + [Op(A.Mov(A.R10, A.R(A.RAX))), PopRax] + Lift(E.RegisterCode(op, A.R10)))
    ensures Holds(code, p, a) && Holds(code, p + |a|, [PushRax]) && Holds(code, p + |a| + 1, b)
    ensures Holds(code, p + |a| + 1 + |b|, [Op(A.Mov(A.R10, A.R(A.RAX))), PopRax])
    ensures Holds(code, p + |a| + 3 + |b|, Lift(E.RegisterCode(op, A.R10)))
  {
    hide Holds, E.RegisterCode;
    var tail := [Op(A.Mov(A.R10, A.R(A.RAX))), PopRax];
    HoldsParts(code, p, a + [PushRax] + b + tail, Lift(E.RegisterCode(op, A.R10)));
    HoldsParts(code, p, a + [PushRax] + b, tail);
    HoldsParts(code, p, a + [PushRax], b);
    HoldsParts(code, p, a, [PushRax]);
  }

  lemma FinishUnary(ctx: E.Ctx, code: Code, p: nat, op: Ir.UnOp, n: nat, env: Ir.Env, m: Machine, value: Option<Word>, k1: nat, m1: Machine)
    returns (k: nat, m': Machine)
    requires TreeCtx(ctx) && Holds(code, p, [Op(A.Comment)]) && Holds(code, p + 1 + n, Lift(E.UnaryCode(op)))
    requires Yields(ctx, code, p + 1, p + 1 + n, env, m, value, k1, m1)
    ensures Yields(ctx, code, p, p + 1 + n + |E.UnaryCode(op)|, env, m,
                   if value.Some? then Some(Ir.EvalUnary(op, value.value)) else None, k, m')
  {
    hide Ir.EvalUnary, E.UnaryCode, Holds;
    OneOp(code, p, A.Comment, m);
    NextsAdd(code, 1, k1, At(p, m));
    if value.None? {
      k, m' := 1 + k1, m1;
    } else {
      var k2 := RunLifted(code, p + 1 + n, E.UnaryCode(op), m1);
      var core := FusionProofs.UnaryRuns(op, m1.core);
      NextsAdd(code, 1 + k1, k2, At(p, m));
      k, m' := 1 + k1 + k2, m1.(core := core);
      SameCore(ctx, env, m1, core);
    }
  }

  lemma PopStep(code: Code, p: nat, m: Machine, below: seq<Word>, v: Word)
    requires Holds(code, p, [Op(A.Mov(A.R10, A.R(A.RAX))), PopRax]) && m.stack == below + [v]
    ensures Nexts(code, 2, At(p, m)) == At(p + 2, Machine(m.core.Set(A.R10, m.Rax()).Set(A.RAX, v), below))
  {
    assert [Op(A.Mov(A.R10, A.R(A.RAX))), PopRax] == [Op(A.Mov(A.R10, A.R(A.RAX)))] + [PopRax];
    HoldsParts(code, p, [Op(A.Mov(A.R10, A.R(A.RAX)))], [PopRax]);
    OneOp(code, p, A.Mov(A.R10, A.R(A.RAX)), m);
    HoldsOne(code, p + 1, PopRax);
    var m1 := m.(core := m.core.Set(A.R10, m.Rax()));
    NextOnce(code, At(p + 1, m1));
    NextsAdd(code, 1, 1, At(p, m));
    assert m1.stack[..|m1.stack| - 1] == below;
  }

  lemma FinishBinary(ctx: E.Ctx, code: Code, p: nat, op: Ir.BinOp, na: nat, nb: nat, env: Ir.Env, m: Machine, k1: nat, m1: Machine,
                     x: Word, y: Option<Word>, k2: nat, m2: Machine) returns (k: nat, m': Machine)
    requires TreeCtx(ctx) && Holds(code, p + na, [PushRax])
    requires Holds(code, p + na + 1 + nb, [Op(A.Mov(A.R10, A.R(A.RAX))), PopRax])
    requires Holds(code, p + na + 3 + nb, Lift(E.RegisterCode(op, A.R10)))
    requires Nexts(code, k1, At(p, m)) == At(p + na, m1) && Kept(ctx, env, m, m1) && m1.Rax() == x
    requires Yields(ctx, code, p + na + 1, p + na + 1 + nb, env, m1.(stack := m1.stack + [x]), y, k2, m2)
    ensures Yields(ctx, code, p, p + na + 3 + nb + |E.RegisterCode(op, A.R10)|, env, m,
                   if y.Some? then Ir.Eval(op, x, y.value) else None, k, m')
  {
    hide Ir.Eval, E.RegisterCode, Holds, A.Run;
    PushStep(code, p + na, m1);
    var pushed := m1.(stack := m1.stack + [x]);
    NextsAdd(code, k1, 1, At(p, m));
    NextsAdd(code, k1 + 1, k2, At(p, m));
    if y.None? {
      k, m' := k1 + 1 + k2, m2;
    } else {
      PopStep(code, p + na + 1 + nb, m2, m1.stack, x);
      NextsAdd(code, k1 + 1 + k2, 2, At(p, m));
      var m3 := Machine(m2.core.Set(A.R10, y.value).Set(A.RAX, x), m1.stack);
      SameCore(ctx, env, m2, m3.core);
      var flow := EmitterProofs.RegisterCorrect(op, A.R10, m3.core);
      var k4 := RunLifted(code, p + na + 3 + nb, E.RegisterCode(op, A.R10), m3);
      NextsAdd(code, k1 + 1 + k2 + 2, k4, At(p, m));
      k, m' := k1 + 1 + k2 + 2 + k4, m3.(core := flow.m);
      SameCore(ctx, env, m3, flow.m);
    }
  }

  /** Where the compile-time evaluator gives a value, evaluation gives it too, in any
      environment: no fault, no wrap-around. */
  lemma {:induction false} ConstantIsValue(e: Expr, env: Ir.Env)
    requires EvalConstant(e).Value?
    ensures EvalExpr(e, env) == Some(EvalConstant(e).value)
  {
    match e
    case Num(_) =>
    case Un(op, x) => ConstantIsValue(x, env);
    case Bin(op, x, y) =>
      ConstantIsValue(x, env);
      ConstantIsValue(y, env);
      var a, b := EvalConstant(x).value, EvalConstant(y).value;
      if op.Mod? { TruncRemRange(a, b); }
  }
}
