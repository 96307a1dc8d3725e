/** Compiled statements simulate their structured meaning. */
module TreeSimulation {
  import opened Words
  import opened Wrappers
  import opened StackAsm
  import opened TreeCompiler
  import opened TreeProofs
  import TreeLabels
  import Ir
  import A = Asm
  import E = Emitter
  import EmitterProofs

  /** Comparisons with a literal have one the instruction can hold. */
  predicate SmallCompares(code: Code) {
    forall i :: 0 <= i < |code| && code[i].Op? && code[i].a.Cmp? ==> A.Encodable(code[i].a.src)
  }

  /** Started in c0, where the machine is m, the code gets after k steps where the outcome says:
      to `end`, to the enclosing construct's targets, to the exit with the value in rax, to a
      fault; or, out of fuel, it has run at least `fuel` steps and is still running. */
  ghost predicate Lands(ctx: E.Ctx, code: Code, f: Frames, fuel: nat, o: Outcome, c0: Config, m: Machine, end: nat,
                        k: nat, m': Machine) {
    var c := Nexts(code, k, c0);
    match o
    case Normal(env) => c == At(end, m') && Kept(ctx, env, m, m')
    case Broke(env) => BreakTarget(f).Some? && c == Arrive(code, BreakTarget(f).value, m') && Kept(ctx, env, m, m')
    case Continued(env) => ContinueTarget(f).Some? && c == Arrive(code, ContinueTarget(f).value, m') && Kept(ctx, env, m, m')
    case Returned(v, env) => c == Arrive(code, Exit, m') && Kept(ctx, env, m, m') && (v.Some? ==> m'.Rax() == v.value)
    case Faults(env) => c.Faulted? && EmitterProofs.SymRel(ctx, env, c.m.core)
    case OutOfFuel => k >= fuel && c.At?
  }

  lemma LandsAfter(ctx: E.Ctx, code: Code, f: Frames, fuel: nat, o: Outcome, c0: Config, m: Machine, k1: nat, c1: Config, m1: Machine,
                   fuel1: nat, end: nat, k2: nat, m': Machine)
    requires Nexts(code, k1, c0) == c1 && m1.stack == m.stack && Lands(ctx, code, f, fuel1, o, c1, m1, end, k2, m')
    requires k1 + fuel1 >= fuel
    ensures Lands(ctx, code, f, fuel, o, c0, m, end, k1 + k2, m')
  {
    NextsAdd(code, k1, k2, c0);
  }

  /** A normal outcome goes on with more steps. */
  lemma LandsThen(ctx: E.Ctx, code: Code, f: Frames, fuel: nat, env: Ir.Env, c0: Config, m: Machine, mid: nat, k1: nat, m1: Machine,
                  o: Outcome, end: nat, k2: nat, m': Machine)
    requires Lands(ctx, code, f, fuel, Normal(env), c0, m, mid, k1, m1) && Lands(ctx, code, f, fuel, o, At(mid, m1), m1, end, k2, m')
    ensures Lands(ctx, code, f, fuel, o, c0, m, end, k1 + k2, m')
  {
    LandsAfter(ctx, code, f, fuel, o, c0, m, k1, At(mid, m1), m1, fuel, end, k2, m');
  }

  lemma LandsNormal(ctx: E.Ctx, code: Code, f: Frames, fuel: nat, env: Ir.Env, c0: Config, m: Machine, end: nat, k: nat, m': Machine)
    requires Lands(ctx, code, f, fuel, Normal(env), c0, m, end, k, m')
    ensures Nexts(code, k, c0) == At(end, m') && Kept(ctx, env, m, m') && Related(ctx, env, m') && m'.stack == m.stack
  {}

  /** Where an abrupt outcome would have ended does not matter. */
  lemma LandsAbrupt(ctx: E.Ctx, code: Code, f: Frames, fuel: nat, o: Outcome, c0: Config, m: Machine, end: nat, end': nat, k: nat, m': Machine)
    requires Lands(ctx, code, f, fuel, o, c0, m, end, k, m') && !o.Normal?
    ensures Lands(ctx, code, f, fuel, o, c0, m, end', k, m')
  {}

  /** Nor do inner targets to an outcome that leaves the function. */
  lemma LandsOutside(ctx: E.Ctx, code: Code, f: Frames, f': Frames, fuel: nat, o: Outcome, c0: Config, m: Machine, end: nat, k: nat, m': Machine)
    requires Lands(ctx, code, f, fuel, o, c0, m, end, k, m') && (o.Returned? || o.Faults? || o.OutOfFuel? || o.Normal?)
    ensures Lands(ctx, code, f', fuel, o, c0, m, end, k, m')
  {}

  // ----- pieces -----

  lemma JumpStep(code: Code, p: nat, t: Target, m: Machine)
    requires Holds(code, p, [Jmp(t)])
    ensures Nexts(code, 1, At(p, m)) == Arrive(code, t, m)
  {
    HoldsOne(code, p, Jmp(t));
    NextOnce(code, At(p, m));
  }

  lemma DefStep(code: Code, p: nat, id: nat, m: Machine)
    requires Holds(code, p, [Def(Label(id))])
    ensures Nexts(code, 1, At(p, m)) == At(p + 1, m)
  {
    HoldsOne(code, p, Def(Label(id)));
    NextOnce(code, At(p, m));
  }

  lemma ArriveHolds(code: Code, p: nat, t: Target, m: Machine)
    requires Once(code) && Holds(code, p, [Def(t)])
    ensures Arrive(code, t, m) == At(p, m)
  {
    HoldsOne(code, p, Def(t));
    ArriveAt(code, t, p, m);
  }

  lemma StillRelated(ctx: E.Ctx, env: Ir.Env, m: Machine)
    requires Related(ctx, env, m)
    ensures Kept(ctx, env, m, m)
  {}

  lemma SimSimple(ctx: E.Ctx, code: Code, p: nat, s: Simple, c: Code, f: Frames, env: Ir.Env, m: Machine, fuel: nat)
    returns (k: nat, m': Machine)
    requires TreeCtx(ctx) && Related(ctx, env, m) && SimpleCode(ctx.symbols, s) == Some(c) && Holds(code, p, c)
    ensures Lands(ctx, code, f, fuel, ExecSimple(s, env), At(p, m), m, p + |c|, k, m')
  {
    hide TreeCtx, Related, Kept, ExprCode, Holds, EvalExpr, A.Step;
    var e := ExprCode(ctx.symbols, s.value).value;
    if s.Eval? {
      k, m' := SimExpr(ctx, code, p, s.value, e, env, m);
    } else {
      var loc := ctx.symbols[s.name];
      var store := E.StoreTo(s.name, loc);
      assert c == e + [Op(A.Comment)] + [Op(store)];
      HoldsParts(code, p, e + [Op(A.Comment)], [Op(store)]);
      HoldsParts(code, p, e, [Op(A.Comment)]);
      k, m' := SimExpr(ctx, code, p, s.value, e, env, m);
      if EvalExpr(s.value, env).Some? {
        YieldsSome(ctx, code, p, p + |e|, env, m, EvalExpr(s.value, env).value, k, m');
        k, m' := SimStore(ctx, code, p, |e|, s.name, env, m, k, m');
      }
    }
  }

  lemma SimStore(ctx: E.Ctx, code: Code, p: nat, n: nat, x: string, env: Ir.Env, m: Machine, k1: nat, m1: Machine) returns (k: nat, m': Machine)
    requires TreeCtx(ctx) && x in ctx.symbols && Related(ctx, env, m1) && m1.stack == m.stack
    requires Holds(code, p + n, [Op(A.Comment)]) && Holds(code, p + n + 1, [Op(E.StoreTo(x, ctx.symbols[x]))])
    requires Nexts(code, k1, At(p, m)) == At(p + n, m1)
    ensures Nexts(code, k, At(p, m)) == At(p + n + 2, m') && Kept(ctx, env.Put(Ir.Symbol(x), m1.Rax()), m, m')
  {
    hide Holds;
    var store := E.StoreTo(x, ctx.symbols[x]);
    OneOp(code, p + n, A.Comment, m1);
    StoreCore(ctx, env, m1, x);
    OneOp(code, p + n + 1, store, m1);
    NextsAdd(code, k1, 1, At(p, m));
    NextsAdd(code, k1 + 1, 1, At(p, m));
    k, m' := k1 + 2, m1.(core := A.Step(store, m1.core).m);
  }

  /** The value a loop or branch tests; an absent condition holds. */
  function Tested(e: Option<Expr>, env: Ir.Env): Option<Word> {
    if e.Some? then EvalExpr(e.value, env) else Some(1)
  }

  ghost predicate Tests(ctx: E.Ctx, code: Code, p: nat, end: nat, t: Target, env: Ir.Env, m: Machine, value: Option<Word>, k: nat, m': Machine) {
    var c := Nexts(code, k, At(p, m));
    match value
    case Some(v) => c == (if v == 0 then Arrive(code, t, m') else At(end, m')) && Kept(ctx, env, m, m')
    case None => c.Faulted? && EmitterProofs.SymRel(ctx, env, c.m.core)
  }

  lemma SimTest(ctx: E.Ctx, code: Code, p: nat, e: Option<Expr>, t: Target, c: Code, env: Ir.Env, m: Machine) returns (k: nat, m': Machine)
    requires TreeCtx(ctx) && Related(ctx, env, m) && TestCode(ctx.symbols, e, t) == Some(c) && Holds(code, p, c)
    ensures Tests(ctx, code, p, p + |c|, t, env, m, Tested(e, env), k, m')
  {
    hide TreeCtx, Related, ExprCode, Holds, EvalExpr;
    if e.None? {
      k, m' := 0, m;
      StillRelated(ctx, env, m);
    } else {
      var x := ExprCode(ctx.symbols, e.value).value;
      assert c == x + [Op(A.Test(A.RAX))] + [Jcc(A.E, t)];
      HoldsParts(code, p, x + [Op(A.Test(A.RAX))], [Jcc(A.E, t)]);
      HoldsParts(code, p, x, [Op(A.Test(A.RAX))]);
      k, m' := SimExpr(ctx, code, p, e.value, x, env, m);
      if Tested(e, env).Some? {
        YieldsSome(ctx, code, p, p + |x|, env, m, Tested(e, env).value, k, m');
        var k1, m1 := k, m';
        k, m' := TestSteps(ctx, code, p + |x|, t, env, m1);
        NextsAdd(code, k1, k, At(p, m));
        k := k1 + k;
      }
    }
  }

  lemma TestSteps(ctx: E.Ctx, code: Code, p: nat, t: Target, env: Ir.Env, m: Machine) returns (k: nat, m': Machine)
    requires TreeCtx(ctx) && Related(ctx, env, m) && Holds(code, p, [Op(A.Test(A.RAX))]) && Holds(code, p + 1, [Jcc(A.E, t)])
    ensures Nexts(code, k, At(p, m)) == (if m.Rax() == 0 then Arrive(code, t, m') else At(p + 2, m')) && Kept(ctx, env, m, m')
  {
    OneOp(code, p, A.Test(A.RAX), m);
    m' := m.(core := A.Step(A.Test(A.RAX), m.core).m);
    SameCore(ctx, env, m, m'.core);
    HoldsOne(code, p + 1, Jcc(A.E, t));
    NextOnce(code, At(p + 1, m'));
    NextsAdd(code, 1, 1, At(p, m));
    k := 2;
  }

  // ----- switch dispatch -----

  ghost predicate Dispatches(ctx: E.Ctx, code: Code, p: nat, end: nat, first: nat, env: Ir.Env, m: Machine, hit: Option<nat>, k: nat, m': Machine) {
    Nexts(code, k, At(p, m)) == (if hit.Some? then Arrive(code, Label(first + hit.value), m') else At(end, m')) && Kept(ctx, env, m, m')
  }

  lemma {:induction false} SimDispatch(ctx: E.Ctx, code: Code, p: nat, c: Cases, first: nat, d: Code, v: Word, env: Ir.Env, m: Machine)
    returns (k: nat, m': Machine)
    requires TreeCtx(ctx) && Related(ctx, env, m) && m.core.Get(A.R10) == v && SmallCompares(code)
    requires DispatchCode(c, first) == Some(d) && Holds(code, p, d)
    ensures Dispatches(ctx, code, p, p + |d|, first, env, m, Matching(c, v), k, m')
    decreases c
  {
    hide TreeCtx, Related, Holds, EvalConstant, Foldable, Meant, SmallCompares;
    match c
    case NoCase =>
      k, m' := 0, m;
      StillRelated(ctx, env, m);
    case Case(value, _, rest) =>
      var r := DispatchCode(rest, first + 1).value;
      if value.None? {
        k, m' := SimDispatch(ctx, code, p, rest, first + 1, r, v, env, m);
      } else {
        FoldsExactly(value.value);
        var w := EvalConstant(value.value).value;
        var test := [Op(A.Cmp(A.R10, A.I(w)))] + [Jcc(A.E, Label(first))];
        assert d == test + r;
        HoldsParts(code, p, test, r);
        var m1 := CompareStep(ctx, code, p, w, first, env, m);
        if w == v {
          k, m' := 2, m1;
        } else {
          k, m' := SimDispatch(ctx, code, p + 2, rest, first + 1, r, v, env, m1);
          NextsAdd(code, 2, k, At(p, m));
          k := 2 + k;
        }
      }
  }

  lemma CompareStep(ctx: E.Ctx, code: Code, p: nat, w: Word, first: nat, env: Ir.Env, m: Machine) returns (m': Machine)
    requires TreeCtx(ctx) && Related(ctx, env, m) && SmallCompares(code)
    requires Holds(code, p, [Op(A.Cmp(A.R10, A.I(w)))] + [Jcc(A.E, Label(first))])
    ensures Nexts(code, 2, At(p, m)) == (if m.core.Get(A.R10) == w then Arrive(code, Label(first), m') else At(p + 2, m'))
    ensures Kept(ctx, env, m, m') && Related(ctx, env, m') && m'.core.Get(A.R10) == m.core.Get(A.R10)
  {
    var cmp := A.Cmp(A.R10, A.I(w));
    HoldsParts(code, p, [Op(cmp)], [Jcc(A.E, Label(first))]);
    HoldsOne(code, p, Op(cmp));
    assert A.Encodable(code[p].a.src);
    OneOp(code, p, cmp, m);
    m' := m.(core := A.Step(cmp, m.core).m);
    SameCore(ctx, env, m, m'.core);
    HoldsOne(code, p + 1, Jcc(A.E, Label(first)));
    NextOnce(code, At(p + 1, m'));
    NextsAdd(code, 1, 1, At(p, m));
  }

  // ----- loops -----

  /** A loop as compiled: its parts, their code, and its three targets. A while loop continues
      at its head; a for loop has a landing label before its step. */
  datatype Loop = Loop(test: Option<Expr>, step: Option<Simple>, body: Stmt, head: nat, cont: nat, end: nat, landing: bool,
                       testCode: Code, bodyCode: Code, stepCode: Code, id: nat, next: nat) {
    function Landing(): Code { if landing then [Def(Label(cont))] else [] }

    function Text(): Code {
      [Def(Label(head))] + testCode + bodyCode + Landing() + stepCode + [Jmp(Label(head)), Def(Label(end))]
    }

    function Inner(f: Frames): Frames { f + [Frame(Label(end), Some(Label(cont)))] }

    function BodyAt(h: nat): nat { h + 1 + |testCode| }

    function LandingAt(h: nat): nat { BodyAt(h) + |bodyCode| }

    function StepAt(h: nat): nat { LandingAt(h) + |Landing()| }

    function JumpAt(h: nat): nat { StepAt(h) + |stepCode| }

    ghost predicate Compiled(sym: Symbols, f: Frames) {
      && TestCode(sym, test, Label(end)) == Some(testCode)
      && StmtCode(sym, body, id, Inner(f)) == Some((bodyCode, next))
      && OptionalCode(sym, step) == Some(stepCode)
      && (!landing ==> cont == head && step.None?)
    }
  }

  lemma InnerTargets(l: Loop, f: Frames)
    ensures BreakTarget(l.Inner(f)) == Some(Label(l.end)) && ContinueTarget(l.Inner(f)) == Some(Label(l.cont))
  {}

  lemma LoopParts(code: Code, h: nat, l: Loop)
    requires Holds(code, h, l.Text())
    ensures Holds(code, h, [Def(Label(l.head))]) && Holds(code, h + 1, l.testCode) && Holds(code, l.BodyAt(h), l.bodyCode)
    ensures Holds(code, l.LandingAt(h), l.Landing()) && Holds(code, l.StepAt(h), l.stepCode)
    ensures Holds(code, l.JumpAt(h), [Jmp(Label(l.head))]) && Holds(code, l.JumpAt(h) + 1, [Def(Label(l.end))])
    ensures h + |l.Text()| == l.JumpAt(h) + 2
  {
    hide Holds;
    var a := [Def(Label(l.head))];
    var tail := [Jmp(Label(l.head))] + [Def(Label(l.end))];
    assert l.Text() == a + l.testCode + l.bodyCode + l.Landing() + l.stepCode + tail;
    HoldsParts(code, h, a + l.testCode + l.bodyCode + l.Landing() + l.stepCode, tail);
    HoldsParts(code, h, a + l.testCode + l.bodyCode + l.Landing(), l.stepCode);
    HoldsParts(code, h, a + l.testCode + l.bodyCode, l.Landing());
    HoldsParts(code, h, a + l.testCode, l.bodyCode);
    HoldsParts(code, h, a, l.testCode);
    HoldsParts(code, l.JumpAt(h), [Jmp(Label(l.head))], [Def(Label(l.end))]);
  }

  function Stepped(l: Loop, env: Ir.Env): Outcome {
    if l.step.Some? then ExecSimple(l.step.value, env) else Normal(env)
  }

  /** From the body's end, or from a continue, to the loop's head by way of the step. */
  lemma SimStep(ctx: E.Ctx, code: Code, h: nat, l: Loop, f: Frames, env: Ir.Env, m: Machine, continued: bool, fuel: nat)
    returns (k: nat, m': Machine)
    requires TreeCtx(ctx) && Related(ctx, env, m) && Once(code) && Holds(code, h, l.Text()) && l.Compiled(ctx.symbols, f)
    ensures Lands(ctx, code, f, fuel, Stepped(l, env), if continued then Arrive(code, Label(l.cont), m) else At(l.LandingAt(h), m), m, h, k, m')
  {
    hide TreeCtx, Related, Holds, Loop.Text, StmtCode, TestCode, SimpleCode, Once, ExecSimple;
    LoopParts(code, h, l);
    ArriveHolds(code, h, Label(l.head), m);
    StillRelated(ctx, env, m);
    if continued && !l.landing {
      k, m' := 0, m;
      return;
    }
    var k0 := |l.Landing()|;
    var c0 := if continued then Arrive(code, Label(l.cont), m) else At(l.LandingAt(h), m);
    if l.landing {
      ArriveHolds(code, l.LandingAt(h), Label(l.cont), m);
      DefStep(code, l.LandingAt(h), l.cont, m);
    }
    assert Nexts(code, k0, c0) == At(l.StepAt(h), m);
    var k1, m1;
    if l.step.Some? {
      k1, m1 := SimSimple(ctx, code, l.StepAt(h), l.step.value, l.stepCode, f, env, m, fuel);
    } else {
      k1, m1 := 0, m;
      assert Lands(ctx, code, f, fuel, Normal(env), At(l.StepAt(h), m), m, l.JumpAt(h), 0, m);
    }
    var o := Stepped(l, env);
    LandsAfter(ctx, code, f, fuel, o, c0, m, k0, At(l.StepAt(h), m), m, fuel, l.JumpAt(h), k1, m1);
    if o.Normal? {
      LandsNormal(ctx, code, f, fuel, o.env, c0, m, l.JumpAt(h), k0 + k1, m1);
      JumpStep(code, l.JumpAt(h), Label(l.head), m1);
      ArriveHolds(code, h, Label(l.head), m1);
      NextsAdd(code, k0 + k1, 1, c0);
      k, m' := k0 + k1 + 1, m1;
    } else {
      k, m' := k0 + k1, m1;
      LandsAbrupt(ctx, code, f, fuel, o, c0, m, l.JumpAt(h), h, k, m');
    }
  }

  lemma StepOutcomes(l: Loop, env: Ir.Env)
    ensures Stepped(l, env).Normal? || Stepped(l, env).Faults?
  {}

  /** Leaving a loop: through its end label. */
  lemma LeaveLoop(ctx: E.Ctx, code: Code, h: nat, l: Loop, f: Frames, env: Ir.Env, c0: Config, m: Machine, k1: nat, m1: Machine, fuel: nat)
    returns (k: nat)
    requires Once(code) && Holds(code, h, l.Text()) && Nexts(code, k1, c0) == Arrive(code, Label(l.end), m1) && Kept(ctx, env, m, m1)
    ensures Lands(ctx, code, f, fuel, Normal(env), c0, m, h + |l.Text()|, k, m1)
  {
    hide Holds, Once, Loop.Text, Kept;
    LoopParts(code, h, l);
    ArriveHolds(code, l.JumpAt(h) + 1, Label(l.end), m1);
    DefStep(code, l.JumpAt(h) + 1, l.end, m1);
    NextsAdd(code, k1, 1, c0);
    k := k1 + 1;
  }

  /** What compiled code needs of its surroundings. */
  ghost predicate Ready(ctx: E.Ctx, code: Code) {
    TreeCtx(ctx) && Once(code) && SmallCompares(code)
  }

  /** One iteration is over: on to the next, or out. */
  lemma {:induction false} SimLoop(ctx: E.Ctx, code: Code, h: nat, l: Loop, f: Frames, env: Ir.Env, m: Machine, fuel: nat)
    returns (k: nat, m': Machine)
    requires Ready(ctx, code) && Related(ctx, env, m) && Holds(code, h, l.Text()) && l.Compiled(ctx.symbols, f)
    ensures Lands(ctx, code, f, fuel, ExecLoop(l.test, l.step, l.body, env, fuel), At(h, m), m, h + |l.Text()|, k, m')
    decreases fuel, l.body, 2
  {
    hide TreeCtx, Related, Holds, Loop.Text, StmtCode, TestCode, OptionalCode, Once, SmallCompares, Exec, ExecSimple, EvalExpr, Kept;
    if fuel == 0 {
      k, m' := 0, m;
      return;
    }
    LoopParts(code, h, l);
    DefStep(code, h, l.head, m);
    var kt, mt := SimTest(ctx, code, h + 1, l.test, Label(l.end), l.testCode, env, m);
    NextsAdd(code, 1, kt, At(h, m));
    var t := Tested(l.test, env);
    if t.None? {
      k, m' := 1 + kt, mt;
    } else if t.value == 0 {
      k := LeaveLoop(ctx, code, h, l, f, env, At(h, m), m, 1 + kt, mt, fuel);
      m' := mt;
    } else {
      KeptParts(ctx, env, m, mt);
      var kb, mb := SimStmt(ctx, code, l.BodyAt(h), l.body, l.id, l.Inner(f), l.bodyCode, l.next, env, mt, fuel - 1);
      k, m' := AfterBody(ctx, code, h, l, f, env, m, 1 + kt, mt, kb, mb, fuel);
    }
  }

  lemma KeptParts(ctx: E.Ctx, env: Ir.Env, m: Machine, m': Machine)
    requires Kept(ctx, env, m, m')
    ensures Related(ctx, env, m') && m'.stack == m.stack
  {}

  /** The loop's outcome from its body's. */
  function AfterOutcome(l: Loop, o: Outcome, fuel: nat): Outcome
    requires fuel > 0
  {
    if o.Normal? || o.Continued? then
      var n := Stepped(l, o.env);
      if n.Normal? then ExecLoop(l.test, l.step, l.body, n.env, fuel - 1) else n
    else if o.Broke? then Normal(o.env)
    else o
  }

  lemma {:induction false} AfterBody(ctx: E.Ctx, code: Code, h: nat, l: Loop, f: Frames, env: Ir.Env, m: Machine, k1: nat, m1: Machine,
                                     kb: nat, mb: Machine, fuel: nat) returns (k: nat, m': Machine)
    requires Ready(ctx, code) && Holds(code, h, l.Text()) && l.Compiled(ctx.symbols, f) && fuel > 0 && k1 >= 1
    requires Nexts(code, k1, At(h, m)) == At(l.BodyAt(h), m1) && m1.stack == m.stack
    requires Lands(ctx, code, l.Inner(f), fuel - 1, Exec(l.body, env, fuel - 1), At(l.BodyAt(h), m1), m1, l.LandingAt(h), kb, mb)
    ensures Lands(ctx, code, f, fuel, AfterOutcome(l, Exec(l.body, env, fuel - 1), fuel), At(h, m), m, h + |l.Text()|, k, m')
    decreases fuel, l.body, 1
  {
    hide TreeCtx, Related, Holds, Loop.Text, StmtCode, TestCode, OptionalCode, Once, SmallCompares, Exec, Stepped, EvalExpr, ExecLoop, Kept;
    var o := Exec(l.body, env, fuel - 1);
    InnerTargets(l, f);
    NextsAdd(code, k1, kb, At(h, m));
    if o.Normal? || o.Continued? {
      KeptParts(ctx, o.env, m1, mb);
      var ks, ms := SimStep(ctx, code, h, l, f, o.env, mb, o.Continued?, fuel - 1);
      k, m' := NextRound(ctx, code, h, l, f, o, m, k1 + kb, mb, ks, ms, fuel);
    } else if o.Broke? {
      KeptStack(ctx, o.env, m, m1, mb);
      k := LeaveLoop(ctx, code, h, l, f, o.env, At(h, m), m, k1 + kb, mb, fuel);
      m' := mb;
    } else {
      k, m' := k1 + kb, mb;
      LandsOutside(ctx, code, l.Inner(f), f, fuel - 1, o, At(l.BodyAt(h), m1), m1, l.LandingAt(h), kb, mb);
      LandsAfter(ctx, code, f, fuel, o, At(h, m), m, k1, At(l.BodyAt(h), m1), m1, fuel - 1, l.LandingAt(h), kb, mb);
      LandsAbrupt(ctx, code, f, fuel, o, At(h, m), m, l.LandingAt(h), h + |l.Text()|, k, m');
    }
  }

  lemma KeptStack(ctx: E.Ctx, env: Ir.Env, m: Machine, m1: Machine, m2: Machine)
    requires Kept(ctx, env, m1, m2) && m1.stack == m.stack
    ensures Kept(ctx, env, m, m2)
  {}

  lemma {:induction false} NextRound(ctx: E.Ctx, code: Code, h: nat, l: Loop, f: Frames, o: Outcome, m: Machine, k1: nat, mb: Machine,
                                     ks: nat, ms: Machine, fuel: nat) returns (k: nat, m': Machine)
    requires Ready(ctx, code) && Holds(code, h, l.Text()) && l.Compiled(ctx.symbols, f) && fuel > 0 && k1 >= 1
    requires (o.Normal? || o.Continued?) && mb.stack == m.stack
    requires Nexts(code, k1, At(h, m)) == if o.Continued? then Arrive(code, Label(l.cont), mb) else At(l.LandingAt(h), mb)
    requires var c1 := if o.Continued? then Arrive(code, Label(l.cont), mb) else At(l.LandingAt(h), mb);
             Lands(ctx, code, f, fuel - 1, Stepped(l, o.env), c1, mb, h, ks, ms)
    ensures Lands(ctx, code, f, fuel, AfterOutcome(l, o, fuel), At(h, m), m, h + |l.Text()|, k, m')
    decreases fuel, l.body, 0
  {
    hide TreeCtx, Related, Holds, Loop.Text, StmtCode, TestCode, OptionalCode, Once, SmallCompares, Exec, Stepped, EvalExpr, ExecLoop, Kept,
         Loop.LandingAt;
    var c1 := if o.Continued? then Arrive(code, Label(l.cont), mb) else At(l.LandingAt(h), mb);
    var n := Stepped(l, o.env);
    StepOutcomes(l, o.env);
    if n.Normal? {
      LandsNormal(ctx, code, f, fuel - 1, n.env, c1, mb, h, ks, ms);
      NextsAdd(code, k1, ks, At(h, m));
      var kr, mr := SimLoop(ctx, code, h, l, f, n.env, ms, fuel - 1);
      k, m' := k1 + ks + kr, mr;
      LandsAfter(ctx, code, f, fuel, ExecLoop(l.test, l.step, l.body, n.env, fuel - 1), At(h, m), m, k1 + ks, At(h, ms), ms, fuel - 1,
                 h + |l.Text()|, kr, mr);
    } else {
      k, m' := k1 + ks, ms;
      LandsAfter(ctx, code, f, fuel, n, At(h, m), m, k1, c1, mb, fuel - 1, h, ks, ms);
      LandsAbrupt(ctx, code, f, fuel, n, At(h, m), m, h, h + |l.Text()|, k, m');
    }
  }

  // ----- statements -----

  lemma {:induction false} SimStmt(ctx: E.Ctx, code: Code, p: nat, s: Stmt, id: nat, f: Frames, c: Code, next: nat, env: Ir.Env, m: Machine,
                                   fuel: nat) returns (k: nat, m': Machine)
    requires Ready(ctx, code) && Related(ctx, env, m) && StmtCode(ctx.symbols, s, id, f) == Some((c, next)) && Holds(code, p, c)
    ensures Lands(ctx, code, f, fuel, Exec(s, env, fuel), At(p, m), m, p + |c|, k, m')
    decreases fuel, s, 0
  {
    hide TreeCtx, Related, Holds, TestCode, OptionalCode, SimpleCode, ExprCode, Once, SmallCompares, ExecLoop, ExecAll, ExecArms, ExecCases,
         ExecSimple, EvalExpr, Kept, AllCode, ArmsCode, CasesCode, DispatchCode, Lands, BreakTarget, ContinueTarget, Matching, LastDefault;
    match s
    case Block(stmts) => k, m' := SimAll(ctx, code, p, stmts, id, f, c, next, env, m, fuel);
    case Do(simple) => k, m' := SimSimple(ctx, code, p, simple, c, f, env, m, fuel);
    case Return(e) => k, m' := SimReturn(ctx, code, p, e, id, f, c, env, m, fuel);
    case If(arms) => k, m' := SimIf(ctx, code, p, arms, id, f, c, next, env, m, fuel);
    case While(_, _) => k, m' := SimWhile(ctx, code, p, s, id, f, c, next, env, m, fuel);
    case For(_, _, _, _) => k, m' := SimFor(ctx, code, p, s, id, f, c, next, env, m, fuel);
    case Switch(_, _) => k, m' := SimSwitch(ctx, code, p, s, id, f, c, next, env, m, fuel);
    case Break => k, m' := SimJump(ctx, code, p, s, id, f, c, next, env, m, fuel);
    case Continue => k, m' := SimJump(ctx, code, p, s, id, f, c, next, env, m, fuel);
  }

  lemma SimJump(ctx: E.Ctx, code: Code, p: nat, s: Stmt, id: nat, f: Frames, c: Code, next: nat, env: Ir.Env, m: Machine, fuel: nat)
    returns (k: nat, m': Machine)
    requires (s.Break? || s.Continue?) && Related(ctx, env, m) && StmtCode(ctx.symbols, s, id, f) == Some((c, next)) && Holds(code, p, c)
    ensures Lands(ctx, code, f, fuel, Exec(s, env, fuel), At(p, m), m, p + |c|, k, m')
  {
    hide Related, Holds, ContinueTarget;
    StillRelated(ctx, env, m);
    JumpStep(code, p, c[0].target, m);
    k, m' := 1, m;
  }

  lemma SimReturn(ctx: E.Ctx, code: Code, p: nat, e: Option<Expr>, id: nat, f: Frames, c: Code, env: Ir.Env, m: Machine, fuel: nat)
    returns (k: nat, m': Machine)
    requires TreeCtx(ctx) && Related(ctx, env, m) && StmtCode(ctx.symbols, Return(e), id, f) == Some((c, id)) && Holds(code, p, c)
    ensures Lands(ctx, code, f, fuel, Exec(Return(e), env, fuel), At(p, m), m, p + |c|, k, m')
  {
    hide TreeCtx, Related, Holds, ExprCode, EvalExpr;
    var note := [Op(A.Comment)];
    if e.None? {
      assert c == note + (note + [Jmp(Exit)]);
      HoldsParts(code, p, note, note + [Jmp(Exit)]);
      OneOp(code, p, A.Comment, m);
      StillRelated(ctx, env, m);
      var k1, m1 := NoteJump(code, p + 1, m);
      NextsAdd(code, 1, k1, At(p, m));
      k, m' := 1 + k1, m1;
    } else {
      var x := ExprCode(ctx.symbols, e.value).value;
      assert c == note + x + (note + [Jmp(Exit)]);
      HoldsParts(code, p, note + x, note + [Jmp(Exit)]);
      HoldsParts(code, p, note, x);
      OneOp(code, p, A.Comment, m);
      var k1, m1 := SimExpr(ctx, code, p + 1, e.value, x, env, m);
      NextsAdd(code, 1, k1, At(p, m));
      if EvalExpr(e.value, env).Some? {
        var k2, m2 := NoteJump(code, p + 1 + |x|, m1);
        NextsAdd(code, 1 + k1, k2, At(p, m));
        k, m' := 1 + k1 + k2, m2;
      } else {
        k, m' := 1 + k1, m1;
      }
    }
  }

  lemma NoteJump(code: Code, p: nat, m: Machine) returns (k: nat, m': Machine)
    requires Holds(code, p, [Op(A.Comment)] + [Jmp(Exit)])
    ensures Nexts(code, k, At(p, m)) == Arrive(code, Exit, m') && m' == m
  {
    HoldsParts(code, p, [Op(A.Comment)], [Jmp(Exit)]);
    OneOp(code, p, A.Comment, m);
    JumpStep(code, p + 1, Exit, m);
    NextsAdd(code, 1, 1, At(p, m));
    k, m' := 2, m;
  }

  lemma {:induction false} SimAll(ctx: E.Ctx, code: Code, p: nat, s: Stmts, id: nat, f: Frames, c: Code, next: nat, env: Ir.Env, m: Machine,
                                  fuel: nat) returns (k: nat, m': Machine)
    requires Ready(ctx, code) && Related(ctx, env, m) && AllCode(ctx.symbols, s, id, f) == Some((c, next)) && Holds(code, p, c)
    ensures Lands(ctx, code, f, fuel, ExecAll(s, env, fuel), At(p, m), m, p + |c|, k, m')
    decreases fuel, s, 0
  {
    hide TreeCtx, Related, Holds, StmtCode, Once, SmallCompares, Exec, BreakTarget, ContinueTarget;
    match s
    case Nil =>
      k, m' := 0, m;
      StillRelated(ctx, env, m);
    case Cons(head, tail) =>
      var a := StmtCode(ctx.symbols, head, id, f).value;
      var b := AllCode(ctx.symbols, tail, a.1, f).value;
      HoldsParts(code, p, a.0, b.0);
      hide AllCode, Lands;
      var k1, m1 := SimStmt(ctx, code, p, head, id, f, a.0, a.1, env, m, fuel);
      var o := Exec(head, env, fuel);
      if o.Normal? {
        LandsNormal(ctx, code, f, fuel, o.env, At(p, m), m, p + |a.0|, k1, m1);
        var k2, m2 := SimAll(ctx, code, p + |a.0|, tail, a.1, f, b.0, b.1, o.env, m1, fuel);
        LandsThen(ctx, code, f, fuel, o.env, At(p, m), m, p + |a.0|, k1, m1, ExecAll(tail, o.env, fuel), p + |c|, k2, m2);
        k, m' := k1 + k2, m2;
      } else {
        k, m' := k1, m1;
        LandsAbrupt(ctx, code, f, fuel, o, At(p, m), m, p + |a.0|, p + |c|, k, m');
      }
  }

  lemma {:induction false} SimIf(ctx: E.Ctx, code: Code, p: nat, a: Arms, id: nat, f: Frames, c: Code, next: nat, env: Ir.Env, m: Machine,
                                 fuel: nat) returns (k: nat, m': Machine)
    requires Ready(ctx, code) && Related(ctx, env, m) && StmtCode(ctx.symbols, If(a), id, f) == Some((c, next)) && Holds(code, p, c)
    ensures Lands(ctx, code, f, fuel, ExecArms(a, env, fuel), At(p, m), m, p + |c|, k, m')
    decreases fuel, a, 1
  {
    hide TreeCtx, Related, Holds, ArmsCode, Once, SmallCompares, ExecArms, Lands, Kept;
    var r := ArmsCode(ctx.symbols, a, id + 1, f, Label(id)).value;
    HoldsParts(code, p, r.0, [Def(Label(id))]);
    var end := p + |r.0|;
    k, m' := SimArms(ctx, code, p, a, id + 1, f, Label(id), end, r.0, r.1, env, m, fuel);
    var o := ExecArms(a, env, fuel);
    if o.Normal? {
      LandsNormal(ctx, code, f, fuel, o.env, At(p, m), m, end, k, m');
      DefStep(code, end, id, m');
      NextsAdd(code, k, 1, At(p, m));
      k := k + 1;
      NormalLands(ctx, code, f, fuel, o.env, At(p, m), m, p + |c|, k, m');
    } else {
      LandsAbrupt(ctx, code, f, fuel, o, At(p, m), m, end, p + |c|, k, m');
    }
  }

  lemma NormalLands(ctx: E.Ctx, code: Code, f: Frames, fuel: nat, env: Ir.Env, c0: Config, m: Machine, end: nat, k: nat, m': Machine)
    requires Nexts(code, k, c0) == At(end, m') && Kept(ctx, env, m, m')
    ensures Lands(ctx, code, f, fuel, Normal(env), c0, m, end, k, m')
  {}

  /** The arms; whichever runs, control ends at the end label's position. */
  lemma {:induction false} SimArms(ctx: E.Ctx, code: Code, p: nat, a: Arms, id: nat, f: Frames, t: Target, end: nat, c: Code, next: nat,
                                   env: Ir.Env, m: Machine, fuel: nat) returns (k: nat, m': Machine)
    requires Ready(ctx, code) && Related(ctx, env, m) && ArmsCode(ctx.symbols, a, id, f, t) == Some((c, next)) && Holds(code, p, c)
    requires end == p + |c| && Holds(code, end, [Def(t)])
    ensures Lands(ctx, code, f, fuel, ExecArms(a, env, fuel), At(p, m), m, end, k, m')
    decreases fuel, a, 0
  {
    hide TreeCtx, Related, Holds, StmtCode, TestCode, Once, SmallCompares, Exec, Kept, EvalExpr, BreakTarget, ContinueTarget;
    match a
    case Else(None) =>
      k, m' := 0, m;
      StillRelated(ctx, env, m);
    case Else(Some(s)) => k, m' := SimStmt(ctx, code, p, s, id, f, c, next, env, m, fuel);
    case Arm(cond, body, rest) =>
      var test := TestCode(ctx.symbols, Some(cond), Label(id)).value;
      var b := StmtCode(ctx.symbols, body, id + 1, f).value;
      var r := ArmsCode(ctx.symbols, rest, b.1, f, t).value;
      ArmParts(code, p, test, b.0, t, id, r.0);
      var kt, mt := SimTest(ctx, code, p, Some(cond), Label(id), test, env, m);
      var v := EvalExpr(cond, env);
      if v.None? {
        k, m' := kt, mt;
      } else {
        KeptParts(ctx, env, m, mt);
        var pb := p + |test|;
        var pr := pb + |b.0| + 2;
        if v.value != 0 {
          var kb, mb := SimStmt(ctx, code, pb, body, id + 1, f, b.0, b.1, env, mt, fuel);
          k, m' := ArmTaken(ctx, code, p, pb, pb + |b.0|, f, t, end, Exec(body, env, fuel), m, kt, mt, kb, mb, fuel);
        } else {
          ArriveHolds(code, pr - 1, Label(id), mt);
          DefStep(code, pr - 1, id, mt);
          NextsAdd(code, kt, 1, At(p, m));
          var kr, mr := SimArms(ctx, code, pr, rest, b.1, f, t, end, r.0, r.1, env, mt, fuel);
          k, m' := kt + 1 + kr, mr;
          LandsAfter(ctx, code, f, fuel, ExecArms(rest, env, fuel), At(p, m), m, kt + 1, At(pr, mt), mt, fuel, end, kr, mr);
        }
      }
  }

  lemma ArmParts(code: Code, p: nat, test: Code, b: Code, t: Target, id: nat, r: Code)
    requires Holds(code, p, test + b + [Jmp(t), Def(Label(id))] + r)
    ensures Holds(code, p, test) && Holds(code, p + |test|, b) && Holds(code, p + |test| + |b|, [Jmp(t)])
    ensures Holds(code, p + |test| + |b| + 1, [Def(Label(id))]) && Holds(code, p + |test| + |b| + 2, r)
  {
    hide Holds;
    assert [Jmp(t), Def(Label(id))] == [Jmp(t)] + [Def(Label(id))];
    HoldsParts(code, p, test + b + [Jmp(t), Def(Label(id))], r);
    HoldsParts(code, p, test + b, [Jmp(t), Def(Label(id))]);
    HoldsParts(code, p, test, b);
    HoldsParts(code, p + |test| + |b|, [Jmp(t)], [Def(Label(id))]);
  }

  /** The body of a taken arm, then the jump to the end. */
  lemma ArmTaken(ctx: E.Ctx, code: Code, p: nat, pb: nat, pj: nat, f: Frames, t: Target, end: nat, o: Outcome, m: Machine,
                 k1: nat, m1: Machine, kb: nat, mb: Machine, fuel: nat) returns (k: nat, m': Machine)
    requires Once(code) && Holds(code, pj, [Jmp(t)]) && Holds(code, end, [Def(t)])
    requires Nexts(code, k1, At(p, m)) == At(pb, m1) && m1.stack == m.stack
    requires Lands(ctx, code, f, fuel, o, At(pb, m1), m1, pj, kb, mb)
    ensures Lands(ctx, code, f, fuel, o, At(p, m), m, end, k, m')
  {
    hide Holds, Once, Kept, Lands;
    LandsAfter(ctx, code, f, fuel, o, At(p, m), m, k1, At(pb, m1), m1, fuel, pj, kb, mb);
    k, m' := k1 + kb, mb;
    if o.Normal? {
      LandsNormal(ctx, code, f, fuel, o.env, At(p, m), m, pj, k, mb);
      JumpStep(code, pj, t, mb);
      ArriveHolds(code, end, t, mb);
      NextsAdd(code, k, 1, At(p, m));
      k := k + 1;
      NormalLands(ctx, code, f, fuel, o.env, At(p, m), m, end, k, mb);
    } else {
      LandsAbrupt(ctx, code, f, fuel, o, At(p, m), m, pj, end, k, mb);
    }
  }

  lemma {:induction false} SimWhile(ctx: E.Ctx, code: Code, p: nat, s: Stmt, id: nat, f: Frames, c: Code, next: nat, env: Ir.Env, m: Machine,
                                    fuel: nat) returns (k: nat, m': Machine)
    requires s.While? && Ready(ctx, code) && Related(ctx, env, m)
    requires StmtCode(ctx.symbols, s, id, f) == Some((c, next)) && Holds(code, p, c)
    ensures Lands(ctx, code, f, fuel, Exec(s, env, fuel), At(p, m), m, p + |c|, k, m')
    decreases fuel, s.body, 3
  {
    var test := TestCode(ctx.symbols, Some(s.cond), Label(id + 1)).value;
    var b := StmtCode(ctx.symbols, s.body, id + 2, f + [Frame(Label(id + 1), Some(Label(id)))]).value;
    var l := Loop(Some(s.cond), None, s.body, id, id, id + 1, false, test, b.0, [], id + 2, b.1);
    hide TreeCtx, Related, Holds, TestCode, Once, SmallCompares, ExecLoop, Lands;
    assert c == l.Text();
    assert l.Compiled(ctx.symbols, f);
    hide StmtCode, Loop.Text, Loop.Compiled;
    k, m' := SimLoop(ctx, code, p, l, f, env, m, fuel);
  }

  lemma {:induction false} SimFor(ctx: E.Ctx, code: Code, p: nat, s: Stmt, id: nat, f: Frames, c: Code, next: nat, env: Ir.Env, m: Machine,
                                  fuel: nat) returns (k: nat, m': Machine)
    requires s.For? && Ready(ctx, code) && Related(ctx, env, m)
    requires StmtCode(ctx.symbols, s, id, f) == Some((c, next)) && Holds(code, p, c)
    ensures Lands(ctx, code, f, fuel, Exec(s, env, fuel), At(p, m), m, p + |c|, k, m')
    decreases fuel, s.body, 3
  {
    hide TreeCtx, Related, Holds, TestCode, Once, SmallCompares, ExecLoop, Lands, SimpleCode, ExecSimple, Kept;
    var i, l := ForLoop(ctx.symbols, s, id, f, c, next);
    HoldsParts(code, p, i, l.Text());
    hide StmtCode, Loop.Text, Loop.Compiled;
    var k1, m1 := 0, m;
    StillRelated(ctx, env, m);
    var o := if s.init.Some? then ExecSimple(s.init.value, env) else Normal(env);
    if s.init.Some? {
      k1, m1 := SimSimple(ctx, code, p, s.init.value, i, f, env, m, fuel);
    } else {
      NormalLands(ctx, code, f, fuel, env, At(p, m), m, p, 0, m);
    }
    if o.Normal? {
      LandsNormal(ctx, code, f, fuel, o.env, At(p, m), m, p + |i|, k1, m1);
      var k2, m2 := SimLoop(ctx, code, p + |i|, l, f, o.env, m1, fuel);
      LandsThen(ctx, code, f, fuel, o.env, At(p, m), m, p + |i|, k1, m1, ExecLoop(s.test, s.step, s.body, o.env, fuel), p + |c|, k2, m2);
      k, m' := k1 + k2, m2;
    } else {
      k, m' := k1, m1;
      LandsAbrupt(ctx, code, f, fuel, o, At(p, m), m, p + |i|, p + |c|, k, m');
    }
  }

  /** The loop inside a for statement. */
  lemma ForLoop(sym: Symbols, s: Stmt, id: nat, f: Frames, c: Code, next: nat) returns (i: Code, l: Loop)
    requires s.For? && StmtCode(sym, s, id, f) == Some((c, next))
    ensures OptionalCode(sym, s.init) == Some(i) && c == i + l.Text() && l.Compiled(sym, f)
    ensures l.test == s.test && l.step == s.step && l.body == s.body
  {
    hide TestCode, SimpleCode;
    i := OptionalCode(sym, s.init).value;
    var t, n := TestCode(sym, s.test, Label(id + 2)).value, OptionalCode(sym, s.step).value;
    var b := StmtCode(sym, s.body, id + 3, f + [Frame(Label(id + 2), Some(Label(id + 1)))]).value;
    l := Loop(s.test, s.step, s.body, id, id + 1, id + 2, true, t, b.0, n, id + 3, b.1);
    assert l.Text() == [Def(Label(id))] + t + b.0 + [Def(Label(id + 1))] + n + [Jmp(Label(id)), Def(Label(id + 2))];
  }

  // ----- switch -----

  lemma SwitchParts(code: Code, p: nat, c: Code, d: Code, t: Target, b: Code, id: nat)
    requires Holds(code, p, c + [Op(A.Mov(A.R10, A.R(A.RAX)))] + d + [Jmp(t)] + b + [Def(Label(id))])
    ensures Holds(code, p, c) && Holds(code, p + |c|, [Op(A.Mov(A.R10, A.R(A.RAX)))]) && Holds(code, p + |c| + 1, d)
    ensures Holds(code, p + |c| + 1 + |d|, [Jmp(t)]) && Holds(code, p + |c| + 2 + |d|, b)
    ensures Holds(code, p + |c| + 2 + |d| + |b|, [Def(Label(id))])
  {
    hide Holds;
    var save := [Op(A.Mov(A.R10, A.R(A.RAX)))];
    HoldsParts(code, p, c + save + d + [Jmp(t)] + b, [Def(Label(id))]);
    HoldsParts(code, p, c + save + d + [Jmp(t)], b);
    HoldsParts(code, p, c + save + d, [Jmp(t)]);
    HoldsParts(code, p, c + save, d);
    HoldsParts(code, p, c, save);
  }

  /** The subject's value in r10. */
  lemma SaveStep(ctx: E.Ctx, code: Code, p: nat, env: Ir.Env, m: Machine) returns (m': Machine)
    requires TreeCtx(ctx) && Related(ctx, env, m) && Holds(code, p, [Op(A.Mov(A.R10, A.R(A.RAX)))])
    ensures Nexts(code, 1, At(p, m)) == At(p + 1, m') && Kept(ctx, env, m, m') && m'.core.Get(A.R10) == m.Rax()
  {
    OneOp(code, p, A.Mov(A.R10, A.R(A.RAX)), m);
    m' := m.(core := m.core.Set(A.R10, m.Rax()));
    SameCore(ctx, env, m, m'.core);
  }

  /** Where the dispatch and the jump after it send control. */
  function Chosen(c: Cases, v: Word): Option<nat> {
    if Matching(c, v).Some? then Matching(c, v) else LastDefault(c)
  }

  lemma SimChoice(ctx: E.Ctx, code: Code, p: nat, cases: Cases, id: nat, d: Code, v: Word, env: Ir.Env, m: Machine) returns (k: nat, m': Machine)
    requires TreeCtx(ctx) && Related(ctx, env, m) && m.core.Get(A.R10) == v && SmallCompares(code)
    requires DispatchCode(cases, id + 1) == Some(d) && Holds(code, p, d)
    requires var t := LastDefault(cases); Holds(code, p + |d|, [Jmp(if t.Some? then Label(id + 1 + t.value) else Label(id))])
    ensures Nexts(code, k, At(p, m)) ==
            Arrive(code, if Chosen(cases, v).Some? then Label(id + 1 + Chosen(cases, v).value) else Label(id), m')
    ensures Kept(ctx, env, m, m')
  {
    hide TreeCtx, Related, Holds, SmallCompares, Kept, Matching, LastDefault, DispatchCode;
    k, m' := SimDispatch(ctx, code, p, cases, id + 1, d, v, env, m);
    if Matching(cases, v).None? {
      var t := LastDefault(cases);
      JumpStep(code, p + |d|, if t.Some? then Label(id + 1 + t.value) else Label(id), m');
      NextsAdd(code, k, 1, At(p, m));
      k := k + 1;
    }
  }

  lemma {:induction false} SimSwitch(ctx: E.Ctx, code: Code, p: nat, s: Stmt, id: nat, f: Frames, c: Code, next: nat, env: Ir.Env, m: Machine,
                                     fuel: nat) returns (k: nat, m': Machine)
    requires s.Switch? && Ready(ctx, code) && Related(ctx, env, m)
    requires StmtCode(ctx.symbols, s, id, f) == Some((c, next)) && Holds(code, p, c)
    ensures Lands(ctx, code, f, fuel, Exec(s, env, fuel), At(p, m), m, p + |c|, k, m')
    decreases fuel, s.cases, 2
  {
    hide TreeCtx, Related, Holds, Once, SmallCompares, ExecCases, EvalExpr, ExprCode, CasesCode, DispatchCode, Kept, Matching, LastDefault,
         BreakTarget, ContinueTarget, Lands;
    var x := ExprCode(ctx.symbols, s.subject).value;
    var d := DispatchCode(s.cases, id + 1).value;
    var b := CasesCode(ctx.symbols, s.cases, id + 1, id + 1 + CaseCount(s.cases), f + [Frame(Label(id), None)]).value;
    var t := LastDefault(s.cases);
    SwitchParts(code, p, x, d, if t.Some? then Label(id + 1 + t.value) else Label(id), b.0, id);
    var k1, m1 := SimExpr(ctx, code, p, s.subject, x, env, m);
    var v := EvalExpr(s.subject, env);
    if v.None? {
      k, m' := k1, m1;
      FaultLands(ctx, code, f, fuel, env, p, p + |x|, p + |c|, m, k1, m1);
    } else {
      YieldsSome(ctx, code, p, p + |x|, env, m, v.value, k1, m1);
      var m2 := SaveStep(ctx, code, p + |x|, env, m1);
      KeptParts(ctx, env, m, m1);
      KeptParts(ctx, env, m1, m2);
      var k3, m3 := SimChoice(ctx, code, p + |x| + 1, s.cases, id, d, v.value, env, m2);
      KeptParts(ctx, env, m2, m3);
      NextsAdd(code, k1, 1, At(p, m));
      NextsAdd(code, k1 + 1, k3, At(p, m));
      k, m' := SimChosen(ctx, code, p + |x| + 2 + |d|, s.cases, id, f, b.0, b.1, Chosen(s.cases, v.value), env, At(p, m), m,
                         k1 + 1 + k3, m3, fuel);
    }
  }

  lemma FaultLands(ctx: E.Ctx, code: Code, f: Frames, fuel: nat, env: Ir.Env, p: nat, mid: nat, end: nat, m: Machine, k: nat, m': Machine)
    requires Yields(ctx, code, p, mid, env, m, None, k, m')
    ensures Lands(ctx, code, f, fuel, Faults(env), At(p, m), m, end, k, m')
  {}

  /** What the switch does once a case is chosen, or none. */
  function ChosenOutcome(cases: Cases, chosen: Option<nat>, env: Ir.Env, fuel: nat): Outcome {
    if chosen.None? then Normal(env)
    else
      var o := ExecCases(cases, chosen.value, env, fuel);
      if o.Broke? then Normal(o.env) else o
  }

  lemma {:induction false} SimChosen(ctx: E.Ctx, code: Code, p: nat, cases: Cases, id: nat, f: Frames, b: Code, next: nat, chosen: Option<nat>,
                                     env: Ir.Env, c0: Config, m: Machine, k1: nat, m1: Machine, fuel: nat) returns (k: nat, m': Machine)
    requires Ready(ctx, code) && Related(ctx, env, m1) && m1.stack == m.stack
    requires CasesCode(ctx.symbols, cases, id + 1, id + 1 + CaseCount(cases), f + [Frame(Label(id), None)]) == Some((b, next))
    requires Holds(code, p, b) && Holds(code, p + |b|, [Def(Label(id))]) && (chosen.Some? ==> chosen.value < CaseCount(cases))
    requires Nexts(code, k1, c0) == Arrive(code, if chosen.Some? then Label(id + 1 + chosen.value) else Label(id), m1)
    ensures Lands(ctx, code, f, fuel, ChosenOutcome(cases, chosen, env, fuel), c0, m, p + |b| + 1, k, m')
    decreases fuel, cases, 1
  {
    hide TreeCtx, Related, Holds, Once, SmallCompares, ExecCases, CasesCode, Kept, Lands;
    var end := p + |b|;
    var f' := f + [Frame(Label(id), None)];
    SwitchTargets(f, id);
    if chosen.None? {
      StillRelated(ctx, env, m1);
      KeptStack(ctx, env, m, m1, m1);
      k := PastEnd(ctx, code, end, id, f, env, c0, m, k1, m1, fuel);
      m' := m1;
    } else {
      FirstCase(ctx, code, p, cases, id + 1, id + 1 + CaseCount(cases), f', b, next, chosen.value, m1);
      var c1 := Arrive(code, Label(id + 1 + chosen.value), m1);
      var k2, m2 := SimCases(ctx, code, p, cases, id + 1, id + 1 + CaseCount(cases), f', b, next, chosen.value, env, m1, fuel);
      var o := ExecCases(cases, chosen.value, env, fuel);
      LandsAfter(ctx, code, f', fuel, o, c0, m, k1, c1, m1, fuel, end, k2, m2);
      k, m' := k1 + k2, m2;
      if o.Normal? {
        LandsNormal(ctx, code, f', fuel, o.env, c0, m, end, k, m2);
        ArriveHolds(code, end, Label(id), m2);
        k := PastEnd(ctx, code, end, id, f, o.env, c0, m, k, m2, fuel);
      } else if o.Broke? {
        LandsBroke(ctx, code, f', fuel, o.env, c0, m, end, k, m2);
        k := PastEnd(ctx, code, end, id, f, o.env, c0, m, k, m2, fuel);
      } else {
        LandsAbrupt(ctx, code, f', fuel, o, c0, m, end, end + 1, k, m2);
        LandsThrough(ctx, code, f', f, fuel, o, c0, m, end + 1, k, m2);
      }
    }
  }

  lemma SwitchTargets(f: Frames, id: nat)
    ensures BreakTarget(f + [Frame(Label(id), None)]) == Some(Label(id))
    ensures ContinueTarget(f + [Frame(Label(id), None)]) == ContinueTarget(f)
  {
    assert (f + [Frame(Label(id), None)])[..|f|] == f;
  }

  lemma LandsBroke(ctx: E.Ctx, code: Code, f: Frames, fuel: nat, env: Ir.Env, c0: Config, m: Machine, end: nat, k: nat, m': Machine)
    requires Lands(ctx, code, f, fuel, Broke(env), c0, m, end, k, m')
    ensures BreakTarget(f).Some? && Nexts(code, k, c0) == Arrive(code, BreakTarget(f).value, m') && Kept(ctx, env, m, m')
  {}

  /** A continue passes through a switch. */
  lemma LandsThrough(ctx: E.Ctx, code: Code, f: Frames, f': Frames, fuel: nat, o: Outcome, c0: Config, m: Machine, end: nat, k: nat, m': Machine)
    requires Lands(ctx, code, f, fuel, o, c0, m, end, k, m') && !o.Broke? && ContinueTarget(f) == ContinueTarget(f')
    ensures Lands(ctx, code, f', fuel, o, c0, m, end, k, m')
  {}

  /** Through the end label. */
  lemma PastEnd(ctx: E.Ctx, code: Code, end: nat, id: nat, f: Frames, env: Ir.Env, c0: Config, m: Machine, k1: nat, m1: Machine, fuel: nat)
    returns (k: nat)
    requires Once(code) && Holds(code, end, [Def(Label(id))]) && Nexts(code, k1, c0) == Arrive(code, Label(id), m1) && Kept(ctx, env, m, m1)
    ensures Lands(ctx, code, f, fuel, Normal(env), c0, m, end + 1, k, m1)
  {
    hide Holds, Once, Kept;
    ArriveHolds(code, end, Label(id), m1);
    DefStep(code, end, id, m1);
    NextsAdd(code, k1, 1, c0);
    k := k1 + 1;
  }

  lemma CaseParts(code: Code, p: nat, first: nat, b: Code, r: Code)
    requires Holds(code, p, [Def(Label(first))] + b + r)
    ensures Holds(code, p, [Def(Label(first))]) && Holds(code, p + 1, b) && Holds(code, p + 1 + |b|, r)
  {
    hide Holds;
    HoldsParts(code, p, [Def(Label(first))] + b, r);
    HoldsParts(code, p, [Def(Label(first))], b);
  }

  /** The first case's label is where its code starts. */
  lemma FirstCase(ctx: E.Ctx, code: Code, p: nat, c: Cases, first: nat, id: nat, f: Frames, cc: Code, next: nat, start: nat, m: Machine)
    requires Once(code) && CasesCode(ctx.symbols, c, first, id, f) == Some((cc, next)) && Holds(code, p, cc)
    ensures start == 0 && c.Case? ==> Arrive(code, Label(first), m) == At(p, m)
  {
    hide Holds, Once, StmtCode;
    if start == 0 && c.Case? {
      var b := StmtCode(ctx.symbols, c.body, id, f).value;
      CaseParts(code, p, first, b.0, CasesCode(ctx.symbols, c.rest, first + 1, b.1, f).value.0);
      ArriveHolds(code, p, Label(first), m);
    }
  }

  /** From the chosen case's label, or from the start of what is left, through the rest. */
  lemma {:induction false} SimCases(ctx: E.Ctx, code: Code, p: nat, c: Cases, first: nat, id: nat, f: Frames, cc: Code, next: nat, start: nat,
                                    env: Ir.Env, m: Machine, fuel: nat) returns (k: nat, m': Machine)
    requires Ready(ctx, code) && Related(ctx, env, m) && CasesCode(ctx.symbols, c, first, id, f) == Some((cc, next)) && Holds(code, p, cc)
    requires start == 0 || start < CaseCount(c)
    ensures Lands(ctx, code, f, fuel, ExecCases(c, start, env, fuel), if start == 0 then At(p, m) else Arrive(code, Label(first + start), m),
                  m, p + |cc|, k, m')
    decreases fuel, c, 0
  {
    hide TreeCtx, Related, Holds, Once, SmallCompares, Exec, StmtCode, Kept, Lands;
    match c
    case NoCase =>
      k, m' := 0, m;
      StillRelated(ctx, env, m);
      NormalLands(ctx, code, f, fuel, env, At(p, m), m, p, 0, m);
    case Case(_, body, rest) =>
      var b := StmtCode(ctx.symbols, body, id, f).value;
      var r := CasesCode(ctx.symbols, rest, first + 1, b.1, f).value;
      CaseParts(code, p, first, b.0, r.0);
      var pr := p + 1 + |b.0|;
      if start > 0 {
        FirstCase(ctx, code, pr, rest, first + 1, b.1, f, r.0, r.1, start - 1, m);
        k, m' := SimCases(ctx, code, pr, rest, first + 1, b.1, f, r.0, r.1, start - 1, env, m, fuel);
      } else {
        DefStep(code, p, first, m);
        var kb, mb := SimStmt(ctx, code, p + 1, body, id, f, b.0, b.1, env, m, fuel);
        var o := Exec(body, env, fuel);
        LandsAfter(ctx, code, f, fuel, o, At(p, m), m, 1, At(p + 1, m), m, fuel, pr, kb, mb);
        if o.Normal? {
          LandsNormal(ctx, code, f, fuel, o.env, At(p, m), m, pr, 1 + kb, mb);
          var kr, mr := SimCases(ctx, code, pr, rest, first + 1, b.1, f, r.0, r.1, 0, o.env, mb, fuel);
          LandsThen(ctx, code, f, fuel, o.env, At(p, m), m, pr, 1 + kb, mb, ExecCases(rest, 0, o.env, fuel), p + |cc|, kr, mr);
          k, m' := 1 + kb + kr, mr;
        } else {
          k, m' := 1 + kb, mb;
          LandsAbrupt(ctx, code, f, fuel, o, At(p, m), m, pr, p + |cc|, k, m');
        }
      }
  }
}
