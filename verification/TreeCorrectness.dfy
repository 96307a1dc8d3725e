/** Whole function bodies of the tree compiler: what it accepts, and that accepted code runs as
    the tree means. */
module TreeCorrectness {
  import opened Words
  import opened Wrappers
  import opened StackAsm
  import opened TreeCompiler
  import opened TreeProofs
  import opened TreeSimulation
  import opened TreeCases
  import TreeLabels
  import Ir
  import A = Asm
  import E = Emitter
  import EmitterProofs

  // ----- what is accepted -----

  predicate KnownNames(sym: Symbols, e: Expr) {
    match e
    case Num(_) => true
    case Var(x) => x in sym
    case Un(_, x) => KnownNames(sym, x)
    case Bin(_, x, y) => KnownNames(sym, x) && KnownNames(sym, y)
  }

  predicate GoodSimple(sym: Symbols, s: Simple) {
    KnownNames(sym, s.value) && (s.Set? ==> s.name in sym)
  }

  /** Names are known, case values are constants, `break` stands inside a loop or switch and
      `continue` inside a loop. */
  predicate Accepted(sym: Symbols, s: Stmt, inside: bool, looping: bool)
    decreases s
  {
    match s
    case Block(stmts) => AllAccepted(sym, stmts, inside, looping)
    case Do(simple) => GoodSimple(sym, simple)
    case Return(e) => e.Some? ==> KnownNames(sym, e.value)
    case If(arms) => ArmsAccepted(sym, arms, inside, looping)
    case While(cond, body) => KnownNames(sym, cond) && Accepted(sym, body, true, true)
    case For(init, test, step, body) =>
      (init.Some? ==> GoodSimple(sym, init.value)) && (test.Some? ==> KnownNames(sym, test.value)) &&
      (step.Some? ==> GoodSimple(sym, step.value)) && Accepted(sym, body, true, true)
    case Switch(subject, cases) => KnownNames(sym, subject) && CasesAccepted(sym, cases, looping)
    case Break => inside
    case Continue => looping
  }

  predicate AllAccepted(sym: Symbols, s: Stmts, inside: bool, looping: bool)
    decreases s
  {
    s.Cons? ==> Accepted(sym, s.head, inside, looping) && AllAccepted(sym, s.tail, inside, looping)
  }

  predicate ArmsAccepted(sym: Symbols, a: Arms, inside: bool, looping: bool)
    decreases a
  {
    match a
    case Else(None) => true
    case Else(Some(s)) => Accepted(sym, s, inside, looping)
    case Arm(cond, body, rest) =>
      KnownNames(sym, cond) && Accepted(sym, body, inside, looping) && ArmsAccepted(sym, rest, inside, looping)
  }

  predicate CasesAccepted(sym: Symbols, c: Cases, looping: bool)
    decreases c
  {
    c.Case? ==>
      (c.value.Some? ==> Foldable(c.value.value)) && Accepted(sym, c.body, true, looping) && CasesAccepted(sym, c.rest, looping)
  }

  lemma {:induction false} ExprAccepted(sym: Symbols, e: Expr)
    ensures ExprCode(sym, e).Some? <==> KnownNames(sym, e)
  {
    match e
    case Num(_) =>
    case Var(_) =>
    case Un(_, x) => ExprAccepted(sym, x);
    case Bin(op, x, y) =>
      ExprAccepted(sym, x);
      ExprAccepted(sym, y);
      hide E.RegisterCode;
  }

  lemma SimpleAccepted(sym: Symbols, s: Simple)
    ensures SimpleCode(sym, s).Some? <==> GoodSimple(sym, s)
  {
    ExprAccepted(sym, s.value);
    hide ExprCode;
  }

  lemma PartsAccepted(sym: Symbols, s: Option<Simple>, e: Option<Expr>, t: Target)
    ensures OptionalCode(sym, s).Some? <==> (s.Some? ==> GoodSimple(sym, s.value))
    ensures TestCode(sym, e, t).Some? <==> (e.Some? ==> KnownNames(sym, e.value))
  {
    hide ExprCode, KnownNames, SimpleCode, GoodSimple;
    if s.Some? { SimpleAccepted(sym, s.value); }
    if e.Some? { ExprAccepted(sym, e.value); }
  }

  /** The compiler fails on exactly the trees that break a rule. */
  lemma {:induction false} StmtAccepted(sym: Symbols, s: Stmt, id: nat, f: Frames)
    ensures StmtCode(sym, s, id, f).Some? <==> Accepted(sym, s, f != [], ContinueTarget(f).Some?)
    decreases s, 0
  {
    hide ExprCode, TestCode, SimpleCode, DispatchCode, AllCode, ArmsCode, CasesCode, KnownNames, GoodSimple, ContinueTarget, LastDefault;
    match s
    case Block(stmts) => AllAreAccepted(sym, stmts, id, f);
    case Do(simple) => SimpleAccepted(sym, simple);
    case Return(e) =>
      if e.Some? { ExprAccepted(sym, e.value); }
    case If(arms) => ArmsAreAccepted(sym, arms, id + 1, f, Label(id));
    case While(cond, body) =>
      PartsAccepted(sym, None, Some(cond), Label(id + 1));
      Pushed(f, Label(id + 1), Some(Label(id)));
      StmtAccepted(sym, body, id + 2, f + [Frame(Label(id + 1), Some(Label(id)))]);
    case For(init, test, step, body) =>
      PartsAccepted(sym, init, test, Label(id + 2));
      PartsAccepted(sym, step, test, Label(id + 2));
      Pushed(f, Label(id + 2), Some(Label(id + 1)));
      StmtAccepted(sym, body, id + 3, f + [Frame(Label(id + 2), Some(Label(id + 1)))]);
    case Switch(subject, cases) =>
      ExprAccepted(sym, subject);
      Pushed(f, Label(id), None);
      CasesAreAccepted(sym, cases, id + 1, id + 1, id + 1 + CaseCount(cases), f + [Frame(Label(id), None)]);
    case Break =>
    case Continue =>
  }

  lemma Pushed(f: Frames, b: Target, c: Option<Target>)
    ensures f + [Frame(b, c)] != [] && ContinueTarget(f + [Frame(b, c)]).Some? == (c.Some? || ContinueTarget(f).Some?)
  {
    assert (f + [Frame(b, c)])[..|f|] == f;
  }

  lemma {:induction false} AllAreAccepted(sym: Symbols, s: Stmts, id: nat, f: Frames)
    ensures AllCode(sym, s, id, f).Some? <==> AllAccepted(sym, s, f != [], ContinueTarget(f).Some?)
    decreases s, 0
  {
    hide StmtCode, Accepted, ContinueTarget;
    if s.Cons? {
      StmtAccepted(sym, s.head, id, f);
      var a := StmtCode(sym, s.head, id, f);
      AllAreAccepted(sym, s.tail, if a.Some? then a.value.1 else id, f);
    }
  }

  lemma {:induction false} ArmsAreAccepted(sym: Symbols, a: Arms, id: nat, f: Frames, t: Target)
    ensures ArmsCode(sym, a, id, f, t).Some? <==> ArmsAccepted(sym, a, f != [], ContinueTarget(f).Some?)
    decreases a, 0
  {
    hide StmtCode, Accepted, ContinueTarget, TestCode, KnownNames;
    match a
    case Else(None) =>
    case Else(Some(s)) => StmtAccepted(sym, s, id, f);
    case Arm(cond, body, rest) =>
      PartsAccepted(sym, None, Some(cond), Label(id));
      StmtAccepted(sym, body, id + 1, f);
      var b := StmtCode(sym, body, id + 1, f);
      ArmsAreAccepted(sym, rest, if b.Some? then b.value.1 else id, f, t);
  }

  lemma {:induction false} CasesAreAccepted(sym: Symbols, c: Cases, dispatch: nat, first: nat, id: nat, f: Frames)
    requires f != []
    ensures DispatchCode(c, dispatch).Some? && CasesCode(sym, c, first, id, f).Some? <==> CasesAccepted(sym, c, ContinueTarget(f).Some?)
    decreases c, 0
  {
    hide StmtCode, Accepted, ContinueTarget, EvalConstant, Foldable;
    if c.Case? {
      if c.value.Some? { FoldsExactly(c.value.value); }
      StmtAccepted(sym, c.body, id, f);
      var b := StmtCode(sym, c.body, id, f);
      CasesAreAccepted(sym, c.rest, dispatch + 1, first + 1, if b.Some? then b.value.1 else id, f);
    }
  }

  // ----- whole bodies -----

  /** A run of the body's meaning and a run of its code agree. */
  ghost predicate Agree(ctx: E.Ctx, o: Outcome, m: Machine, c: Config) {
    match o
    case Normal(env) => c.Halted? && Kept(ctx, env, m, c.m)
    case Returned(v, env) => c.Halted? && Kept(ctx, env, m, c.m) && (v.Some? ==> c.m.Rax() == v.value)
    case Faults(env) => c.Faulted? && EmitterProofs.SymRel(ctx, env, c.m.core)
    case _ => false
  }

  /** The code of an accepted body whose case values fit a comparison. */
  ghost predicate Compiled(ctx: E.Ctx, s: Stmt, id: nat, code: Code) {
    BodyCode(ctx.symbols, s, id) == Some(code) && SmallCases(s)
  }

  lemma ExitReached(code: Code, body: Code, m: Machine)
    requires Once(code) && code == body + [Def(Exit)]
    ensures Next(code, At(|body|, m)) == Halted(m) && Arrive(code, Exit, m) == At(|body|, m)
  {
    assert code[|body|] == Def(Exit);
    ArriveAt(code, Exit, |body|, m);
  }

  /** The code of an accepted body halts with the body's symbol values and return value and the
      stack it was given, faults where the body divides by zero, and otherwise keeps running. */
  lemma BodyCorrect(ctx: E.Ctx, s: Stmt, id: nat, code: Code, env: Ir.Env, m: Machine, fuel: nat) returns (k: nat)
    requires TreeCtx(ctx) && Compiled(ctx, s, id, code) && Related(ctx, env, m)
    ensures var o, c := Exec(s, env, fuel), Nexts(code, k, At(0, m));
            Agree(ctx, o, m, c) || (o.OutOfFuel? && k >= fuel && c.At?)
  {
    TreeLabels.BodyOnce(ctx.symbols, s, id);
    BodySmallExactly(ctx.symbols, s, id, code);
    var r := StmtCode(ctx.symbols, s, id, []).value;
    assert code == r.0 + [Def(Exit)];
    assert Holds(code, 0, r.0);
    hide StmtCode, Exec, TreeCtx, Related, Once, Kept, SmallCompares;
    var m';
    k, m' := SimStmt(ctx, code, 0, s, id, [], r.0, r.1, env, m, fuel);
    var o := Exec(s, env, fuel);
    if o.Normal? || o.Returned? {
      ExitReached(code, r.0, m');
      NextOnce(code, At(|r.0|, m'));
      NextsAdd(code, k, 1, At(0, m));
      k := k + 1;
    }
  }

  ghost predicate Diverges(s: Stmt, env: Ir.Env) { forall fuel: nat :: Exec(s, env, fuel).OutOfFuel? }

  /** The machine stops exactly when the body's meaning does, and then with the same result. */
  lemma StopsTogether(ctx: E.Ctx, s: Stmt, id: nat, code: Code, env: Ir.Env, m: Machine)
    requires TreeCtx(ctx) && Compiled(ctx, s, id, code) && Related(ctx, env, m)
    ensures Diverges(s, env) <==> forall k: nat :: Nexts(code, k, At(0, m)).At?
    ensures forall fuel: nat, k: nat :: !Exec(s, env, fuel).OutOfFuel? && !Nexts(code, k, At(0, m)).At? ==>
              Agree(ctx, Exec(s, env, fuel), m, Nexts(code, k, At(0, m)))
  {
    hide Exec, TreeCtx, Related, Compiled, Agree;
    forall fuel: nat, k: nat | !Exec(s, env, fuel).OutOfFuel? && !Nexts(code, k, At(0, m)).At?
      ensures Agree(ctx, Exec(s, env, fuel), m, Nexts(code, k, At(0, m)))
    {
      var k1 := BodyCorrect(ctx, s, id, code, env, m, fuel);
      AgreeStopped(ctx, Exec(s, env, fuel), m, Nexts(code, k1, At(0, m)));
      SameStop(code, k, k1, At(0, m));
    }
    if Diverges(s, env) {
      forall k: nat ensures Nexts(code, k, At(0, m)).At? {
        var k1 := BodyCorrect(ctx, s, id, code, env, m, k);
        AgreeStopped(ctx, Exec(s, env, k), m, Nexts(code, k1, At(0, m)));
        EarlierRuns(code, k, k1, At(0, m));
      }
    } else {
      var fuel: nat :| !Exec(s, env, fuel).OutOfFuel?;
      var k := BodyCorrect(ctx, s, id, code, env, m, fuel);
      AgreeStopped(ctx, Exec(s, env, fuel), m, Nexts(code, k, At(0, m)));
      assert !Nexts(code, k, At(0, m)).At?;
    }
  }

  lemma AgreeStopped(ctx: E.Ctx, o: Outcome, m: Machine, c: Config)
    ensures Agree(ctx, o, m, c) ==> !c.At? && !o.OutOfFuel?
  {}

  lemma SameStop(code: Code, a: nat, b: nat, c: Config)
    requires !Nexts(code, a, c).At? && !Nexts(code, b, c).At?
    ensures Nexts(code, a, c) == Nexts(code, b, c)
  {
    if a <= b {
      NextsAdd(code, a, b - a, c);
      NextsFinal(code, b - a, Nexts(code, a, c));
    } else {
      NextsAdd(code, b, a - b, c);
      NextsFinal(code, a - b, Nexts(code, b, c));
    }
  }

  lemma EarlierRuns(code: Code, a: nat, b: nat, c: Config)
    requires a <= b && Nexts(code, b, c).At?
    ensures Nexts(code, a, c).At?
  {
    NextsAdd(code, a, b - a, c);
    if !Nexts(code, a, c).At? { NextsFinal(code, b - a, Nexts(code, a, c)); }
  }
}
