/** Which trees compile to comparisons that the instruction set has: case values go into the
    dispatch unchecked, and a comparison holds 32 bits of a literal. */
module TreeCases {
  import opened Words
  import opened Wrappers
  import opened StackAsm
  import opened TreeCompiler
  import opened TreeSimulation
  import Ir
  import A = Asm
  import E = Emitter

  /** A constant between -2^31 and 2^31 - 1. */
  predicate SmallValue(e: Expr) {
    Foldable(e) ==> -0x8000_0000 <= Meant(e) <= 0x7FFF_FFFF
  }

  /** Every case value in the statement, at any depth, fits 32 bits. */
  predicate SmallCases(s: Stmt)
    decreases s
  {
    match s
    case Block(stmts) => AllSmall(stmts)
    case If(arms) => ArmsSmall(arms)
    case While(_, body) => SmallCases(body)
    case For(_, _, _, body) => SmallCases(body)
    case Switch(_, cases) => ValuesSmall(cases) && BodiesSmall(cases)
    case _ => true
  }

  predicate AllSmall(s: Stmts)
    decreases s
  {
    s.Cons? ==> SmallCases(s.head) && AllSmall(s.tail)
  }

  predicate ArmsSmall(a: Arms)
    decreases a
  {
    match a
    case Else(None) => true
    case Else(Some(s)) => SmallCases(s)
    case Arm(_, body, rest) => SmallCases(body) && ArmsSmall(rest)
  }

  predicate ValuesSmall(c: Cases) {
    c.Case? ==> (c.value.Some? ==> SmallValue(c.value.value)) && ValuesSmall(c.rest)
  }

  predicate BodiesSmall(c: Cases)
    decreases c
  {
    c.Case? ==> SmallCases(c.body) && BodiesSmall(c.rest)
  }

  // ----- the same of the code -----

  lemma SmallJoined(a: Code, b: Code)
    ensures SmallCompares(a + b) <==> SmallCompares(a) && SmallCompares(b)
  {
    forall i | 0 <= i < |a| ensures (a + b)[i] == a[i] {}
    forall i | 0 <= i < |b| ensures (a + b)[|a| + i] == b[i] {}
  }

  lemma SmallFive(a: Code, b: Code, c: Code, d: Code, e: Code)
    ensures SmallCompares(a + b + c + d + e)
      <==> SmallCompares(a) && SmallCompares(b) && SmallCompares(c) && SmallCompares(d) && SmallCompares(e)
  {
    SmallJoined(a + b + c + d, e);
    SmallJoined(a + b + c, d);
    SmallJoined(a + b, c);
    SmallJoined(a, b);
  }

  lemma {:induction false} ExprSmall(sym: Symbols, e: Expr)
    ensures ExprCode(sym, e).Some? ==> SmallCompares(ExprCode(sym, e).value)
  {
    match e
    case Num(_) =>
    case Var(_) =>
    case Un(op, x) =>
      ExprSmall(sym, x);
      if ExprCode(sym, x).Some? {
        SmallJoined([Op(A.Comment)] + ExprCode(sym, x).value, Lift(E.UnaryCode(op)));
        SmallJoined([Op(A.Comment)], ExprCode(sym, x).value);
      }
    case Bin(op, x, y) =>
      ExprSmall(sym, x);
      ExprSmall(sym, y);
      if ExprCode(sym, x).Some? && ExprCode(sym, y).Some? {
        OperatorSmall(op);
        hide ExprCode, E.RegisterCode;
        SmallFive(ExprCode(sym, x).value, [PushRax], ExprCode(sym, y).value, [Op(A.Mov(A.R10, A.R(A.RAX))), PopRax],
                  Lift(E.RegisterCode(op, A.R10)));
      }
  }

  lemma OperatorSmall(op: Ir.BinOp)
    ensures SmallCompares(Lift(E.RegisterCode(op, A.R10)))
  {
  }

  lemma PartsSmall(sym: Symbols, s: Option<Simple>, e: Option<Expr>, t: Target)
    ensures OptionalCode(sym, s).Some? ==> SmallCompares(OptionalCode(sym, s).value)
    ensures TestCode(sym, e, t).Some? ==> SmallCompares(TestCode(sym, e, t).value)
  {
    hide ExprCode;
    if s.Some? {
      ExprSmall(sym, s.value.value);
      if s.value.Set? && SimpleCode(sym, s.value).Some? {
        SmallJoined(ExprCode(sym, s.value.value).value, [Op(A.Comment), Op(E.StoreTo(s.value.name, sym[s.value.name]))]);
      }
    }
    if e.Some? {
      ExprSmall(sym, e.value);
      if ExprCode(sym, e.value).Some? { SmallJoined(ExprCode(sym, e.value).value, [Op(A.Test(A.RAX)), Jcc(A.E, t)]); }
    }
  }

  lemma {:induction false} DispatchSmall(c: Cases, first: nat)
    requires DispatchCode(c, first).Some?
    ensures SmallCompares(DispatchCode(c, first).value) <==> ValuesSmall(c)
  {
    hide EvalConstant, Foldable, Meant;
    if c.Case? {
      DispatchSmall(c.rest, first + 1);
      if c.value.Some? {
        FoldsExactly(c.value.value);
        var test := [Op(A.Cmp(A.R10, A.I(EvalConstant(c.value.value).value))), Jcc(A.E, Label(first))];
        SmallJoined(test, DispatchCode(c.rest, first + 1).value);
        assert SmallCompares(test) <==> A.Encodable(test[0].a.src);
      }
    }
  }

  /** The code's comparisons exist if and only if the tree's case values fit. */
  lemma {:induction false} StmtSmall(sym: Symbols, s: Stmt, id: nat, f: Frames)
    requires StmtCode(sym, s, id, f).Some?
    ensures SmallCompares(StmtCode(sym, s, id, f).value.0) <==> SmallCases(s)
    decreases s, 0
  {
    hide ExprCode, TestCode, OptionalCode, DispatchCode, AllCode, ArmsCode, CasesCode, SmallCompares, LastDefault, ContinueTarget;
    var c := StmtCode(sym, s, id, f).value.0;
    match s
    case Block(stmts) => AllAreSmall(sym, stmts, id, f);
    case Do(simple) => SimpleSmall(sym, simple);
    case Return(e) => ReturnSmall(sym, e, id, f);
    case If(arms) =>
      ArmsAreSmall(sym, arms, id + 1, f, Label(id));
      PlainSmall([Def(Label(id))]);
      SmallJoined(ArmsCode(sym, arms, id + 1, f, Label(id)).value.0, [Def(Label(id))]);
    case While(cond, body) =>
      PartsSmall(sym, None, Some(cond), Label(id + 1));
      var f' := f + [Frame(Label(id + 1), Some(Label(id)))];
      StmtSmall(sym, body, id + 2, f');
      PlainSmall([]);
      LoopSmall([], [Def(Label(id))], TestCode(sym, Some(cond), Label(id + 1)).value, StmtCode(sym, body, id + 2, f').value.0,
                [], [], [Jmp(Label(id)), Def(Label(id + 1))], c);
    case For(init, test, step, body) =>
      PartsSmall(sym, init, test, Label(id + 2));
      PartsSmall(sym, step, test, Label(id + 2));
      var f' := f + [Frame(Label(id + 2), Some(Label(id + 1)))];
      StmtSmall(sym, body, id + 3, f');
      LoopSmall(OptionalCode(sym, init).value, [Def(Label(id))], TestCode(sym, test, Label(id + 2)).value,
                StmtCode(sym, body, id + 3, f').value.0, [Def(Label(id + 1))], OptionalCode(sym, step).value,
                [Jmp(Label(id)), Def(Label(id + 2))], c);
    case Switch(subject, cases) => SwitchSmall(sym, subject, cases, id, f);
    case Break => PlainSmall(c);
    case Continue => PlainSmall(c);
  }

  /** Code without comparisons. */
  lemma PlainSmall(c: Code)
    requires forall i :: 0 <= i < |c| ==> !c[i].Op? || !c[i].a.Cmp?
    ensures SmallCompares(c)
  {
  }

  lemma SimpleSmall(sym: Symbols, s: Simple)
    requires SimpleCode(sym, s).Some?
    ensures SmallCompares(SimpleCode(sym, s).value)
  {
    hide SimpleCode, SmallCompares;
    PartsSmall(sym, Some(s), None, Exit);
  }

  lemma ReturnSmall(sym: Symbols, e: Option<Expr>, id: nat, f: Frames)
    requires StmtCode(sym, Return(e), id, f).Some?
    ensures SmallCompares(StmtCode(sym, Return(e), id, f).value.0)
  {
    hide ExprCode;
    if e.Some? {
      ExprSmall(sym, e.value);
      var c := ExprCode(sym, e.value).value;
      SmallJoined([Op(A.Comment)] + c, [Op(A.Comment), Jmp(Exit)]);
      SmallJoined([Op(A.Comment)], c);
    }
  }

  /** The seven pieces of a loop; only its body can hold a wide comparison. */
  lemma LoopSmall(init: Code, head: Code, test: Code, body: Code, landing: Code, step: Code, end: Code, c: Code)
    requires c == init + (head + test + body + landing + step + end)
    requires SmallCompares(init) && SmallCompares(test) && SmallCompares(step)
    requires forall i :: 0 <= i < |head + landing + end| ==> !(head + landing + end)[i].Op?
    ensures SmallCompares(c) <==> SmallCompares(body)
  {
    var rest := head + landing + end;
    assert forall i :: 0 <= i < |head| ==> rest[i] == head[i];
    assert forall i :: 0 <= i < |landing| ==> rest[|head| + i] == landing[i];
    assert forall i :: 0 <= i < |end| ==> rest[|head| + |landing| + i] == end[i];
    PlainSmall(head);
    PlainSmall(landing);
    PlainSmall(end);
    hide SmallCompares;
    SmallJoined(init, head + test + body + landing + step + end);
    SmallJoined(head + test + body + landing + step, end);
    SmallFive(head, test, body, landing, step);
  }

  lemma {:induction false} SwitchSmall(sym: Symbols, subject: Expr, cases: Cases, id: nat, f: Frames)
    requires StmtCode(sym, Switch(subject, cases), id, f).Some?
    ensures SmallCompares(StmtCode(sym, Switch(subject, cases), id, f).value.0) <==> ValuesSmall(cases) && BodiesSmall(cases)
    decreases cases, 1
  {
    hide ExprCode, DispatchCode, CasesCode, SmallCompares, LastDefault;
    var d := LastDefault(cases);
    var f' := f + [Frame(Label(id), None)];
    ExprSmall(sym, subject);
    DispatchSmall(cases, id + 1);
    CasesAreSmall(sym, cases, id + 1, id + 1 + CaseCount(cases), f');
    var save := [Op(A.Mov(A.R10, A.R(A.RAX)))];
    var jump := [Jmp(if d.Some? then Label(id + 1 + d.value) else Label(id))];
    var body := CasesCode(sym, cases, id + 1, id + 1 + CaseCount(cases), f').value.0;
    PlainSmall(save);
    PlainSmall(jump);
    PlainSmall([Def(Label(id))]);
    SmallFive(ExprCode(sym, subject).value, save, DispatchCode(cases, id + 1).value, jump, body);
    SmallJoined(ExprCode(sym, subject).value + save + DispatchCode(cases, id + 1).value + jump + body, [Def(Label(id))]);
  }

  lemma {:induction false} AllAreSmall(sym: Symbols, s: Stmts, id: nat, f: Frames)
    requires AllCode(sym, s, id, f).Some?
    ensures SmallCompares(AllCode(sym, s, id, f).value.0) <==> AllSmall(s)
    decreases s, 0
  {
    if s.Nil? {
      PlainSmall([]);
    } else {
      hide StmtCode, SmallCases, SmallCompares;
      StmtSmall(sym, s.head, id, f);
      var a := StmtCode(sym, s.head, id, f).value;
      AllAreSmall(sym, s.tail, a.1, f);
      SmallJoined(a.0, AllCode(sym, s.tail, a.1, f).value.0);
    }
  }

  lemma {:induction false} ArmsAreSmall(sym: Symbols, a: Arms, id: nat, f: Frames, t: Target)
    requires ArmsCode(sym, a, id, f, t).Some?
    ensures SmallCompares(ArmsCode(sym, a, id, f, t).value.0) <==> ArmsSmall(a)
    decreases a, 0
  {
    hide StmtCode, SmallCases, TestCode;
    match a
    case Else(None) => PlainSmall([]);
    case Else(Some(s)) => StmtSmall(sym, s, id, f);
    case Arm(cond, body, rest) =>
      PartsSmall(sym, None, Some(cond), Label(id));
      StmtSmall(sym, body, id + 1, f);
      var test, b := TestCode(sym, Some(cond), Label(id)).value, StmtCode(sym, body, id + 1, f).value;
      ArmsAreSmall(sym, rest, b.1, f, t);
      var end := [Jmp(t), Def(Label(id))];
      PlainSmall(end);
      hide SmallCompares;
      SmallJoined(test + b.0 + end, ArmsCode(sym, rest, b.1, f, t).value.0);
      SmallJoined(test + b.0, end);
      SmallJoined(test, b.0);
  }

  lemma {:induction false} CasesAreSmall(sym: Symbols, c: Cases, first: nat, id: nat, f: Frames)
    requires CasesCode(sym, c, first, id, f).Some?
    ensures SmallCompares(CasesCode(sym, c, first, id, f).value.0) <==> BodiesSmall(c)
    decreases c, 0
  {
    if c.NoCase? {
      PlainSmall([]);
    } else {
      PlainSmall([Def(Label(first))]);
      hide StmtCode, SmallCases, SmallCompares;
      StmtSmall(sym, c.body, id, f);
      var b := StmtCode(sym, c.body, id, f).value;
      CasesAreSmall(sym, c.rest, first + 1, b.1, f);
      var r := CasesCode(sym, c.rest, first + 1, b.1, f).value.0;
      SmallJoined([Def(Label(first))] + b.0, r);
      SmallJoined([Def(Label(first))], b.0);
    }
  }

  /** Of a whole body. */
  lemma BodySmallExactly(sym: Symbols, s: Stmt, id: nat, code: Code)
    requires BodyCode(sym, s, id) == Some(code)
    ensures SmallCompares(code) <==> SmallCases(s)
  {
    StmtSmall(sym, s, id, []);
    PlainSmall([Def(Exit)]);
    hide StmtCode, SmallCompares;
    SmallJoined(StmtCode(sym, s, id, []).value.0, [Def(Exit)]);
  }

  // ----- a tree that is compiled wrong -----

  /** switch (0) { case w: } */
  function WideCase(w: Word): Stmt { Switch(Num(0), Case(Some(Num(w)), Block(Nil), NoCase)) }

  function WideCode(w: Word): Code {
    [Op(A.Mov(A.RAX, A.I(0))), Op(A.Mov(A.R10, A.R(A.RAX))), Op(A.Cmp(A.R10, A.I(w))), Jcc(A.E, Label(1)), Jmp(Label(0)),
     Def(Label(1)), Def(Label(0)), Def(Exit)]
  }

  lemma WideCompiles(sym: Symbols, w: Word)
    ensures BodyCode(sym, WideCase(w), 0) == Some(WideCode(w))
  {
    var cases := Case(Some(Num(w)), Block(Nil), NoCase);
    var f := [Frame(Label(0), None)];
    assert DispatchCode(NoCase, 2) == Some([]);
    var test := [Op(A.Cmp(A.R10, A.I(w))), Jcc(A.E, Label(1))];
    assert EvalConstant(Num(w)) == Value(w) && test + [] == test;
    assert DispatchCode(cases, 1) == Some(test);
    assert LastDefault(cases).None? by { assert LastDefault(NoCase).None?; }
    assert StmtCode(sym, Block(Nil), 2, f) == Some(([], 2)) by { assert AllCode(sym, Nil, 2, f) == Some(([], 2)); }
    assert CasesCode(sym, NoCase, 2, 2, f) == Some(([], 2));
    assert [Def(Label(1))] + [] + [] == [Def(Label(1))];
    assert CasesCode(sym, cases, 1, 2, f) == Some(([Def(Label(1))], 2));
    assert CaseCount(cases) == 1 by { assert CaseCount(NoCase) == 0; }
    hide DispatchCode, CasesCode, LastDefault, CaseCount;
    assert ExprCode(sym, Num(0)) == Some([Op(A.Mov(A.RAX, A.I(0)))]);
    assert StmtCode(sym, WideCase(w), 0, []).value.0 + [Def(Exit)] == WideCode(w) by { assert [] + f == f; }
  }

  /** For every value that does not fit, the statement does nothing by its meaning, and its code stops at a comparison
      that does not exist. */
  lemma WideCaseLost(sym: Symbols, w: Word, env: Ir.Env, fuel: nat, m: Machine)
    requires !A.Fits32(w)
    ensures BodyCode(sym, WideCase(w), 0) == Some(WideCode(w)) && !SmallCases(WideCase(w))
    ensures Exec(WideCase(w), env, fuel) == Normal(env)
    ensures Nexts(WideCode(w), 3, At(0, m)) == Lost
  {
    WideCompiles(sym, w);
    var cases := Case(Some(Num(w)), Block(Nil), NoCase);
    assert EvalConstant(Num(w)) == Value(w) && w != 0;
    assert !ValuesSmall(cases);
    assert Matching(cases, 0).None? by { assert Matching(NoCase, 0).None?; }
    assert LastDefault(cases).None? by { assert LastDefault(NoCase).None?; }
    var code := WideCode(w);
    var m1 := m.(core := m.core.Set(A.RAX, 0));
    var m2 := m1.(core := m1.core.Set(A.R10, m1.Rax()));
    assert Next(code, At(0, m)) == At(1, m1) && Next(code, At(1, m1)) == At(2, m2) && Next(code, At(2, m2)) == Lost;
    hide Next, WideCode;
    NextOnce(code, At(2, m2));
    assert Nexts(code, 2, At(1, m1)) == Lost;
  }
}
