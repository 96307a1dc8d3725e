/** The tree compiler as the compiler has it: output, label counter and the two control-label
    stacks are fields that generating a statement updates. */
module TreeGenerators {
  import opened Words
  import opened Wrappers
  import opened StackAsm
  import opened TreeCompiler
  import A = Asm
  import E = Emitter

  function Zip(breaks: seq<Target>, continues: seq<Option<Target>>): (f: Frames)
    requires |breaks| == |continues|
    ensures |f| == |breaks|
  {
    seq(|breaks|, i requires 0 <= i < |breaks| => Frame(breaks[i], continues[i]))
  }

  datatype Snapshot = Snapshot(out: Code, nextLabel: nat, breaks: seq<Target>, continues: seq<Option<Target>>)

  lemma Associate(a: Code, b: Code, c: Code)
    ensures a + b + c == a + (b + c)
  {}

  lemma AppendFour(o: Code, a: Code, b: Code, c: Code, d: Code)
    ensures o + a + b + c + d == o + (a + b + c + d)
  {
    Associate(o, a, b);
    Associate(o, a + b, c);
    Associate(o, a + b + c, d);
  }

  function ForFrom(i: Option<Code>, t: Option<Code>, b: Option<(Code, nat)>, n: Option<Code>, id: nat): Option<(Code, nat)> {
    if i.None? || t.None? || b.None? || n.None? then None
    else Some((i.value + ([Def(Label(id))] + t.value + b.value.0 + [Def(Label(id + 1))] + n.value + [Jmp(Label(id)), Def(Label(id + 2))]),
               b.value.1))
  }

  lemma ForIs(sym: Symbols, s: Stmt, id: nat, f: Frames)
    requires s.For?
    ensures StmtCode(sym, s, id, f) ==
            ForFrom(OptionalCode(sym, s.init), TestCode(sym, s.test, Label(id + 2)),
                    StmtCode(sym, s.body, id + 3, f + [Frame(Label(id + 2), Some(Label(id + 1)))]), OptionalCode(sym, s.step), id)
  {
    hide TestCode, SimpleCode;
  }

  lemma ForAppends(o: Code, i: Code, t: Code, b: Code, n: Code, cond: Target, step: Target, end: Target)
    ensures o + i + [Def(cond)] + t + b + [Def(step)] + n + [Jmp(cond), Def(end)] ==
            o + (i + ([Def(cond)] + t + b + [Def(step)] + n + [Jmp(cond), Def(end)]))
  {
    AppendFour(o + i, [Def(cond)], t, b, [Def(step)]);
    Associate(o + i, [Def(cond)] + t + b + [Def(step)], n);
    Associate(o + i, [Def(cond)] + t + b + [Def(step)] + n, [Jmp(cond), Def(end)]);
    Associate(o, i, [Def(cond)] + t + b + [Def(step)] + n + [Jmp(cond), Def(end)]);
  }

  function SwitchFrom(c: Option<Code>, b: Option<(Code, nat)>): Option<(Code, nat)> {
    if c.None? || b.None? then None else Some((c.value + b.value.0, b.value.1))
  }

  /** What follows the subject of the switch whose end label is `id`. */
  function SwitchBody(sym: Symbols, cases: Cases, id: nat, f: Frames): Option<(Code, nat)> {
    var d :- DispatchCode(cases, id + 1);
    var b :- CasesCode(sym, cases, id + 1, id + 1 + CaseCount(cases), f + [Frame(Label(id), None)]);
    var last := LastDefault(cases);
    var to := if last.Some? then Label(id + 1 + last.value) else Label(id);
    Some(([Op(A.Mov(A.R10, A.R(A.RAX)))] + d + [Jmp(to)] + b.0 + [Def(Label(id))], b.1))
  }

  lemma SwitchIs(sym: Symbols, s: Stmt, id: nat, f: Frames)
    requires s.Switch?
    ensures StmtCode(sym, s, id, f) == SwitchFrom(ExprCode(sym, s.subject), SwitchBody(sym, s.cases, id, f))
  {
    hide ExprCode, DispatchCode, CasesCode, LastDefault;
    var c, d := ExprCode(sym, s.subject), DispatchCode(s.cases, id + 1);
    var b := CasesCode(sym, s.cases, id + 1, id + 1 + CaseCount(s.cases), f + [Frame(Label(id), None)]);
    if c.Some? && d.Some? && b.Some? {
      var last := LastDefault(s.cases);
      var jump := [Jmp(if last.Some? then Label(id + 1 + last.value) else Label(id))];
      var save := [Op(A.Mov(A.R10, A.R(A.RAX)))];
      SwitchAppends(c.value, save, d.value, jump, b.value.0, [Def(Label(id))]);
    }
  }

  lemma SwitchSome(sym: Symbols, s: Stmt, id: nat, f: Frames)
    requires s.Switch?
    ensures var c, b := ExprCode(sym, s.subject), SwitchBody(sym, s.cases, id, f);
            SwitchFrom(c, b) == if c.Some? && b.Some? then Some((c.value + b.value.0, b.value.1)) else None
  {
  }

  lemma SwitchAppends(o: Code, save: Code, d: Code, jump: Code, b: Code, end: Code)
    ensures o + save + d + jump + b + end == o + (save + d + jump + b + end)
  {
    AppendFour(o, save, d, jump, b);
    Associate(o, save + d + jump + b, end);
  }

  class TreeGenerator {
    const symbols: Symbols
    var out: Code
    var nextLabel: nat
    var breakStack: seq<Target>
    var continueStack: seq<Option<Target>>

    constructor (symbols: Symbols)
      ensures this.symbols == symbols && out == [] && nextLabel == 0 && Valid() && Frames() == []
    {
      this.symbols := symbols;
      out, nextLabel := [], 0;
      breakStack, continueStack := [], [];
    }

    predicate Valid()
      reads this
    {
      |breakStack| == |continueStack|
    }

    function Frames(): Frames
      requires Valid()
      reads this
    {
      Zip(breakStack, continueStack)
    }

    function Now(): Snapshot
      reads this
    {
      Snapshot(out, nextLabel, breakStack, continueStack)
    }

    /** Only output was added, and nothing is left on the stacks. */
    ghost predicate Added(before: Snapshot, code: Option<Code>, ok: bool)
      reads this
    {
      && Valid() && Now() == before.(out := out)
      && ok == code.Some? && (ok ==> out == before.out + code.value)
    }

    /** Output was added, labels were used up, and the stacks are balanced again. */
    ghost predicate Grown(before: Snapshot, r: Option<(Code, nat)>, ok: bool)
      reads this
    {
      && Valid() && ok == r.Some?
      && (ok ==> Now() == before.(out := before.out + r.value.0, nextLabel := r.value.1))
    }

    method Emit(code: Code)
      requires Valid()
      modifies `out
      ensures out == old(out) + code
    {
      out := out + code;
    }

    method GenerateLabel() returns (t: Target)
      modifies `nextLabel
      ensures t == Label(old(nextLabel)) && nextLabel == old(nextLabel) + 1
    {
      t := Label(nextLabel);
      nextLabel := nextLabel + 1;
    }

    method PushControlLabels(breaks: Target, continues: Option<Target>)
      requires Valid()
      modifies `breakStack, `continueStack
      ensures Valid() && breakStack == old(breakStack) + [breaks] && continueStack == old(continueStack) + [continues]
      ensures Frames() == old(Frames()) + [Frame(breaks, continues)]
    {
      breakStack := breakStack + [breaks];
      continueStack := continueStack + [continues];
    }

    method PopControlLabels()
      requires Valid() && breakStack != []
      modifies `breakStack, `continueStack
      ensures Valid() && breakStack == old(breakStack[..|breakStack| - 1]) && continueStack == old(continueStack[..|continueStack| - 1])
    {
      breakStack := breakStack[..|breakStack| - 1];
      continueStack := continueStack[..|continueStack| - 1];
    }

    method CurrentBreakLabel() returns (t: Option<Target>)
      requires Valid()
      ensures t == BreakTarget(Frames())
    {
      t := if breakStack == [] then None else Some(breakStack[|breakStack| - 1]);
    }

    /** From the innermost construct outwards, past those without a continue label. */
    method CurrentContinueLabel() returns (t: Option<Target>)
      requires Valid()
      ensures t == ContinueTarget(Frames())
    {
      var i := |continueStack|;
      assert Frames()[..i] == Frames();
      while i > 0
        invariant 0 <= i <= |continueStack|
        invariant ContinueTarget(Frames()[..i]) == ContinueTarget(Frames())
      {
        assert Frames()[..i][..i - 1] == Frames()[..i - 1];
        if continueStack[i - 1].Some? { return continueStack[i - 1]; }
        i := i - 1;
      }
      t := None;
    }

    method GenerateExpression(e: Expr) returns (ok: bool)
      requires Valid()
      modifies `out
      ensures Added(old(Now()), ExprCode(symbols, e), ok)
      decreases e
    {
      match e
      case Num(v) =>
        Emit([Op(A.Mov(A.RAX, A.I(v)))]);
        ok := true;
      case Var(x) =>
        ok := x in symbols;
        if ok { Emit([Op(A.Comment), Op(E.LoadFrom(x, symbols[x]))]); }
      case Un(op, x) =>
        Emit([Op(A.Comment)]);
        ok := GenerateExpression(x);
        if ok { Emit(Lift(E.UnaryCode(op))); }
      case Bin(op, x, y) =>
        ok := GenerateExpression(x);
        if !ok { return; }
        Emit([PushRax]);
        ok := GenerateExpression(y);
        if !ok { return; }
        hide E.RegisterCode;
        var finish := [Op(A.Mov(A.R10, A.R(A.RAX))), PopRax];
        Emit(finish);
        Emit(Lift(E.RegisterCode(op, A.R10)));
        ghost var a, b := ExprCode(symbols, x).value, ExprCode(symbols, y).value;
        AppendFour(old(out), a, [PushRax], b, finish);
        Associate(old(out), a + [PushRax] + b + finish, Lift(E.RegisterCode(op, A.R10)));
    }

    method GenerateSimple(s: Simple) returns (ok: bool)
      requires Valid()
      modifies `out
      ensures Added(old(Now()), SimpleCode(symbols, s), ok)
    {
      hide ExprCode;
      ok := GenerateExpression(s.value);
      if ok && s.Set? {
        ok := s.name in symbols;
        if ok { Emit([Op(A.Comment), Op(E.StoreTo(s.name, symbols[s.name]))]); }
      }
    }

    method GenerateOptional(s: Option<Simple>) returns (ok: bool)
      requires Valid()
      modifies `out
      ensures Added(old(Now()), OptionalCode(symbols, s), ok)
    {
      hide SimpleCode;
      ok := true;
      if s.Some? { ok := GenerateSimple(s.value); }
    }

    method GenerateTest(e: Option<Expr>, target: Target) returns (ok: bool)
      requires Valid()
      modifies `out
      ensures Added(old(Now()), TestCode(symbols, e, target), ok)
    {
      hide ExprCode;
      ok := true;
      if e.Some? {
        ok := GenerateExpression(e.value);
        if ok { Emit([Op(A.Test(A.RAX)), Jcc(A.E, target)]); }
      }
    }

    method GenerateStatement(s: Stmt) returns (ok: bool)
      requires Valid()
      modifies this
      ensures Grown(old(Now()), StmtCode(symbols, s, old(nextLabel), old(Frames())), ok)
      decreases s, 1
    {
      hide ExprCode, SimpleCode, TestCode, ArmsCode, CasesCode, AllCode, DispatchCode, ContinueTarget, BreakTarget;
      match s
      case Block(stmts) => ok := GenerateAll(stmts);
      case Do(simple) => ok := GenerateSimple(simple);
      case Return(e) =>
        Emit([Op(A.Comment)]);
        ok := true;
        if e.Some? {
          ok := GenerateExpression(e.value);
          if !ok { return; }
        }
        Emit([Op(A.Comment)]);
        Emit([Jmp(Exit)]);
      case If(arms) =>
        var end := GenerateLabel();
        ok := GenerateArms(arms, end);
        if ok { Emit([Def(end)]); }
      case While(cond, body) => ok := GenerateWhile(s);
      case For(_, _, _, _) => ok := GenerateFor(s);
      case Switch(_, _) => ok := GenerateSwitch(s);
      case Break =>
        var t := CurrentBreakLabel();
        ok := t.Some?;
        if ok { Emit([Jmp(t.value)]); }
      case Continue =>
        var t := CurrentContinueLabel();
        ok := t.Some?;
        if ok { Emit([Jmp(t.value)]); }
    }

    method GenerateWhile(s: Stmt) returns (ok: bool)
      requires Valid() && s.While?
      modifies this
      ensures Grown(old(Now()), StmtCode(symbols, s, old(nextLabel), old(Frames())), ok)
      decreases s, 0
    {
      hide ExprCode, TestCode;
      var start := GenerateLabel();
      var end := GenerateLabel();
      PushControlLabels(end, Some(start));
      Emit([Def(start)]);
      ok := GenerateTest(Some(s.cond), end);
      if !ok { return; }
      ok := GenerateStatement(s.body);
      if !ok { return; }
      Emit([Jmp(start), Def(end)]);
      PopControlLabels();
    }

    method GenerateFor(s: Stmt) returns (ok: bool)
      requires Valid() && s.For?
      modifies this
      ensures Grown(old(Now()), StmtCode(symbols, s, old(nextLabel), old(Frames())), ok)
      decreases s, 0
    {
      ForIs(symbols, s, nextLabel, Frames());
      hide ExprCode, TestCode, SimpleCode, StmtCode, OptionalCode;
      var cond := GenerateLabel();
      var step := GenerateLabel();
      var end := GenerateLabel();
      PushControlLabels(end, Some(step));
      ghost var f := Frames();
      ok := GenerateOptional(s.init);
      if !ok { return; }
      ok := GenerateForLoop(s, cond, step, end);
      if !ok { return; }
      PopControlLabels();
      ForAppends(old(out), OptionalCode(symbols, s.init).value, TestCode(symbols, s.test, end).value,
                 StmtCode(symbols, s.body, old(nextLabel) + 3, f).value.0, OptionalCode(symbols, s.step).value, cond, step, end);
    }

    /** Condition, body, landing, step. */
    method GenerateForLoop(s: Stmt, cond: Target, step: Target, end: Target) returns (ok: bool)
      requires Valid() && s.For?
      modifies this
      ensures var t, b, n := TestCode(symbols, s.test, end), StmtCode(symbols, s.body, old(nextLabel), old(Frames())), OptionalCode(symbols, s.step);
              ok == (t.Some? && b.Some? && n.Some?) &&
              (ok ==> Now() == old(Now()).(out := old(out) + [Def(cond)] + t.value + b.value.0 + [Def(step)] + n.value + [Jmp(cond), Def(end)],
                                           nextLabel := b.value.1))
      ensures Valid()
      decreases s.body, 2
    {
      hide ExprCode, TestCode, SimpleCode, StmtCode, OptionalCode;
      Emit([Def(cond)]);
      ok := GenerateTest(s.test, end);
      if !ok { return; }
      ok := GenerateStatement(s.body);
      if !ok { return; }
      Emit([Def(step)]);
      ok := GenerateOptional(s.step);
      if !ok { return; }
      Emit([Jmp(cond), Def(end)]);
    }

    method GenerateSwitch(s: Stmt) returns (ok: bool)
      requires Valid() && s.Switch?
      modifies this
      ensures Grown(old(Now()), StmtCode(symbols, s, old(nextLabel), old(Frames())), ok)
      decreases s, 0
    {
      SwitchIs(symbols, s, nextLabel, Frames());
      hide ExprCode, StmtCode, SwitchFrom, SwitchBody;
      ghost var subject, body := ExprCode(symbols, s.subject), SwitchBody(symbols, s.cases, nextLabel, Frames());
      SwitchSome(symbols, s, nextLabel, Frames());
      var end := GenerateLabel();
      PushControlLabels(end, None);
      ok := GenerateExpression(s.subject);
      if !ok { return; }
      ok := GenerateSwitchBody(s.cases, end);
      if !ok { return; }
      PopControlLabels();
      Associate(old(out), subject.value, body.value.0);
    }

    /** The subject's value is in rax and the switch's own frame is on the stacks. */
    method GenerateSwitchBody(cases: Cases, end: Target) returns (ok: bool)
      requires Valid() && breakStack != [] && end.Label? && nextLabel == end.id + 1
      requires Frames() == Inner() + [Frame(end, None)]
      modifies this
      ensures Grown(old(Now()), SwitchBody(symbols, cases, end.id, old(Inner())), ok)
      decreases cases, 1
    {
      hide LastDefault, CasesCode, DispatchCode, CaseCount;
      var save := [Op(A.Mov(A.R10, A.R(A.RAX)))];
      Emit(save);
      var first := nextLabel;
      var default;
      ok, default := GenerateDispatch(cases);
      if !ok { return; }
      var jump := [Jmp(if default.Some? then default.value else end)];
      Emit(jump);
      ok := GenerateCases(cases, first);
      if !ok { return; }
      Emit([Def(end)]);
      ghost var arms := CasesCode(symbols, cases, first, first + CaseCount(cases), old(Frames()));
      SwitchAppends(old(out), save, DispatchCode(cases, first).value, jump, arms.value.0, [Def(end)]);
    }

    /** The frames without the innermost. */
    function Inner(): Frames
      requires Valid() && breakStack != []
      reads this
    {
      Zip(breakStack[..|breakStack| - 1], continueStack[..|continueStack| - 1])
    }

    /** Labels and comparisons, case by case; a later default replaces an earlier one. */
    method GenerateDispatch(cases: Cases) returns (ok: bool, default: Option<Target>)
      requires Valid()
      modifies `out, `nextLabel
      ensures ok == DispatchCode(cases, old(nextLabel)).Some?
      ensures ok ==> out == old(out) + DispatchCode(cases, old(nextLabel)).value && nextLabel == old(nextLabel) + CaseCount(cases)
      ensures ok ==> default == (var d := LastDefault(cases); if d.Some? then Some(Label(old(nextLabel) + d.value)) else None)
    {
      var c, before := cases, nextLabel;
      var start := out;
      ok, default := true, None;
      ghost var done: Code := [];
      ghost var all := DispatchCode(cases, before);
      if all.Some? { assert done + all.value == all.value; }
      while c.Case?
        invariant ok && out == start + done && nextLabel + CaseCount(c) == before + CaseCount(cases)
        invariant DispatchCode(cases, before) ==
                  (var r := DispatchCode(c, nextLabel); if r.Some? then Some(done + r.value) else None)
        invariant (var d := LastDefault(cases); if d.Some? then Some(Label(before + d.value)) else None) ==
                  (var d := LastDefault(c); if d.Some? then Some(Label(nextLabel + d.value)) else default)
        decreases c
      {
        var id := nextLabel;
        var t := GenerateLabel();
        if c.value.None? {
          default := Some(t);
        } else {
          var v := EvalConstant(c.value.value);
          if !v.Value? {
            ok := false;
            return;
          }
          var test := [Op(A.Cmp(A.R10, A.I(v.value))), Jcc(A.E, t)];
          Emit(test);
          ghost var r := DispatchCode(c.rest, id + 1);
          if r.Some? { assert done + (test + r.value) == done + test + r.value; }
          done := done + test;
        }
        c := c.rest;
      }
      assert done + [] == done;
    }

    method GenerateAll(s: Stmts) returns (ok: bool)
      requires Valid()
      modifies this
      ensures Grown(old(Now()), AllCode(symbols, s, old(nextLabel), old(Frames())), ok)
      decreases s, 0
    {
      hide StmtCode;
      ok := true;
      if s.Cons? {
        ok := GenerateStatement(s.head);
        if !ok { return; }
        ok := GenerateAll(s.tail);
      }
    }

    method GenerateArms(a: Arms, end: Target) returns (ok: bool)
      requires Valid()
      modifies this
      ensures Grown(old(Now()), ArmsCode(symbols, a, old(nextLabel), old(Frames()), end), ok)
      decreases a, 0
    {
      hide StmtCode, TestCode;
      match a
      case Else(None) => ok := true;
      case Else(Some(s)) => ok := GenerateStatement(s);
      case Arm(cond, body, rest) =>
        var next := GenerateLabel();
        ok := GenerateTest(Some(cond), next);
        if !ok { return; }
        ok := GenerateStatement(body);
        if !ok { return; }
        Emit([Jmp(end), Def(next)]);
        ok := GenerateArms(rest, end);
    }

    method GenerateCases(c: Cases, first: nat) returns (ok: bool)
      requires Valid()
      modifies this
      ensures Grown(old(Now()), CasesCode(symbols, c, first, old(nextLabel), old(Frames())), ok)
      decreases c, 0
    {
      hide StmtCode;
      ok := true;
      if c.Case? {
        Emit([Def(Label(first))]);
        ok := GenerateStatement(c.body);
        if !ok { return; }
        ok := GenerateCases(c.rest, first + 1);
      }
    }
  }
}
