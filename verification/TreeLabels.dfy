/** The labels of compiled trees: every number is defined at most once. */
module TreeLabels {
  import opened Words
  import opened Wrappers
  import opened StackAsm
  import opened TreeCompiler
  import A = Asm
  import E = Emitter

  /** Labels defined in the code are distinct and have numbers in ids. */
  ghost predicate Fresh(code: Code, ids: set<nat>) {
    Once(code) && forall i :: 0 <= i < |code| && code[i].Def? ==> code[i].target.Label? && code[i].target.id in ids
  }

  function Range(lo: nat, hi: nat): (s: set<nat>)
    ensures forall x :: x in s <==> lo <= x < hi
    decreases hi
  {
    if lo >= hi then {} else Range(lo, hi - 1) + {hi - 1}
  }

  lemma Join(a: Code, s: set<nat>, b: Code, t: set<nat>)
    requires Fresh(a, s) && Fresh(b, t) && s !! t
    ensures Fresh(a + b, s + t)
  {
    var c := a + b;
    forall i | 0 <= i < |c| && c[i].Def? ensures c[i].target.Label? && c[i].target.id in s + t {
      if i < |a| { assert a[i] == c[i]; } else { assert b[i - |a|] == c[i]; }
    }
    forall i, j | 0 <= i < j < |c| && c[i].Def? && c[j].Def? ensures c[i] != c[j] {
      if j < |a| {
        assert a[i] == c[i] && a[j] == c[j];
      } else if i < |a| {
        assert a[i] == c[i] && b[j - |a|] == c[j];
      } else {
        assert b[i - |a|] == c[i] && b[j - |a|] == c[j];
      }
    }
  }

  lemma Widen(a: Code, s: set<nat>, t: set<nat>)
    requires Fresh(a, s) && s <= t
    ensures Fresh(a, t)
  {}

  predicate NoDefs(code: Code) { forall i :: 0 <= i < |code| ==> !code[i].Def? }

  lemma Plain(code: Code)
    requires NoDefs(code)
    ensures Fresh(code, {})
  {}

  lemma One(id: nat)
    ensures Fresh([Def(Label(id))], {id})
  {}

  lemma {:induction false} ExprPlain(sym: Symbols, e: Expr)
    ensures ExprCode(sym, e).Some? ==> NoDefs(ExprCode(sym, e).value)
  {
    match e
    case Num(_) =>
    case Var(_) =>
    case Un(op, x) => ExprPlain(sym, x);
    case Bin(op, x, y) =>
      ExprPlain(sym, x);
      ExprPlain(sym, y);
      hide E.RegisterCode;
  }

  lemma PartsPlain(sym: Symbols, e: Option<Expr>, t: Target, s: Option<Simple>)
    ensures TestCode(sym, e, t).Some? ==> NoDefs(TestCode(sym, e, t).value)
    ensures OptionalCode(sym, s).Some? ==> NoDefs(OptionalCode(sym, s).value)
  {
    if e.Some? { ExprPlain(sym, e.value); }
    if s.Some? { ExprPlain(sym, s.value.value); }
    hide ExprCode;
  }

  lemma {:induction false} DispatchPlain(c: Cases, first: nat)
    ensures DispatchCode(c, first).Some? ==> NoDefs(DispatchCode(c, first).value)
  {
    if c.Case? { DispatchPlain(c.rest, first + 1); }
  }

  // ----- every construct -----

  ghost predicate FreshFrom(r: Option<(Code, nat)>, id: nat) {
    r.Some? ==> id <= r.value.1 && Fresh(r.value.0, Range(id, r.value.1))
  }

  lemma {:induction false} StmtFresh(sym: Symbols, s: Stmt, id: nat, f: Frames)
    ensures FreshFrom(StmtCode(sym, s, id, f), id)
    decreases s, 0
  {
    hide Fresh, ExprCode, TestCode, OptionalCode, DispatchCode, AllCode, ArmsCode, CasesCode;
    match s
    case Block(stmts) => AllFresh(sym, stmts, id, f);
    case Do(simple) => LeafFresh(sym, s, id, f);
    case Return(_) => LeafFresh(sym, s, id, f);
    case Break => LeafFresh(sym, s, id, f);
    case Continue => LeafFresh(sym, s, id, f);
    case If(arms) =>
      ArmsFresh(sym, arms, id + 1, f, Label(id));
      var r := ArmsCode(sym, arms, id + 1, f, Label(id));
      if r.Some? {
        One(id);
        Join(r.value.0, Range(id + 1, r.value.1), [Def(Label(id))], {id});
        Widen(r.value.0 + [Def(Label(id))], Range(id + 1, r.value.1) + {id}, Range(id, r.value.1));
      }
    case While(cond, body) => WhileFresh(sym, cond, body, id, f);
    case For(init, test, step, body) => ForFresh(sym, init, test, step, body, id, f);
    case Switch(subject, cases) => SwitchFresh(sym, subject, cases, id, f);
  }

  lemma LeafFresh(sym: Symbols, s: Stmt, id: nat, f: Frames)
    requires s.Do? || s.Return? || s.Break? || s.Continue?
    ensures FreshFrom(StmtCode(sym, s, id, f), id)
  {
    var r := StmtCode(sym, s, id, f);
    if r.Some? {
      if s.Do? {
        PartsPlain(sym, None, Exit, Some(s.simple));
      } else if s.Return? && s.result.Some? {
        ExprPlain(sym, s.result.value);
      }
      hide ExprCode, E.LoadFrom, E.StoreTo;
      assert NoDefs(r.value.0);
      Plain(r.value.0);
      Widen(r.value.0, {}, Range(id, id));
    }
  }

  /** A loop: three labels around, before and after what the body defines. */
  lemma LoopFresh(i: Code, t: Code, b: Code, c: Code, n: Code, id: nat, next: nat, width: nat)
    requires NoDefs(i) && NoDefs(t) && NoDefs(n) && id + width <= next && Fresh(b, Range(id + width, next))
    requires (width == 2 && c == []) || (width == 3 && c == [Def(Label(id + 1))])
    ensures Fresh(i + ([Def(Label(id))] + t + b + c + n + [Jmp(Label(id)), Def(Label(id + width - 1))]), Range(id, next))
  {
    hide Fresh;
    var end := id + width - 1;
    Plain(i);
    Plain(t);
    Plain(n);
    One(id);
    One(id + 1);
    One(end);
    Plain([]);
    Plain([Jmp(Label(id))]);
    var s := Range(id + width, next);
    var cs: set<nat> := if width == 2 then {} else {id + 1};
    Join([Def(Label(id))], {id}, t, {});
    Join([Def(Label(id))] + t, {id} + {}, b, s);
    Join([Def(Label(id))] + t + b, {id} + {} + s, c, cs);
    Join([Def(Label(id))] + t + b + c, {id} + {} + s + cs, n, {});
    Join([Jmp(Label(id))], {}, [Def(Label(end))], {end});
    assert [Jmp(Label(id))] + [Def(Label(end))] == [Jmp(Label(id)), Def(Label(end))];
    Join([Def(Label(id))] + t + b + c + n, {id} + {} + s + cs + {}, [Jmp(Label(id)), Def(Label(end))], {} + {end});
    var whole := [Def(Label(id))] + t + b + c + n + [Jmp(Label(id)), Def(Label(end))];
    Join(i, {}, whole, {id} + {} + s + cs + {} + ({} + {end}));
    Widen(i + whole, {} + ({id} + {} + s + cs + {} + ({} + {end})), Range(id, next));
  }

  lemma {:induction false} WhileFresh(sym: Symbols, cond: Expr, body: Stmt, id: nat, f: Frames)
    ensures FreshFrom(StmtCode(sym, While(cond, body), id, f), id)
    decreases body, 1
  {
    hide Fresh, TestCode;
    var f' := f + [Frame(Label(id + 1), Some(Label(id)))];
    StmtFresh(sym, body, id + 2, f');
    PartsPlain(sym, Some(cond), Label(id + 1), None);
    var t, b := TestCode(sym, Some(cond), Label(id + 1)), StmtCode(sym, body, id + 2, f');
    if t.Some? && b.Some? {
      LoopFresh([], t.value, b.value.0, [], [], id, b.value.1, 2);
      var flat := [Def(Label(id))] + t.value + b.value.0 + [Jmp(Label(id)), Def(Label(id + 1))];
      assert [] + ([Def(Label(id))] + t.value + b.value.0 + [] + [] + [Jmp(Label(id)), Def(Label(id + 2 - 1))]) == flat;
    }
  }

  lemma {:induction false} ForFresh(sym: Symbols, init: Option<Simple>, test: Option<Expr>, step: Option<Simple>, body: Stmt, id: nat, f: Frames)
    ensures FreshFrom(StmtCode(sym, For(init, test, step, body), id, f), id)
    decreases body, 1
  {
    hide Fresh, TestCode, OptionalCode;
    var f' := f + [Frame(Label(id + 2), Some(Label(id + 1)))];
    StmtFresh(sym, body, id + 3, f');
    PartsPlain(sym, test, Label(id + 2), init);
    PartsPlain(sym, test, Label(id + 2), step);
    var i, t, n := OptionalCode(sym, init), TestCode(sym, test, Label(id + 2)), OptionalCode(sym, step);
    var b := StmtCode(sym, body, id + 3, f');
    if i.Some? && t.Some? && n.Some? && b.Some? {
      LoopFresh(i.value, t.value, b.value.0, [Def(Label(id + 1))], n.value, id, b.value.1, 3);
    }
  }

  lemma {:induction false} SwitchFresh(sym: Symbols, subject: Expr, cases: Cases, id: nat, f: Frames)
    ensures FreshFrom(StmtCode(sym, Switch(subject, cases), id, f), id)
    decreases cases, 1
  {
    hide Fresh, ExprCode, DispatchCode, CasesCode;
    var f' := f + [Frame(Label(id), None)];
    var n := id + 1 + CaseCount(cases);
    ExprPlain(sym, subject);
    DispatchPlain(cases, id + 1);
    CasesFresh(sym, cases, id + 1, n, f');
    var c, dispatch, b := ExprCode(sym, subject), DispatchCode(cases, id + 1), CasesCode(sym, cases, id + 1, n, f');
    if c.Some? && dispatch.Some? && b.Some? {
      var d := LastDefault(cases);
      var otherwise := if d.Some? then Label(id + 1 + d.value) else Label(id);
      var head := c.value + [Op(A.Mov(A.R10, A.R(A.RAX)))] + dispatch.value + [Jmp(otherwise)];
      assert NoDefs(head);
      Plain(head);
      One(id);
      var s := Range(id + 1, n) + Range(n, b.value.1);
      Join(head, {}, b.value.0, s);
      Join(head + b.value.0, {} + s, [Def(Label(id))], {id});
      Widen(head + b.value.0 + [Def(Label(id))], {} + s + {id}, Range(id, b.value.1));
    }
  }

  lemma {:induction false} AllFresh(sym: Symbols, s: Stmts, id: nat, f: Frames)
    ensures FreshFrom(AllCode(sym, s, id, f), id)
    decreases s, 0
  {
    hide Fresh, StmtCode;
    match s
    case Nil =>
      Plain([]);
      Widen([], {}, Range(id, id));
    case Cons(head, tail) =>
      StmtFresh(sym, head, id, f);
      var a := StmtCode(sym, head, id, f);
      if a.Some? {
        AllFresh(sym, tail, a.value.1, f);
        var b := AllCode(sym, tail, a.value.1, f);
        if b.Some? {
          Join(a.value.0, Range(id, a.value.1), b.value.0, Range(a.value.1, b.value.1));
          Widen(a.value.0 + b.value.0, Range(id, a.value.1) + Range(a.value.1, b.value.1), Range(id, b.value.1));
        }
      }
  }

  lemma {:induction false} ArmsFresh(sym: Symbols, a: Arms, id: nat, f: Frames, end: Target)
    ensures FreshFrom(ArmsCode(sym, a, id, f, end), id)
    decreases a, 0
  {
    hide Fresh, StmtCode, TestCode;
    match a
    case Else(None) =>
      Plain([]);
      Widen([], {}, Range(id, id));
    case Else(Some(s)) => StmtFresh(sym, s, id, f);
    case Arm(cond, body, rest) =>
      PartsPlain(sym, Some(cond), Label(id), None);
      StmtFresh(sym, body, id + 1, f);
      var t, b := TestCode(sym, Some(cond), Label(id)), StmtCode(sym, body, id + 1, f);
      if t.Some? && b.Some? {
        ArmsFresh(sym, rest, b.value.1, f, end);
        var r := ArmsCode(sym, rest, b.value.1, f, end);
        if r.Some? { ArmFresh(t.value, b.value.0, r.value.0, id, b.value.1, r.value.1, end); }
      }
  }

  lemma ArmFresh(t: Code, b: Code, r: Code, id: nat, mid: nat, next: nat, end: Target)
    requires NoDefs(t) && id + 1 <= mid <= next && Fresh(b, Range(id + 1, mid)) && Fresh(r, Range(mid, next))
    ensures Fresh(t + b + [Jmp(end), Def(Label(id))] + r, Range(id, next))
  {
    hide Fresh;
    Plain(t);
    Plain([Jmp(end)]);
    One(id);
    Join([Jmp(end)], {}, [Def(Label(id))], {id});
    assert [Jmp(end)] + [Def(Label(id))] == [Jmp(end), Def(Label(id))];
    Join(t, {}, b, Range(id + 1, mid));
    Join(t + b, {} + Range(id + 1, mid), [Jmp(end), Def(Label(id))], {} + {id});
    Join(t + b + [Jmp(end), Def(Label(id))], {} + Range(id + 1, mid) + ({} + {id}), r, Range(mid, next));
    Widen(t + b + [Jmp(end), Def(Label(id))] + r, {} + Range(id + 1, mid) + ({} + {id}) + Range(mid, next), Range(id, next));
  }

  lemma {:induction false} CasesFresh(sym: Symbols, c: Cases, first: nat, id: nat, f: Frames)
    requires first + CaseCount(c) <= id
    ensures var r := CasesCode(sym, c, first, id, f);
            r.Some? ==> id <= r.value.1 && Fresh(r.value.0, Range(first, first + CaseCount(c)) + Range(id, r.value.1))
    decreases c, 0
  {
    hide Fresh, StmtCode;
    match c
    case NoCase =>
      Plain([]);
      Widen([], {}, Range(first, first) + Range(id, id));
    case Case(_, body, rest) =>
      StmtFresh(sym, body, id, f);
      var b := StmtCode(sym, body, id, f);
      if b.Some? {
        CasesFresh(sym, rest, first + 1, b.value.1, f);
        var r := CasesCode(sym, rest, first + 1, b.value.1, f);
        if r.Some? {
          var n := first + CaseCount(c);
          One(first);
          Join([Def(Label(first))], {first}, b.value.0, Range(id, b.value.1));
          var s := Range(first + 1, n) + Range(b.value.1, r.value.1);
          Join([Def(Label(first))] + b.value.0, {first} + Range(id, b.value.1), r.value.0, s);
          Widen([Def(Label(first))] + b.value.0 + r.value.0, {first} + Range(id, b.value.1) + s, Range(first, n) + Range(id, r.value.1));
        }
      }
  }

  /** A compiled body defines no label twice, and its exit label last. */
  lemma BodyOnce(sym: Symbols, s: Stmt, id: nat)
    requires BodyCode(sym, s, id).Some?
    ensures Once(BodyCode(sym, s, id).value)
  {
    StmtFresh(sym, s, id, []);
    hide StmtCode;
    var c := StmtCode(sym, s, id, []).value.0;
    forall i, j | 0 <= i < j < |c + [Def(Exit)]| && (c + [Def(Exit)])[i].Def? && (c + [Def(Exit)])[j].Def?
      ensures (c + [Def(Exit)])[i] != (c + [Def(Exit)])[j]
    {
      assert (c + [Def(Exit)])[i] == c[i];
      if j < |c| { assert (c + [Def(Exit)])[j] == c[j]; }
    }
  }
}
