/** The tree-walking compiler for expressions and structured control flow: source trees, their
    meaning, and the code emitted for them. */
module TreeCompiler {
  import opened Words
  import opened Wrappers
  import opened StackAsm
  import Ir
  import A = Asm
  import E = Emitter

  // ----- trees -----

  datatype Expr = Num(value: Word) | Var(name: string) | Un(uop: Ir.UnOp, arg: Expr) | Bin(op: Ir.BinOp, left: Expr, right: Expr)

  /** What a for loop may initialize or step with. */
  datatype Simple = Set(name: string, value: Expr) | Eval(value: Expr)

  datatype Stmt =
    | Block(stmts: Stmts)
    | Do(simple: Simple)
    | Return(result: Option<Expr>)
    | If(arms: Arms)
    | While(cond: Expr, body: Stmt)
    | For(init: Option<Simple>, test: Option<Expr>, step: Option<Simple>, body: Stmt)
    | Switch(subject: Expr, cases: Cases)
    | Break
    | Continue

  datatype Stmts = Nil | Cons(head: Stmt, tail: Stmts)

  /** if / else if / ... / else. */
  datatype Arms = Else(otherwise: Option<Stmt>) | Arm(cond: Expr, body: Stmt, rest: Arms)

  /** A case without a value is the default. */
  datatype Cases = NoCase | Case(value: Option<Expr>, body: Stmt, rest: Cases)

  // ----- constants -----

  /** What the compile-time evaluator makes of an expression. C leaves signed overflow
      undefined; it is a result of its own here. */
  datatype Constant = NotConstant | Overflow | Value(value: Word)

  function Fitting(x: int): Constant { if IsWord(x) then Value(x) else Overflow }

  function EvalConstant(e: Expr): Constant {
    match e
    case Num(v) => Value(v)
    case Var(_) => NotConstant
    case Un(op, x) =>
      (match EvalConstant(x)
       case Value(v) => if op.Plus? then Value(v) else if op.Neg? then Fitting(0 - v) else NotConstant
       case r => r)
    case Bin(op, x, y) =>
      var a := EvalConstant(x);
      if !a.Value? then a
      else
        var b := EvalConstant(y);
        if !b.Value? then b
        else
          match op
          case Add => Fitting(a.value + b.value)
          case Sub => Fitting(a.value - b.value)
          case Mul => Fitting(a.value * b.value)
          case Div => if b.value == 0 then NotConstant else Fitting(TruncDiv(a.value, b.value))
          case Mod =>
            if b.value == 0 then NotConstant
            else if !IsWord(TruncDiv(a.value, b.value)) then Overflow
            else Fitting(TruncRem(a.value, b.value))
          case _ => NotConstant
  }

  /** The number a constant expression stands for, whatever its size. */
  function Meant(e: Expr): int {
    match e
    case Num(v) => v
    case Var(_) => 0
    case Un(op, x) => if op.Neg? then -Meant(x) else Meant(x)
    case Bin(op, x, y) =>
      var a, b := Meant(x), Meant(y);
      match op
      case Add => a + b
      case Sub => a - b
      case Mul => a * b
      case Div => if b == 0 then 0 else TruncDiv(a, b)
      case Mod => if b == 0 then 0 else TruncRem(a, b)
      case _ => 0
  }

  /** Only literals, signs and the five operators, no divisor zero, and no result on the way beyond 64 bits. */
  predicate Foldable(e: Expr) {
    match e
    case Num(_) => true
    case Var(_) => false
    case Un(op, x) => op in {Ir.Plus, Ir.Neg} && Foldable(x) && IsWord(Meant(e))
    case Bin(op, x, y) =>
      && op in {Ir.Add, Ir.Sub, Ir.Mul, Ir.Div, Ir.Mod} && Foldable(x) && Foldable(y) && IsWord(Meant(e))
      && (op in {Ir.Div, Ir.Mod} ==> Meant(y) != 0 && IsWord(TruncDiv(Meant(x), Meant(y))))
  }

  /** The evaluator gives a value for exactly these expressions, and it is the number meant. */
  lemma {:induction false} FoldsExactly(e: Expr)
    ensures EvalConstant(e).Value? <==> Foldable(e)
    ensures EvalConstant(e).Value? ==> EvalConstant(e).value == Meant(e)
  {
    match e
    case Num(_) =>
    case Var(_) =>
    case Un(op, x) => FoldsExactly(x);
    case Bin(op, x, y) =>
      FoldsExactly(x);
      FoldsExactly(y);
      hide TruncDiv;
      if Foldable(x) && Foldable(y) && op.Mod? && Meant(y) != 0 { TruncRemRange(Meant(x), Meant(y)); }
  }

  // ----- meaning -----

  /** None when a division in it faults. */
  function EvalExpr(e: Expr, env: Ir.Env): Option<Word> {
    match e
    case Num(v) => Some(v)
    case Var(x) => Some(env.Sym(x))
    case Un(op, x) =>
      var v :- EvalExpr(x, env);
      Some(Ir.EvalUnary(op, v))
    case Bin(op, x, y) =>
      var a :- EvalExpr(x, env);
      var b :- EvalExpr(y, env);
      Ir.Eval(op, a, b)
  }

  datatype Outcome =
    | Normal(env: Ir.Env)
    | Broke(env: Ir.Env)
    | Continued(env: Ir.Env)
    | Returned(value: Option<Word>, env: Ir.Env)
    | Faults(env: Ir.Env)
    | OutOfFuel

  function ExecSimple(s: Simple, env: Ir.Env): Outcome {
    match EvalExpr(s.value, env)
    case None => Faults(env)
    case Some(v) => Normal(if s.Set? then env.Put(Ir.Symbol(s.name), v) else env)
  }

  /** Fuel bounds loop iterations only. */
  function Exec(s: Stmt, env: Ir.Env, fuel: nat): Outcome
    decreases fuel, s
  {
    match s
    case Block(stmts) => ExecAll(stmts, env, fuel)
    case Do(simple) => ExecSimple(simple, env)
    case Return(None) => Returned(None, env)
    case Return(Some(e)) =>
      (match EvalExpr(e, env)
       case None => Faults(env)
       case Some(v) => Returned(Some(v), env))
    case If(arms) => ExecArms(arms, env, fuel)
    case While(cond, body) => ExecLoop(Some(cond), None, body, env, fuel)
    case For(init, test, step, body) =>
      var o := if init.Some? then ExecSimple(init.value, env) else Normal(env);
      if o.Normal? then ExecLoop(test, step, body, o.env, fuel) else o
    case Switch(subject, cases) =>
      (match EvalExpr(subject, env)
       case None => Faults(env)
       case Some(v) =>
         var k := if Matching(cases, v).Some? then Matching(cases, v) else LastDefault(cases);
         if k.None? then Normal(env)
         else
           var o := ExecCases(cases, k.value, env, fuel);
           if o.Broke? then Normal(o.env) else o)
    case Break => Broke(env)
    case Continue => Continued(env)
  }

  function ExecAll(s: Stmts, env: Ir.Env, fuel: nat): Outcome
    decreases fuel, s
  {
    match s
    case Nil => Normal(env)
    case Cons(head, tail) =>
      var o := Exec(head, env, fuel);
      if o.Normal? then ExecAll(tail, o.env, fuel) else o
  }

  function ExecArms(a: Arms, env: Ir.Env, fuel: nat): Outcome
    decreases fuel, a
  {
    match a
    case Else(None) => Normal(env)
    case Else(Some(s)) => Exec(s, env, fuel)
    case Arm(cond, body, rest) =>
      (match EvalExpr(cond, env)
       case None => Faults(env)
       case Some(v) => if v != 0 then Exec(body, env, fuel) else ExecArms(rest, env, fuel))
  }

  /** Test, body, step, again; a `continue` in the body goes on with the step. */
  function ExecLoop(test: Option<Expr>, step: Option<Simple>, body: Stmt, env: Ir.Env, fuel: nat): Outcome
    decreases fuel, body, 1
  {
    if fuel == 0 then OutOfFuel
    else
      var t := if test.Some? then EvalExpr(test.value, env) else Some(1);
      match t
      case None => Faults(env)
      case Some(v) =>
        if v == 0 then Normal(env)
        else
          var o := Exec(body, env, fuel - 1);
          if o.Normal? || o.Continued? then
            var n := if step.Some? then ExecSimple(step.value, o.env) else Normal(o.env);
            if n.Normal? then ExecLoop(test, step, body, n.env, fuel - 1) else n
          else if o.Broke? then Normal(o.env)
          else o
  }

  /** The bodies from case k on, falling through from one to the next. */
  function ExecCases(c: Cases, k: nat, env: Ir.Env, fuel: nat): Outcome
    decreases fuel, c
  {
    match c
    case NoCase => Normal(env)
    case Case(_, body, rest) =>
      if k > 0 then ExecCases(rest, k - 1, env, fuel)
      else
        var o := Exec(body, env, fuel);
        if o.Normal? then ExecCases(rest, 0, o.env, fuel) else o
  }

  /** The first case with that value. */
  function Matching(c: Cases, v: Word): (k: Option<nat>)
    ensures k.Some? ==> k.value < CaseCount(c)
  {
    match c
    case NoCase => None
    case Case(value, _, rest) =>
      if value.Some? && Foldable(value.value) && Meant(value.value) == v then Some(0)
      else
        var k :- Matching(rest, v);
        Some(k + 1)
  }

  /** The last default, wherever it stands. */
  function LastDefault(c: Cases): (k: Option<nat>)
    ensures k.Some? ==> k.value < CaseCount(c)
  {
    match c
    case NoCase => None
    case Case(value, _, rest) =>
      match LastDefault(rest)
      case Some(k) => Some(k + 1)
      case None => if value.None? then Some(0) else None
  }

  function CaseCount(c: Cases): nat {
    match c
    case NoCase => 0
    case Case(_, _, rest) => 1 + CaseCount(rest)
  }

  function CaseValue(c: Cases, k: nat): Option<Expr>
    requires k < CaseCount(c)
  {
    if k == 0 then c.value else CaseValue(c.rest, k - 1)
  }

  predicate HasValue(c: Cases, k: nat, v: Word)
    requires k < CaseCount(c)
  {
    CaseValue(c, k).Some? && Foldable(CaseValue(c, k).value) && Meant(CaseValue(c, k).value) == v
  }

  /** The case taken is the first with the value. */
  lemma {:induction false} MatchingIsFirst(c: Cases, v: Word)
    ensures var m := Matching(c, v);
            && (m.Some? ==> HasValue(c, m.value, v))
            && (forall k: nat :: k < (if m.Some? then m.value else CaseCount(c)) ==> !HasValue(c, k, v))
  {
    hide Foldable, Meant;
    if c.Case? {
      MatchingIsFirst(c.rest, v);
      forall k: nat | 0 < k < CaseCount(c) ensures HasValue(c, k, v) <==> HasValue(c.rest, k - 1, v) {}
    }
  }

  /** The default taken is the last case without a value. */
  lemma {:induction false} DefaultIsLast(c: Cases)
    ensures var d := LastDefault(c);
            && (d.Some? ==> CaseValue(c, d.value).None?)
            && (forall k: nat :: (if d.Some? then d.value + 1 else 0) <= k < CaseCount(c) ==> CaseValue(c, k).Some?)
  {
    if c.Case? {
      DefaultIsLast(c.rest);
      forall k: nat | 0 < k < CaseCount(c) ensures CaseValue(c, k) == CaseValue(c.rest, k - 1) {}
    }
  }

  // ----- code -----

  /** Break and continue targets of the enclosing constructs, innermost last; a switch has no
      continue target. */
  datatype Frame = Frame(breaks: Target, continues: Option<Target>)

  type Frames = seq<Frame>

  function BreakTarget(f: Frames): Option<Target> {
    if f == [] then None else Some(f[|f| - 1].breaks)
  }

  /** The innermost construct that has one. */
  function ContinueTarget(f: Frames): Option<Target> {
    if f == [] then None
    else if f[|f| - 1].continues.Some? then f[|f| - 1].continues
    else ContinueTarget(f[..|f| - 1])
  }

  type Symbols = map<string, E.Loc>

  function ExprCode(sym: Symbols, e: Expr): Option<Code> {
    match e
    case Num(v) => Some([Op(A.Mov(A.RAX, A.I(v)))])
    case Var(x) => if x in sym then Some([Op(A.Comment), Op(E.LoadFrom(x, sym[x]))]) else None
    case Un(op, x) =>
      var c :- ExprCode(sym, x);
      Some([Op(A.Comment)] + c + Lift(E.UnaryCode(op)))
    case Bin(op, x, y) =>
      var a :- ExprCode(sym, x);
      var b :- ExprCode(sym, y);
      Some(a + [PushRax] + b + [Op(A.Mov(A.R10, A.R(A.RAX))), PopRax] + Lift(E.RegisterCode(op, A.R10)))
  }

  function SimpleCode(sym: Symbols, s: Simple): Option<Code> {
    var c :- ExprCode(sym, s.value);
    if s.Eval? then Some(c)
    else if s.name in sym then Some(c + [Op(A.Comment), Op(E.StoreTo(s.name, sym[s.name]))])
    else None
  }

  function OptionalCode(sym: Symbols, s: Option<Simple>): Option<Code> {
    if s.None? then Some([]) else SimpleCode(sym, s.value)
  }

  /** Evaluate and leave for `target` when zero; an absent condition never leaves. */
  function TestCode(sym: Symbols, e: Option<Expr>, target: Target): Option<Code> {
    if e.None? then Some([])
    else
      var c :- ExprCode(sym, e.value);
      Some(c + [Op(A.Test(A.RAX)), Jcc(A.E, target)])
  }

  /** The code of a statement and the next free label number. */
  function StmtCode(sym: Symbols, s: Stmt, id: nat, f: Frames): Option<(Code, nat)>
    decreases s
  {
    match s
    case Block(stmts) => AllCode(sym, stmts, id, f)
    case Do(simple) =>
      var c :- SimpleCode(sym, simple);
      Some((c, id))
    case Return(None) => Some(([Op(A.Comment), Op(A.Comment), Jmp(Exit)], id))
    case Return(Some(e)) =>
      var c :- ExprCode(sym, e);
      Some(([Op(A.Comment)] + c + [Op(A.Comment), Jmp(Exit)], id))
    case If(arms) =>
      var r :- ArmsCode(sym, arms, id + 1, f, Label(id));
      Some((r.0 + [Def(Label(id))], r.1))
    case While(cond, body) =>
      var test :- TestCode(sym, Some(cond), Label(id + 1));
      var b :- StmtCode(sym, body, id + 2, f + [Frame(Label(id + 1), Some(Label(id)))]);
      Some(([Def(Label(id))] + test + b.0 + [Jmp(Label(id)), Def(Label(id + 1))], b.1))
    case For(init, test, step, body) =>
      var i :- OptionalCode(sym, init);
      var t :- TestCode(sym, test, Label(id + 2));
      var b :- StmtCode(sym, body, id + 3, f + [Frame(Label(id + 2), Some(Label(id + 1)))]);
      var n :- OptionalCode(sym, step);
      Some((i + ([Def(Label(id))] + t + b.0 + [Def(Label(id + 1))] + n + [Jmp(Label(id)), Def(Label(id + 2))]), b.1))
    case Switch(subject, cases) =>
      var c :- ExprCode(sym, subject);
      var dispatch :- DispatchCode(cases, id + 1);
      var b :- CasesCode(sym, cases, id + 1, id + 1 + CaseCount(cases), f + [Frame(Label(id), None)]);
      var d := LastDefault(cases);
      var otherwise := if d.Some? then Label(id + 1 + d.value) else Label(id);
      Some((c + [Op(A.Mov(A.R10, A.R(A.RAX)))] + dispatch + [Jmp(otherwise)] + b.0 + [Def(Label(id))], b.1))
    case Break =>
      var t :- BreakTarget(f);
      Some(([Jmp(t)], id))
    case Continue =>
      var t :- ContinueTarget(f);
      Some(([Jmp(t)], id))
  }

  function AllCode(sym: Symbols, s: Stmts, id: nat, f: Frames): Option<(Code, nat)>
    decreases s
  {
    match s
    case Nil => Some(([], id))
    case Cons(head, tail) =>
      var a :- StmtCode(sym, head, id, f);
      var b :- AllCode(sym, tail, a.1, f);
      Some((a.0 + b.0, b.1))
  }

  function ArmsCode(sym: Symbols, a: Arms, id: nat, f: Frames, end: Target): Option<(Code, nat)>
    decreases a
  {
    match a
    case Else(None) => Some(([], id))
    case Else(Some(s)) => StmtCode(sym, s, id, f)
    case Arm(cond, body, rest) =>
      var test :- TestCode(sym, Some(cond), Label(id));
      var b :- StmtCode(sym, body, id + 1, f);
      var r :- ArmsCode(sym, rest, b.1, f, end);
      Some((test + b.0 + [Jmp(end), Def(Label(id))] + r.0, r.1))
  }

  /** One comparison for every case that is not a default; case i has label first + i. */
  function DispatchCode(c: Cases, first: nat): Option<Code> {
    match c
    case NoCase => Some([])
    case Case(value, _, rest) =>
      var r :- DispatchCode(rest, first + 1);
      if value.None? then Some(r)
      else
        match EvalConstant(value.value)
        case Value(v) => Some([Op(A.Cmp(A.R10, A.I(v))), Jcc(A.E, Label(first))] + r)
        case _ => None
  }

  function CasesCode(sym: Symbols, c: Cases, first: nat, id: nat, f: Frames): Option<(Code, nat)>
    decreases c
  {
    match c
    case NoCase => Some(([], id))
    case Case(_, body, rest) =>
      var b :- StmtCode(sym, body, id, f);
      var r :- CasesCode(sym, rest, first + 1, b.1, f);
      Some(([Def(Label(first))] + b.0 + r.0, r.1))
  }

  /** A function body and its exit label. */
  function BodyCode(sym: Symbols, s: Stmt, id: nat): Option<Code> {
    var r :- StmtCode(sym, s, id, []);
    Some(r.0 + [Def(Exit)])
  }
}
