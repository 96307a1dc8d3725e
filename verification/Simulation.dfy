/** One round of the emission loop simulates the IR instructions it covers. */
module Simulation {
  import opened Words
  import opened Wrappers
  import opened Emitter
  import opened EmitterProofs
  import opened FusionProofs
  import Ir
  import A = Asm

  // ----- which slots may be out of date -----

  ghost predicate GoodUses(f: Func, ctx: Ctx) {
    forall t :: ctx.UseCount(t) == Ir.Uses(f, t)
  }

  predicate NoLabels(f: Func, a: nat, b: nat) {
    forall k :: a <= k < b && k < |f| ==> !f[k].Label?
  }

  /** Temp t is computed at d and used, once in the whole function, at u in the same block. */
  predicate Skips(f: Func, ctx: Ctx, t: string, d: nat, u: nat) {
    && d < u < |f| && Ir.Defines(f[d], t) && Ir.UsesIn(f[u], t) > 0
    && ctx.UseCount(t) == 1 && NoLabels(f, d + 1, u + 1)
  }

  /** Before instruction i the slot of t may hold anything: every way to t's only use passes
      a definition first. */
  ghost predicate StaleAt(f: Func, ctx: Ctx, t: string, i: nat) {
    exists d: nat, u: nat :: Skips(f, ctx, t, d, u) && !(d < i <= u)
  }

  ghost function StaleSet(f: Func, ctx: Ctx, i: nat): set<string> {
    set t | t in ctx.tempOffset && StaleAt(f, ctx, t, i)
  }

  predicate DefinedAt(f: Func, t: string, d: nat, i: nat) {
    d < i <= |f| && Ir.Defines(f[d], t) && NoLabels(f, d + 1, i)
  }

  /** A promised store belongs to a temp computed earlier in the same block. */
  ghost predicate PendingAt(f: Func, ctx: Ctx, g: Gen, i: nat) {
    g.pending != 0 ==> forall t :: ctx.TempOff(t) == g.pending ==> exists d: nat :: DefinedAt(f, t, d, i)
  }

  ghost predicate Covers(f: Func, ctx: Ctx, stale: set<string>, k: nat) {
    forall t :: t in stale && ctx.TempOff(t) > 0 ==> StaleAt(f, ctx, t, k)
  }

  lemma RelCovers(f: Func, ctx: Ctx, stale: set<string>, k: nat, g: Gen, env: Ir.Env, m: A.Machine)
    requires Rel(ctx, stale, g, env, m) && Covers(f, ctx, stale, k)
    ensures Rel(ctx, StaleSet(f, ctx, k), g, env, m)
  {
    forall t | ctx.TempOff(t) > 0 && t !in StaleSet(f, ctx, k) ensures t !in stale {}
  }

  lemma OneUse(f: Func, ctx: Ctx, t: string, p: nat, q: nat)
    requires GoodUses(f, ctx) && ctx.UseCount(t) == 1
    requires p < |f| && q < |f| && Ir.UsesIn(f[p], t) > 0 && Ir.UsesIn(f[q], t) > 0
    ensures p == q && Ir.UsesIn(f[p], t) == 1
  {
    if p < q { Ir.SingleUse(f, t, p, q); } else if q < p { Ir.SingleUse(f, t, q, p); }
    Ir.UsesAtLeast(f, t, p);
  }

  /** What an instruction reads is not stale, unless the round itself computed it before. */
  lemma FreshRead(f: Func, ctx: Ctx, i: nat, p: nat, o: Ir.Operand)
    requires GoodUses(f, ctx) && i <= p < |f|
    requires o.Temp? ==> Ir.UsesIn(f[p], o.name) > 0
    requires forall d :: i <= d < p && o.Temp? ==> !Ir.Defines(f[d], o.name)
    ensures Fresh(StaleSet(f, ctx, i), o)
  {
    if o.Temp? && StaleAt(f, ctx, o.name, i) {
      var d: nat, u: nat :| Skips(f, ctx, o.name, d, u) && !(d < i <= u);
      OneUse(f, ctx, o.name, u, p);
    }
  }

  lemma NotDropped(f: Func, ctx: Ctx, g: Gen, p: nat, q: nat, o: Ir.Operand, o': Ir.Operand)
    requires GoodUses(f, ctx) && GenInv(ctx, g) && p < |f| && q < |f| && p != q
    requires o.Temp? ==> Ir.UsesIn(f[p], o.name) > 0
    requires o'.Temp? ==> Ir.UsesIn(f[q], o'.name) > 0
    ensures Fresh(Dropped(g, ctx, o), o')
  {
    if Drops(g, ctx, o) && o' == o { OneUse(f, ctx, o.name, p, q); }
  }

  /** An operand on both sides has two uses, so its store is not thrown away. */
  lemma TwiceKept(f: Func, ctx: Ctx, g: Gen, p: nat, x: Ir.Operand, y: Ir.Operand)
    requires GoodUses(f, ctx) && GenInv(ctx, g) && p < |f|
    requires x.Temp? && x == y ==> Ir.UsesIn(f[p], x.name) > 1
    ensures x == y ==> !Drops(g, ctx, x)
  {
    if x == y && Drops(g, ctx, x) { OneUse(f, ctx, x.name, p, p); }
  }

  /** Where control may go after a round covering [i, j). */
  predicate Follows(f: Func, j: nat, k: nat) {
    k == j || (k < |f| && f[k].Label?)
  }

  lemma OldStale(f: Func, ctx: Ctx, i: nat, j: nat, k: nat, t: string)
    requires GoodUses(f, ctx) && StaleAt(f, ctx, t, i) && i < j <= |f| && Follows(f, j, k)
    requires forall d :: i <= d < j && Ir.Defines(f[d], t) ==> exists u :: d < u < j && Ir.UsesIn(f[u], t) > 0
    ensures StaleAt(f, ctx, t, k)
  {
    var d: nat, u: nat :| Skips(f, ctx, t, d, u) && !(d < i <= u);
    if d < k <= u {
      assert k == j && i <= d < j;
      var u' :| d < u' < j && Ir.UsesIn(f[u'], t) > 0;
      OneUse(f, ctx, t, u, u');
    }
  }

  lemma DroppedStale(f: Func, ctx: Ctx, g: Gen, i: nat, p: nat, j: nat, k: nat, o: Ir.Operand)
    requires GoodUses(f, ctx) && GenInv(ctx, g) && PendingAt(f, ctx, g, i)
    requires i <= p < j <= |f| && Follows(f, j, k) && NoLabels(f, i, p + 1)
    requires Drops(g, ctx, o) && Ir.UsesIn(f[p], o.name) > 0
    ensures StaleAt(f, ctx, o.name, k)
  {
    var d: nat :| DefinedAt(f, o.name, d, i);
    assert Skips(f, ctx, o.name, d, p);
  }

  lemma FusedStale(f: Func, ctx: Ctx, d: nat, t: string, k: nat)
    requires d + 1 < |f| && Ir.Defines(f[d], t) && Ir.UsesIn(f[d + 1], t) > 0 && ctx.UseCount(t) == 1
    requires !f[d + 1].Label? && k != d + 1
    ensures StaleAt(f, ctx, t, k)
  {
    assert Skips(f, ctx, t, d, d + 1);
  }

  // ----- the state at the head of the loop -----

  /** Everything the theorem needs of a function and its layout. */
  ghost predicate Ready(f: Func, ctx: Ctx) {
    GoodCtx(ctx) && GoodUses(f, ctx) && Ir.UniqueLabels(f)
  }

  ghost predicate HeadGen(f: Func, ctx: Ctx, g: Gen, i: nat) { GenInv(ctx, g) && PendingAt(f, ctx, g, i) }

  ghost predicate AtHead(f: Func, ctx: Ctx, g: Gen, i: nat, env: Ir.Env, m: A.Machine) {
    HeadGen(f, ctx, g, i) && Rel(ctx, StaleSet(f, ctx, i), g, env, m)
  }

  /** The state of a generator that owes nothing. */
  function Clean(): Gen { Gen([], 1, 0, false, 0, 0) }

  /** The IR configuration after a round and the way control left its code agree. */
  ghost predicate Match(f: Func, ctx: Ctx, c: Ir.Config, j: nat, h: Gen, flow: A.Flow) {
    match c
    case At(pc, env) =>
      || (flow.Fall? && pc == j && AtHead(f, ctx, h, j, env, flow.m))
      || (flow.Goto? && flow.target.Named? && Ir.FindLabel(f, flow.target.name, 0) == Some(pc) &&
          Rel(ctx, StaleSet(f, ctx, pc), Clean(), env, flow.m))
    case Done(v, env) =>
      flow.Goto? && flow.target.Exit? && SymRel(ctx, env, flow.m) && (v.Some? ==> flow.m.Get(A.RAX) == v.value)
    case Trapped(env) => flow.Fault? && SymRel(ctx, env, flow.m)
    case Stuck => true
  }

  ghost predicate Simulates(f: Func, ctx: Ctx, g: Gen, i: nat, env: Ir.Env, m: A.Machine, h: Gen, j: nat,
                            n: nat, flow: A.Flow) {
    var c := Ir.Steps(f, n, Ir.At(i, env));
    n >= 1 && (c.Stuck? || (Exits(g, h, m, flow) && Match(f, ctx, c, j, h, flow)))
  }

  lemma StepOnce(f: Func, c: Ir.Config)
    ensures Ir.Steps(f, 1, c) == Ir.Step(f, c)
  {
    assert Ir.Steps(f, 0, Ir.Step(f, c)) == Ir.Step(f, c);
  }

  lemma StepTwice(f: Func, c: Ir.Config)
    ensures Ir.Steps(f, 2, c) == Ir.Step(f, Ir.Step(f, c))
  {
    StepOnce(f, Ir.Step(f, c));
  }

  lemma RelClean(ctx: Ctx, stale: set<string>, g: Gen, env: Ir.Env, m: A.Machine)
    requires Settled(g) && Rel(ctx, stale, g, env, m)
    ensures Rel(ctx, stale, Clean(), env, m)
  {}

  /** The promise left after an instruction is the old one or its own. */
  lemma PendingNext(f: Func, ctx: Ctx, g: Gen, i: nat, j: nat, h: Gen, d: Ir.Operand)
    requires GoodCtx(ctx) && PendingAt(f, ctx, g, i) && i < j <= |f| && PendingFrom(ctx, g, h, d) && NoLabels(f, i, j)
    requires d.Temp? ==> Ir.Defines(f[j - 1], d.name)
    requires h.pending >= 0
    ensures PendingAt(f, ctx, h, j)
  {
    forall t | h.pending != 0 && ctx.TempOff(t) == h.pending ensures exists d': nat :: DefinedAt(f, t, d', j) {
      if h.pending == g.pending {
        var d': nat :| DefinedAt(f, t, d', i);
        assert NoLabels(f, d' + 1, j) by {
          forall k | d' + 1 <= k < j && k < |f| ensures !f[k].Label? {}
        }
        assert DefinedAt(f, t, d', j);
      } else {
        assert TempsApart(ctx, t, d.name);
        assert DefinedAt(f, t, j - 1, j);
      }
    }
  }

  // ----- instructions on their own -----

  function AfterValue(d: Ir.Operand, value: Option<Word>, i: nat, env: Ir.Env): Ir.Config {
    if d.Int? then Ir.Stuck
    else
      match value
      case Some(v) => Ir.At(i + 1, env.Put(d, v))
      case None => Ir.Trapped(env)
  }

  lemma ValueCovers(f: Func, ctx: Ctx, g: Gen, i: nat, x: Ir.Operand, y: Ir.Operand)
    requires Ready(f, ctx) && GenInv(ctx, g) && PendingAt(f, ctx, g, i) && i < |f|
    requires f[i].Assign? || f[i].Unary? || f[i].Binary?
    requires x.Temp? ==> Ir.UsesIn(f[i], x.name) > 0
    requires y.Temp? ==> Ir.UsesIn(f[i], y.name) > 0
    ensures Covers(f, ctx, StaleSet(f, ctx, i) + Dropped(g, ctx, x) + Dropped(g, ctx, y) - Defined(f[i].dest), i + 1)
  {
    hide StaleAt, GoodCtx;
    var stale := StaleSet(f, ctx, i) + Dropped(g, ctx, x) + Dropped(g, ctx, y) - Defined(f[i].dest);
    forall t | t in stale && ctx.TempOff(t) > 0 ensures StaleAt(f, ctx, t, i + 1) {
      if t in Dropped(g, ctx, x) {
        DroppedStale(f, ctx, g, i, i, i + 1, i + 1, x);
      } else if t in Dropped(g, ctx, y) {
        DroppedStale(f, ctx, g, i, i, i + 1, i + 1, y);
      } else {
        OldStale(f, ctx, i, i + 1, i + 1, t);
      }
    }
  }

  /** An instruction that only produces a value. */
  lemma SimValue(f: Func, ctx: Ctx, g: Gen, i: nat, env: Ir.Env, m: A.Machine, h: Gen, x: Ir.Operand, y: Ir.Operand,
                 value: Option<Word>, flow: A.Flow)
    requires Ready(f, ctx) && AtHead(f, ctx, g, i, env, m) && i < |f|
    requires f[i].Assign? || f[i].Unary? || f[i].Binary?
    requires x.Temp? ==> Ir.UsesIn(f[i], x.name) > 0
    requires y.Temp? ==> Ir.UsesIn(f[i], y.name) > 0
    requires Completes(ctx, StaleSet(f, ctx, i) + Dropped(g, ctx, x) + Dropped(g, ctx, y), g, h, env, m, f[i].dest, value, flow)
    requires Ir.Step(f, Ir.At(i, env)) == AfterValue(f[i].dest, value, i, env)
    ensures Simulates(f, ctx, g, i, env, m, h, i + 1, 1, flow)
  {
    hide Rel, GoodCtx, SymRel, Exits, StaleSet, Covers, Ir.Step, Ir.Steps, Ir.UsesIn, GenInv, PendingAt, Dropped, Defined,
         Ir.UniqueLabels, GoodUses;
    StepOnce(f, Ir.At(i, env));
    if value.Some? {
      var stale := StaleSet(f, ctx, i) + Dropped(g, ctx, x) + Dropped(g, ctx, y) - Defined(f[i].dest);
      ValueCovers(f, ctx, g, i, x, y);
      RelCovers(f, ctx, stale, i + 1, h, env.Put(f[i].dest, value.value), flow.m);
      PendingPositive(ctx, h);
      PendingNext(f, ctx, g, i, i + 1, h, f[i].dest);
    }
  }

  lemma PendingPositive(ctx: Ctx, h: Gen)
    requires GenInv(ctx, h)
    ensures h.pending >= 0
  {}

  /** A round that leaves the environment alone and may jump. */
  lemma BranchStale(f: Func, ctx: Ctx, g: Gen, i: nat, j: nat, k: nat, x: Ir.Operand, y: Ir.Operand)
    requires Ready(f, ctx) && GenInv(ctx, g) && PendingAt(f, ctx, g, i) && i < j <= |f| && Follows(f, j, k)
    requires !f[i].Label?
    requires x.Temp? ==> Ir.UsesIn(f[i], x.name) > 0
    requires y.Temp? ==> Ir.UsesIn(f[i], y.name) > 0
    requires forall t, d :: i <= d < j && Ir.Defines(f[d], t) ==> exists u :: d < u < j && Ir.UsesIn(f[u], t) > 0
    ensures Covers(f, ctx, StaleSet(f, ctx, i) + Dropped(g, ctx, x) + Dropped(g, ctx, y), k)
  {
    forall t | t in StaleSet(f, ctx, i) + Dropped(g, ctx, x) + Dropped(g, ctx, y) && ctx.TempOff(t) > 0
      ensures StaleAt(f, ctx, t, k)
    {
      if t in Dropped(g, ctx, x) {
        DroppedStale(f, ctx, g, i, i, j, k, x);
      } else if t in Dropped(g, ctx, y) {
        DroppedStale(f, ctx, g, i, i, j, k, y);
      } else {
        OldStale(f, ctx, i, j, k, t);
      }
    }
  }

  /** A conditional jump of the IR, standing alone. */
  lemma SimBranch(f: Func, ctx: Ctx, g: Gen, i: nat, env: Ir.Env, m: A.Machine, h: Gen, x: Ir.Operand, y: Ir.Operand,
                  taken: bool, l: string, flow: A.Flow)
    requires Ready(f, ctx) && AtHead(f, ctx, g, i, env, m) && i < |f|
    requires f[i].BranchZero? || f[i].BranchEq?
    requires x.Temp? ==> Ir.UsesIn(f[i], x.name) > 0
    requires y.Temp? ==> Ir.UsesIn(f[i], y.name) > 0
    requires Branches(ctx, StaleSet(f, ctx, i) + Dropped(g, ctx, x) + Dropped(g, ctx, y), g, h, env, m, taken, l, flow)
    requires Ir.Step(f, Ir.At(i, env)) == (if taken then Ir.JumpTo(f, l, env) else Ir.At(i + 1, env))
    ensures Simulates(f, ctx, g, i, env, m, h, i + 1, 1, flow)
  {
    StepOnce(f, Ir.At(i, env));
    hide Rel, GoodCtx, StaleSet, GoodUses, Exits, Covers, Ir.UniqueLabels, Ir.Step, Ir.Steps, Dropped;
    var stale := StaleSet(f, ctx, i) + Dropped(g, ctx, x) + Dropped(g, ctx, y);
    if taken {
      var k := Ir.FindLabel(f, l, 0);
      if k.Some? {
        BranchStale(f, ctx, g, i, i + 1, k.value, x, y);
        RelCovers(f, ctx, stale, k.value, h, env, flow.m);
        RelClean(ctx, StaleSet(f, ctx, k.value), h, env, flow.m);
      }
    } else {
      BranchStale(f, ctx, g, i, i + 1, i + 1, x, y);
      RelCovers(f, ctx, stale, i + 1, h, env, flow.m);
      PendingNext(f, ctx, g, i, i + 1, h, Ir.Nothing);
    }
  }

  lemma ExitJump(ctx: Ctx, stale: set<string>, g: Gen, env: Ir.Env, m: A.Machine) returns (flow: A.Flow)
    requires GoodCtx(ctx) && GenInv(ctx, g) && Rel(ctx, stale, g, env, m)
    ensures Exits(g, Emit(g, [A.Jmp(A.Exit)]), m, flow)
    ensures flow.Goto? && flow.target.Exit? && SymRel(ctx, env, flow.m) && flow.m.Get(A.RAX) == m.Get(A.RAX)
  {
    var m1 := AfterSpill(g, m);
    A.RunOne(A.Jmp(A.Exit), m1);
    flow := A.Goto(A.Exit, m1);
    EmitKeeps(ctx, stale, g, env, m, [A.Jmp(A.Exit)], flow);
    RelSyms(ctx, stale, Emit(g, [A.Jmp(A.Exit)]), env, m1);
  }

  /** Passing a label: the promised store goes out first, and both sides record the label. */
  lemma LabelRuns(ctx: Ctx, stale: set<string>, g: Gen, env: Ir.Env, m: A.Machine, l: string)
    requires GoodCtx(ctx) && GenInv(ctx, g) && Rel(ctx, stale, g, env, m)
    ensures var h, m' := Emit(g, [A.LabelDef(A.Named(l))]), AfterSpill(g, m).Pass(A.Named(l));
            Exits(g, h, m, A.Fall(m')) && GenInv(ctx, h) && Settled(h) && Rel(ctx, stale, h, env.Pass(l), m')
  {
    var a := A.LabelDef(A.Named(l));
    var h, m1 := Emit(g, [a]), AfterSpill(g, m);
    A.RunOne(a, m1);
    EmitRuns(g, [a], m);
    SpillKeeps(ctx, stale, g, env, m, h);
    RelPass(ctx, stale, h, env, m1, l);
  }

  lemma RelPass(ctx: Ctx, stale: set<string>, g: Gen, env: Ir.Env, m: A.Machine, l: string)
    requires Rel(ctx, stale, g, env, m)
    ensures Rel(ctx, stale, g, env.Pass(l), m.Pass(A.Named(l)))
  {
    var m' := m.Pass(A.Named(l));
    forall s | s in ctx.symbols ensures ReadLoc(m', s, ctx.symbols[s]) == env.Pass(l).Sym(s) {
      assert ReadLoc(m, s, ctx.symbols[s]) == env.Sym(s);
    }
  }

  lemma SimLabel(f: Func, ctx: Ctx, g: Gen, i: nat, env: Ir.Env, m: A.Machine, h: Gen) returns (flow: A.Flow)
    requires Ready(f, ctx) && AtHead(f, ctx, g, i, env, m) && i < |f| && f[i].Label?
    requires Single(g, ctx, f[i]) == Some(h)
    ensures Simulates(f, ctx, g, i, env, m, h, i + 1, 1, flow)
  {
    hide Rel, GoodCtx, SymRel, StaleSet, Covers;
    StepOnce(f, Ir.At(i, env));
    var l := f[i].text;
    flow := A.Fall(AfterSpill(g, m).Pass(A.Named(l)));
    LabelRuns(ctx, StaleSet(f, ctx, i), g, env, m, l);
    AfterLabel(f, ctx, i);
    RelCovers(f, ctx, StaleSet(f, ctx, i), i + 1, h, env.Pass(l), flow.m);
  }

  lemma AfterLabel(f: Func, ctx: Ctx, i: nat)
    requires Ready(f, ctx) && i < |f| && f[i].Label?
    ensures Covers(f, ctx, StaleSet(f, ctx, i), i + 1)
  {
    forall t | t in StaleSet(f, ctx, i) ensures StaleAt(f, ctx, t, i + 1) { OldStale(f, ctx, i, i + 1, i + 1, t); }
  }

  lemma SimQuiet(f: Func, ctx: Ctx, g: Gen, i: nat, env: Ir.Env, m: A.Machine) returns (flow: A.Flow)
    requires Ready(f, ctx) && AtHead(f, ctx, g, i, env, m) && i < |f| && (f[i].Nop? || f[i].DeclareLocal?)
    ensures Simulates(f, ctx, g, i, env, m, g, i + 1, 1, flow)
  {
    StepOnce(f, Ir.At(i, env));
    flow := A.Fall(m);
    ExitsSame(g, m);
    BranchStale(f, ctx, g, i, i + 1, i + 1, Ir.Nothing, Ir.Nothing);
    NothingDropped(g, ctx, StaleSet(f, ctx, i));
    RelCovers(f, ctx, StaleSet(f, ctx, i), i + 1, g, env, m);
    PendingPositive(ctx, g);
    PendingNext(f, ctx, g, i, i + 1, g, Ir.Nothing);
  }

  lemma NothingDropped(g: Gen, ctx: Ctx, stale: set<string>)
    ensures stale + Dropped(g, ctx, Ir.Nothing) + Dropped(g, ctx, Ir.Nothing) == stale
  {}

  lemma SimJump(f: Func, ctx: Ctx, g: Gen, i: nat, env: Ir.Env, m: A.Machine, h: Gen) returns (flow: A.Flow)
    requires Ready(f, ctx) && AtHead(f, ctx, g, i, env, m) && i < |f| && f[i].Jump?
    requires Single(g, ctx, f[i]) == Some(h)
    ensures Simulates(f, ctx, g, i, env, m, h, i + 1, 1, flow)
  {
    StepOnce(f, Ir.At(i, env));
    var m1 := AfterSpill(g, m);
    var a := A.Jmp(A.Named(f[i].text));
    A.RunOne(a, m1);
    flow := A.Goto(A.Named(f[i].text), m1);
    var stale := StaleSet(f, ctx, i);
    EmitKeeps(ctx, stale, g, env, m, [a], flow);
    var k := Ir.FindLabel(f, f[i].text, 0);
    if k.Some? {
      BranchStale(f, ctx, g, i, i + 1, k.value, Ir.Nothing, Ir.Nothing);
      NothingDropped(g, ctx, stale);
      RelCovers(f, ctx, stale, k.value, h, env, m1);
      RelClean(ctx, StaleSet(f, ctx, k.value), h, env, m1);
    }
  }

  lemma SimReturn(f: Func, ctx: Ctx, g: Gen, i: nat, env: Ir.Env, m: A.Machine, h: Gen) returns (flow: A.Flow)
    requires Ready(f, ctx) && AtHead(f, ctx, g, i, env, m) && i < |f| && f[i].Return?
    requires Single(g, ctx, f[i]) == Some(h)
    ensures Simulates(f, ctx, g, i, env, m, h, i + 1, 1, flow)
  {
    StepOnce(f, Ir.At(i, env));
    var stale := StaleSet(f, ctx, i);
    var x := f[i].lhs;
    if x.Nothing? {
      flow := ExitJump(ctx, stale, g, env, m);
    } else {
      FreshRead(f, ctx, i, i, x);
      var k := Load(g, ctx, x).value;
      var m1 := LoadUses(ctx, stale, g, env, m, x, k);
      flow := ExitJump(ctx, stale + Dropped(g, ctx, x), k, env, m1);
      ExitsThen(g, k, h, m, m1, flow);
    }
  }

  lemma SimAssign(f: Func, ctx: Ctx, g: Gen, i: nat, env: Ir.Env, m: A.Machine, h: Gen) returns (flow: A.Flow)
    requires Ready(f, ctx) && AtHead(f, ctx, g, i, env, m) && i < |f| && (f[i].Assign? || f[i].Unary?)
    requires Single(g, ctx, f[i]) == Some(h)
    ensures Simulates(f, ctx, g, i, env, m, h, i + 1, 1, flow)
  {
    var stale := StaleSet(f, ctx, i);
    var a := f[i];
    FreshRead(f, ctx, i, i, a.lhs);
    assert stale + Dropped(g, ctx, a.lhs) + Dropped(g, ctx, Ir.Nothing) == stale + Dropped(g, ctx, a.lhs);
    if a.Assign? {
      flow := AssignCorrect(ctx, stale, g, env, m, a.dest, a.lhs, h);
      SimValue(f, ctx, g, i, env, m, h, a.lhs, Ir.Nothing, Some(env.Value(a.lhs)), flow);
    } else {
      flow := UnaryCorrect(ctx, stale, g, env, m, a.dest, a.uop, a.lhs, h);
      SimValue(f, ctx, g, i, env, m, h, a.lhs, Ir.Nothing, Some(Ir.EvalUnary(a.uop, env.Value(a.lhs))), flow);
    }
  }

  lemma BothFresh(f: Func, ctx: Ctx, g: Gen, i: nat, x: Ir.Operand, y: Ir.Operand)
    requires GoodUses(f, ctx) && GenInv(ctx, g) && i < |f|
    requires f[i].Binary? || f[i].BranchEq?
    requires x == f[i].lhs && y == f[i].rhs
    ensures Fresh(StaleSet(f, ctx, i), x) && Fresh(StaleSet(f, ctx, i), y) && (x == y ==> !Drops(g, ctx, x))
  {
    FreshRead(f, ctx, i, i, x);
    FreshRead(f, ctx, i, i, y);
    TwiceKept(f, ctx, g, i, x, y);
  }

  lemma SimBinary(f: Func, ctx: Ctx, g: Gen, i: nat, env: Ir.Env, m: A.Machine, h: Gen) returns (flow: A.Flow)
    requires Ready(f, ctx) && AtHead(f, ctx, g, i, env, m) && i < |f| && f[i].Binary?
    requires BinaryFallback(g, ctx, f[i]) == Some(h)
    ensures Simulates(f, ctx, g, i, env, m, h, i + 1, 1, flow)
  {
    hide Rel, GoodCtx, Ir.Eval, BinaryFallback, StaleSet, Completes, Exits, Match;
    var b := f[i];
    BothFresh(f, ctx, g, i, b.lhs, b.rhs);
    flow := FallbackCorrect(ctx, StaleSet(f, ctx, i), g, env, m, b, h);
    SimValue(f, ctx, g, i, env, m, h, b.lhs, b.rhs, Ir.Eval(b.op, env.Value(b.lhs), env.Value(b.rhs)), flow);
  }

  lemma SimBranches(f: Func, ctx: Ctx, g: Gen, i: nat, env: Ir.Env, m: A.Machine, h: Gen) returns (flow: A.Flow)
    requires Ready(f, ctx) && AtHead(f, ctx, g, i, env, m) && i < |f| && (f[i].BranchZero? || f[i].BranchEq?)
    requires Single(g, ctx, f[i]) == Some(h)
    ensures Simulates(f, ctx, g, i, env, m, h, i + 1, 1, flow)
  {
    var stale := StaleSet(f, ctx, i);
    var b := f[i];
    if b.BranchZero? {
      FreshRead(f, ctx, i, i, b.lhs);
      hide Rel, GoodCtx, StaleSet, Exits, Match, ZeroJump, Branches;
      flow := ZeroJumpCorrect(ctx, stale, g, env, m, b.lhs, A.E, b.text, h);
      assert stale + Dropped(g, ctx, b.lhs) + Dropped(g, ctx, Ir.Nothing) == stale + Dropped(g, ctx, b.lhs);
      SimBranch(f, ctx, g, i, env, m, h, b.lhs, Ir.Nothing, env.Value(b.lhs) == 0, b.text, flow);
    } else {
      BothFresh(f, ctx, g, i, b.lhs, b.rhs);
      hide Rel, GoodCtx, StaleSet, Exits, Match, EqualJump, Branches;
      flow := EqualJumpCorrect(ctx, stale, g, env, m, b.lhs, b.rhs, b.text, h);
      SimBranch(f, ctx, g, i, env, m, h, b.lhs, b.rhs, env.Value(b.lhs) == env.Value(b.rhs), b.text, flow);
    }
  }

  lemma SimAlone(f: Func, ctx: Ctx, g: Gen, i: nat, env: Ir.Env, m: A.Machine, h: Gen) returns (flow: A.Flow)
    requires Ready(f, ctx) && AtHead(f, ctx, g, i, env, m) && i < |f|
    requires Single(g, ctx, f[i]) == Some(h)
    ensures Simulates(f, ctx, g, i, env, m, h, i + 1, 1, flow)
  {
    hide Ready, AtHead, Simulates, BinaryFallback, ZeroJump, EqualJump, AssignCode, Emit, Load, Store;
    match f[i]
    case Nop => flow := SimQuiet(f, ctx, g, i, env, m);
    case DeclareLocal(_) => flow := SimQuiet(f, ctx, g, i, env, m);
    case Label(_) => flow := SimLabel(f, ctx, g, i, env, m, h);
    case Jump(_) => flow := SimJump(f, ctx, g, i, env, m, h);
    case BranchZero(_, _) => flow := SimBranches(f, ctx, g, i, env, m, h);
    case BranchEq(_, _, _) => flow := SimBranches(f, ctx, g, i, env, m, h);
    case Assign(_, _) => flow := SimAssign(f, ctx, g, i, env, m, h);
    case Unary(_, _, _) => flow := SimAssign(f, ctx, g, i, env, m, h);
    case Binary(_, _, _, _) => flow := SimBinary(f, ctx, g, i, env, m, h);
    case Return(_) => flow := SimReturn(f, ctx, g, i, env, m, h);
  }
}
