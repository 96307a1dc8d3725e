/** When the IR backend emits a function at all, read off the IR and the places of its names: no generator state,
    no code. */
module Placement {
  import opened Words
  import opened Wrappers
  import opened Emitter
  import Ir
  import A = Asm

  // ----- operands and instructions -----

  /** The operand has a value to bring: a literal, nothing at all, a known symbol, or a temp with a frame slot. */
  predicate Loadable(ctx: Ctx, o: Ir.Operand) {
    match o
    case Nothing => true
    case Int(_) => true
    case Symbol(s) => s in ctx.symbols
    case Temp(t) => t in ctx.tempOffset && ctx.tempOffset[t] > 0
  }

  /** The operand can take a value; a literal cannot. */
  predicate Storable(ctx: Ctx, d: Ir.Operand) { !d.Int? && Loadable(ctx, d) }

  /** Every operand the instruction reads has a value, and its destination a place. */
  predicate Placed(ctx: Ctx, a: Ir.Instr) {
    match a
    case Nop | DeclareLocal(_) | Label(_) | Jump(_) => true
    case BranchZero(x, _) => Loadable(ctx, x)
    case BranchEq(x, y, _) => Loadable(ctx, x) && Loadable(ctx, y)
    case Assign(d, x) => Loadable(ctx, x) && Storable(ctx, d)
    case Unary(d, _, x) => Loadable(ctx, x) && Storable(ctx, d)
    case Binary(d, _, x, y) => Loadable(ctx, x) && Loadable(ctx, y) && Storable(ctx, d)
    case Return(x) => Loadable(ctx, x)
  }

  /** Every instruction of the function. */
  predicate AllPlaced(f: Func, ctx: Ctx) { forall i :: 0 <= i < |f| ==> Placed(ctx, f[i]) }

  // ----- which instructions are fused -----

  /** Nothing but Nops lies between the two instructions. */
  predicate OnlyNops(f: Func, i: nat, k: nat)
    requires k <= |f|
  {
    forall j :: i < j < k ==> f[j].Nop?
  }

  /** A branch over a jump to the label right behind it. */
  predicate BranchesOver(f: Func, i: nat)
    requires i < |f|
  {
    i + 2 < |f| && f[i].BranchZero? && f[i + 1].Jump? && f[i + 2] == Ir.Label(f[i].text)
  }

  lemma {:induction false} NextIs(f: Func, i: nat, k: nat)
    requires i <= k < |f| && !f[k].Nop? && !f[k].Label? && forall j :: i <= j < k ==> f[j].Nop?
    ensures NextInBlock(f, i) == Some(k)
    decreases k - i
  {
    if i < k { NextIs(f, i + 1, k); }
  }

  /** The next instruction is a binary that takes the single-use temp computed at j. */
  predicate Links(f: Func, ctx: Ctx, j: nat) {
    && j + 1 < |f| && f[j].Binary? && f[j].dest.Temp? && ctx.UseCount(f[j].dest.name) == 1
    && f[j + 1].Binary? && f[j].dest in {f[j + 1].lhs, f[j + 1].rhs}
  }

  /** The next instruction branches on the comparison whose single-use temp is computed at j. */
  predicate Decides(f: Func, ctx: Ctx, j: nat) {
    && j + 1 < |f| && f[j].Binary? && f[j].dest.Temp? && ctx.UseCount(f[j].dest.name) == 1
    && f[j].op in {Ir.Eq, Ir.Ne, Ir.Lt, Ir.Le, Ir.Gt, Ir.Ge} && f[j + 1].BranchZero? && f[j + 1].lhs == f[j].dest
  }

  /** A return that follows at once takes the single-use temp computed at i. */
  ghost predicate Returned(f: Func, ctx: Ctx, i: nat, k: nat) {
    && i < k < |f| && f[i].Binary? && f[i].dest.Temp? && ctx.UseCount(f[i].dest.name) == 1
    && OnlyNops(f, i, k) && f[k] == Ir.Return(f[i].dest)
  }

  lemma {:induction false} LastLink(f: Func, ctx: Ctx, i: nat)
    requires i < |f| && f[i].Binary?
    ensures var last := ChainLast(f, ctx, i);
            (forall j :: i <= j < last ==> Links(f, ctx, j)) && !Links(f, ctx, last)
    decreases |f| - i
  {
    if Links(f, ctx, i) { LastLink(f, ctx, i + 1); }
  }

  lemma OneReturn(f: Func, ctx: Ctx, i: nat, k: nat)
    requires Returned(f, ctx, i, k)
    ensures ReturnOf(f, i, f[i].dest.name) == Some(k)
  {
    hide NextInBlock;
    NextIs(f, i + 1, k);
  }

  /** Which instructions are fused: with a return first, then the longest chain of at least two links, one link, a
      comparison and its branch, a branch and the jump behind it. */
  lemma ShapeExactly(f: Func, ctx: Ctx, i: nat)
    requires i < |f|
    ensures var s, isReturned := ShapeAt(f, ctx, i), (exists k :: Returned(f, ctx, i, k));
            && (s.ReturnTemp? <==> isReturned) && (s.ReturnTemp? ==> Returned(f, ctx, i, s.ret))
            && (s.Chain? <==> !isReturned && Links(f, ctx, i) && Links(f, ctx, i + 1))
            && (s.Chain? ==> (forall j :: i <= j < s.last ==> Links(f, ctx, j)) && !Links(f, ctx, s.last))
            && (s.CompareChain? <==> !isReturned && Links(f, ctx, i) && !Links(f, ctx, i + 1) && Decides(f, ctx, i + 1))
            && (s.Pair? <==> !isReturned && Links(f, ctx, i) && !Links(f, ctx, i + 1) && !Decides(f, ctx, i + 1))
            && (s.CompareJumpOver? || s.CompareBranch? <==> Decides(f, ctx, i))
            && (s.JumpOver? <==> BranchesOver(f, i))
            && (s.Alone? <==> !isReturned && !Links(f, ctx, i) && !Decides(f, ctx, i) && !BranchesOver(f, i))
  {
    hide ReturnOf, ChainLast, NextInBlock;
    if f[i].Binary? && f[i].dest.Temp? { LastLink(f, ctx, i); }
    if k :| Returned(f, ctx, i, k) { OneReturn(f, ctx, i, k); }
    ReturnedBy(f, ctx, i);
  }

  lemma ReturnedBy(f: Func, ctx: Ctx, i: nat)
    requires i < |f|
    ensures f[i].Binary? && f[i].dest.Temp? && ctx.UseCount(f[i].dest.name) == 1 && ReturnOf(f, i, f[i].dest.name).Some? ==>
              Returned(f, ctx, i, ReturnOf(f, i, f[i].dest.name).value)
  {
    hide NextInBlock;
  }

  // ----- rounds -----

  predicate OperandsPlaced(ctx: Ctx, a: Ir.Instr)
    requires a.Binary?
  {
    Loadable(ctx, a.lhs) && Loadable(ctx, a.rhs)
  }

  /** The consumer of a fused temp needs its other operand only. */
  predicate OtherPlaced(ctx: Ctx, a: Ir.Instr, t: string)
    requires a.Binary?
  {
    Loadable(ctx, if a.lhs == Ir.Temp(t) then a.rhs else a.lhs)
  }

  /** The chain's last value goes to a branch or a return instead of its destination. */
  predicate EndsInJump(f: Func, ctx: Ctx, last: nat)
    requires last < |f| && f[last].Binary?
  {
    FeedsBranch(f, ctx, last) || (f[last].dest.Temp? && ReturnOf(f, last, f[last].dest.name).Some?)
  }

  /** What one round needs: a temp that stays in a register needs no place. */
  predicate RoundPlaced(f: Func, ctx: Ctx, i: nat)
    requires i < |f|
  {
    match ShapeAt(f, ctx, i)
    case ReturnTemp(_) => OperandsPlaced(ctx, f[i])
    case Chain(last) =>
      && OperandsPlaced(ctx, f[i])
      && (forall k :: i < k <= last ==> OtherPlaced(ctx, f[k], f[k - 1].dest.name))
      && (EndsInJump(f, ctx, last) || Storable(ctx, f[last].dest))
    case CompareChain => OperandsPlaced(ctx, f[i]) && OtherPlaced(ctx, f[i + 1], f[i].dest.name)
    case Pair => OperandsPlaced(ctx, f[i]) && OtherPlaced(ctx, f[i + 1], f[i].dest.name) && Storable(ctx, f[i + 1].dest)
    case CompareJumpOver => OperandsPlaced(ctx, f[i])
    case CompareBranch => OperandsPlaced(ctx, f[i])
    case JumpOver => Placed(ctx, f[i])
    case Alone => Placed(ctx, f[i])
  }

  /** Where the next round starts. */
  function NextRound(f: Func, ctx: Ctx, i: nat): (j: nat)
    requires i < |f|
    ensures i < j <= |f|
  {
    match ShapeAt(f, ctx, i)
    case ReturnTemp(ret) => ret + 1
    case Chain(last) =>
      if FeedsBranch(f, ctx, last) then last + 2
      else if EndsInJump(f, ctx, last) then ReturnOf(f, last, f[last].dest.name).value + 1
      else last + 1
    case CompareChain => i + 3
    case Pair => i + 2
    case CompareJumpOver => i + 3
    case CompareBranch => i + 2
    case JumpOver => i + 2
    case Alone => i + 1
  }

  /** Every round from i on. */
  predicate RoundsPlaced(f: Func, ctx: Ctx, i: nat)
    requires i <= |f|
    decreases |f| - i
  {
    i < |f| ==> RoundPlaced(f, ctx, i) && RoundsPlaced(f, ctx, NextRound(f, ctx, i))
  }

  // ----- each piece of the emitter succeeds exactly with its operands -----

  lemma LoadPlaced(g: Gen, ctx: Ctx, o: Ir.Operand)
    ensures Load(g, ctx, o).Some? <==> Loadable(ctx, o)
  {}

  lemma LoadIntoPlaced(g: Gen, ctx: Ctx, o: Ir.Operand, r: A.Reg)
    ensures LoadInto(g, ctx, o, r).Some? <==> Loadable(ctx, o)
  {
    LoadPlaced(g, ctx, o);
  }

  lemma StorePlaced(g: Gen, ctx: Ctx, d: Ir.Operand)
    ensures Store(g, ctx, d).Some? <==> Storable(ctx, d)
  {}

  lemma TryPlaced(g: Gen, ctx: Ctx, op: Ir.BinOp, value: Ir.Operand, literal: Ir.Operand)
    ensures TryImmediate(g, ctx, op, value, literal).Some? <==> !SmallInt(literal) || Loadable(ctx, value)
    ensures TryImmediate(g, ctx, op, value, literal).Some? && TryImmediate(g, ctx, op, value, literal).value.1 ==>
              Loadable(ctx, value) && Loadable(ctx, literal)
  {
    hide ImmediateCode, Emit;
    LoadPlaced(g, ctx, value);
  }

  lemma ComputePlaced(g: Gen, ctx: Ctx, op: Ir.BinOp, lhs: Ir.Operand, rhs: Ir.Operand)
    ensures ComputeToR11(g, ctx, op, lhs, rhs).Some? <==> Loadable(ctx, lhs) && Loadable(ctx, rhs)
  {
    hide TryImmediate, Load, LoadInto, Emit, RegisterCode;
    TryPlaced(g, ctx, op, lhs, rhs);
    var first := TryImmediate(g, ctx, op, lhs, rhs);
    if first.Some? && !first.value.1 {
      TryPlaced(first.value.0, ctx, op, rhs, lhs);
      var second := if Ir.IsCommutative(op) then TryImmediate(first.value.0, ctx, op, rhs, lhs) else Some((first.value.0, false));
      if second.Some? && !second.value.1 {
        LoadIntoPlaced(second.value.0, ctx, rhs, A.R10);
        var h := LoadInto(second.value.0, ctx, rhs, A.R10);
        if h.Some? { LoadPlaced(h.value, ctx, lhs); }
      }
    }
  }

  lemma ConsumePlaced(g: Gen, ctx: Ctx, b: Ir.Instr, t: string)
    requires b.Binary?
    ensures ConsumeR11(g, ctx, b, t).Some? <==> OtherPlaced(ctx, b, t)
  {
    hide Load, LoadInto, Emit, RegisterCode, ImmediateCode;
    var h := Emit(g, [A.Mov(A.RAX, A.R(A.R11))]);
    LoadIntoPlaced(g, ctx, b.rhs, A.R10);
    LoadIntoPlaced(h, ctx, b.rhs, A.R10);
    LoadPlaced(g, ctx, b.lhs);
    LoadPlaced(h, ctx, b.lhs);
  }

  lemma CompareR11Placed(g: Gen, ctx: Ctx, b: Ir.Instr, t: string, jump: A.Cond, l: string)
    requires b.Binary?
    ensures CompareR11Jump(g, ctx, b, t, jump, l).Some? <==> OtherPlaced(ctx, b, t)
  {
    hide Load, LoadInto, Emit;
    LoadIntoPlaced(g, ctx, b.rhs, A.R10);
    LoadPlaced(g, ctx, b.lhs);
  }

  lemma ComparePlaced(g: Gen, ctx: Ctx, b: Ir.Instr, jump: A.Cond, l: string)
    requires b.Binary?
    ensures CompareJump(g, ctx, b, jump, l).Some? <==> OperandsPlaced(ctx, b)
  {
    hide Load, LoadInto, Emit;
    LoadPlaced(g, ctx, b.lhs);
    LoadIntoPlaced(g, ctx, b.rhs, A.R10);
    var h := LoadInto(g, ctx, b.rhs, A.R10);
    if h.Some? { LoadPlaced(h.value, ctx, b.lhs); }
  }

  lemma ZeroPlaced(g: Gen, ctx: Ctx, o: Ir.Operand, jump: A.Cond, l: string)
    requires jump.E? || jump.NE?
    ensures ZeroJump(g, ctx, o, jump, l).Some? <==> Loadable(ctx, o)
  {
    hide Load, Emit;
    LoadPlaced(g, ctx, o);
  }

  lemma EqualPlaced(g: Gen, ctx: Ctx, x: Ir.Operand, y: Ir.Operand, l: string)
    ensures EqualJump(g, ctx, x, y, l).Some? <==> Loadable(ctx, x) && Loadable(ctx, y)
  {
    hide Load, LoadInto, Emit;
    LoadPlaced(g, ctx, x);
    LoadPlaced(g, ctx, y);
    LoadIntoPlaced(g, ctx, y, A.R10);
    var h := LoadInto(g, ctx, y, A.R10);
    if h.Some? { LoadPlaced(h.value, ctx, x); }
  }

  lemma FastPlaced(ctx: Ctx, b: Ir.Instr)
    requires b.Binary? && RegisterFastPath(ctx, b).Some?
    ensures OperandsPlaced(ctx, b) && Storable(ctx, b.dest)
  {}

  lemma FallbackPlaced(g: Gen, ctx: Ctx, b: Ir.Instr)
    requires b.Binary?
    ensures BinaryFallback(g, ctx, b).Some? <==> OperandsPlaced(ctx, b) && Storable(ctx, b.dest)
  {
    hide Load, LoadInto, Emit, Store, RegisterFastPath, PowerOfTwo, ImmediateCode, RegisterCode, ShiftDivCode, ShiftRemCode, Storable;
    if RegisterFastPath(ctx, b).Some? { FastPlaced(ctx, b); }
    LoadPlaced(g, ctx, b.lhs);
    LoadIntoPlaced(g, ctx, b.rhs, A.R10);
    var h := LoadInto(g, ctx, b.rhs, A.R10);
    if h.Some? { LoadPlaced(h.value, ctx, b.lhs); }
    forall k: Gen { StorePlaced(k, ctx, b.dest); }
  }

  lemma AssignPlaced(g: Gen, ctx: Ctx, d: Ir.Operand, x: Ir.Operand)
    ensures AssignCode(g, ctx, d, x).Some? <==> Loadable(ctx, x) && Storable(ctx, d)
  {
    hide Load, Emit, Store;
    LoadPlaced(g, ctx, x);
    forall k: Gen { StorePlaced(k, ctx, d); }
  }

  /** An instruction that takes part in no fusion is emitted exactly when it is placed. */
  lemma SinglePlaced(g: Gen, ctx: Ctx, a: Ir.Instr)
    ensures Single(g, ctx, a).Some? <==> Placed(ctx, a)
  {
    hide Load, Emit, Store, ZeroJump, EqualJump, AssignCode, BinaryFallback, Loadable, Storable;
    match a {
      case BranchZero(x, l) => ZeroPlaced(g, ctx, x, A.E, l);
      case BranchEq(x, y, l) => EqualPlaced(g, ctx, x, y, l);
      case Assign(d, x) => AssignPlaced(g, ctx, d, x);
      case Unary(d, op, x) =>
        LoadPlaced(g, ctx, x);
        forall k: Gen { StorePlaced(k, ctx, d); }
      case Binary(_, _, _, _) => FallbackPlaced(g, ctx, a);
      case Return(x) =>
        LoadPlaced(g, ctx, x);
        LoadPlaced(g, ctx, Ir.Nothing);
        NothingPlaced(ctx);
      case _ =>
    }
  }

  lemma NothingPlaced(ctx: Ctx)
    ensures Loadable(ctx, Ir.Nothing) && Storable(ctx, Ir.Nothing)
  {}

  lemma {:induction false} ExtendPlaced(f: Func, ctx: Ctx, g: Gen, i: nat, last: nat)
    requires i <= last < |f|
    requires forall j :: i <= j <= last ==> f[j].Binary?
    requires forall j :: i <= j < last ==> f[j].dest.Temp?
    ensures ExtendChain(f, ctx, g, i, last).Some? <==> forall k :: i < k <= last ==> OtherPlaced(ctx, f[k], f[k - 1].dest.name)
    decreases last - i
  {
    hide ConsumeR11, Emit, OtherPlaced;
    if i < last {
      ConsumePlaced(g, ctx, f[i + 1], f[i].dest.name);
      var h := ConsumeR11(g, ctx, f[i + 1], f[i].dest.name);
      if h.Some? { ExtendPlaced(f, ctx, Emit(h.value, [A.Mov(A.R11, A.R(A.RAX))]), i + 1, last); }
    }
  }

  lemma TailPlaced(f: Func, ctx: Ctx, k: Gen, last: nat)
    requires last < |f| && f[last].Binary?
    ensures ChainTail(f, ctx, k, last).Some? <==> EndsInJump(f, ctx, last) || Storable(ctx, f[last].dest)
  {
    hide Store, Emit, Storable;
    forall h: Gen { StorePlaced(h, ctx, f[last].dest); }
  }

  lemma ChainPlaced(f: Func, ctx: Ctx, g: Gen, i: nat)
    requires i < |f| && ShapeAt(f, ctx, i).Chain?
    ensures EmitChain(f, ctx, g, i, ShapeAt(f, ctx, i).last).Some? <==> RoundPlaced(f, ctx, i)
  {
    hide ComputeToR11, ExtendChain, ChainTail, Storable, OtherPlaced, EndsInJump, Loadable, ShapeAt, Emit;
    var last := ShapeAt(f, ctx, i).last;
    ComputePlaced(g, ctx, f[i].op, f[i].lhs, f[i].rhs);
    var h := ComputeToR11(g, ctx, f[i].op, f[i].lhs, f[i].rhs);
    if h.Some? {
      ExtendPlaced(f, ctx, h.value, i, last);
      var k := ExtendChain(f, ctx, h.value, i, last);
      if k.Some? { TailPlaced(f, ctx, k.value, last); }
    }
  }

  /** A round is emitted exactly when it is placed. */
  lemma BlockPlaced(f: Func, ctx: Ctx, g: Gen, i: nat)
    requires i < |f|
    ensures Block(f, ctx, g, i).Some? <==> RoundPlaced(f, ctx, i)
    ensures Block(f, ctx, g, i).Some? ==> Block(f, ctx, g, i).value.1 == NextRound(f, ctx, i)
  {
    hide ShapeAt, BinaryFallback, ComputeToR11, CompareJump, CompareR11Jump, ConsumeR11, ZeroJump, Single, Store, Emit,
         ReturnOf, ExtendChain, Load, LoadInto, Loadable, Storable, Placed;
    match ShapeAt(f, ctx, i) {
      case ReturnTemp(ret) =>
        FallbackPlaced(g, ctx, Ir.Binary(Ir.Nothing, f[i].op, f[i].lhs, f[i].rhs));
        NothingPlaced(ctx);
      case Chain(last) => ChainPlaced(f, ctx, g, i);
      case CompareChain =>
        ComputePlaced(g, ctx, f[i].op, f[i].lhs, f[i].rhs);
        var h := ComputeToR11(g, ctx, f[i].op, f[i].lhs, f[i].rhs);
        if h.Some? { CompareR11Placed(h.value, ctx, f[i + 1], f[i].dest.name, FalseJump(f[i + 1].op), f[i + 2].text); }
      case Pair =>
        ComputePlaced(g, ctx, f[i].op, f[i].lhs, f[i].rhs);
        var h := ComputeToR11(g, ctx, f[i].op, f[i].lhs, f[i].rhs);
        if h.Some? {
          ConsumePlaced(h.value, ctx, f[i + 1], f[i].dest.name);
          var k := ConsumeR11(h.value, ctx, f[i + 1], f[i].dest.name);
          if k.Some? { StorePlaced(k.value, ctx, f[i + 1].dest); }
        }
      case CompareJumpOver => ComparePlaced(g, ctx, f[i], Invert(FalseJump(f[i].op)), f[i + 2].text);
      case CompareBranch => ComparePlaced(g, ctx, f[i], FalseJump(f[i].op), f[i + 1].text);
      case JumpOver =>
        ZeroPlaced(g, ctx, f[i].lhs, A.NE, f[i + 1].text);
        BranchPlaced(ctx, f[i]);
      case Alone => SinglePlaced(g, ctx, f[i]);
    }
  }

  lemma BranchPlaced(ctx: Ctx, a: Ir.Instr)
    requires a.BranchZero?
    ensures Placed(ctx, a) <==> Loadable(ctx, a.lhs)
  {}

  /** The loop gets through from instruction i exactly when every round from there on is placed. */
  lemma {:induction false} EmitsExactly(f: Func, ctx: Ctx, g: Gen, i: nat)
    requires i <= |f|
    ensures EmitFrom(f, ctx, g, i).Some? <==> RoundsPlaced(f, ctx, i)
    decreases |f| - i
  {
    if i < |f| {
      hide Block, RoundPlaced, NextRound;
      BlockPlaced(f, ctx, g, i);
      var b := Block(f, ctx, g, i);
      if b.Some? { EmitsExactly(f, ctx, b.value.0, b.value.1); }
    }
  }

  /** A function is emitted exactly when every one of its rounds is placed. */
  lemma FunctionEmitted(f: Func, ctx: Ctx, start: Gen)
    ensures EmitFunction(f, ctx, start).Some? <==> RoundsPlaced(f, ctx, 0)
  {
    hide EmitFrom, RoundsPlaced, Emit;
    EmitsExactly(f, ctx, start, 0);
  }

  // ----- the plain condition -----

  lemma RoundFromAll(f: Func, ctx: Ctx, i: nat)
    requires AllPlaced(f, ctx) && i < |f|
    ensures RoundPlaced(f, ctx, i)
  {
    hide ShapeAt, EndsInJump;
    var s := ShapeAt(f, ctx, i);
    assert Placed(ctx, f[i]);
    if s.Chain? {
      forall k | i < k <= s.last ensures OtherPlaced(ctx, f[k], f[k - 1].dest.name) { assert Placed(ctx, f[k]); }
      assert Placed(ctx, f[s.last]);
    }
    if s.CompareChain? || s.Pair? { assert Placed(ctx, f[i + 1]); }
  }

  /** Names that are all placed are enough, whatever is fused. */
  lemma {:induction false} PlacedSuffices(f: Func, ctx: Ctx, i: nat)
    requires AllPlaced(f, ctx) && i <= |f|
    ensures RoundsPlaced(f, ctx, i)
    decreases |f| - i
  {
    if i < |f| {
      RoundFromAll(f, ctx, i);
      hide AllPlaced, RoundPlaced, NextRound;
      PlacedSuffices(f, ctx, NextRound(f, ctx, i));
    }
  }
}
