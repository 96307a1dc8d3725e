/** From an IR function to code that is known to be right: the use map, the emission loop and the theorem in one place. */
module Compilation {
  import opened Wrappers
  import opened Emitter
  import opened EmitterProofs
  import opened Simulation
  import opened FunctionCorrectness
  import opened CodeGenerators
  import opened Placement
  import opened Promises
  import Ir
  import A = Asm

  ghost predicate SameEnd(f: Func, ctx: Ctx, code: Code, env: Ir.Env, m: A.Machine, n: nat, k: nat) {
    Agree(ctx, Ir.Steps(f, n, Ir.At(0, env)), A.Nexts(code, k, A.At(0, m)))
  }

  ghost predicate Ends(f: Func, env: Ir.Env, n: nat) {
    var c := Ir.Steps(f, n, Ir.At(0, env));
    c.Done? || c.Trapped?
  }

  /** A branch to a label the function does not define. */
  ghost predicate GetsStuck(f: Func, env: Ir.Env, n: nat) { Ir.Steps(f, n, Ir.At(0, env)).Stuck? }

  ghost predicate Stops(code: Code, m: A.Machine, k: nat) { !A.Nexts(code, k, A.At(0, m)).At? }

  /** Every finished run of the IR is a finished run of the code with the same end, and the code stops only with the IR. */
  ghost predicate Follows(f: Func, ctx: Ctx, code: Code, env: Ir.Env, m: A.Machine) {
    && (forall n: nat :: Ends(f, env, n) ==> exists k: nat :: SameEnd(f, ctx, code, env, m, n, k))
    && (forall k: nat :: Stops(code, m, k) ==>
          exists n: nat :: GetsStuck(f, env, n) || SameEnd(f, ctx, code, env, m, n, k))
  }

  /** From every machine that holds the symbols of an environment. */
  ghost predicate Faithful(f: Func, ctx: Ctx, start: Gen, code: Code) {
    forall env, m :: Starts(ctx, start, env, m) ==> Follows(f, ctx, code, env, m)
  }

  lemma CompiledFollows(f: Func, ctx: Ctx, start: Gen, code: Code, env: Ir.Env, m: A.Machine)
    requires Ready(f, ctx) && Compiled(f, ctx, start, code) && Starts(ctx, start, env, m)
    ensures Follows(f, ctx, code, env, m)
  {
    hide Ready, Compiled, Starts, Agree;
    forall n: nat | Ends(f, env, n) ensures exists k: nat :: SameEnd(f, ctx, code, env, m, n, k) {
      var k := FunctionCorrect(f, ctx, start, code, env, m, n);
      assert SameEnd(f, ctx, code, env, m, n, k);
    }
    forall k: nat | Stops(code, m, k)
      ensures exists n: nat :: GetsStuck(f, env, n) || SameEnd(f, ctx, code, env, m, n, k)
    {
      var n := CodeStopsWithIr(f, ctx, start, code, env, m, k);
      assert GetsStuck(f, env, n) || SameEnd(f, ctx, code, env, m, n, k);
    }
  }

  lemma CompiledFaithful(f: Func, ctx: Ctx, start: Gen, code: Code)
    requires Ready(f, ctx) && start.out == [] && Settled(start) && start.cachedSeq <= start.emitSeq
    requires EmitFunction(f, ctx, start).Some? && code == EmitFunction(f, ctx, start).value.out && !Loses(f, ctx, 0, None)
    ensures Faithful(f, ctx, start, code)
  {
    NoLossExactly(f, ctx, start, 0, None);
    assert Compiled(f, ctx, start, code);
    hide Ready, Compiled, Follows, Starts;
    forall env, m | Starts(ctx, start, env, m) ensures Follows(f, ctx, code, env, m) {
      CompiledFollows(f, ctx, start, code, env, m);
    }
  }

  /** Places for symbols and temps do not depend on how often temps are used. */
  lemma PlacesOnly(ctx: Ctx, uses: map<string, nat>)
    requires GoodCtx(ctx)
    ensures GoodCtx(ctx.(uses := uses))
  {
    var c := ctx.(uses := uses);
    forall s, s' ensures SymbolsApart(c, s, s') { assert SymbolsApart(ctx, s, s'); }
    forall s, t ensures SymbolOffTemp(c, s, t) { assert SymbolOffTemp(ctx, s, t); }
    forall t, t' ensures TempsApart(c, t, t') { assert TempsApart(ctx, t, t'); }
  }

  lemma SamePlaces(f: Func, ctx: Ctx, uses: map<string, nat>)
    ensures AllPlaced(f, ctx) ==> AllPlaced(f, ctx.(uses := uses))
  {
    var c := ctx.(uses := uses);
    if AllPlaced(f, ctx) {
      forall i | 0 <= i < |f| ensures Placed(c, f[i]) { assert Placed(ctx, f[i]); }
    }
  }

  /**
    * The compiler's path for one function: count the uses of temps, run the loop. Code comes out exactly when every
    * round's operands have places, and so whenever every name has one and no destination is a literal. Unless a
    * round of the IR loses a store, that code does what the function does.
    */
  method CompileFunction(f: Func, places: Ctx, start: Gen) returns (ok: bool, code: Code, ctx: Ctx)
    requires GoodCtx(places) && Ir.UniqueLabels(f) && start.out == [] && Settled(start)
    ensures ctx.symbols == places.symbols && ctx.tempOffset == places.tempOffset && GoodUses(f, ctx)
    ensures ok == EmitFunction(f, ctx, start).Some?
    ensures ok <==> RoundsPlaced(f, ctx, 0)
    ensures AllPlaced(f, places) ==> ok
    ensures ok && !Loses(f, ctx, 0, None) ==> Faithful(f, ctx, start, code)
  {
    hide EmitFunction, Loses, Faithful, GoodCtx, Ir.UniqueLabels, RoundsPlaced;
    var uses := CountTempUses(f);
    PlacesOnly(places, uses);
    ctx := places.(uses := uses);
    var generator := new CodeGenerator(ctx, start);
    SamePlaces(f, places, uses);
    ok := generator.Generate(f);
    code := generator.out;
    if ok && !Loses(f, ctx, 0, None) { CompiledFaithful(f, ctx, start, code); }
  }
}
