/** Where a call puts its arguments and where the callee looks for them, on both conventions. */
module CallingConvention {
  import opened Rounding

  datatype Convention = MicrosoftX64 | SystemV

  datatype Register = Rax | Rbx | Rdi | Rsi | Rdx | Rcx | R8 | R9 | R12 | R13 | R14 | R15 | Xmm(k: nat)

  function IntRegisters(c: Convention): (rs: seq<Register>)
    ensures |rs| == IntLimit(c)
    ensures forall i, j :: 0 <= i < j < |rs| ==> rs[i] != rs[j]
    ensures forall i :: 0 <= i < |rs| ==> rs[i] != Rax && !rs[i].Xmm?
  {
    if c.MicrosoftX64? then [Rcx, Rdx, R8, R9] else [Rdi, Rsi, Rdx, Rcx, R8, R9]
  }

  function IntLimit(c: Convention): nat { if c.MicrosoftX64? then 4 else 6 }

  function FloatLimit(c: Convention): nat { if c.MicrosoftX64? then 4 else 8 }

  function Shadow(c: Convention): nat { if c.MicrosoftX64? then 32 else 0 }

  // ----- classification of types -----

  datatype Kind = Scalar(float: bool) | Aggregate(size: nat)

  predicate Indirect(k: Kind) {
    k.Aggregate? && k.size !in {0, 1, 2, 4, 8}
  }

  predicate Float(k: Kind) { k.Scalar? && k.float }

  /** The classifier, test by test; a type of unknown size counts as eight bytes. */
  method AbiClassify(k: Kind) returns (indirect: bool)
    ensures indirect == Indirect(k)
    ensures indirect <==> k.Aggregate? && k.size !in {0, 1, 2, 4, 8}
  {
    if !k.Aggregate? { return false; }
    var s := if k.size > 0 then k.size else 8;
    if s == 0 { return true; }
    if s > 8 { return true; }
    if s == 1 || s == 2 || s == 4 || s == 8 { return false; }
    return true;
  }

  // ----- the places of the arguments -----

  /** A signature: the kinds of the arguments and whether a hidden result pointer comes before them. */
  datatype Signature = Signature(kinds: seq<Kind>, hidden: bool)

  function Shift(sig: Signature): nat { if sig.hidden then 1 else 0 }

  function FloatsBefore(kinds: seq<Kind>, i: nat): (n: nat)
    requires i <= |kinds|
    ensures n <= i
  {
    if i == 0 then 0 else FloatsBefore(kinds, i - 1) + if Float(kinds[i - 1]) then 1 else 0
  }

  /** The number of earlier arguments that compete for the same registers. */
  function Rank(c: Convention, sig: Signature, i: nat): nat
    requires i < |sig.kinds|
  {
    if c.MicrosoftX64? then i + Shift(sig)
    else if Float(sig.kinds[i]) then FloatsBefore(sig.kinds, i)
    else i - FloatsBefore(sig.kinds, i) + Shift(sig)
  }

  predicate Spilled(c: Convention, sig: Signature, i: nat)
    requires i < |sig.kinds|
  {
    Rank(c, sig, i) >= if Float(sig.kinds[i]) then FloatLimit(c) else IntLimit(c)
  }

  function SpilledBefore(c: Convention, sig: Signature, i: nat): nat
    requires i <= |sig.kinds|
  {
    if i == 0 then 0 else SpilledBefore(c, sig, i - 1) + if Spilled(c, sig, i - 1) then 1 else 0
  }

  function SpilledCount(c: Convention, sig: Signature): nat { SpilledBefore(c, sig, |sig.kinds|) }

  /** A register, or an offset from the stack pointer at the call instruction. */
  datatype Place = InRegister(r: Register) | OnStack(offset: nat)

  function RegisterAt(c: Convention, float: bool, rank: nat): Register
    requires rank < if float then FloatLimit(c) else IntLimit(c)
  {
    if float then Xmm(rank) else IntRegisters(c)[rank]
  }

  /** Where the callee reads parameter i. */
  function Reads(c: Convention, sig: Signature, i: nat): Place
    requires i < |sig.kinds|
  {
    if Spilled(c, sig, i) then OnStack(Shadow(c) + 8 * SpilledBefore(c, sig, i))
    else InRegister(RegisterAt(c, Float(sig.kinds[i]), Rank(c, sig, i)))
  }

  /** The bytes of the copies of the first i indirect arguments. */
  function CopiesBefore(kinds: seq<Kind>, i: nat): nat
    requires i <= |kinds|
  {
    if i == 0 then 0
    else CopiesBefore(kinds, i - 1) + if Indirect(kinds[i - 1]) then RoundUp8(kinds[i - 1].size) else 0
  }

  function CopyRegion(kinds: seq<Kind>): nat { RoundUp16(CopiesBefore(kinds, |kinds|)) }

  predicate OmitsShadow(c: Convention, sig: Signature, internal: bool) {
    c.MicrosoftX64? && internal && |sig.kinds| <= 4 && CopyRegion(sig.kinds) == 0 && !sig.hidden
  }

  function HomeSpace(c: Convention, sig: Signature, internal: bool): nat {
    if OmitsShadow(c, sig, internal) then 0 else Shadow(c)
  }

  /** Where the caller puts argument i. On System V the register cursor starts again at the first register. */
  function Puts(c: Convention, sig: Signature, internal: bool, i: nat): Place
    requires i < |sig.kinds|
  {
    if Spilled(c, sig, i) then
      OnStack(CopyRegion(sig.kinds) + HomeSpace(c, sig, internal) + 8 * SpilledBefore(c, sig, i))
    else
      InRegister(RegisterAt(c, Float(sig.kinds[i]),
        if c.SystemV? && !Float(sig.kinds[i]) then Rank(c, sig, i) - Shift(sig) else Rank(c, sig, i)))
  }

  /** The bytes the caller takes from the stack for the call. */
  function Outgoing(c: Convention, sig: Signature, internal: bool): (n: nat)
    ensures n % 16 == 0
  {
    RoundUp16(CopyRegion(sig.kinds) + HomeSpace(c, sig, internal) + 8 * SpilledCount(c, sig))
  }

  // ----- when the two agree -----

  predicate AnyIndirect(kinds: seq<Kind>) { exists i :: 0 <= i < |kinds| && Indirect(kinds[i]) }

  predicate AnyInteger(kinds: seq<Kind>) { exists i :: 0 <= i < |kinds| && !Float(kinds[i]) }

  /** The two shapes the caller gets wrong: copies under the stack arguments, and a hidden pointer on System V. */
  predicate Conflict(c: Convention, sig: Signature) {
    || (SpilledCount(c, sig) > 0 && AnyIndirect(sig.kinds))
    || (c.SystemV? && sig.hidden && AnyInteger(sig.kinds))
  }

  lemma {:induction false} CopiesExact(kinds: seq<Kind>, i: nat)
    requires i <= |kinds|
    ensures CopiesBefore(kinds, i) > 0 <==> AnyIndirect(kinds[..i])
  {
    if i > 0 {
      CopiesExact(kinds, i - 1);
      assert kinds[..i][i - 1] == kinds[i - 1];
      assert forall j :: 0 <= j < i - 1 ==> kinds[..i][j] == kinds[..i - 1][j];
    }
  }

  lemma RegionExact(kinds: seq<Kind>)
    ensures CopyRegion(kinds) > 0 <==> AnyIndirect(kinds)
  {
    CopiesExact(kinds, |kinds|);
    assert kinds[..|kinds|] == kinds;
  }

  lemma {:induction false} SpilledMonotone(c: Convention, sig: Signature, i: nat, j: nat)
    requires i <= j <= |sig.kinds|
    ensures SpilledBefore(c, sig, i) <= SpilledBefore(c, sig, j)
    decreases j - i
  {
    if i < j { SpilledMonotone(c, sig, i, j - 1); }
  }

  lemma {:induction false} SpilledWitness(c: Convention, sig: Signature, n: nat) returns (i: nat)
    requires n <= |sig.kinds| && SpilledBefore(c, sig, n) > 0
    ensures i < n && Spilled(c, sig, i)
  {
    if Spilled(c, sig, n - 1) { i := n - 1; } else { i := SpilledWitness(c, sig, n - 1); }
  }

  /** A stack argument means that the shadow space is kept. */
  lemma SpilledKeepsShadow(c: Convention, sig: Signature, internal: bool, i: nat)
    requires i < |sig.kinds| && Spilled(c, sig, i)
    ensures HomeSpace(c, sig, internal) == Shadow(c)
    ensures SpilledBefore(c, sig, i) < SpilledCount(c, sig)
  {
    SpilledMonotone(c, sig, i + 1, |sig.kinds|);
  }

  lemma {:induction false} FirstInteger(kinds: seq<Kind>, n: nat) returns (i: nat)
    requires n < |kinds| && !Float(kinds[n])
    ensures i < |kinds| && !Float(kinds[i]) && FloatsBefore(kinds, i) == i
    decreases n
  {
    i := n;
    if FloatsBefore(kinds, n) < n {
      var k := IntegerBelow(kinds, n);
      i := FirstInteger(kinds, k);
    }
  }

  lemma {:induction false} IntegerBelow(kinds: seq<Kind>, n: nat) returns (k: nat)
    requires n <= |kinds| && FloatsBefore(kinds, n) < n
    ensures k < n && !Float(kinds[k])
  {
    if !Float(kinds[n - 1]) { k := n - 1; } else { k := IntegerBelow(kinds, n - 1); }
  }

  /** A call site: the kinds of the parameters as far as the caller knows them, and which operands are floats. */
  datatype CallSite = CallSite(declared: seq<Kind>, floats: seq<bool>, hidden: bool)

  /** The kinds the caller goes by: the declared ones, and beyond them those of the operands. */
  function CallerSignature(site: CallSite): Signature {
    Signature(
      seq(|site.floats|, i requires 0 <= i < |site.floats| =>
        if i < |site.declared| then site.declared[i] else Scalar(site.floats[i])),
      site.hidden)
  }

  predicate SameShape(caller: Signature, callee: Signature) {
    |caller.kinds| == |callee.kinds| && caller.hidden == callee.hidden
  }

  /** Every register that argument i could have is taken. */
  predicate Exhausted(c: Convention, sig: Signature, i: nat)
    requires i <= |sig.kinds|
  {
    if c.MicrosoftX64? then i + Shift(sig) >= 4
    else FloatsBefore(sig.kinds, i) >= 8 && i - FloatsBefore(sig.kinds, i) + Shift(sig) >= 6
  }

  /** The two sides tell floats from integers alike while registers are left. */
  ghost predicate SameFiles(c: Convention, caller: Signature, callee: Signature)
    requires SameShape(caller, callee)
  {
    forall i :: 0 <= i < |caller.kinds| ==> Float(caller.kinds[i]) == Float(callee.kinds[i]) || Exhausted(c, caller, i)
  }

  ghost predicate PlacesAgree(c: Convention, caller: Signature, callee: Signature, internal: bool)
    requires SameShape(caller, callee)
  {
    forall i :: 0 <= i < |caller.kinds| ==> Puts(c, caller, internal, i) == Reads(c, callee, i)
  }

  /** Up to i the two sides have counted alike, or both have run out. */
  ghost predicate CountedAlike(c: Convention, caller: Signature, callee: Signature, i: nat)
    requires SameShape(caller, callee) && i <= |caller.kinds|
  {
    && SpilledBefore(c, caller, i) == SpilledBefore(c, callee, i)
    && (FloatsBefore(caller.kinds, i) == FloatsBefore(callee.kinds, i) || (Exhausted(c, caller, i) && Exhausted(c, callee, i)))
  }

  lemma {:induction false} CountsAgree(c: Convention, caller: Signature, callee: Signature, i: nat)
    requires SameShape(caller, callee) && i <= |caller.kinds|
    requires forall j :: 0 <= j < i ==> Float(caller.kinds[j]) == Float(callee.kinds[j]) || Exhausted(c, caller, j)
    ensures CountedAlike(c, caller, callee, i)
  {
    if i > 0 { CountsAgree(c, caller, callee, i - 1); }
  }

  lemma SpilledAlike(c: Convention, caller: Signature, callee: Signature, i: nat)
    requires SameShape(caller, callee) && i < |caller.kinds| && CountedAlike(c, caller, callee, i)
    requires Float(caller.kinds[i]) == Float(callee.kinds[i]) || Exhausted(c, caller, i)
    ensures Spilled(c, caller, i) == Spilled(c, callee, i)
    ensures !Spilled(c, callee, i) ==>
      Float(caller.kinds[i]) == Float(callee.kinds[i]) && Rank(c, caller, i) == Rank(c, callee, i)
  {
  }

  /** The first argument that the two sides file differently while registers are left goes to two places. */
  lemma {:induction false} FilesDiffer(c: Convention, caller: Signature, callee: Signature, internal: bool, i: nat) returns (k: nat)
    requires SameShape(caller, callee) && i < |caller.kinds|
    requires Float(caller.kinds[i]) != Float(callee.kinds[i]) && !Exhausted(c, caller, i)
    ensures k < |caller.kinds| && Puts(c, caller, internal, k) != Reads(c, callee, k)
    decreases i
  {
    if forall j :: 0 <= j < i ==> Float(caller.kinds[j]) == Float(callee.kinds[j]) || Exhausted(c, caller, j) {
      k := i;
      CountsAgree(c, caller, callee, i);
    } else {
      var j :| 0 <= j < i && Float(caller.kinds[j]) != Float(callee.kinds[j]) && !Exhausted(c, caller, j);
      k := FilesDiffer(c, caller, callee, internal, j);
    }
  }

  lemma ConflictDiffers(c: Convention, caller: Signature, callee: Signature, internal: bool) returns (k: nat)
    requires SameShape(caller, callee) && SameFiles(c, caller, callee) && Conflict(c, caller)
    ensures k < |caller.kinds| && Puts(c, caller, internal, k) != Reads(c, callee, k)
  {
    if c.SystemV? && caller.hidden && AnyInteger(caller.kinds) {
      var n :| 0 <= n < |caller.kinds| && !Float(caller.kinds[n]);
      k := FirstInteger(caller.kinds, n);
    } else {
      RegionExact(caller.kinds);
      k := SpilledWitness(c, caller, |caller.kinds|);
      SpilledKeepsShadow(c, caller, internal, k);
    }
    CountsAgree(c, caller, callee, k);
    SpilledAlike(c, caller, callee, k);
  }

  /**
    * Caller and callee agree on every place exactly when they file the arguments alike while registers are left
    * and the signature has neither of the two shapes.
    */
  lemma PlacesAgreeExactly(c: Convention, caller: Signature, callee: Signature, internal: bool)
    requires SameShape(caller, callee)
    ensures PlacesAgree(c, caller, callee, internal) <==> SameFiles(c, caller, callee) && !Conflict(c, caller)
  {
    if !SameFiles(c, caller, callee) {
      var i :| 0 <= i < |caller.kinds| && Float(caller.kinds[i]) != Float(callee.kinds[i]) && !Exhausted(c, caller, i);
      var k := FilesDiffer(c, caller, callee, internal, i);
    } else if Conflict(c, caller) {
      var k := ConflictDiffers(c, caller, callee, internal);
    } else {
      forall i | 0 <= i < |caller.kinds| ensures Puts(c, caller, internal, i) == Reads(c, callee, i) {
        AgreesAt(c, caller, callee, internal, i);
      }
    }
  }

  lemma AgreesAt(c: Convention, caller: Signature, callee: Signature, internal: bool, i: nat)
    requires SameShape(caller, callee) && i < |caller.kinds| && SameFiles(c, caller, callee) && !Conflict(c, caller)
    ensures Puts(c, caller, internal, i) == Reads(c, callee, i)
  {
    RegionExact(caller.kinds);
    CountsAgree(c, caller, callee, i);
    SpilledAlike(c, caller, callee, i);
    if Spilled(c, caller, i) { SpilledKeepsShadow(c, caller, internal, i); }
  }

  /** A call whose callee's parameter types are known files every argument as the callee does. */
  lemma KnownTypesAgree(c: Convention, site: CallSite, callee: Signature, internal: bool)
    requires |site.floats| == |callee.kinds| && site.declared == callee.kinds && site.hidden == callee.hidden
    ensures CallerSignature(site) == callee
    ensures PlacesAgree(c, CallerSignature(site), callee, internal) <==> !Conflict(c, callee)
  {
    assert CallerSignature(site).kinds == callee.kinds;
    PlacesAgreeExactly(c, callee, callee, internal);
  }

  lemma HiddenDisagrees()
    ensures var sig := Signature([Scalar(false)], true);
            Puts(SystemV, sig, true, 0) == InRegister(Rdi) && Reads(SystemV, sig, 0) == InRegister(Rsi)
  {
  }

  /** An aggregate of 16 bytes and four integers. */
  function FiveArguments(): Signature { Signature([Aggregate(16), Scalar(false), Scalar(false), Scalar(false), Scalar(false)], false) }

  lemma FiveCounts()
    ensures SpilledBefore(MicrosoftX64, FiveArguments(), 4) == 0 && Spilled(MicrosoftX64, FiveArguments(), 4)
    ensures CopyRegion(FiveArguments().kinds) == 16
  {
    var five := FiveArguments();
    assert forall i :: 0 <= i < 4 ==> !Spilled(MicrosoftX64, five, i);
    assert SpilledBefore(MicrosoftX64, five, 4) == 0 by {
      hide Spilled;
      assert SpilledBefore(MicrosoftX64, five, 2) == 0 by { assert SpilledBefore(MicrosoftX64, five, 1) == 0; }
      assert SpilledBefore(MicrosoftX64, five, 3) == 0;
    }
    assert CopiesBefore(five.kinds, 5) == 16 by {
      hide Spilled, SpilledBefore;
      assert CopiesBefore(five.kinds, 1) == 16 by { assert CopiesBefore(five.kinds, 0) == 0; }
      assert CopiesBefore(five.kinds, 3) == 16 by { assert CopiesBefore(five.kinds, 2) == 16; }
      assert CopiesBefore(five.kinds, 4) == 16;
    }
  }

  lemma CopiesDisagree()
    ensures Puts(MicrosoftX64, FiveArguments(), false, 4) == OnStack(48) && Reads(MicrosoftX64, FiveArguments(), 4) == OnStack(32)
  {
    FiveCounts();
    hide Spilled, SpilledBefore, CopyRegion;
  }

  lemma FilesDisagree()
    ensures var caller, callee := CallerSignature(CallSite([], [true], false)), Signature([Scalar(false)], false);
            Puts(MicrosoftX64, caller, false, 0) == InRegister(Xmm(0)) && Reads(MicrosoftX64, callee, 0) == InRegister(Rcx)
  {
  }

  /** One signature of each kind on which the two sides disagree. */
  lemma DisagreementExamples()
    ensures var sig := Signature([Scalar(false)], true);
            Puts(SystemV, sig, true, 0) == InRegister(Rdi) && Reads(SystemV, sig, 0) == InRegister(Rsi)
    ensures Puts(MicrosoftX64, FiveArguments(), false, 4) == OnStack(48) && Reads(MicrosoftX64, FiveArguments(), 4) == OnStack(32)
    ensures var caller, callee := CallerSignature(CallSite([], [true], false)), Signature([Scalar(false)], false);
            Puts(MicrosoftX64, caller, false, 0) == InRegister(Xmm(0)) && Reads(MicrosoftX64, callee, 0) == InRegister(Rcx)
  {
    HiddenDisagrees();
    CopiesDisagree();
    FilesDisagree();
    hide *;
  }

  // ----- the callee's home space -----

  /** The first 32 bytes at a call belong to a callee of the Microsoft convention: reserved, and without an argument or
      a copy of one in them. */
  ghost predicate HomeSpaceFree(sig: Signature, internal: bool) {
    && Outgoing(MicrosoftX64, sig, internal) >= 32
    && (forall i :: 0 <= i < |sig.kinds| && Puts(MicrosoftX64, sig, internal, i).OnStack? ==> Puts(MicrosoftX64, sig, internal, i).offset >= 32)
    && (forall i :: 0 <= i < |sig.kinds| && Indirect(sig.kinds[i]) ==> CopiesBefore(sig.kinds, i) >= 32)
  }

  lemma {:induction false} FirstCopy(kinds: seq<Kind>, n: nat) returns (i: nat)
    requires n < |kinds| && Indirect(kinds[n])
    ensures i < |kinds| && Indirect(kinds[i]) && CopiesBefore(kinds, i) == 0
    decreases n
  {
    CopiesExact(kinds, n);
    if CopiesBefore(kinds, n) == 0 {
      i := n;
    } else {
      var j :| 0 <= j < |kinds[..n]| && Indirect(kinds[..n][j]);
      i := FirstCopy(kinds, j);
    }
  }

  /** A call outside the program leaves the callee its home space exactly when it passes no aggregate by a copy. */
  lemma HomeSpaceExactly(sig: Signature)
    ensures HomeSpaceFree(sig, false) <==> !AnyIndirect(sig.kinds)
  {
    if AnyIndirect(sig.kinds) {
      var n :| 0 <= n < |sig.kinds| && Indirect(sig.kinds[n]);
      var i := FirstCopy(sig.kinds, n);
    } else {
      forall i | 0 <= i < |sig.kinds| && Puts(MicrosoftX64, sig, false, i).OnStack?
        ensures Puts(MicrosoftX64, sig, false, i).offset >= 32
      {
        SpilledKeepsShadow(MicrosoftX64, sig, false, i);
      }
    }
  }

  // ----- no two arguments share a place -----

  lemma {:induction false} FloatsMonotone(kinds: seq<Kind>, i: nat, j: nat)
    requires i <= j <= |kinds|
    ensures FloatsBefore(kinds, i) <= FloatsBefore(kinds, j) <= FloatsBefore(kinds, i) + (j - i)
    decreases j - i
  {
    if i < j { FloatsMonotone(kinds, i, j - 1); }
  }

  lemma RanksDiffer(c: Convention, sig: Signature, i: nat, j: nat)
    requires i < j < |sig.kinds| && Float(sig.kinds[i]) == Float(sig.kinds[j])
    ensures Rank(c, sig, i) < Rank(c, sig, j)
  {
    FloatsMonotone(sig.kinds, i + 1, j);
  }

  lemma ReadsDiffer(c: Convention, sig: Signature, i: nat, j: nat)
    requires i < j < |sig.kinds|
    ensures Reads(c, sig, i) != Reads(c, sig, j)
  {
    SpilledMonotone(c, sig, i + 1, j);
    if Float(sig.kinds[i]) == Float(sig.kinds[j]) { RanksDiffer(c, sig, i, j); }
  }

  // ----- all places of a signature -----

  function PutPlaces(c: Convention, sig: Signature, internal: bool): (ps: seq<Place>)
    ensures |ps| == |sig.kinds|
  {
    seq(|sig.kinds|, i requires 0 <= i < |sig.kinds| => Puts(c, sig, internal, i))
  }

  function ReadPlaces(c: Convention, sig: Signature): (ps: seq<Place>)
    ensures |ps| == |sig.kinds|
  {
    seq(|sig.kinds|, i requires 0 <= i < |sig.kinds| => Reads(c, sig, i))
  }

  // ----- the tables of the two conventions -----

  ghost function FloatSet(kinds: seq<Kind>, i: nat): set<nat>
    requires i <= |kinds|
  {
    set j: nat | j < i && kinds[j] == Scalar(true)
  }

  ghost function IntegerSet(kinds: seq<Kind>, i: nat): set<nat>
    requires i <= |kinds|
  {
    set j: nat | j < i && kinds[j] != Scalar(true)
  }

  ghost function StackSet(places: seq<Place>, i: nat): set<nat>
    requires i <= |places|
  {
    set j: nat | j < i && places[j].OnStack?
  }

  /** Microsoft: one of four slots by position, a hidden pointer taking the first, and the stack above the home space. */
  ghost predicate MicrosoftPlace(sig: Signature, places: seq<Place>, base: nat, i: nat)
    requires i < |places| == |sig.kinds|
  {
    var slot := if sig.hidden then i + 1 else i;
    places[i] ==
      if slot < 4 then InRegister(if sig.kinds[i] == Scalar(true) then Xmm(slot) else [Rcx, Rdx, R8, R9][slot])
      else OnStack(base + 32 + 8 * (slot - 4))
  }

  /** System V: six integer and eight float registers, each kind counted for itself, and then the stack in order.
      A hidden pointer leaves five; `first` is the register of the first integer. */
  ghost predicate SystemVPlace(sig: Signature, places: seq<Place>, base: nat, first: nat, i: nat)
    requires i < |places| == |sig.kinds|
  {
    var floats, ints := |FloatSet(sig.kinds, i)|, |IntegerSet(sig.kinds, i)|;
    if sig.kinds[i] == Scalar(true) && floats < 8 then places[i] == InRegister(Xmm(floats))
    else if sig.kinds[i] != Scalar(true) && ints < (if sig.hidden then 5 else 6) then
      first + ints < 6 && places[i] == InRegister([Rdi, Rsi, Rdx, Rcx, R8, R9][first + ints])
    else places[i] == OnStack(base + 8 * |StackSet(places, i)|)
  }

  ghost predicate AbiPlace(c: Convention, sig: Signature, places: seq<Place>, base: nat, first: nat, i: nat)
    requires i < |places| == |sig.kinds|
  {
    if c.MicrosoftX64? then MicrosoftPlace(sig, places, base, i) else SystemVPlace(sig, places, base, first, i)
  }

  /** Every place is the convention's, stack places counted from `base`. */
  ghost predicate AbiPlaces(c: Convention, sig: Signature, places: seq<Place>, base: nat, first: nat) {
    |places| == |sig.kinds| && forall i :: 0 <= i < |places| ==> AbiPlace(c, sig, places, base, first, i)
  }

  lemma {:induction false} FloatCount(kinds: seq<Kind>, i: nat)
    requires i <= |kinds|
    ensures |FloatSet(kinds, i)| == FloatsBefore(kinds, i)
  {
    if i > 0 {
      FloatCount(kinds, i - 1);
      assert FloatSet(kinds, i) == if Float(kinds[i - 1]) then FloatSet(kinds, i - 1) + {i - 1} else FloatSet(kinds, i - 1);
    }
  }

  lemma {:induction false} IntegerCount(kinds: seq<Kind>, i: nat)
    requires i <= |kinds|
    ensures |IntegerSet(kinds, i)| == i - FloatsBefore(kinds, i)
  {
    if i > 0 {
      IntegerCount(kinds, i - 1);
      assert IntegerSet(kinds, i) == if Float(kinds[i - 1]) then IntegerSet(kinds, i - 1) else IntegerSet(kinds, i - 1) + {i - 1};
    }
  }

  lemma {:induction false} StackCounts(c: Convention, sig: Signature, places: seq<Place>, i: nat)
    requires i <= |places| == |sig.kinds| && forall j :: 0 <= j < i ==> (places[j].OnStack? <==> Spilled(c, sig, j))
    ensures |StackSet(places, i)| == SpilledBefore(c, sig, i)
  {
    hide Spilled;
    if i > 0 {
      StackCounts(c, sig, places, i - 1);
      if Spilled(c, sig, i - 1) {
        assert StackSet(places, i) == StackSet(places, i - 1) + {i - 1};
      } else {
        assert StackSet(places, i) == StackSet(places, i - 1);
      }
    }
  }

  lemma {:induction false} MicrosoftSpills(sig: Signature, i: nat)
    requires i <= |sig.kinds|
    ensures SpilledBefore(MicrosoftX64, sig, i) == if i + Shift(sig) < 4 then 0 else i + Shift(sig) - 4
  {
    if i > 0 { MicrosoftSpills(sig, i - 1); }
  }

  /** A place as the counts before it give it, an integer's register taken from `first` on. */
  ghost predicate Counted(c: Convention, sig: Signature, places: seq<Place>, base: nat, first: nat, i: nat)
    requires i < |places| == |sig.kinds|
  {
    && first <= Shift(sig)
    && (forall j :: 0 <= j < i ==> (places[j].OnStack? <==> Spilled(c, sig, j)))
    && (Spilled(c, sig, i) ==> places[i] == OnStack(base + Shadow(c) + 8 * SpilledBefore(c, sig, i)))
    && (!Spilled(c, sig, i) ==>
          places[i] == InRegister(RegisterAt(c, Float(sig.kinds[i]),
            if c.SystemV? && !Float(sig.kinds[i]) then Rank(c, sig, i) - Shift(sig) + first else Rank(c, sig, i))))
  }

  lemma MicrosoftByCounts(sig: Signature, places: seq<Place>, base: nat, first: nat, i: nat)
    requires i < |places| == |sig.kinds| && Counted(MicrosoftX64, sig, places, base, first, i)
    ensures MicrosoftPlace(sig, places, base, i)
  {
    MicrosoftSpills(sig, i);
    hide SpilledBefore;
  }

  lemma SystemVByCounts(sig: Signature, places: seq<Place>, base: nat, first: nat, i: nat)
    requires i < |places| == |sig.kinds| && Counted(SystemV, sig, places, base, first, i)
    ensures SystemVPlace(sig, places, base, first, i)
  {
    FloatCount(sig.kinds, i);
    IntegerCount(sig.kinds, i);
    StackCounts(SystemV, sig, places, i);
    hide FloatSet, IntegerSet, StackSet, FloatsBefore, SpilledBefore;
  }

  /** Such a place is the convention's. */
  lemma PlaceByCounts(c: Convention, sig: Signature, places: seq<Place>, base: nat, first: nat, i: nat)
    requires i < |places| == |sig.kinds| && Counted(c, sig, places, base, first, i)
    ensures AbiPlace(c, sig, places, base, first, i)
  {
    hide MicrosoftPlace, SystemVPlace, Counted;
    if c.MicrosoftX64? { MicrosoftByCounts(sig, places, base, first, i); } else { SystemVByCounts(sig, places, base, first, i); }
  }

  /** The callee reads the convention's places. */
  lemma ReadsAreAbi(c: Convention, sig: Signature)
    ensures AbiPlaces(c, sig, ReadPlaces(c, sig), 0, if sig.hidden then 1 else 0)
  {
    hide AbiPlace, RegisterAt, Spilled, SpilledBefore, Rank, Shadow;
    var places, first := ReadPlaces(c, sig), if sig.hidden then 1 else 0;
    forall i | 0 <= i < |places| ensures AbiPlace(c, sig, places, 0, first, i) {
      PlaceByCounts(c, sig, places, 0, first, i);
    }
  }

  /** The caller's are the convention's too, but for copies under the stack arguments, and on System V for integers
      that start at rdi even behind a hidden pointer. */
  lemma PutsAreAbi(c: Convention, sig: Signature, internal: bool)
    ensures AbiPlaces(c, sig, PutPlaces(c, sig, internal), CopyRegion(sig.kinds), 0)
  {
    hide AbiPlace, RegisterAt, Spilled, SpilledBefore, Rank, Shadow, CopyRegion, HomeSpace;
    var places := PutPlaces(c, sig, internal);
    forall i | 0 <= i < |places| ensures AbiPlace(c, sig, places, CopyRegion(sig.kinds), 0, i) {
      if Spilled(c, sig, i) { SpilledKeepsShadow(c, sig, internal, i); }
      PlaceByCounts(c, sig, places, CopyRegion(sig.kinds), 0, i);
    }
  }

  /** The home space of the Microsoft convention, which a call inside the program of at most four arguments without
      copies and without a hidden pointer leaves out. */
  ghost function HomeBytes(c: Convention, sig: Signature, internal: bool): nat {
    if c.SystemV? || (internal && |sig.kinds| <= 4 && !sig.hidden && !AnyIndirect(sig.kinds)) then 0 else 32
  }

  lemma HomeBytesIs(c: Convention, sig: Signature, internal: bool)
    ensures HomeSpace(c, sig, internal) == HomeBytes(c, sig, internal)
  {
    RegionExact(sig.kinds);
    hide CopyRegion, AnyIndirect;
  }

  lemma PutsOnStack(c: Convention, sig: Signature, internal: bool)
    ensures |StackSet(PutPlaces(c, sig, internal), |sig.kinds|)| == SpilledCount(c, sig)
  {
    hide StackSet, CopyRegion, HomeSpace, Rank, RegisterAt;
    StackCounts(c, sig, PutPlaces(c, sig, internal), |sig.kinds|);
  }

  lemma OutgoingIs(c: Convention, sig: Signature, internal: bool)
    ensures var places := PutPlaces(c, sig, internal);
            Outgoing(c, sig, internal) ==
              RoundUp16(CopyRegion(sig.kinds) + HomeBytes(c, sig, internal) + 8 * |StackSet(places, |places|)|)
  {
    hide StackSet, CopyRegion, HomeSpace, HomeBytes, SpilledCount, PutPlaces, RoundUp16;
    PutsOnStack(c, sig, internal);
    HomeBytesIs(c, sig, internal);
  }

  // ----- the planning loops -----

  lemma TotalRounds(total: nat, n: nat)
    requires n % 8 == 0 && total == if n % 16 != 0 then n + 8 else n
    ensures total == RoundUp16(n)
  {
    var q := n / 16;
    assert n == 16 * q || n == 16 * q + 8;
    assert (n + 15) / 16 == if n == 16 * q then q else q + 1;
  }

  /** The caller's loops: one to decide what goes on the stack, one over each kind of place. */
  method PlanCall(c: Convention, sig: Signature, internal: bool) returns (places: seq<Place>, total: nat)
    ensures places == PutPlaces(c, sig, internal) && total == Outgoing(c, sig, internal)
    ensures AbiPlaces(c, sig, places, CopyRegion(sig.kinds), 0)
    ensures total == RoundUp16(CopyRegion(sig.kinds) + HomeBytes(c, sig, internal) + 8 * |StackSet(places, |places|)|)
  {
    hide *;
    PutsAreAbi(c, sig, internal);
    OutgoingIs(c, sig, internal);
    var goesOnStack, region, stackCount := DecideStack(c, sig);
    var first: nat;
    first, total := Reserve(c, sig, internal, region, stackCount);
    var filled := new Place[|sig.kinds|](_ => OnStack(0));
    FillStack(c, sig, internal, goesOnStack, filled, first);
    FillRegisters(c, sig, internal, goesOnStack, filled);
    places := filled[..];
  }

  /** The bytes to reserve, and the offset of the first stack argument. */
  method Reserve(c: Convention, sig: Signature, internal: bool, region: nat, stackCount: nat) returns (first: nat, total: nat)
    requires region == CopiesBefore(sig.kinds, |sig.kinds|) && stackCount == SpilledCount(c, sig)
    ensures first == CopyRegion(sig.kinds) + HomeSpace(c, sig, internal) && total == Outgoing(c, sig, internal)
  {
    var omit := c.MicrosoftX64? && internal && |sig.kinds| + (if sig.hidden then 1 else 0) <= 4 && region == 0 && !sig.hidden;
    var shadow := if c.MicrosoftX64? && !omit then Shadow(c) else 0;
    var postSlotsBase := if region > 0 then (region + 15) / 16 * 16 else 0;
    first := postSlotsBase + shadow;
    total := first + stackCount * 8;
    assert postSlotsBase == CopyRegion(sig.kinds) && shadow == HomeSpace(c, sig, internal);
    if total % 16 != 0 { total := total + 8; }
    TotalRounds(total, first + stackCount * 8);
  }

  method FillStack(c: Convention, sig: Signature, internal: bool, goesOnStack: array<bool>, filled: array<Place>, first: nat)
    requires goesOnStack[..] == seq(|sig.kinds|, j requires 0 <= j < |sig.kinds| => Spilled(c, sig, j))
    requires filled.Length == |sig.kinds| && first == CopyRegion(sig.kinds) + HomeSpace(c, sig, internal)
    modifies filled
    ensures forall j :: 0 <= j < |sig.kinds| && Spilled(c, sig, j) ==> filled[j] == Puts(c, sig, internal, j)
  {
    hide Spilled, HomeSpace, CopyRegion;
    var index := 0;
    for i := 0 to |sig.kinds|
      invariant index == SpilledBefore(c, sig, i)
      invariant forall j :: 0 <= j < i && Spilled(c, sig, j) ==> filled[j] == Puts(c, sig, internal, j)
    {
      assert goesOnStack[i] == goesOnStack[..][i];
      if goesOnStack[i] {
        filled[i] := OnStack(first + index * 8);
        index := index + 1;
      }
    }
  }

  /** The first loop's cursors and sums before argument i. */
  predicate Tally(c: Convention, sig: Signature, i: nat, ints: int, floats: int, region: int, stackCount: int)
    requires i <= |sig.kinds|
  {
    && region == CopiesBefore(sig.kinds, i) && stackCount == SpilledBefore(c, sig, i)
    && (c.SystemV? ==> floats == AtMost(FloatsBefore(sig.kinds, i), 8))
    && (c.SystemV? ==> ints == AtMost(i - FloatsBefore(sig.kinds, i) + Shift(sig), 6))
  }

  method DecideOne(c: Convention, sig: Signature, i: nat, ints: int, floats: int, region: nat, stackCount: nat)
    returns (spills: bool, ints': int, floats': int, region': nat, stackCount': nat)
    requires i < |sig.kinds| && Tally(c, sig, i, ints, floats, region, stackCount)
    ensures spills == Spilled(c, sig, i) && Tally(c, sig, i + 1, ints', floats', region', stackCount')
  {
    ints', floats', region', stackCount' := ints, floats, region, stackCount;
    var kind := sig.kinds[i];
    var indirect := AbiClassify(kind);
    var float := false;
    if indirect {
      region' := region + (kind.size + 7) / 8 * 8;
    } else {
      float := Float(kind);
    }
    spills := false;
    if c.MicrosoftX64? {
      spills := i + (if sig.hidden then 1 else 0) >= 4;
    } else if float {
      if floats < 8 { floats' := floats + 1; } else { spills := true; }
    } else {
      if ints < 6 { ints' := ints + 1; } else { spills := true; }
    }
    assert spills == Spilled(c, sig, i);
    if spills { stackCount' := stackCount + 1; }
  }

  method DecideStack(c: Convention, sig: Signature) returns (goesOnStack: array<bool>, region: nat, stackCount: nat)
    ensures fresh(goesOnStack)
    ensures goesOnStack[..] == seq(|sig.kinds|, j requires 0 <= j < |sig.kinds| => Spilled(c, sig, j))
    ensures region == CopiesBefore(sig.kinds, |sig.kinds|) && stackCount == SpilledCount(c, sig)
  {
    var n := |sig.kinds|;
    goesOnStack := new bool[n](_ => false);
    region, stackCount := 0, 0;
    var intCursor, floatCursor := if sig.hidden && !c.MicrosoftX64? then 1 else 0, 0;
    hide Spilled;
    for i := 0 to n
      invariant Tally(c, sig, i, intCursor, floatCursor, region, stackCount)
      invariant forall j :: 0 <= j < i ==> goesOnStack[j] == Spilled(c, sig, j)
      invariant forall j :: i <= j < n ==> !goesOnStack[j]
    {
      hide Tally;
      var spills;
      spills, intCursor, floatCursor, region, stackCount := DecideOne(c, sig, i, intCursor, floatCursor, region, stackCount);
      if spills { goesOnStack[i] := true; }
    }
  }

  function AtMost(n: int, limit: int): int { if n < limit then n else limit }

  method FillRegisters(c: Convention, sig: Signature, internal: bool, goesOnStack: array<bool>, filled: array<Place>)
    requires goesOnStack[..] == seq(|sig.kinds|, j requires 0 <= j < |sig.kinds| => Spilled(c, sig, j))
    requires filled.Length == |sig.kinds|
    requires forall j :: 0 <= j < |sig.kinds| && Spilled(c, sig, j) ==> filled[j] == Puts(c, sig, internal, j)
    modifies filled
    ensures filled[..] == PutPlaces(c, sig, internal)
  {
    hide Spilled, Puts;
    var intCursor, floatCursor := 0, 0;
    for i := 0 to |sig.kinds|
      invariant forall j :: 0 <= j < i || (0 <= j < |sig.kinds| && Spilled(c, sig, j)) ==> filled[j] == Puts(c, sig, internal, j)
      invariant Cursors(c, sig, i, intCursor, floatCursor)
    {
      assert goesOnStack[i] == goesOnStack[..][i];
      if !goesOnStack[i] {
        var place;
        place, intCursor, floatCursor := TakeRegister(c, sig, internal, i, intCursor, floatCursor);
        filled[i] := place;
      } else {
        CursorsStay(c, sig, i, intCursor, floatCursor);
      }
    }
  }

  /** The register cursors of the second loop, on System V, before argument i. */
  predicate Cursors(c: Convention, sig: Signature, i: nat, ints: int, floats: int)
    requires i <= |sig.kinds|
  {
    c.SystemV? ==>
      floats == AtMost(FloatsBefore(sig.kinds, i), 8) && ints == AtMost(i - FloatsBefore(sig.kinds, i), 6 - Shift(sig))
  }

  lemma CursorsStay(c: Convention, sig: Signature, i: nat, ints: int, floats: int)
    requires i < |sig.kinds| && Spilled(c, sig, i) && Cursors(c, sig, i, ints, floats)
    ensures Cursors(c, sig, i + 1, ints, floats)
  {
  }

  /** The register of an argument that has one. */
  method TakeRegister(c: Convention, sig: Signature, internal: bool, i: nat, intCursor: int, floatCursor: int)
    returns (place: Place, ints: int, floats: int)
    requires i < |sig.kinds| && !Spilled(c, sig, i) && Cursors(c, sig, i, intCursor, floatCursor)
    ensures place == Puts(c, sig, internal, i) && Cursors(c, sig, i + 1, ints, floats)
  {
    var float := Float(sig.kinds[i]);
    var slot := i + if sig.hidden then 1 else 0;
    ints, floats := intCursor, floatCursor;
    if c.MicrosoftX64? {
      place := InRegister(if float then Xmm(slot) else IntRegisters(c)[slot]);
    } else if float {
      place := InRegister(Xmm(floats));
      floats := floats + 1;
    } else {
      place := InRegister(IntRegisters(c)[ints]);
      ints := ints + 1;
    }
  }

  /** Parameter i by the counts before it. */
  lemma ReadByCounts(c: Convention, sig: Signature, i: nat)
    requires i < |sig.kinds|
    ensures var floats := FloatsBefore(sig.kinds, i);
            Reads(c, sig, i) ==
              if c.MicrosoftX64? && i + Shift(sig) < 4 then
                InRegister(if Float(sig.kinds[i]) then Xmm(i + Shift(sig)) else IntRegisters(c)[i + Shift(sig)])
              else if c.SystemV? && Float(sig.kinds[i]) && floats < 8 then InRegister(Xmm(floats))
              else if c.SystemV? && !Float(sig.kinds[i]) && i - floats + Shift(sig) < 6 then InRegister(IntRegisters(c)[i - floats + Shift(sig)])
              else OnStack(Shadow(c) + 8 * SpilledBefore(c, sig, i))
    ensures SpilledBefore(c, sig, i + 1) == SpilledBefore(c, sig, i) + if Reads(c, sig, i).OnStack? then 1 else 0
    ensures FloatsBefore(sig.kinds, i + 1) == FloatsBefore(sig.kinds, i) + if Float(sig.kinds[i]) then 1 else 0
  {
  }

  /** The callee's cursors and stack offset before parameter i. */
  predicate Counters(c: Convention, sig: Signature, i: nat, ints: int, floats: int, slots: int, stackOffset: int)
    requires i <= |sig.kinds|
  {
    && stackOffset == 16 + Shadow(c) + 8 * SpilledBefore(c, sig, i)
    && (c.MicrosoftX64? ==> slots == i + Shift(sig))
    && (c.SystemV? ==> floats == AtMost(FloatsBefore(sig.kinds, i), 8))
    && (c.SystemV? ==> ints == AtMost(i - FloatsBefore(sig.kinds, i) + Shift(sig), 6))
  }

  /** Parameter i. */
  method TakeParameter(c: Convention, sig: Signature, i: nat, ints: int, floats: int, slots: int, stackOffset: int)
    returns (place: Place, ints': int, floats': int, slots': int, stackOffset': int)
    requires i < |sig.kinds| && Counters(c, sig, i, ints, floats, slots, stackOffset)
    ensures place == Reads(c, sig, i) && Counters(c, sig, i + 1, ints', floats', slots', stackOffset')
  {
    ReadByCounts(c, sig, i);
    hide Reads, SpilledBefore, FloatsBefore;
    ints', floats', slots', stackOffset' := ints, floats, slots, stackOffset;
    var float := Float(sig.kinds[i]);
    var indirect := AbiClassify(sig.kinds[i]);
    if indirect { float := false; }
    place := OnStack(stackOffset - 16);
    if c.MicrosoftX64? {
      slots' := slots + 1;
      if slots < 4 {
        place := InRegister(if float then Xmm(slots) else IntRegisters(c)[slots]);
      } else {
        stackOffset' := stackOffset + 8;
      }
    } else if float && floats < 8 {
      place := InRegister(Xmm(floats));
      floats' := floats + 1;
    } else if !float && ints < 6 {
      place := InRegister(IntRegisters(c)[ints]);
      ints' := ints + 1;
    } else {
      stackOffset' := stackOffset + 8;
    }
  }

  /** The callee's loop: its own cursors and its own stack offset, starting above the saved rbp. */
  method PlanParameters(c: Convention, sig: Signature) returns (places: seq<Place>)
    ensures places == ReadPlaces(c, sig)
    ensures AbiPlaces(c, sig, places, 0, if sig.hidden then 1 else 0)
  {
    ReadsAreAbi(c, sig);
    places := [];
    var intIndex, floatIndex, slotIndex := 0, 0, 0;
    var stackOffset := 16 + if c.MicrosoftX64? then Shadow(c) else 0;
    if sig.hidden {
      if c.MicrosoftX64? { slotIndex := 1; } else { intIndex := 1; }
    }
    assert Counters(c, sig, 0, intIndex, floatIndex, slotIndex, stackOffset);
    hide Reads, Counters, AbiPlaces;
    for i := 0 to |sig.kinds|
      invariant |places| == i && forall j :: 0 <= j < i ==> places[j] == Reads(c, sig, j)
      invariant Counters(c, sig, i, intIndex, floatIndex, slotIndex, stackOffset)
    {
      var place;
      place, intIndex, floatIndex, slotIndex, stackOffset := TakeParameter(c, sig, i, intIndex, floatIndex, slotIndex, stackOffset);
      places := places + [place];
    }
  }
}
