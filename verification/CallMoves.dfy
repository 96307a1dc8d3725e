/** A call as it is emitted, from the operands to the callee's homes: copies of aggregates, stack arguments, register
    arguments, hidden pointer, call, prologue, homing. */
module CallMoves {
  import opened Rounding
  import opened CallingConvention

  // ----- arguments -----

  /** Where an operand's value is: a literal, a promoted symbol's register, a slot of the frame, or a global. */
  datatype Operand = Literal(value: int) | Promoted(r: Register) | InFrame(off: nat) | Global(name: string)

  /** Where the bytes of an aggregate are: in the frame, behind a pointer in the frame, or at a fixed address. */
  datatype Source = FrameBytes(off: nat) | PointedAt(off: nat) | Static(address: int)

  datatype Argument = Value(o: Operand) | Struct(src: Source)

  /** Aggregates that the convention passes indirectly are copied, everything else is a value. */
  ghost predicate Matches(sig: Signature, args: seq<Argument>) {
    |args| == |sig.kinds| && forall i :: 0 <= i < |args| ==> (args[i].Struct? <==> Indirect(sig.kinds[i]))
  }

  // ----- the machine -----

  /** Memory is a map from addresses; a word is one cell at its address. */
  datatype Machine = Machine(regs: map<Register, int>, mem: map<int, int>, globals: map<string, int>, rsp: int, rbp: int)

  datatype Instr =
    | SubRsp(n: nat)
    | Load(o: Operand)
    | LoadAddress(src: Source)
    | StoreStack(offset: nat)
    | MoveTo(r: Register)
    | LeaOut(r: Register, offset: nat)
    | RepMovsb(n: nat)
    | LeaResult(r: Register, slot: nat)
    | Call
    | Prologue(frame: nat)
    | HomeRegister(home: nat, r: Register)
    | LoadIncoming(offset: nat)
    | HomeRax(home: nat)

  function Get<K(==)>(m: map<K, int>, k: K): int { if k in m then m[k] else 0 }

  function ValueOf(m: Machine, o: Operand): int {
    match o
    case Literal(v) => v
    case Promoted(r) => Get(m.regs, r)
    case InFrame(off) => Get(m.mem, m.rbp - off)
    case Global(x) => Get(m.globals, x)
  }

  function AddressOf(m: Machine, src: Source): int {
    match src
    case FrameBytes(off) => m.rbp - off
    case PointedAt(off) => Get(m.mem, m.rbp - off)
    case Static(a) => a
  }

  /** Byte by byte, upwards. */
  function Copied(mem: map<int, int>, src: int, dst: int, n: nat): map<int, int> {
    if n == 0 then mem
    else
      var less := Copied(mem, src, dst, n - 1);
      less[dst + n - 1 := Get(less, src + n - 1)]
  }

  /** One instruction. The return address is not interpreted. */
  function Step(m: Machine, instr: Instr): Machine {
    match instr
    case SubRsp(n) => m.(rsp := m.rsp - n)
    case Load(o) => m.(regs := m.regs[Rax := ValueOf(m, o)])
    case LoadAddress(src) => m.(regs := m.regs[Rax := AddressOf(m, src)])
    case StoreStack(offset) => m.(mem := m.mem[m.rsp + offset := Get(m.regs, Rax)])
    case MoveTo(r) => m.(regs := m.regs[r := Get(m.regs, Rax)])
    case LeaOut(r, offset) => m.(regs := m.regs[r := m.rsp + offset])
    case RepMovsb(n) =>
      var src, dst := Get(m.regs, Rsi), Get(m.regs, Rdi);
      m.(mem := Copied(m.mem, src, dst, n), regs := m.regs[Rcx := 0][Rsi := src + n][Rdi := dst + n])
    case LeaResult(r, slot) => m.(regs := m.regs[r := m.rbp - slot])
    case Call => m.(rsp := m.rsp - 8, mem := m.mem[m.rsp - 8 := 0])
    case Prologue(frame) => m.(mem := m.mem[m.rsp - 8 := m.rbp], rbp := m.rsp - 8, rsp := m.rsp - 8 - frame)
    case HomeRegister(home, r) => m.(mem := m.mem[m.rbp - home := Get(m.regs, r)])
    case LoadIncoming(offset) => m.(regs := m.regs[Rax := Get(m.mem, m.rbp + offset)])
    case HomeRax(home) => m.(mem := m.mem[m.rbp - home := Get(m.regs, Rax)])
  }

  function Run(m: Machine, code: seq<Instr>): Machine
    decreases |code|
  {
    if code == [] then m else Run(Step(m, code[0]), code[1..])
  }

  lemma {:induction false} RunAppend(m: Machine, a: seq<Instr>, b: seq<Instr>)
    ensures Run(m, a + b) == Run(Run(m, a), b)
    decreases |a|
  {
    if a == [] {
      assert a + b == b;
    } else {
      assert (a + b)[1..] == a[1..] + b;
      RunAppend(Step(m, a[0]), a[1..], b);
    }
  }

  lemma RunOne(m: Machine, x: Instr)
    ensures Run(m, [x]) == Step(m, x)
  {
    assert [x][1..] == [];
  }

  lemma RunTwo(m: Machine, x: Instr, y: Instr)
    ensures Run(m, [x, y]) == Step(Step(m, x), y)
  {
    assert [x, y][1..] == [y];
    RunOne(Step(m, x), y);
  }

  lemma RunNone(m: Machine)
    ensures Run(m, []) == m
  {
  }

  // ----- the code -----

  function CopyOne(sig: Signature, args: seq<Argument>, i: nat): seq<Instr>
    requires |args| == |sig.kinds| && i < |args|
  {
    if args[i].Struct? && Indirect(sig.kinds[i]) then
      [LoadAddress(args[i].src), MoveTo(Rsi)] + [LeaOut(Rdi, CopiesBefore(sig.kinds, i)), RepMovsb(sig.kinds[i].size)]
    else []
  }

  /** rax := what is passed for argument i: its value, or the address of its copy. */
  function Fetch(sig: Signature, args: seq<Argument>, i: nat): Instr
    requires |args| == |sig.kinds| && i < |args|
  {
    if args[i].Struct? then LeaOut(Rax, CopiesBefore(sig.kinds, i)) else Load(args[i].o)
  }

  function StackOne(sig: Signature, args: seq<Argument>, places: seq<Place>, i: nat): seq<Instr>
    requires |places| == |args| == |sig.kinds| && i < |args|
  {
    if places[i].OnStack? then [Fetch(sig, args, i), StoreStack(places[i].offset)] else []
  }

  function RegisterOne(sig: Signature, args: seq<Argument>, places: seq<Place>, i: nat): seq<Instr>
    requires |places| == |args| == |sig.kinds| && i < |args|
  {
    if places[i].OnStack? then []
    else if args[i].Struct? then [LeaOut(places[i].r, CopiesBefore(sig.kinds, i))]
    else [Load(args[i].o), MoveTo(places[i].r)]
  }

  function Copies(sig: Signature, args: seq<Argument>, i: nat): seq<Instr>
    requires |args| == |sig.kinds| && i <= |args|
  {
    if i == 0 then [] else Copies(sig, args, i - 1) + CopyOne(sig, args, i - 1)
  }

  function StackStores(sig: Signature, args: seq<Argument>, places: seq<Place>, i: nat): seq<Instr>
    requires |places| == |args| == |sig.kinds| && i <= |args|
  {
    if i == 0 then [] else StackStores(sig, args, places, i - 1) + StackOne(sig, args, places, i - 1)
  }

  function RegisterMoves(sig: Signature, args: seq<Argument>, places: seq<Place>, i: nat): seq<Instr>
    requires |places| == |args| == |sig.kinds| && i <= |args|
  {
    if i == 0 then [] else RegisterMoves(sig, args, places, i - 1) + RegisterOne(sig, args, places, i - 1)
  }

  function Reserve(total: nat): seq<Instr> { if total > 0 then [SubRsp(total)] else [] }

  /** The hidden pointer comes last. */
  function Hidden(c: Convention, result: nat): seq<Instr> { if result > 0 then [LeaResult(IntRegisters(c)[0], result)] else [] }

  /** What the caller emits before the call instruction. */
  function Setup(c: Convention, sig: Signature, args: seq<Argument>, places: seq<Place>, total: nat, result: nat): seq<Instr>
    requires |places| == |args| == |sig.kinds|
  {
    Reserve(total) + Copies(sig, args, |args|) + StackStores(sig, args, places, |args|)
    + RegisterMoves(sig, args, places, |args|) + Hidden(c, result)
  }

  function HomingOf(place: Place, home: nat): seq<Instr> {
    if place.InRegister? then [HomeRegister(home, place.r)] else [LoadIncoming(16 + place.offset), HomeRax(home)]
  }

  function Homing(places: seq<Place>, shift: nat, i: nat): seq<Instr>
    requires i <= |places|
  {
    if i == 0 then [] else Homing(places, shift, i - 1) + HomingOf(places[i - 1], 8 * (i + shift))
  }

  /** What the callee emits: the prologue, the hidden pointer's home, then every parameter's home. */
  function EntryCode(c: Convention, places: seq<Place>, hidden: bool, frame: nat): seq<Instr> {
    [Prologue(frame)] + (if hidden then [HomeRegister(8, IntRegisters(c)[0])] else [])
    + Homing(places, if hidden then 1 else 0, |places|)
  }

  // ----- promoted symbols -----

  /** The registers that the moves of this call leave alone. */
  predicate Spared(c: Convention, sig: Signature, r: Register) {
    || r in {R12, R13, R14, R15, Rbx}
    || (r in {Rsi, Rdi} && c.MicrosoftX64? && !AnyIndirect(sig.kinds))
  }

  /** When rsi and rdi may hold symbols: on the Microsoft convention, in a function that neither returns an aggregate
      indirectly nor has a call that passes or returns one so. */
  predicate PromotesIndexRegisters(c: Convention, hidden: bool, calls: seq<Signature>) {
    c.MicrosoftX64? && !hidden && forall k :: 0 <= k < |calls| ==> !AnyIndirect(calls[k].kinds) && !calls[k].hidden
  }

  predicate MayHoldSymbol(c: Convention, hidden: bool, calls: seq<Signature>, r: Register) {
    r in {R12, R13, R14, R15, Rbx} || (r in {Rsi, Rdi} && PromotesIndexRegisters(c, hidden, calls))
  }

  /** That rule is what spares promoted symbols in every call of the function. */
  lemma PromotedAreSpared(c: Convention, hidden: bool, calls: seq<Signature>, r: Register, k: nat)
    requires MayHoldSymbol(c, hidden, calls, r) && k < |calls|
    ensures Spared(c, calls[k], r)
  {
  }

  /** Without it a move could overwrite an operand that is still to be loaded: with the second operand in rdi on
      System V, the callee gets the first one twice. */
  lemma MovesCanClobber(m: Machine)
    ensures var sig := Signature([Scalar(false), Scalar(false)], false);
            var args := [Value(Literal(1)), Value(Promoted(Rdi))];
            Get(Run(m, Setup(SystemV, sig, args, [InRegister(Rdi), InRegister(Rsi)], 0, 0)).regs, Rsi) == 1
  {
    var sig := Signature([Scalar(false), Scalar(false)], false);
    var args := [Value(Literal(1)), Value(Promoted(Rdi))];
    var places := [InRegister(Rdi), InRegister(Rsi)];
    assert Copies(sig, args, 2) == [] by { assert Copies(sig, args, 1) == [] by { assert Copies(sig, args, 0) == []; } }
    assert StackStores(sig, args, places, 2) == [] by {
      assert StackStores(sig, args, places, 1) == [] by { assert StackStores(sig, args, places, 0) == []; }
    }
    var first, second := [Load(Literal(1)), MoveTo(Rdi)], [Load(Promoted(Rdi)), MoveTo(Rsi)];
    assert RegisterMoves(sig, args, places, 2) == first + second by {
      assert RegisterMoves(sig, args, places, 1) == first by { assert RegisterMoves(sig, args, places, 0) == []; }
    }
    assert Setup(SystemV, sig, args, places, 0, 0) == first + second;
    RunAppend(m, first, second);
    RunTwo(m, first[0], first[1]);
    RunTwo(Run(m, first), second[0], second[1]);
  }

  // ----- what the moves keep -----

  /** Operands lie in the caller's frame or in spared registers; aggregates outside the bytes the call takes. */
  ghost predicate Operands(c: Convention, sig: Signature, m: Machine, args: seq<Argument>, total: nat)
    requires Matches(sig, args)
  {
    forall i :: 0 <= i < |args| ==> OperandFine(c, sig, m, args[i], total, if args[i].Struct? then sig.kinds[i].size else 0)
  }

  predicate OperandFine(c: Convention, sig: Signature, m: Machine, a: Argument, total: nat, size: nat) {
    match a
    case Value(Promoted(r)) => Spared(c, sig, r)
    case Value(InFrame(off)) => m.rbp - off >= m.rsp
    case Value(_) => true
    case Struct(src) =>
      && (src.PointedAt? ==> m.rbp - src.off >= m.rsp)
      && (AddressOf(m, src) >= m.rsp || AddressOf(m, src) + size <= m.rsp - total)
  }

  /** In the middle of the call: only the bytes taken for it and registers it may use have changed. */
  ghost predicate Intact(c: Convention, sig: Signature, m: Machine, n: Machine, total: nat) {
    && n.rsp == m.rsp - total && n.rbp == m.rbp && n.globals == m.globals
    && (forall a :: a >= m.rsp || a < m.rsp - total ==> Get(n.mem, a) == Get(m.mem, a))
    && (forall r :: Spared(c, sig, r) ==> Get(n.regs, r) == Get(m.regs, r))
  }

  /** The address of the copy of argument i. */
  function CopyAt(sig: Signature, m: Machine, total: nat, i: nat): int
    requires i <= |sig.kinds|
  {
    m.rsp - total + CopiesBefore(sig.kinds, i)
  }

  /** What argument i is to the callee. */
  function Passed(sig: Signature, m: Machine, args: seq<Argument>, total: nat, i: nat): int
    requires |args| == |sig.kinds| && i < |args|
  {
    if args[i].Struct? then CopyAt(sig, m, total, i) else ValueOf(m, args[i].o)
  }

  /** Byte k after `at` is what byte k after `from` was. */
  predicate SameByte(mem: map<int, int>, at: int, was: map<int, int>, from: int, k: int) {
    Get(mem, at + k) == Get(was, from + k)
  }

  /** The copy of argument i holds the bytes the aggregate had. */
  ghost predicate CopyHeld(sig: Signature, m: Machine, n: Machine, args: seq<Argument>, total: nat, i: nat)
    requires Matches(sig, args) && i < |args| && args[i].Struct?
  {
    forall k :: 0 <= k < sig.kinds[i].size ==>
      SameByte(n.mem, CopyAt(sig, m, total, i), m.mem, AddressOf(m, args[i].src), k)
  }

  /** Memory that agrees on the copy's bytes holds the copy too. */
  lemma CopyStays(sig: Signature, m: Machine, n: Machine, p: Machine, args: seq<Argument>, total: nat, i: nat)
    requires Matches(sig, args) && i < |args| && args[i].Struct? && CopyHeld(sig, m, n, args, total, i)
    requires var at := CopyAt(sig, m, total, i);
             forall a :: at <= a < at + sig.kinds[i].size ==> Get(p.mem, a) == Get(n.mem, a)
    ensures CopyHeld(sig, m, p, args, total, i)
  {
    var at, from := CopyAt(sig, m, total, i), AddressOf(m, args[i].src);
    hide CopyAt, AddressOf;
    forall k | 0 <= k < sig.kinds[i].size ensures SameByte(p.mem, at, m.mem, from, k) {
      assert SameByte(n.mem, at, m.mem, from, k);
      assert Get(p.mem, at + k) == Get(n.mem, at + k);
    }
  }

  ghost predicate CopiesHeld(sig: Signature, m: Machine, n: Machine, args: seq<Argument>, total: nat, i: nat)
    requires Matches(sig, args) && i <= |args|
  {
    forall j :: 0 <= j < i && args[j].Struct? ==> CopyHeld(sig, m, n, args, total, j)
  }

  predicate Holds(m: Machine, place: Place, base: int, value: int) {
    match place
    case InRegister(r) => Get(m.regs, r) == value
    case OnStack(offset) => Get(m.mem, base + offset) == value
  }

  ghost predicate Distinct(places: seq<Place>) {
    forall i, j :: 0 <= i < j < |places| ==> places[i] != places[j]
  }

  /** Argument places are argument registers, or words between the copies and the end of the bytes taken. */
  ghost predicate Proper(c: Convention, sig: Signature, places: seq<Place>, total: nat) {
    && (forall i :: 0 <= i < |places| ==> ProperPlace(c, sig, places[i], total))
    && CopyRegion(sig.kinds) <= total
  }

  predicate ProperPlace(c: Convention, sig: Signature, place: Place, total: nat) {
    match place
    case InRegister(r) => r != Rax && !Spared(c, sig, r)
    case OnStack(offset) => CopyRegion(sig.kinds) <= offset <= total - 8
  }

  ghost predicate StacksFilled(sig: Signature, m: Machine, n: Machine, args: seq<Argument>, places: seq<Place>, total: nat, i: nat)
    requires Matches(sig, args) && |places| == |args| && i <= |args|
  {
    forall j :: 0 <= j < i && places[j].OnStack? ==> Holds(n, places[j], m.rsp - total, Passed(sig, m, args, total, j))
  }

  ghost predicate RegistersFilled(sig: Signature, m: Machine, n: Machine, args: seq<Argument>, places: seq<Place>, total: nat, i: nat)
    requires Matches(sig, args) && |places| == |args| && i <= |args|
  {
    forall j :: 0 <= j < i && places[j].InRegister? ==> Holds(n, places[j], m.rsp - total, Passed(sig, m, args, total, j))
  }

  // ----- copies -----

  /** A copy to bytes that the source does not share. */
  lemma {:induction false} CopiedBytes(mem: map<int, int>, src: int, dst: int, n: nat, size: nat)
    requires n <= size && (src + size <= dst || dst + size <= src)
    ensures forall k :: 0 <= k < n ==> SameByte(Copied(mem, src, dst, n), dst, mem, src, k)
    ensures forall a :: a < dst || a >= dst + n ==> Get(Copied(mem, src, dst, n), a) == Get(mem, a)
  {
    if n > 0 {
      CopiedBytes(mem, src, dst, n - 1, size);
      var less, more := Copied(mem, src, dst, n - 1), Copied(mem, src, dst, n);
      assert more == less[dst + n - 1 := Get(less, src + n - 1)];
      hide Copied;
      forall k | 0 <= k < n ensures SameByte(more, dst, mem, src, k) {
        if k < n - 1 { assert SameByte(less, dst, mem, src, k); }
      }
    }
  }

  lemma {:induction false} CopiesMonotone(kinds: seq<Kind>, i: nat, j: nat)
    requires i <= j <= |kinds|
    ensures CopiesBefore(kinds, i) <= CopiesBefore(kinds, j)
    decreases j - i
  {
    if i < j { CopiesMonotone(kinds, i, j - 1); }
  }

  /** Each copy ends before the next one begins and within the region. */
  lemma CopyFits(kinds: seq<Kind>, i: nat, j: nat)
    requires i < j <= |kinds| && Indirect(kinds[i])
    ensures CopiesBefore(kinds, i) + kinds[i].size <= CopiesBefore(kinds, j) <= CopyRegion(kinds)
  {
    CopiesMonotone(kinds, i + 1, j);
    CopiesMonotone(kinds, j, |kinds|);
  }

  lemma CopyRuns(n: Machine, src: Source, offset: nat, size: nat) returns (p: Machine)
    ensures p == Run(n, [LoadAddress(src), MoveTo(Rsi)] + [LeaOut(Rdi, offset), RepMovsb(size)])
    ensures p.mem == Copied(n.mem, AddressOf(n, src), n.rsp + offset, size)
    ensures p.rsp == n.rsp && p.rbp == n.rbp && p.globals == n.globals
    ensures forall r :: r !in {Rax, Rsi, Rdi, Rcx} ==> Get(p.regs, r) == Get(n.regs, r)
  {
    var a, b := [LoadAddress(src), MoveTo(Rsi)], [LeaOut(Rdi, offset), RepMovsb(size)];
    RunAppend(n, a, b);
    RunTwo(n, a[0], a[1]);
    RunTwo(Run(n, a), b[0], b[1]);
    p := Run(n, a + b);
    hide Copied, Run;
  }

  lemma OneCopied(c: Convention, sig: Signature, m: Machine, n: Machine, args: seq<Argument>, total: nat, i: nat)
    requires Matches(sig, args) && Operands(c, sig, m, args, total) && CopyRegion(sig.kinds) <= total && i < |args|
    requires Intact(c, sig, m, n, total) && CopiesHeld(sig, m, n, args, total, i)
    ensures var p := Run(n, CopyOne(sig, args, i)); Intact(c, sig, m, p, total) && CopiesHeld(sig, m, p, args, total, i + 1)
  {
    if args[i].Struct? {
      assert OperandFine(c, sig, m, args[i], total, sig.kinds[i].size);
      var src, size, offset := AddressOf(m, args[i].src), sig.kinds[i].size, CopiesBefore(sig.kinds, i);
      var dst := m.rsp - total + offset;
      CopyFits(sig.kinds, i, i + 1);
      assert AddressOf(n, args[i].src) == src;
      var p := CopyRuns(n, args[i].src, offset, size);
      CopiedBytes(n.mem, src, dst, size, size);
      assert AnyIndirect(sig.kinds);
      hide Run, Copied, CopiesBefore, CopyRegion;
      assert Intact(c, sig, m, p, total);
      OlderCopies(sig, m, n, p, args, total, i);
      NewCopy(sig, m, n, p, args, total, i);
    } else {
      RunNone(n);
    }
  }

  lemma NewCopy(sig: Signature, m: Machine, n: Machine, p: Machine, args: seq<Argument>, total: nat, i: nat)
    requires Matches(sig, args) && i < |args| && args[i].Struct?
    requires var at, from := CopyAt(sig, m, total, i), AddressOf(m, args[i].src);
             && (forall k :: 0 <= k < sig.kinds[i].size ==> SameByte(p.mem, at, n.mem, from, k))
             && (forall a :: from <= a < from + sig.kinds[i].size ==> Get(n.mem, a) == Get(m.mem, a))
    ensures CopyHeld(sig, m, p, args, total, i)
  {
    var at, from := CopyAt(sig, m, total, i), AddressOf(m, args[i].src);
    hide CopyAt, AddressOf;
    forall k | 0 <= k < sig.kinds[i].size ensures SameByte(p.mem, at, m.mem, from, k) {
      assert SameByte(p.mem, at, n.mem, from, k);
      assert Get(n.mem, from + k) == Get(m.mem, from + k);
    }
  }

  lemma OlderCopies(sig: Signature, m: Machine, n: Machine, p: Machine, args: seq<Argument>, total: nat, i: nat)
    requires Matches(sig, args) && i < |args| && CopiesHeld(sig, m, n, args, total, i)
    requires forall a :: a < m.rsp - total + CopiesBefore(sig.kinds, i) ==> Get(p.mem, a) == Get(n.mem, a)
    ensures CopiesHeld(sig, m, p, args, total, i)
  {
    forall j | 0 <= j < i && args[j].Struct? ensures CopyHeld(sig, m, p, args, total, j) {
      assert CopyHeld(sig, m, n, args, total, j);
      CopyFits(sig.kinds, j, i);
      CopyStays(sig, m, n, p, args, total, j);
    }
  }

  lemma {:induction false} AllCopied(c: Convention, sig: Signature, m: Machine, n: Machine, args: seq<Argument>, total: nat, i: nat)
    requires Matches(sig, args) && Operands(c, sig, m, args, total) && CopyRegion(sig.kinds) <= total && i <= |args|
    requires Intact(c, sig, m, n, total)
    ensures var p := Run(n, Copies(sig, args, i)); Intact(c, sig, m, p, total) && CopiesHeld(sig, m, p, args, total, i)
  {
    if i == 0 {
      RunNone(n);
    } else {
      hide Run, Intact, Operands, CopiesHeld, CopyOne;
      AllCopied(c, sig, m, n, args, total, i - 1);
      RunAppend(n, Copies(sig, args, i - 1), CopyOne(sig, args, i - 1));
      OneCopied(c, sig, m, Run(n, Copies(sig, args, i - 1)), args, total, i - 1);
    }
  }

  // ----- stack arguments -----

  /** An argument is fetched as it was before the call began. */
  lemma Fetched(c: Convention, sig: Signature, m: Machine, n: Machine, args: seq<Argument>, total: nat, i: nat)
    requires Matches(sig, args) && Operands(c, sig, m, args, total) && Intact(c, sig, m, n, total) && i < |args|
    ensures Step(n, Fetch(sig, args, i)) == n.(regs := n.regs[Rax := Passed(sig, m, args, total, i)])
  {
    assert OperandFine(c, sig, m, args[i], total, if args[i].Struct? then sig.kinds[i].size else 0);
  }

  lemma OneStacked(c: Convention, sig: Signature, m: Machine, n: Machine, args: seq<Argument>, places: seq<Place>, total: nat, i: nat)
    requires Matches(sig, args) && |places| == |args| && Operands(c, sig, m, args, total) && i < |args|
    requires Distinct(places) && Proper(c, sig, places, total)
    requires Intact(c, sig, m, n, total) && CopiesHeld(sig, m, n, args, total, |args|) && StacksFilled(sig, m, n, args, places, total, i)
    ensures var p := Run(n, StackOne(sig, args, places, i));
            Intact(c, sig, m, p, total) && CopiesHeld(sig, m, p, args, total, |args|) && StacksFilled(sig, m, p, args, places, total, i + 1)
  {
    if places[i].OnStack? {
      Fetched(c, sig, m, n, args, total, i);
      RunTwo(n, Fetch(sig, args, i), StoreStack(places[i].offset));
      var p := Run(n, StackOne(sig, args, places, i));
      var at := m.rsp - total + places[i].offset;
      assert p.mem == n.mem[at := Passed(sig, m, args, total, i)];
      assert ProperPlace(c, sig, places[i], total);
      hide Run, Operands;
      CopiesBelow(sig, m, n, p, args, total);
    } else {
      RunNone(n);
    }
  }

  lemma CopiesBelow(sig: Signature, m: Machine, n: Machine, p: Machine, args: seq<Argument>, total: nat)
    requires Matches(sig, args) && CopiesHeld(sig, m, n, args, total, |args|)
    requires forall a :: a < m.rsp - total + CopyRegion(sig.kinds) ==> Get(p.mem, a) == Get(n.mem, a)
    ensures CopiesHeld(sig, m, p, args, total, |args|)
  {
    forall j | 0 <= j < |args| && args[j].Struct? ensures CopyHeld(sig, m, p, args, total, j) {
      assert CopyHeld(sig, m, n, args, total, j);
      CopyFits(sig.kinds, j, |args|);
      CopyStays(sig, m, n, p, args, total, j);
    }
  }

  lemma {:induction false} AllStacked(c: Convention, sig: Signature, m: Machine, n: Machine, args: seq<Argument>, places: seq<Place>, total: nat,
                                      i: nat)
    requires Matches(sig, args) && |places| == |args| && Operands(c, sig, m, args, total) && i <= |args|
    requires Distinct(places) && Proper(c, sig, places, total)
    requires Intact(c, sig, m, n, total) && CopiesHeld(sig, m, n, args, total, |args|)
    ensures var p := Run(n, StackStores(sig, args, places, i));
            Intact(c, sig, m, p, total) && CopiesHeld(sig, m, p, args, total, |args|) && StacksFilled(sig, m, p, args, places, total, i)
  {
    if i == 0 {
      RunNone(n);
    } else {
      assert StackStores(sig, args, places, i) == StackStores(sig, args, places, i - 1) + StackOne(sig, args, places, i - 1);
      hide *;
      AllStacked(c, sig, m, n, args, places, total, i - 1);
      RunAppend(n, StackStores(sig, args, places, i - 1), StackOne(sig, args, places, i - 1));
      OneStacked(c, sig, m, Run(n, StackStores(sig, args, places, i - 1)), args, places, total, i - 1);
    }
  }

  // ----- register arguments -----

  ghost predicate SameMemory(n: Machine, p: Machine) { p.mem == n.mem && p.rsp == n.rsp && p.rbp == n.rbp && p.globals == n.globals }

  lemma RegisterRuns(c: Convention, sig: Signature, m: Machine, n: Machine, args: seq<Argument>, places: seq<Place>, total: nat, i: nat)
    requires Matches(sig, args) && |places| == |args| && Operands(c, sig, m, args, total) && i < |args| && places[i].InRegister?
    requires Intact(c, sig, m, n, total)
    ensures var p := Run(n, RegisterOne(sig, args, places, i));
            && SameMemory(n, p) && Get(p.regs, places[i].r) == Passed(sig, m, args, total, i)
            && forall r :: r != Rax && r != places[i].r ==> Get(p.regs, r) == Get(n.regs, r)
  {
    if args[i].Struct? {
      RunOne(n, LeaOut(places[i].r, CopiesBefore(sig.kinds, i)));
    } else {
      Fetched(c, sig, m, n, args, total, i);
      RunTwo(n, Load(args[i].o), MoveTo(places[i].r));
    }
  }

  lemma OneRegister(c: Convention, sig: Signature, m: Machine, n: Machine, args: seq<Argument>, places: seq<Place>, total: nat, i: nat)
    requires Matches(sig, args) && |places| == |args| && Operands(c, sig, m, args, total) && i < |args|
    requires Distinct(places) && Proper(c, sig, places, total)
    requires Intact(c, sig, m, n, total) && RegistersFilled(sig, m, n, args, places, total, i)
    ensures var p := Run(n, RegisterOne(sig, args, places, i));
            SameMemory(n, p) && Intact(c, sig, m, p, total) && RegistersFilled(sig, m, p, args, places, total, i + 1)
  {
    if places[i].InRegister? {
      RegisterRuns(c, sig, m, n, args, places, total, i);
      hide Run, Passed;
      assert ProperPlace(c, sig, places[i], total);
      forall j | 0 <= j < i && places[j].InRegister? ensures places[j].r != Rax {
        assert ProperPlace(c, sig, places[j], total);
      }
    } else {
      RunNone(n);
    }
  }

  lemma RegisterMovesNext(sig: Signature, args: seq<Argument>, places: seq<Place>, i: nat)
    requires Matches(sig, args) && 0 < i <= |args| == |places|
    ensures RegisterMoves(sig, args, places, i) == RegisterMoves(sig, args, places, i - 1) + RegisterOne(sig, args, places, i - 1)
  {
  }

  lemma {:induction false} AllInRegisters(c: Convention, sig: Signature, m: Machine, n: Machine, args: seq<Argument>, places: seq<Place>, total: nat,
                                          i: nat)
    requires Matches(sig, args) && |places| == |args| && Operands(c, sig, m, args, total) && i <= |args|
    requires Distinct(places) && Proper(c, sig, places, total) && Intact(c, sig, m, n, total)
    ensures var p := Run(n, RegisterMoves(sig, args, places, i));
            SameMemory(n, p) && Intact(c, sig, m, p, total) && RegistersFilled(sig, m, p, args, places, total, i)
  {
    if i == 0 {
      assert RegisterMoves(sig, args, places, i) == [];
      hide Run, Intact, Operands, RegisterOne, Distinct, Proper, RegisterMoves, Matches;
      RunNone(n);
    } else {
      RegisterMovesNext(sig, args, places, i);
      hide *;
      AllInRegisters(c, sig, m, n, args, places, total, i - 1);
      RunAppend(n, RegisterMoves(sig, args, places, i - 1), RegisterOne(sig, args, places, i - 1));
      OneRegister(c, sig, m, Run(n, RegisterMoves(sig, args, places, i - 1)), args, places, total, i - 1);
    }
  }

  // ----- the call -----

  /** The machine at the call instruction: every argument in its place, every copy made. */
  ghost predicate AtCall(c: Convention, sig: Signature, m: Machine, n: Machine, args: seq<Argument>, places: seq<Place>, total: nat, result: nat)
    requires Matches(sig, args) && |places| == |args|
  {
    && n.rsp == m.rsp - total && n.rbp == m.rbp
    && (forall j :: 0 <= j < |args| ==> Holds(n, places[j], m.rsp - total, Passed(sig, m, args, total, j)))
    && CopiesHeld(sig, m, n, args, total, |args|)
    && (result > 0 ==> Get(n.regs, IntRegisters(c)[0]) == m.rbp - result)
    && (forall a :: a >= m.rsp ==> Get(n.mem, a) == Get(m.mem, a))
  }

  ghost predicate KeepsFirst(c: Convention, places: seq<Place>) {
    forall i :: 0 <= i < |places| ==> places[i] != InRegister(IntRegisters(c)[0])
  }

  lemma SetupRuns(c: Convention, sig: Signature, m: Machine, args: seq<Argument>, places: seq<Place>, total: nat, result: nat)
    requires Matches(sig, args) && |places| == |args| && Operands(c, sig, m, args, total)
    requires Distinct(places) && Proper(c, sig, places, total) && (result > 0 ==> KeepsFirst(c, places))
    ensures AtCall(c, sig, m, Run(m, Setup(c, sig, args, places, total, result)), args, places, total, result)
  {
    hide Run, Copies, StackStores, RegisterMoves, Operands;
    var copies, stores, moves := Copies(sig, args, |args|), StackStores(sig, args, places, |args|), RegisterMoves(sig, args, places, |args|);
    RunAppend(m, Reserve(total) + copies + stores + moves, Hidden(c, result));
    RunAppend(m, Reserve(total) + copies + stores, moves);
    RunAppend(m, Reserve(total) + copies, stores);
    RunAppend(m, Reserve(total), copies);
    var m1 := Run(m, Reserve(total));
    if total > 0 { RunOne(m, SubRsp(total)); } else { RunNone(m); }
    AllCopied(c, sig, m, m1, args, total, |args|);
    var m2 := Run(m1, copies);
    AllStacked(c, sig, m, m2, args, places, total, |args|);
    var m3 := Run(m2, stores);
    AllInRegisters(c, sig, m, m3, args, places, total, |args|);
    var m4 := Run(m3, moves);
    Filled(c, sig, m, m3, m4, args, places, total);
    PointerLast(c, sig, m, m4, args, places, total, result);
  }

  lemma Filled(c: Convention, sig: Signature, m: Machine, n: Machine, p: Machine, args: seq<Argument>, places: seq<Place>, total: nat)
    requires Matches(sig, args) && |places| == |args|
    requires SameMemory(n, p) && Intact(c, sig, m, p, total) && CopiesHeld(sig, m, n, args, total, |args|)
    requires StacksFilled(sig, m, n, args, places, total, |args|) && RegistersFilled(sig, m, p, args, places, total, |args|)
    ensures AtCall(c, sig, m, p, args, places, total, 0)
  {
    hide Passed;
    forall j | 0 <= j < |args| && args[j].Struct? ensures CopyHeld(sig, m, p, args, total, j) {
      assert CopyHeld(sig, m, n, args, total, j);
      CopyStays(sig, m, n, p, args, total, j);
    }
    forall j | 0 <= j < |args| ensures Holds(p, places[j], m.rsp - total, Passed(sig, m, args, total, j)) {
      if places[j].OnStack? { assert Holds(n, places[j], m.rsp - total, Passed(sig, m, args, total, j)); }
    }
  }

  lemma PointerLast(c: Convention, sig: Signature, m: Machine, n: Machine, args: seq<Argument>, places: seq<Place>, total: nat, result: nat)
    requires Matches(sig, args) && |places| == |args| && AtCall(c, sig, m, n, args, places, total, 0) && (result > 0 ==> KeepsFirst(c, places))
    ensures AtCall(c, sig, m, Run(n, Hidden(c, result)), args, places, total, result)
  {
    hide Passed, IntRegisters;
    if result > 0 { RunOne(n, LeaResult(IntRegisters(c)[0], result)); } else { RunNone(n); }
    var p := Run(n, Hidden(c, result));
    hide Run;
    forall j | 0 <= j < |args| && args[j].Struct? ensures CopyHeld(sig, m, p, args, total, j) {
      assert CopyHeld(sig, m, n, args, total, j);
      CopyStays(sig, m, n, p, args, total, j);
    }
    forall j | 0 <= j < |args| ensures Holds(p, places[j], m.rsp - total, Passed(sig, m, args, total, j)) {
      assert Holds(n, places[j], m.rsp - total, Passed(sig, m, args, total, j));
    }
  }

  // ----- the callee -----

  /** The homes below rbp hold the values, and nothing at or above rbp has changed. */
  ghost predicate Homed(m: Machine, n: Machine, places: seq<Place>, shift: nat, i: nat, values: seq<int>)
    requires i <= |places| == |values|
  {
    && n.rsp == m.rsp && n.rbp == m.rbp
    && (forall r :: r != Rax ==> Get(n.regs, r) == Get(m.regs, r))
    && (forall j :: 0 <= j < i ==> Get(n.mem, m.rbp - 8 * (j + 1 + shift)) == values[j])
    && (forall k :: m.rbp - 8 * shift <= k ==> Get(n.mem, k) == Get(m.mem, k))
  }

  ghost predicate NoRax(places: seq<Place>) {
    forall i :: 0 <= i < |places| ==> places[i] != InRegister(Rax)
  }

  lemma {:induction false} HomingRuns(m: Machine, places: seq<Place>, shift: nat, i: nat, values: seq<int>)
    requires i <= |places| == |values| && NoRax(places)
    requires forall j :: 0 <= j < |places| ==> Holds(m, places[j], m.rbp + 16, values[j])
    ensures Homed(m, Run(m, Homing(places, shift, i)), places, shift, i, values)
  {
    if i == 0 {
      RunNone(m);
    } else {
      HomingRuns(m, places, shift, i - 1, values);
      var before := Run(m, Homing(places, shift, i - 1));
      var more := HomingOf(places[i - 1], 8 * (i + shift));
      RunAppend(m, Homing(places, shift, i - 1), more);
      assert Holds(m, places[i - 1], m.rbp + 16, values[i - 1]);
      assert Holds(before, places[i - 1], m.rbp + 16, values[i - 1]);
      HomeOne(before, places[i - 1], 8 * (i + shift), values[i - 1]);
      HomedStep(m, before, Run(before, more), places, shift, i, values);
    }
  }

  ghost predicate OneHomed(m: Machine, n: Machine, home: nat, value: int) {
    && n.rsp == m.rsp && n.rbp == m.rbp
    && (forall r :: r != Rax ==> Get(n.regs, r) == Get(m.regs, r))
    && Get(n.mem, m.rbp - home) == value
    && (forall k :: k != m.rbp - home ==> Get(n.mem, k) == Get(m.mem, k))
  }

  /** Storing the value that a register holds. */
  lemma HomeStored(m: Machine, r: Register, home: nat, value: int)
    requires Get(m.regs, r) == value
    ensures OneHomed(m, m.(mem := m.mem[m.rbp - home := Get(m.regs, r)]), home, value)
  {
  }

  /** Loading rax before does not count. */
  lemma HomeLoaded(m: Machine, v: int, n: Machine, home: nat, value: int)
    requires OneHomed(m.(regs := m.regs[Rax := v]), n, home, value)
    ensures OneHomed(m, n, home, value)
  {
  }

  lemma LoadsIncoming(m: Machine, offset: nat)
    ensures Step(m, LoadIncoming(16 + offset)) == m.(regs := m.regs[Rax := Get(m.mem, m.rbp + (16 + offset))])
  {}

  lemma HomesRax(m: Machine, home: nat)
    ensures Step(m, HomeRax(home)) == m.(mem := m.mem[m.rbp - home := Get(m.regs, Rax)])
  {}

  lemma RaxIs(m: Machine, v: int)
    ensures Get(m.(regs := m.regs[Rax := v]).regs, Rax) == v
  {}

  lemma HomeFromStack(m: Machine, offset: nat, home: nat)
    ensures OneHomed(m, Run(m, [LoadIncoming(16 + offset), HomeRax(home)]), home, Get(m.mem, m.rbp + (16 + offset)))
  {
    var v := Get(m.mem, m.rbp + (16 + offset));
    var a := m.(regs := m.regs[Rax := v]);
    hide *;
    RunTwo(m, LoadIncoming(16 + offset), HomeRax(home));
    LoadsIncoming(m, offset);
    HomesRax(a, home);
    RaxIs(m, v);
    HomeStored(a, Rax, home, v);
    HomeLoaded(m, v, a.(mem := a.mem[a.rbp - home := Get(a.regs, Rax)]), home, v);
  }

  lemma HomeOne(m: Machine, place: Place, home: nat, value: int)
    requires Holds(m, place, m.rbp + 16, value)
    ensures OneHomed(m, Run(m, HomingOf(place, home)), home, value)
  {
    hide Run, OneHomed;
    match place {
      case InRegister(r) =>
        RunOne(m, HomeRegister(home, r));
        HomeStored(m, r, home, value);
      case OnStack(offset) =>
        assert m.rbp + 16 + offset == m.rbp + (16 + offset);
        HomeFromStack(m, offset, home);
    }
  }

  lemma HomedStep(m: Machine, n: Machine, p: Machine, places: seq<Place>, shift: nat, i: nat, values: seq<int>)
    requires 0 < i <= |places| == |values|
    requires Homed(m, n, places, shift, i - 1, values) && OneHomed(n, p, 8 * (i + shift), values[i - 1])
    ensures Homed(m, p, places, shift, i, values)
  {
  }

  /** What is passed, for all arguments. */
  function Values(sig: Signature, m: Machine, args: seq<Argument>, total: nat): (vs: seq<int>)
    requires |args| == |sig.kinds|
    ensures |vs| == |args|
  {
    seq(|args|, i requires 0 <= i < |args| => Passed(sig, m, args, total, i))
  }

  /** What the callee's body finds: every value in its home, the address of every copy too, the copies intact, the
      hidden pointer in its own home. */
  ghost predicate Arrived(sig: Signature, m: Machine, n: Machine, args: seq<Argument>, total: nat, result: nat)
    requires Matches(sig, args)
  {
    && n.rbp == m.rsp - total - 16
    && (forall i :: 0 <= i < |args| ==> Get(n.mem, n.rbp - 8 * (i + 1 + Shift(sig))) == Passed(sig, m, args, total, i))
    && CopiesHeld(sig, m, n, args, total, |args|)
    && (sig.hidden ==> Get(n.mem, n.rbp - 8) == m.rbp - result)
    && (forall a :: a >= m.rsp ==> Get(n.mem, a) == Get(m.mem, a))
  }

  /** The call and the prologue leave every argument where it is. */
  lemma StillHeld(n: Machine, a: Machine, places: seq<Place>, base: int, values: seq<int>)
    requires |places| == |values| && forall j :: 0 <= j < |places| ==> Holds(n, places[j], base, values[j])
    requires a.regs == n.regs && forall k :: k >= base ==> Get(a.mem, k) == Get(n.mem, k)
    ensures forall j :: 0 <= j < |places| ==> Holds(a, places[j], base, values[j])
  {
    forall j | 0 <= j < |places| ensures Holds(a, places[j], base, values[j]) {
      assert Holds(n, places[j], base, values[j]);
    }
  }

  /** Control enters: the call, the prologue and the hidden pointer's home. */
  lemma Entered(c: Convention, n: Machine, hidden: bool, frame: nat) returns (p: Machine)
    ensures p == Run(n, [Call] + ([Prologue(frame)] + (if hidden then [HomeRegister(8, IntRegisters(c)[0])] else [])))
    ensures p.regs == n.regs && p.rbp == n.rsp - 16 && p.rsp == n.rsp - 16 - frame
    ensures forall k :: k >= n.rsp ==> Get(p.mem, k) == Get(n.mem, k)
    ensures hidden ==> Get(p.mem, p.rbp - 8) == Get(n.regs, IntRegisters(c)[0])
  {
    hide IntRegisters;
    var home := if hidden then [HomeRegister(8, IntRegisters(c)[0])] else [];
    RunAppend(n, [Call], [Prologue(frame)] + home);
    RunOne(n, Call);
    var a := Run(n, [Call]);
    RunAppend(a, [Prologue(frame)], home);
    RunOne(a, Prologue(frame));
    var b := Run(a, [Prologue(frame)]);
    if hidden { RunOne(b, HomeRegister(8, IntRegisters(c)[0])); } else { RunNone(b); }
    p := Run(n, [Call] + ([Prologue(frame)] + home));
  }

  lemma EntryRuns(c: Convention, sig: Signature, m: Machine, n: Machine, args: seq<Argument>, places: seq<Place>, total: nat, result: nat,
                  frame: nat)
    requires Matches(sig, args) && |places| == |args| && NoRax(places) && CopyRegion(sig.kinds) <= total
    requires AtCall(c, sig, m, n, args, places, total, result) && (sig.hidden <==> result > 0)
    ensures Arrived(sig, m, Run(n, [Call] + EntryCode(c, places, sig.hidden, frame)), args, total, result)
  {
    var values := Values(sig, m, args, total);
    assert forall i :: 0 <= i < |args| ==> values[i] == Passed(sig, m, args, total, i);
    hide Values, Run, Homing, IntRegisters, Passed;
    var home := if sig.hidden then [HomeRegister(8, IntRegisters(c)[0])] else [];
    var homes := Homing(places, Shift(sig), |places|);
    assert [Call] + EntryCode(c, places, sig.hidden, frame) == [Call] + ([Prologue(frame)] + home) + homes;
    RunAppend(n, [Call] + ([Prologue(frame)] + home), homes);
    var p := Entered(c, n, sig.hidden, frame);
    StillHeld(n, p, places, m.rsp - total, values);
    HomingRuns(p, places, Shift(sig), |places|, values);
    HomesArrived(c, sig, m, n, p, Run(p, homes), args, places, total, result, values);
  }

  lemma HomesArrived(c: Convention, sig: Signature, m: Machine, n: Machine, p: Machine, q: Machine, args: seq<Argument>, places: seq<Place>,
                     total: nat, result: nat, values: seq<int>)
    requires Matches(sig, args) && |places| == |args| && AtCall(c, sig, m, n, args, places, total, result) && (sig.hidden <==> result > 0)
    requires |values| == |args| && forall i :: 0 <= i < |args| ==> values[i] == Passed(sig, m, args, total, i)
    requires p.rbp == n.rsp - 16 && (forall k :: k >= n.rsp ==> Get(p.mem, k) == Get(n.mem, k))
    requires sig.hidden ==> Get(p.mem, p.rbp - 8) == Get(n.regs, IntRegisters(c)[0])
    requires Homed(p, q, places, Shift(sig), |places|, values)
    ensures Arrived(sig, m, q, args, total, result)
  {
    hide Passed, IntRegisters;
    assert forall k :: k >= m.rsp - total ==> Get(q.mem, k) == Get(n.mem, k);
    forall j | 0 <= j < |args| && args[j].Struct? ensures CopyHeld(sig, m, q, args, total, j) {
      assert CopyHeld(sig, m, n, args, total, j);
      CopyStays(sig, m, n, q, args, total, j);
    }
    forall i | 0 <= i < |args| ensures Get(q.mem, q.rbp - 8 * (i + 1 + Shift(sig))) == Passed(sig, m, args, total, i) {
      assert values[i] == Passed(sig, m, args, total, i);
    }
  }

  // ----- from operand to home -----

  lemma PlacesProper(c: Convention, caller: Signature, callee: Signature, internal: bool)
    requires SameShape(caller, callee) && PlacesAgree(c, caller, callee, internal)
    ensures PutPlaces(c, caller, internal) == ReadPlaces(c, callee)
    ensures Distinct(ReadPlaces(c, callee)) && Proper(c, caller, ReadPlaces(c, callee), Outgoing(c, caller, internal))
    ensures callee.hidden ==> KeepsFirst(c, ReadPlaces(c, callee))
  {
    PlacesAgreeExactly(c, caller, callee, internal);
    var n := |callee.kinds|;
    forall i | 0 <= i < n ensures Reads(c, callee, i) == Puts(c, caller, internal, i) {}
    forall i, j | 0 <= i < j < n ensures Reads(c, callee, i) != Reads(c, callee, j) { ReadsDiffer(c, callee, i, j); }
    forall i | 0 <= i < n ensures ProperPlace(c, caller, Puts(c, caller, internal, i), Outgoing(c, caller, internal)) {
      PutProper(c, caller, internal, i);
    }
    forall i | 0 <= i < n && callee.hidden ensures Reads(c, callee, i) != InRegister(IntRegisters(c)[0]) {
      assert Reads(c, callee, i) == Puts(c, caller, internal, i);
    }
  }

  lemma PutProper(c: Convention, sig: Signature, internal: bool, i: nat)
    requires i < |sig.kinds|
    ensures ProperPlace(c, sig, Puts(c, sig, internal, i), Outgoing(c, sig, internal))
  {
    if Spilled(c, sig, i) { SpilledKeepsShadow(c, sig, internal, i); }
  }

  /**
    * Wherever caller and callee agree on the places: after the copies, the moves, the call, the prologue and the
    * callee's homing, every parameter's home holds what its operand held before the call, or the address of a copy
    * with the bytes the aggregate had, and the caller's own stack is untouched.
    */
  lemma ArgumentsArrive(c: Convention, caller: Signature, callee: Signature, internal: bool, m: Machine, args: seq<Argument>,
                        result: nat, frame: nat)
    requires SameShape(caller, callee) && PlacesAgree(c, caller, callee, internal)
    requires Matches(caller, args) && Operands(c, caller, m, args, Outgoing(c, caller, internal)) && (callee.hidden <==> result > 0)
    ensures var total := Outgoing(c, caller, internal);
            var code := Setup(c, caller, args, PutPlaces(c, caller, internal), total, result)
              + ([Call] + EntryCode(c, ReadPlaces(c, callee), callee.hidden, frame));
            Arrived(caller, m, Run(m, code), args, total, result)
  {
    PlacesProper(c, caller, callee, internal);
    var places, total := ReadPlaces(c, callee), Outgoing(c, caller, internal);
    assert NoRax(places) by {
      forall i | 0 <= i < |places| ensures places[i] != InRegister(Rax) { assert ProperPlace(c, caller, places[i], total); }
    }
    assert caller.hidden == callee.hidden && CopyRegion(caller.kinds) <= total;
    hide *;
    SetupRuns(c, caller, m, args, places, total, result);
    var setup := Setup(c, caller, args, places, total, result);
    RunAppend(m, setup, [Call] + EntryCode(c, places, callee.hidden, frame));
    EntryRuns(c, caller, m, Run(m, setup), args, places, total, result, frame);
  }

  // ----- alignment -----

  predicate KeepsRsp(x: Instr) { !x.SubRsp? && !x.Call? && !x.Prologue? }

  ghost predicate AllKeepRsp(code: seq<Instr>) { forall i :: 0 <= i < |code| ==> KeepsRsp(code[i]) }

  lemma {:induction false} RspKept(m: Machine, code: seq<Instr>)
    requires AllKeepRsp(code)
    ensures Run(m, code).rsp == m.rsp
    decreases |code|
  {
    if code != [] {
      assert KeepsRsp(code[0]);
      RspKept(Step(m, code[0]), code[1..]);
    }
  }

  lemma {:induction false} CopiesKeepRsp(sig: Signature, args: seq<Argument>, i: nat)
    requires |args| == |sig.kinds| && i <= |args|
    ensures AllKeepRsp(Copies(sig, args, i))
  {
    if i > 0 { CopiesKeepRsp(sig, args, i - 1); }
  }

  lemma {:induction false} MovesKeepRsp(sig: Signature, args: seq<Argument>, places: seq<Place>, i: nat)
    requires |places| == |args| == |sig.kinds| && i <= |args|
    ensures AllKeepRsp(StackStores(sig, args, places, i)) && AllKeepRsp(RegisterMoves(sig, args, places, i))
  {
    if i > 0 { MovesKeepRsp(sig, args, places, i - 1); }
  }

  lemma {:induction false} HomingKeepsRsp(places: seq<Place>, shift: nat, i: nat)
    requires i <= |places|
    ensures AllKeepRsp(Homing(places, shift, i))
  {
    if i > 0 { HomingKeepsRsp(places, shift, i - 1); }
  }

  lemma KeepBoth(a: seq<Instr>, b: seq<Instr>)
    requires AllKeepRsp(a) && AllKeepRsp(b)
    ensures AllKeepRsp(a + b)
  {
    hide KeepsRsp;
  }

  lemma SetupRsp(c: Convention, sig: Signature, m: Machine, args: seq<Argument>, places: seq<Place>, total: nat, result: nat)
    requires |places| == |args| == |sig.kinds|
    ensures Run(m, Setup(c, sig, args, places, total, result)).rsp == m.rsp - total
  {
    CopiesKeepRsp(sig, args, |args|);
    MovesKeepRsp(sig, args, places, |args|);
    var copies, stores, moves := Copies(sig, args, |args|), StackStores(sig, args, places, |args|), RegisterMoves(sig, args, places, |args|);
    var last := Hidden(c, result);
    assert AllKeepRsp(last);
    var rest := copies + stores + moves + last;
    assert Setup(c, sig, args, places, total, result) == Reserve(total) + rest;
    assert Run(m, Reserve(total)).rsp == m.rsp - total by {
      if total > 0 { RunOne(m, SubRsp(total)); } else { RunNone(m); }
    }
    hide *;
    KeepBoth(copies, stores);
    KeepBoth(copies + stores, moves);
    KeepBoth(copies + stores + moves, last);
    RunAppend(m, Reserve(total), rest);
    RspKept(Run(m, Reserve(total)), rest);
  }

  lemma EntryRsp(c: Convention, m: Machine, places: seq<Place>, hidden: bool, frame: nat)
    ensures Run(m, EntryCode(c, places, hidden, frame)).rsp == m.rsp - 8 - frame
  {
    var shift := if hidden then 1 else 0;
    HomingKeepsRsp(places, shift, |places|);
    var rest := (if hidden then [HomeRegister(8, IntRegisters(c)[0])] else []) + Homing(places, shift, |places|);
    assert EntryCode(c, places, hidden, frame) == [Prologue(frame)] + rest;
    assert AllKeepRsp(rest);
    RunAppend(m, [Prologue(frame)], rest);
    RunOne(m, Prologue(frame));
    RspKept(Run(m, [Prologue(frame)]), rest);
  }

  /** A function that has been entered and is about to call another. */
  datatype Activation = Activation(places: seq<Place>, hidden: bool, frame: nat, sig: Signature, internal: bool, args: seq<Argument>, result: nat) {
    ghost predicate Fine() { |args| == |sig.kinds| && frame % 16 == 0 }

    /** From its first instruction up to the call. */
    function Code(c: Convention): seq<Instr>
      requires |args| == |sig.kinds|
    {
      EntryCode(c, places, hidden, frame) + Setup(c, sig, args, PutPlaces(c, sig, internal), Outgoing(c, sig, internal), result)
    }
  }

  /** The state a function is entered in: the return address lies on an aligned stack. */
  predicate EntryAligned(m: Machine) { m.rsp % 16 == 8 }

  lemma Sixteens(q: int)
    ensures 16 * q % 16 == 0 && (16 * q + 8) % 16 == 8
  {
  }

  lemma Multiples(rsp: int, frame: nat, total: nat)
    requires rsp % 16 == 8 && frame % 16 == 0 && total % 16 == 0
    ensures (rsp - 8 - frame - total) % 16 == 0 && (rsp - 8 - frame - total - 8) % 16 == 8
  {
    var q := rsp / 16 - frame / 16 - total / 16;
    assert rsp - 8 - frame - total == 16 * q;
    Sixteens(q);
    Sixteens(q - 1);
  }

  /** Entered so, a function with a rounded frame has its stack pointer aligned at the call instruction, and enters the
      next one so. */
  lemma CallAligned(c: Convention, a: Activation, m: Machine)
    requires a.Fine() && EntryAligned(m)
    ensures Run(m, a.Code(c)).rsp % 16 == 0 && EntryAligned(Run(m, a.Code(c) + [Call]))
  {
    var entry, places, total := EntryCode(c, a.places, a.hidden, a.frame), PutPlaces(c, a.sig, a.internal), Outgoing(c, a.sig, a.internal);
    var setup := Setup(c, a.sig, a.args, places, total, a.result);
    EntryRsp(c, m, a.places, a.hidden, a.frame);
    SetupRsp(c, a.sig, Run(m, entry), a.args, places, total, a.result);
    assert total % 16 == 0;
    hide Run, EntryCode, Setup, Outgoing, PutPlaces;
    RunAppend(m, entry, setup);
    Multiples(m.rsp, a.frame, total);
    RunAppend(m, a.Code(c), [Call]);
    RunOne(Run(m, a.Code(c)), Call);
  }

  ghost predicate AllFine(calls: seq<Activation>) { forall i :: 0 <= i < |calls| ==> calls[i].Fine() }

  ghost function Chain(c: Convention, calls: seq<Activation>): seq<Instr>
    requires AllFine(calls)
    decreases |calls|
  {
    if calls == [] then [] else calls[0].Code(c) + [Call] + Chain(c, calls[1..])
  }

  /** So every call in a chain of nested calls is made on an aligned stack, however deep. */
  lemma {:induction false} ChainAligned(c: Convention, calls: seq<Activation>, m: Machine)
    requires EntryAligned(m) && AllFine(calls)
    ensures EntryAligned(Run(m, Chain(c, calls)))
    decreases |calls|
  {
    if calls == [] {
      RunNone(m);
    } else {
      assert calls[0].Fine();
      CallAligned(c, calls[0], m);
      RunAppend(m, calls[0].Code(c) + [Call], Chain(c, calls[1..]));
      ChainAligned(c, calls[1..], Run(m, calls[0].Code(c) + [Call]));
    }
  }
}
