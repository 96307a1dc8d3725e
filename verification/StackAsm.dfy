/** The instructions of the tree-walking backend: Asm's straight-line ones, a push/pop stack
    below the frame, and jumps between numbered labels. */
module StackAsm {
  import opened Words
  import opened Wrappers
  import A = Asm

  datatype Target = Label(id: nat) | Exit

  datatype Instr =
    | Op(a: A.Instr)
    | PushRax
    | PopRax
    | Def(target: Target)
    | Jmp(target: Target)
    | Jcc(cond: A.Cond, target: Target)

  type Code = seq<Instr>

  datatype Machine = Machine(core: A.Machine, stack: seq<Word>) {
    function Rax(): Word { core.Get(A.RAX) }
  }

  datatype Config = At(pc: nat, m: Machine) | Halted(m: Machine) | Faulted(m: Machine) | Lost

  function FindTarget(code: Code, t: Target, from: nat): (k: Option<nat>)
    requires from <= |code|
    ensures k.Some? ==> from <= k.value < |code| && code[k.value] == Def(t)
    decreases |code| - from
  {
    if from == |code| then None
    else if code[from] == Def(t) then Some(from)
    else FindTarget(code, t, from + 1)
  }

  function Arrive(code: Code, t: Target, m: Machine): Config {
    match FindTarget(code, t, 0)
    case Some(k) => At(k, m)
    case None => Lost
  }

  /** One step; arriving at the exit label ends the run. */
  function Next(code: Code, c: Config): Config {
    if !c.At? then c
    else if c.pc >= |code| then Lost
    else
      var m := c.m;
      match code[c.pc]
      case Op(a) =>
        (match A.Step(a, m.core)
         case Fall(core) => At(c.pc + 1, m.(core := core))
         case Fault(core) => Faulted(m.(core := core))
         case _ => Lost)
      case PushRax => At(c.pc + 1, m.(stack := m.stack + [m.Rax()]))
      case PopRax =>
        if m.stack == [] then Lost
        else At(c.pc + 1, Machine(m.core.Set(A.RAX, m.stack[|m.stack| - 1]), m.stack[..|m.stack| - 1]))
      case Def(t) => if t.Exit? then Halted(m) else At(c.pc + 1, m)
      case Jmp(t) => Arrive(code, t, m)
      case Jcc(cond, t) =>
        if m.core.flags.Undefined? then Lost
        else if A.Holds(cond, m.core.flags.zero, m.core.flags.less) then Arrive(code, t, m)
        else At(c.pc + 1, m)
  }

  function Nexts(code: Code, n: nat, c: Config): Config {
    if n == 0 then c else Nexts(code, n - 1, Next(code, c))
  }

  lemma {:induction false} NextsAdd(code: Code, m: nat, n: nat, c: Config)
    ensures Nexts(code, m + n, c) == Nexts(code, n, Nexts(code, m, c))
  {
    if m != 0 { NextsAdd(code, m - 1, n, Next(code, c)); }
  }

  lemma NextOnce(code: Code, c: Config)
    ensures Nexts(code, 1, c) == Next(code, c)
  {
    assert Nexts(code, 0, Next(code, c)) == Next(code, c);
  }

  lemma {:induction false} NextsFinal(code: Code, n: nat, c: Config)
    requires !c.At?
    ensures Nexts(code, n, c) == c
  {
    if n != 0 { NextsFinal(code, n - 1, c); }
  }

  /** `part` sits at position p. */
  predicate Holds(code: Code, p: nat, part: Code) {
    p + |part| <= |code| && code[p..p + |part|] == part
  }

  lemma HoldsParts(code: Code, p: nat, a: Code, b: Code)
    requires Holds(code, p, a + b)
    ensures Holds(code, p, a) && Holds(code, p + |a|, b)
  {
    assert code[p..p + |a|] == code[p..p + |a + b|][..|a|];
    assert code[p + |a|..p + |a + b|] == code[p..p + |a + b|][|a|..];
  }

  lemma HoldsOne(code: Code, p: nat, a: Instr)
    requires Holds(code, p, [a])
    ensures p < |code| && code[p] == a
  {
    assert code[p] == code[p..p + 1][0];
  }

  /** No label is defined twice. */
  ghost predicate Once(code: Code) {
    forall i, j :: 0 <= i < j < |code| && code[i].Def? && code[j].Def? ==> code[i] != code[j]
  }

  lemma {:induction false} FindOnce(code: Code, t: Target, from: nat, p: nat)
    requires Once(code) && from <= p < |code| && code[p] == Def(t)
    ensures FindTarget(code, t, from) == Some(p)
    decreases p - from
  {
    if from < p { FindOnce(code, t, from + 1, p); }
  }

  lemma ArriveAt(code: Code, t: Target, p: nat, m: Machine)
    requires Once(code) && p < |code| && code[p] == Def(t)
    ensures Arrive(code, t, m) == At(p, m)
  {
    FindOnce(code, t, 0, p);
  }

  /** Asm instructions as instructions here. */
  function Lift(a: seq<A.Instr>): (c: Code)
    ensures |c| == |a|
  {
    seq(|a|, i requires 0 <= i < |a| => Op(a[i]))
  }

  /** The first instruction of lifted code. */
  lemma LiftedHead(code: Code, p: nat, a: seq<A.Instr>, m: Machine)
    requires a != [] && Holds(code, p, Lift(a))
    ensures Holds(code, p + 1, Lift(a[1..]))
    ensures var s := A.Step(a[0], m.core);
            && A.Run(a, m.core) == (if s.Fall? then A.Run(a[1..], s.m) else s)
            && Next(code, At(p, m)) == (if s.Fall? then At(p + 1, m.(core := s.m))
                                        else if s.Fault? then Faulted(m.(core := s.m)) else Lost)
  {
    hide A.Step;
    assert Lift(a) == [Op(a[0])] + Lift(a[1..]);
    HoldsParts(code, p, [Op(a[0])], Lift(a[1..]));
    HoldsOne(code, p, Op(a[0]));
  }

  /** Lifted code runs as Asm's Run says. */
  lemma {:induction false} RunLifted(code: Code, p: nat, a: seq<A.Instr>, m: Machine) returns (k: nat)
    requires Holds(code, p, Lift(a))
    ensures A.Run(a, m.core).Fall? ==> k == |a| && Nexts(code, k, At(p, m)) == At(p + |a|, m.(core := A.Run(a, m.core).m))
    ensures A.Run(a, m.core).Fault? ==> Nexts(code, k, At(p, m)) == Faulted(m.(core := A.Run(a, m.core).m))
    decreases |a|
  {
    if a == [] {
      k := 0;
      assert A.Run(a, m.core) == A.Fall(m.core);
    } else {
      hide *;
      LiftedHead(code, p, a, m);
      var s := A.Step(a[0], m.core);
      if s.Fall? {
        var k1 := RunLifted(code, p + 1, a[1..], m.(core := s.m));
        k := k1 + 1;
        NextsAdd(code, 1, k1, At(p, m));
        NextOnce(code, At(p, m));
      } else {
        k := 1;
        NextOnce(code, At(p, m));
      }
    }
  }
}
