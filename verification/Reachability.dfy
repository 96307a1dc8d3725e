/** Which functions are kept: a worklist over call and address-of references, against the least
    set closed under them. */
module Reachability {
  import opened Wrappers

  datatype Ref = Call(name: string) | AddressOf(name: string) | CallIndirect | Other

  /** A function with a body; `refs` is None when no IR was found for it. */
  datatype Function = Function(name: string, exported: bool, refs: Option<seq<Ref>>)

  type Program = seq<Function>

  /** The first function of that name. */
  function IndexFrom(p: Program, name: string, i: nat): (k: Option<nat>)
    requires i <= |p|
    ensures k.Some? ==> i <= k.value < |p| && p[k.value].name == name && forall c :: i <= c < k.value ==> p[c].name != name
    ensures k.None? ==> forall c :: i <= c < |p| ==> p[c].name != name
    decreases |p| - i
  {
    if i == |p| then None else if p[i].name == name then Some(i) else IndexFrom(p, name, i + 1)
  }

  /** The function a reference leads to, if it names one. */
  function Target(p: Program, r: Ref): (k: Option<nat>)
    ensures k.Some? ==> k.value < |p|
  {
    if (r.Call? || r.AddressOf?) && r.name != "" then IndexFrom(p, r.name, 0) else None
  }

  predicate IsRoot(f: Function) { f.name == "main" || f.exported }

  /** Function a names function b, the first of that name, in a call or takes its address. */
  predicate Edge(p: Program, a: nat, b: nat) {
    && a < |p| && b < |p| && p[a].refs.Some? && p[b].name != ""
    && (forall c :: 0 <= c < b ==> p[c].name != p[b].name)
    && (Call(p[b].name) in p[a].refs.value || AddressOf(p[b].name) in p[a].refs.value)
  }

  lemma TargetIsEdge(p: Program, a: nat, j: nat)
    requires a < |p| && p[a].refs.Some? && j < |p[a].refs.value| && Target(p, p[a].refs.value[j]).Some?
    ensures Edge(p, a, Target(p, p[a].refs.value[j]).value)
  {
    assert p[a].refs.value[j] in p[a].refs.value;
    hide IndexFrom;
  }

  lemma EdgeIsTarget(p: Program, a: nat, b: nat) returns (j: nat)
    requires Edge(p, a, b)
    ensures j < |p[a].refs.value| && Target(p, p[a].refs.value[j]) == Some(b)
  {
    hide IndexFrom;
    var refs, name := p[a].refs.value, p[b].name;
    j :| j < |refs| && (refs[j] == Call(name) || refs[j] == AddressOf(name));
  }

  /** A chain of references from a root. */
  predicate Chain(p: Program, path: seq<nat>) {
    && path != [] && path[0] < |p| && (p[path[0]].name == "main" || p[path[0]].exported)
    && forall k :: 0 < k < |path| ==> Edge(p, path[k - 1], path[k])
  }

  ghost predicate Needed(p: Program, i: nat) {
    exists path: seq<nat> :: Chain(p, path) && path[|path| - 1] == i
  }

  predicate CallsIndirectly(p: Program, i: nat) {
    i < |p| && p[i].refs.Some? && Ref.CallIndirect in p[i].refs.value
  }

  predicate HasNoIr(p: Program, i: nat) {
    i < |p| && p[i].refs.None?
  }

  // ----- Needed is the least closed set holding the roots -----

  ghost predicate ClosedSet(p: Program, s: set<nat>) {
    && (forall i :: 0 <= i < |p| && (p[i].name == "main" || p[i].exported) ==> i in s)
    && (forall a, b :: a in s && Edge(p, a, b) ==> b in s)
  }

  lemma RootNeeded(p: Program, i: nat)
    requires i < |p| && IsRoot(p[i])
    ensures Needed(p, i)
  {
    assert Chain(p, [i]) && [i][|[i]| - 1] == i;
  }

  lemma EdgeNeeded(p: Program, a: nat, b: nat)
    requires Needed(p, a) && Edge(p, a, b)
    ensures Needed(p, b)
  {
    hide Edge;
    var path: seq<nat> :| Chain(p, path) && path[|path| - 1] == a;
    var longer := path + [b];
    forall k | 0 < k < |longer| ensures Edge(p, longer[k - 1], longer[k]) {
      if k < |path| { assert Edge(p, path[k - 1], path[k]); }
    }
    assert Chain(p, longer) && longer[|longer| - 1] == b;
  }

  lemma {:induction false} ChainInside(p: Program, s: set<nat>, path: seq<nat>)
    requires ClosedSet(p, s) && Chain(p, path)
    ensures path[|path| - 1] in s
    decreases |path|
  {
    hide Edge;
    if |path| > 1 {
      var front := path[..|path| - 1];
      assert Chain(p, front) by {
        forall k | 0 < k < |front| ensures Edge(p, front[k - 1], front[k]) { assert Edge(p, path[k - 1], path[k]); }
      }
      ChainInside(p, s, front);
      assert Edge(p, path[|path| - 2], path[|path| - 1]);
    }
  }

  lemma NeededInside(p: Program, s: set<nat>, i: nat)
    requires ClosedSet(p, s) && Needed(p, i)
    ensures i in s
  {
    hide Edge;
    var path: seq<nat> :| Chain(p, path) && path[|path| - 1] == i;
    ChainInside(p, s, path);
  }

  /** Needed functions form a closed set holding the roots, inside every other such set. */
  lemma NeededIsLeast(p: Program, s: set<nat>)
    ensures forall i :: 0 <= i < |p| && (p[i].name == "main" || p[i].exported) ==> Needed(p, i)
    ensures forall a, b :: Needed(p, a) && Edge(p, a, b) ==> Needed(p, b)
    ensures ClosedSet(p, s) ==> forall i :: Needed(p, i) ==> i in s
  {
    hide Edge, Chain;
    forall i | 0 <= i < |p| && IsRoot(p[i]) ensures Needed(p, i) { RootNeeded(p, i); }
    forall a, b | Needed(p, a) && Edge(p, a, b) ensures Needed(p, b) { EdgeNeeded(p, a, b); }
    if ClosedSet(p, s) {
      forall i | Needed(p, i) ensures i in s { NeededInside(p, s, i); }
    }
  }

  // ----- the order of the queue -----

  function Appended(q: seq<nat>, i: nat): seq<nat> { if i in q then q else q + [i] }

  /** The roots among the first n functions. */
  function Roots(p: Program, n: nat): seq<nat>
    requires n <= |p|
  {
    if n == 0 then [] else if IsRoot(p[n - 1]) then Appended(Roots(p, n - 1), n - 1) else Roots(p, n - 1)
  }

  /** The queue after the first j references. */
  function Scanned(p: Program, q: seq<nat>, refs: seq<Ref>, j: nat): seq<nat>
    requires j <= |refs|
  {
    if j == 0 then q
    else
      var s := Scanned(p, q, refs, j - 1);
      match Target(p, refs[j - 1])
      case Some(k) => Appended(s, k)
      case None => s
  }

  /** The queue after the first h functions have been taken from it and nothing has stopped the search. */
  function Explored(p: Program, h: nat): seq<nat> {
    if h == 0 then Roots(p, |p|)
    else
      var q := Explored(p, h - 1);
      if h - 1 < |q| && q[h - 1] < |p| && p[q[h - 1]].refs.Some? then
        var refs := p[q[h - 1]].refs.value;
        Scanned(p, q, refs, |refs|)
      else q
  }

  /** All needed functions, breadth first. */
  function Order(p: Program): seq<nat> { Explored(p, |p|) }

  predicate Stops(p: Program, i: nat) { HasNoIr(p, i) || CallsIndirectly(p, i) }

  /** The first function from position k on at which the search stops. */
  function FirstStop(p: Program, q: seq<nat>, k: nat): (i: Option<nat>)
    requires k <= |q|
    ensures i.Some? ==> Stops(p, i.value) && i.value in q
    ensures i.None? ==> forall j :: k <= j < |q| ==> !Stops(p, q[j])
    decreases |q| - k
  {
    if k == |q| then None else if Stops(p, q[k]) then Some(q[k]) else FirstStop(p, q, k + 1)
  }

  lemma {:induction false} FirstStopAt(p: Program, q: seq<nat>, k: nat, n: nat)
    requires k <= n < |q| && Stops(p, q[n]) && forall j :: k <= j < n ==> !Stops(p, q[j])
    ensures FirstStop(p, q, k) == Some(q[n])
    decreases n - k
  {
    hide Stops;
    if k < n { FirstStopAt(p, q, k + 1, n); }
  }

  ghost predicate Proper(p: Program, q: seq<nat>) {
    && (forall k :: 0 <= k < |q| ==> q[k] < |p| && Needed(p, q[k]))
    && (forall j, k :: 0 <= j < k < |q| ==> q[j] != q[k])
  }

  lemma AppendedProper(p: Program, q: seq<nat>, i: nat)
    requires Proper(p, q) && i < |p| && Needed(p, i)
    ensures Proper(p, Appended(q, i)) && q <= Appended(q, i) && i in Appended(q, i)
  {
    hide Needed;
  }

  lemma {:induction false} RootsProper(p: Program, n: nat)
    requires n <= |p|
    ensures Proper(p, Roots(p, n))
  {
    hide Needed;
    if n > 0 {
      hide Proper;
      RootsProper(p, n - 1);
      if IsRoot(p[n - 1]) {
        RootNeeded(p, n - 1);
        AppendedProper(p, Roots(p, n - 1), n - 1);
      }
    }
  }

  lemma {:induction false} RootsIn(p: Program, n: nat)
    requires n <= |p|
    ensures forall i :: 0 <= i < n && IsRoot(p[i]) ==> i in Roots(p, n)
  {
    if n > 0 { RootsIn(p, n - 1); }
  }

  /** The target of a reference is in the queue. */
  predicate TargetIn(p: Program, q: seq<nat>, r: Ref) { Target(p, r).Some? ==> Target(p, r).value in q }

  lemma {:induction false} ScannedProper(p: Program, q: seq<nat>, a: nat, j: nat)
    requires Proper(p, q) && a < |p| && Needed(p, a) && p[a].refs.Some? && j <= |p[a].refs.value|
    ensures Proper(p, Scanned(p, q, p[a].refs.value, j)) && q <= Scanned(p, q, p[a].refs.value, j)
    ensures forall i :: 0 <= i < j ==> TargetIn(p, Scanned(p, q, p[a].refs.value, j), p[a].refs.value[i])
  {
    hide Needed, Proper, Target, Edge, TargetIn;
    var refs := p[a].refs.value;
    if j > 0 {
      ScannedProper(p, q, a, j - 1);
      var s, r := Scanned(p, q, refs, j - 1), Scanned(p, q, refs, j);
      ScannedOnce(p, s, a, j - 1, r);
      forall i | 0 <= i < j ensures TargetIn(p, r, refs[i]) {
        if i < j - 1 { TargetStays(p, s, r, refs[i]); }
      }
    }
  }

  /** One reference. */
  lemma ScannedOnce(p: Program, s: seq<nat>, a: nat, j: nat, r: seq<nat>)
    requires Proper(p, s) && a < |p| && Needed(p, a) && p[a].refs.Some? && j < |p[a].refs.value|
    requires r == match Target(p, p[a].refs.value[j]) case Some(k) => Appended(s, k) case None => s
    ensures Proper(p, r) && s <= r && TargetIn(p, r, p[a].refs.value[j])
  {
    hide Needed, Proper;
    var t := Target(p, p[a].refs.value[j]);
    if t.Some? {
      TargetIsEdge(p, a, j);
      EdgeNeeded(p, a, t.value);
      AppendedProper(p, s, t.value);
    }
  }

  lemma TargetStays(p: Program, s: seq<nat>, r: seq<nat>, x: Ref)
    requires TargetIn(p, s, x) && s <= r
    ensures TargetIn(p, r, x)
  {
    hide Target;
  }

  /** The first h functions of the queue have their targets in it. */
  ghost predicate Followed(p: Program, q: seq<nat>, h: nat) {
    forall k, b :: 0 <= k < h && k < |q| && Edge(p, q[k], b) ==> b in q
  }

  lemma EdgeInside(p: Program, q: seq<nat>, a: nat, b: nat)
    requires Edge(p, a, b) && forall i :: 0 <= i < |p[a].refs.value| ==> TargetIn(p, q, p[a].refs.value[i])
    ensures b in q
  {
    hide Target;
    var j := EdgeIsTarget(p, a, b);
    assert TargetIn(p, q, p[a].refs.value[j]);
  }

  lemma {:induction false} ExploredProper(p: Program, h: nat)
    ensures Proper(p, Explored(p, h)) && Followed(p, Explored(p, h), h)
  {
    if h == 0 {
      RootsProper(p, |p|);
    } else {
      ExploredProper(p, h - 1);
      hide Proper, Explored;
      ExploredNext(p, h);
      ExploredStep(p, Explored(p, h - 1), Explored(p, h), h);
    }
  }

  /** Taking one function keeps the queue and adds the function's targets. */
  lemma ExploredNext(p: Program, h: nat)
    requires h > 0 && Proper(p, Explored(p, h - 1))
    ensures var q, r := Explored(p, h - 1), Explored(p, h);
            && Proper(p, r) && q <= r && (h - 1 >= |q| ==> r == q)
            && (h - 1 < |q| ==> forall b :: Edge(p, q[h - 1], b) ==> b in r)
  {
    var q, r := Explored(p, h - 1), Explored(p, h);
    if h - 1 < |q| {
      var a := q[h - 1];
      assert a < |p| && Needed(p, a);
      hide Proper, Needed, Target, Scanned;
      if p[a].refs.Some? {
        ScannedProper(p, q, a, |p[a].refs.value|);
        forall b | Edge(p, a, b) ensures b in r { EdgeInside(p, r, a, b); }
      }
    }
  }

  lemma ExploredStep(p: Program, q: seq<nat>, r: seq<nat>, h: nat)
    requires h > 0 && Followed(p, q, h - 1) && q <= r && (h - 1 >= |q| ==> r == q)
    requires h - 1 < |q| ==> forall b :: Edge(p, q[h - 1], b) ==> b in r
    ensures Followed(p, r, h)
  {
    hide Edge;
    forall k, b | 0 <= k < h && k < |r| && Edge(p, r[k], b) ensures b in r {
      assert r[k] == q[k];
      if k < h - 1 {
        assert b in q;
        var i :| 0 <= i < |q| && q[i] == b;
        assert r[i] == b;
      }
    }
  }

  lemma {:induction false} ExploredGrows(p: Program, h: nat, n: nat)
    requires h <= n
    ensures Explored(p, h) <= Explored(p, n)
    decreases n - h
  {
    if h < n {
      ExploredGrows(p, h, n - 1);
      ExploredProper(p, n - 1);
      hide Proper, Explored;
      ExploredNext(p, n);
    }
  }

  /** When the queue is empty the search is over. */
  lemma {:induction false} ExploredEnds(p: Program, h: nat, n: nat)
    requires h <= n && |Explored(p, h)| <= h
    ensures Explored(p, n) == Explored(p, h)
    decreases n - h
  {
    if h < n { ExploredEnds(p, h, n - 1); }
  }

  // ----- room in the queue -----

  function Elements(q: seq<nat>): set<nat> { set i | i in q }

  lemma {:induction false} ElementCount(q: seq<nat>)
    requires forall j, k :: 0 <= j < k < |q| ==> q[j] != q[k]
    ensures |Elements(q)| == |q|
    decreases |q|
  {
    if q != [] {
      var front, last := q[..|q| - 1], q[|q| - 1];
      ElementCount(front);
      assert Elements(q) == Elements(front) + {last} && last !in front;
    }
  }

  lemma {:induction false} WithinCount(s: set<nat>, n: nat)
    requires forall i :: i in s ==> i < n
    ensures |s| <= n
  {
    if n == 0 {
      assert s == {};
    } else {
      var t := s - {n - 1};
      WithinCount(t, n - 1);
      if n - 1 in s { assert s == t + {n - 1}; } else { assert s == t; }
    }
  }

  /** Functions queued once each: at most all of them, and fewer when one is missing. */
  lemma Room(p: Program, q: seq<nat>)
    requires forall k :: 0 <= k < |q| ==> q[k] < |p|
    requires forall j, k :: 0 <= j < k < |q| ==> q[j] != q[k]
    ensures |q| <= |p|
    ensures forall i :: 0 <= i < |p| && i !in q ==> |q| < |p|
  {
    ElementCount(q);
    WithinCount(Elements(q), |p|);
    forall i: nat | i < |p| && i !in q ensures |q| < |p| {
      WithinCount(Elements(q) + {i}, |p|);
      assert |Elements(q) + {i}| == |Elements(q)| + 1;
    }
  }

  // ----- what is found -----

  /** The queue holds the needed functions, once each. */
  lemma OrderIsNeeded(p: Program)
    ensures forall i :: i in Order(p) <==> Needed(p, i)
    ensures forall j, k :: 0 <= j < k < |Order(p)| ==> Order(p)[j] != Order(p)[k]
    ensures |Order(p)| <= |p|
  {
    var q := Order(p);
    ExploredProper(p, |p|);
    Room(p, q);
    OrderClosed(p);
    hide Needed, Edge, ClosedSet, Order;
    NeededIsLeast(p, Elements(q));
  }

  lemma OrderClosed(p: Program)
    ensures ClosedSet(p, Elements(Order(p)))
  {
    var q := Order(p);
    RootsIn(p, |p|);
    ExploredProper(p, |p|);
    Room(p, q);
    ExploredGrows(p, 0, |p|);
    hide Needed, Edge, Explored, Roots;
    forall a: nat, b: nat | a in Elements(q) && Edge(p, a, b) ensures b in Elements(q) {
      var k :| 0 <= k < |q| && q[k] == a;
    }
  }

  /** Something stops the search exactly when a needed function has no IR or calls indirectly, and it is such a function. */
  lemma StopsExactly(p: Program)
    ensures FirstStop(p, Order(p), 0).None? <==>
              forall i: nat :: i < |p| && Needed(p, i) ==> p[i].refs.Some? && Ref.CallIndirect !in p[i].refs.value
    ensures FirstStop(p, Order(p), 0).Some? ==>
              var i := FirstStop(p, Order(p), 0).value;
              Needed(p, i) && i < |p| && (p[i].refs.None? || Ref.CallIndirect in p[i].refs.value)
  {
    OrderIsNeeded(p);
    hide Needed, Order;
    var q := Order(p);
    var stop := FirstStop(p, q, 0);
    if stop.None? {
      forall i: nat | i < |p| && Needed(p, i) ensures p[i].refs.Some? && Ref.CallIndirect !in p[i].refs.value {
        var k :| 0 <= k < |q| && q[k] == i;
        assert !Stops(p, q[k]);
      }
    } else {
      assert Stops(p, stop.value);
    }
  }

  // ----- breadth first -----

  predicate RootAt(p: Program, i: nat) { i < |p| && IsRoot(p[i]) }

  /** Function i is a root, or one of the functions at positions before h refers to it. */
  ghost predicate Reason(p: Program, q: seq<nat>, i: nat, h: nat) {
    RootAt(p, i) || exists g :: 0 <= g < h && g < |q| && Edge(p, q[g], i)
  }

  /** Whoever comes before k has a reason no later than any reason of k. */
  ghost predicate InTurn(p: Program, q: seq<nat>, h: nat) {
    && (forall j :: 0 <= j < |q| ==> Reason(p, q, q[j], h))
    && (forall j, k, g :: 0 <= j < k < |q| && 0 <= g < h && g < |q| && Edge(p, q[g], q[k]) && !RootAt(p, q[k]) ==>
          Reason(p, q, q[j], g + 1))
  }

  lemma {:induction false} ScannedNew(p: Program, q: seq<nat>, a: nat, j: nat)
    requires a < |p| && p[a].refs.Some? && j <= |p[a].refs.value|
    ensures q <= Scanned(p, q, p[a].refs.value, j)
    ensures forall k :: |q| <= k < |Scanned(p, q, p[a].refs.value, j)| ==> Edge(p, a, Scanned(p, q, p[a].refs.value, j)[k])
  {
    hide Target, Edge;
    if j > 0 {
      ScannedNew(p, q, a, j - 1);
      if Target(p, p[a].refs.value[j - 1]).Some? { TargetIsEdge(p, a, j - 1); }
    }
  }

  lemma ReasonGrows(p: Program, q: seq<nat>, r: seq<nat>, i: nat, h: nat, n: nat)
    requires Reason(p, q, i, h) && q <= r && h <= n
    ensures Reason(p, r, i, n)
  {
    hide Edge;
    if !RootAt(p, i) {
      var g :| 0 <= g < h && g < |q| && Edge(p, q[g], i);
      assert Edge(p, r[g], i);
    }
  }

  /** What is new in the queue, no function taken earlier refers to. */
  lemma NewToAll(p: Program, q: seq<nat>, r: seq<nat>, h: nat, g: nat, k: nat)
    requires q <= r && g < h < |q| <= k < |r| && Proper(p, r) && Followed(p, q, h)
    ensures !Edge(p, r[g], r[k])
  {
    hide Edge, Needed;
    forall i | 0 <= i < |q| ensures q[i] != r[k] { assert r[i] == q[i] && r[i] != r[k]; }
    assert r[k] !in q;
    assert !Edge(p, q[g], r[k]);
  }

  lemma InTurnNext(p: Program, q: seq<nat>, r: seq<nat>, h: nat)
    requires InTurn(p, q, h) && q <= r && h < |q| && Proper(p, r) && Followed(p, q, h)
    requires forall k :: |q| <= k < |r| ==> Edge(p, q[h], r[k])
    ensures InTurn(p, r, h + 1)
  {
    hide Edge, RootAt, Needed, Reason;
    assert forall k :: 0 <= k < |q| ==> r[k] == q[k];
    forall j | 0 <= j < |r| ensures Reason(p, r, r[j], h + 1) {
      if j < |q| { ReasonGrows(p, q, r, q[j], h, h + 1); } else { EdgeIsReason(p, r, r[j], h); }
    }
    forall j, k, g | 0 <= j < k < |r| && 0 <= g < h + 1 && g < |r| && Edge(p, r[g], r[k]) && !RootAt(p, r[k])
      ensures Reason(p, r, r[j], g + 1)
    {
      if g < h {
        if k >= |q| { NewToAll(p, q, r, h, g, k); }
        if k < |q| {
          assert Edge(p, q[g], q[k]);
          ReasonGrows(p, q, r, q[j], g + 1, g + 1);
        }
      }
    }
  }

  lemma EdgeIsReason(p: Program, r: seq<nat>, i: nat, h: nat)
    requires h < |r| && Edge(p, r[h], i)
    ensures Reason(p, r, i, h + 1)
  {
    hide Edge;
  }

  lemma {:induction false} RootsReason(p: Program, n: nat)
    requires n <= |p|
    ensures forall i :: i in Roots(p, n) ==> RootAt(p, i)
  {
    if n > 0 { RootsReason(p, n - 1); }
  }

  lemma RootsInTurn(p: Program)
    ensures InTurn(p, Explored(p, 0), 0)
  {
    RootsReason(p, |p|);
    var q := Roots(p, |p|);
    hide Edge, Roots, RootAt;
    forall j | 0 <= j < |q| ensures Reason(p, q, q[j], 0) { assert q[j] in q; }
  }

  lemma ExploredNew(p: Program, h: nat)
    requires h > 0 && Proper(p, Explored(p, h - 1)) && h - 1 < |Explored(p, h - 1)|
    ensures var q, r := Explored(p, h - 1), Explored(p, h);
            q <= r && forall k :: |q| <= k < |r| ==> Edge(p, q[h - 1], r[k])
  {
    var q := Explored(p, h - 1);
    hide Edge, Needed, Scanned;
    if p[q[h - 1]].refs.Some? { ScannedNew(p, q, q[h - 1], |p[q[h - 1]].refs.value|); }
  }

  /** An empty queue stays in turn. */
  lemma InTurnStays(p: Program, q: seq<nat>, h: nat)
    requires InTurn(p, q, h) && |q| <= h
    ensures InTurn(p, q, h + 1)
  {
    hide Edge, RootAt, Reason;
    forall j | 0 <= j < |q| ensures Reason(p, q, q[j], h + 1) { ReasonGrows(p, q, q, q[j], h, h + 1); }
  }

  lemma {:induction false} ExploredInTurn(p: Program, h: nat)
    ensures InTurn(p, Explored(p, h), h)
  {
    hide *;
    if h == 0 {
      RootsInTurn(p);
    } else {
      ExploredInTurn(p, h - 1);
      ExploredProper(p, h - 1);
      ExploredProper(p, h);
      ExploredNext(p, h);
      var q := Explored(p, h - 1);
      if h - 1 < |q| {
        ExploredNew(p, h);
        InTurnNext(p, q, Explored(p, h), h - 1);
      } else {
        InTurnStays(p, q, h - 1);
      }
    }
  }

  /** The queue is breadth first: whatever stands before a function that is no root is a root, or is referred to by
      a function no later in the queue than the first that refers to the other. */
  lemma OrderInTurn(p: Program, j: nat, k: nat, g: nat)
    requires j < k < |Order(p)| && g < |Order(p)| && Edge(p, Order(p)[g], Order(p)[k])
    requires p[Order(p)[k]].name != "main" && !p[Order(p)[k]].exported
    ensures var i := Order(p)[j];
            || (i < |p| && (p[i].name == "main" || p[i].exported))
            || exists e :: 0 <= e <= g && Edge(p, Order(p)[e], i)
  {
    ExploredInTurn(p, |p|);
    OrderIsNeeded(p);
    hide Edge, Needed, Explored;
    assert Reason(p, Order(p), Order(p)[j], g + 1);
  }

  /** What the caller learns: nothing when the first needed function that stops the search, breadth first, has no IR;
      all functions when it calls indirectly; exactly the needed ones when none stops it. */
  ghost predicate Answer(p: Program, eliminate: bool, hasAsm: bool, result: Option<seq<bool>>) {
    if !eliminate || hasAsm || (forall i :: 0 <= i < |p| ==> p[i].name != "main" && !p[i].exported) then result.Some? && AllMarked(p, result.value)
    else
      match FirstStop(p, Order(p), 0)
      case None => result.Some? && ExactlyNeeded(p, result.value)
      case Some(i) => if i < |p| && p[i].refs.None? then result.None? else result.Some? && AllMarked(p, result.value)
  }

  predicate AllMarked(p: Program, marks: seq<bool>) {
    |marks| == |p| && forall i :: 0 <= i < |p| ==> marks[i]
  }

  ghost predicate ExactlyNeeded(p: Program, marks: seq<bool>) {
    |marks| == |p| && forall i :: 0 <= i < |p| ==> (marks[i] <==> Needed(p, i))
  }

  /** An indirect call behind a needed function without IR does not count, and the other way round. */
  lemma FirstOneCounts()
    ensures var p := [Function("main", false, Some([Call("a"), Call("b")])), Function("a", false, None),
                      Function("b", false, Some([CallIndirect]))];
            Answer(p, true, false, None) && forall marks :: !Answer(p, true, false, Some(marks))
    ensures var p := [Function("main", false, Some([Call("b"), Call("a")])), Function("a", false, None),
                      Function("b", false, Some([CallIndirect]))];
            Answer(p, true, false, Some([true, true, true])) && !Answer(p, true, false, None)
  {
    var a, b := Function("a", false, None), Function("b", false, Some([CallIndirect]));
    ThreeOrder([Function("main", false, Some([Call("a"), Call("b")])), a, b], 1, 2);
    ThreeOrder([Function("main", false, Some([Call("b"), Call("a")])), a, b], 2, 1);
  }

  lemma ThreeOrder(p: Program, x: nat, y: nat)
    requires |p| == 3 && p[0].name == "main" && !p[1].exported && !p[2].exported && p[1].name == "a" && p[2].name == "b"
    requires x in {1, 2} && y == 3 - x && p[0].refs == Some([Call(p[x].name), Call(p[y].name)]) && Stops(p, x)
    ensures IsRoot(p[0]) && FirstStop(p, Order(p), 0) == Some(x)
  {
    assert Roots(p, 3) == [0] by {
      assert Roots(p, 1) == [0] by { assert Roots(p, 0) == []; }
      assert Roots(p, 2) == [0];
    }
    var refs := p[0].refs.value;
    assert Target(p, refs[0]) == Some(x) by { assert IndexFrom(p, p[x].name, 1) == Some(x) by { assert IndexFrom(p, p[x].name, x) == Some(x); } }
    assert Target(p, refs[1]) == Some(y) by { assert IndexFrom(p, p[y].name, 1) == Some(y) by { assert IndexFrom(p, p[y].name, y) == Some(y); } }
    assert Explored(p, 1) == [0, x, y] by {
      assert Scanned(p, [0], refs, 1) == [0, x] by { assert Scanned(p, [0], refs, 0) == [0]; }
      assert Explored(p, 0) == [0];
    }
    hide Explored, Target;
    ExploredGrows(p, 1, 3);
    assert Order(p)[0] == 0 && Order(p)[1] == x;
    assert !Stops(p, 0);
    FirstStopAt(p, Order(p), 0, 1);
  }

  // ----- the worklist -----

  /** Marks and queue agree: the marked functions are queued once each. */
  ghost predicate Tracked(p: Program, marks: seq<bool>, q: seq<nat>) {
    && |marks| == |p| && Proper(p, q)
    && (forall i :: 0 <= i < |p| ==> (marks[i] <==> i in q))
  }

  class Worklist {
    const program: Program
    const marks: array<bool>
    const queue: array<nat>
    var head: nat
    var tail: nat

    ghost predicate Valid()
      reads this, marks, queue
    {
      marks.Length == queue.Length == |program| && head <= tail <= queue.Length && Tracked(program, marks[..], queue[..tail])
    }

    constructor (p: Program)
      ensures program == p && Valid() && head == tail == 0 && fresh(marks) && fresh(queue)
    {
      program := p;
      marks := new bool[|p|](_ => false);
      queue := new nat[|p|](_ => 0);
      head, tail := 0, 0;
    }

    /** Marks and queues a function unless it is marked already. The queue has room: it holds
        each marked function once. */
    method Mark(i: nat)
      requires Valid() && i < |program| && Needed(program, i)
      modifies this`tail, marks, queue
      ensures Valid() && tail >= old(tail) && queue[..tail] == Appended(old(queue[..tail]), i)
    {
      hide Needed;
      if marks[i] { return; }
      ghost var q := queue[..tail];
      Room(program, q);
      AppendedProper(program, q, i);
      hide Proper;
      marks[i] := true;
      queue[tail] := i;
      tail := tail + 1;
      assert queue[..tail] == q + [i];
    }

    /** Marks what one function refers to; stops at an indirect call. */
    method Scan(current: nat) returns (indirect: bool)
      requires Valid() && current < |program| && Needed(program, current) && program[current].refs.Some?
      modifies this`tail, marks, queue
      ensures Valid() && tail >= old(tail) && (indirect <==> CallsIndirectly(program, current))
      ensures !indirect ==>
        queue[..tail] == Scanned(program, old(queue[..tail]), program[current].refs.value, |program[current].refs.value|)
    {
      hide Needed, Tracked, Target;
      var refs := program[current].refs.value;
      for j := 0 to |refs|
        invariant Valid() && tail >= old(tail) && CallIndirect !in refs[..j]
        invariant queue[..tail] == Scanned(program, old(queue[..tail]), refs, j)
      {
        assert refs[..j + 1] == refs[..j] + [refs[j]];
        if refs[j].CallIndirect? { return true; }
        var target := Target(program, refs[j]);
        if target.Some? {
          TargetIsEdge(program, current, j);
          EdgeNeeded(program, current, target.value);
          if !marks[target.value] {
            Mark(target.value);
          } else {
            MarkedQueued(program, marks[..], queue[..tail], target.value);
          }
        }
      }
      assert refs[..|refs|] == refs;
      indirect := false;
    }

    static lemma MarkedQueued(p: Program, m: seq<bool>, q: seq<nat>, i: nat)
      requires Tracked(p, m, q) && i < |p|
      ensures m[i] <==> i in q
    {
    }

    /** The worklist loop: each function is taken from the queue once, up to the first that stops the search. */
    method Drain() returns (ok: bool, markAll: bool)
      requires Valid() && head == 0 && queue[..tail] == Roots(program, |program|)
      modifies this, marks, queue
      ensures Valid()
      ensures var stop := FirstStop(program, Order(program), 0);
              && (ok <==> !(stop.Some? && HasNoIr(program, stop.value)))
              && (markAll <==> stop.Some? && !HasNoIr(program, stop.value))
              && (stop.None? ==> queue[..tail] == Order(program))
    {
      hide Needed, Tracked, Target, CallsIndirectly, Roots;
      ok, markAll := true, false;
      while head < tail && !markAll
        invariant Valid() && head <= |program|
        invariant !markAll ==> queue[..tail] == Explored(program, head) && forall k :: 0 <= k < head ==> !Stops(program, queue[k])
        invariant markAll ==> FirstStop(program, Order(program), 0).Some? && !HasNoIr(program, FirstStop(program, Order(program), 0).value)
        decreases |program| - head, !markAll
      {
        var current := queue[head];
        ghost var q := queue[..tail];
        assert q[head] == current;
        TrackedAt(program, marks[..], q, head);
        if program[current].refs.None? {
          StopFound(program, head, q);
          return false, false;
        }
        var indirect := Scan(current);
        if indirect {
          StopFound(program, head, q);
          markAll := true;
        } else {
          assert q <= queue[..tail] by { ScannedGrows(program, q, program[current].refs.value, |program[current].refs.value|); }
          assert forall k :: 0 <= k <= head ==> queue[k] == q[k] by { assert forall k :: 0 <= k <= head ==> queue[..tail][k] == queue[k]; }
        }
        head := head + 1;
      }
      if !markAll { NoStop(program, head, queue[..tail]); }
    }

    static lemma {:induction false} ScannedGrows(p: Program, q: seq<nat>, refs: seq<Ref>, j: nat)
      requires j <= |refs|
      ensures q <= Scanned(p, q, refs, j)
    {
      if j > 0 { ScannedGrows(p, q, refs, j - 1); }
    }

    static lemma TrackedAt(p: Program, m: seq<bool>, q: seq<nat>, k: nat)
      requires Tracked(p, m, q) && k < |q|
      ensures q[k] < |p| && Needed(p, q[k]) && k < |p|
    {
      Room(p, q);
    }

    static lemma StopFound(p: Program, h: nat, q: seq<nat>)
      requires h < |q| && h < |p| && q == Explored(p, h) && Stops(p, q[h]) && forall k :: 0 <= k < h ==> !Stops(p, q[k])
      ensures FirstStop(p, Order(p), 0) == Some(q[h])
    {
      hide Stops;
      ExploredGrows(p, h, |p|);
      FirstStopAt(p, Order(p), 0, h);
    }

    static lemma NoStop(p: Program, h: nat, q: seq<nat>)
      requires h <= |p| && h == |q| && q == Explored(p, h) && forall k :: 0 <= k < h ==> !Stops(p, q[k])
      ensures q == Order(p) && FirstStop(p, Order(p), 0).None?
    {
      hide Stops;
      ExploredEnds(p, h, |p|);
    }

    /** Marks main and the exported functions. */
    method MarkRoots() returns (count: nat)
      requires Valid() && head == tail == 0
      modifies this`tail, marks, queue
      ensures Valid() && (count == 0 <==> forall i :: 0 <= i < |program| ==> !IsRoot(program[i]))
      ensures queue[..tail] == Roots(program, |program|)
    {
      hide Needed, Tracked;
      count := 0;
      for i := 0 to |program|
        invariant Valid() && (count == 0 <==> forall j :: 0 <= j < i ==> !IsRoot(program[j]))
        invariant queue[..tail] == Roots(program, i)
      {
        if IsRoot(program[i]) {
          RootNeeded(program, i);
          Mark(i);
          count := count + 1;
        }
      }
    }
  }

  /** Which functions to keep, or None when a needed one has no IR. */
  method CollectReachable(p: Program, eliminate: bool, hasAsm: bool) returns (result: Option<seq<bool>>)
    ensures Answer(p, eliminate, hasAsm, result)
  {
    hide Needed, CallsIndirectly, Proper, Order, Roots;
    var all := seq(|p|, _ => true);
    if !eliminate || hasAsm { return Some(all); }
    var w := new Worklist(p);
    var roots := w.MarkRoots();
    if roots == 0 { return Some(all); }
    var ok, markAll := w.Drain();
    if !ok { return None; }
    if markAll { return Some(all); }
    result := Some(w.marks[..]);
    OrderIsNeeded(p);
  }
}
