/** Grouping relocations by section in one pass, against the nested scan it replaces. */
module CountingSort {
  import opened ObjectModel
  import opened Wrappers

  /** Indices below n of the relocations of section i, in order. */
  function IndicesOf(relocs: seq<Reloc>, i: nat, n: nat): (r: seq<nat>)
    requires n <= |relocs|
    ensures forall p :: 0 <= p < |r| ==> r[p] < n && relocs[r[p]].section == i
  {
    if n == 0 then []
    else IndicesOf(relocs, i, n - 1) + if relocs[n - 1].section == i then [n - 1] else []
  }

  /** Where the run of section i starts. */
  function StartOf(relocs: seq<Reloc>, i: nat): nat {
    if i == 0 then 0 else StartOf(relocs, i - 1) + |IndicesOf(relocs, i - 1, |relocs|)|
  }

  /** Section by section, the in-order filter of each. */
  function Grouped(relocs: seq<Reloc>, m: nat): (r: seq<nat>)
    ensures |r| == StartOf(relocs, m)
  {
    if m == 0 then [] else Grouped(relocs, m - 1) + IndicesOf(relocs, m - 1, |relocs|)
  }

  ghost predicate InSections(relocs: seq<Reloc>, m: nat) {
    forall r :: 0 <= r < |relocs| ==> relocs[r].section < m
  }

  // ----- the grouping is a permutation -----

  lemma {:induction false} IndicesIncrease(relocs: seq<Reloc>, i: nat, n: nat)
    requires n <= |relocs|
    ensures forall p, q :: 0 <= p < q < |IndicesOf(relocs, i, n)| ==> IndicesOf(relocs, i, n)[p] < IndicesOf(relocs, i, n)[q]
  {
    if n != 0 { IndicesIncrease(relocs, i, n - 1); }
  }

  lemma {:induction false} IndicesPrefix(relocs: seq<Reloc>, i: nat, k: nat, n: nat)
    requires k <= n <= |relocs|
    ensures IndicesOf(relocs, i, k) <= IndicesOf(relocs, i, n)
    decreases n
  {
    if k < n { IndicesPrefix(relocs, i, k, n - 1); }
  }

  /** The position of relocation r: its section's start plus how many came before it there. */
  function PlaceOf(relocs: seq<Reloc>, r: nat): nat
    requires r < |relocs|
  {
    StartOf(relocs, relocs[r].section) + |IndicesOf(relocs, relocs[r].section, r)|
  }

  lemma {:induction false} GroupedAt(relocs: seq<Reloc>, m: nat, i: nat, p: nat)
    requires i < m && p < |IndicesOf(relocs, i, |relocs|)|
    ensures StartOf(relocs, i) + p < |Grouped(relocs, m)|
    ensures Grouped(relocs, m)[StartOf(relocs, i) + p] == IndicesOf(relocs, i, |relocs|)[p]
  {
    hide *;
    GroupedStep(relocs, m);
    if i < m - 1 { GroupedAt(relocs, m - 1, i, p); }
  }

  lemma GroupedStep(relocs: seq<Reloc>, m: nat)
    requires m > 0
    ensures Grouped(relocs, m) == Grouped(relocs, m - 1) + IndicesOf(relocs, m - 1, |relocs|)
  {
    hide IndicesOf, StartOf;
  }

  lemma RankAt(relocs: seq<Reloc>, r: nat)
    requires r < |relocs|
    ensures var i := relocs[r].section; var p := |IndicesOf(relocs, i, r)|;
            p < |IndicesOf(relocs, i, |relocs|)| && IndicesOf(relocs, i, |relocs|)[p] == r
  {
    IndicesPrefix(relocs, relocs[r].section, r + 1, |relocs|);
    assert IndicesOf(relocs, relocs[r].section, r + 1)[|IndicesOf(relocs, relocs[r].section, r)|] == r;
  }

  /** Every relocation occurs, at its place. */
  lemma GroupedHolds(relocs: seq<Reloc>, m: nat, r: nat)
    requires InSections(relocs, m) && r < |relocs|
    ensures PlaceOf(relocs, r) < |Grouped(relocs, m)| && Grouped(relocs, m)[PlaceOf(relocs, r)] == r
  {
    assert relocs[r].section < m;
    hide *;
    PlaceIs(relocs, r);
    RankAt(relocs, r);
    GroupedAt(relocs, m, relocs[r].section, |IndicesOf(relocs, relocs[r].section, r)|);
  }

  lemma OwnIndex(relocs: seq<Reloc>, i: nat, p: nat)
    requires p < |IndicesOf(relocs, i, |relocs|)|
    ensures var r := IndicesOf(relocs, i, |relocs|)[p];
            r < |relocs| && relocs[r].section == i && PlaceOf(relocs, r) == StartOf(relocs, i) + p
  {
    hide IndicesOf, StartOf;
    var r := IndicesOf(relocs, i, |relocs|)[p];
    RankAt(relocs, r);
    IndicesIncrease(relocs, i, |relocs|);
  }

  lemma {:induction false} GroupedInside(relocs: seq<Reloc>, m: nat, k: nat)
    requires k < |Grouped(relocs, m)|
    ensures Grouped(relocs, m)[k] < |relocs| && relocs[Grouped(relocs, m)[k]].section < m
    ensures PlaceOf(relocs, Grouped(relocs, m)[k]) == k
    decreases m
  {
    hide *;
    if m == 0 {
      GroupedNone(relocs);
    } else {
      GroupedStep(relocs, m);
      var front := Grouped(relocs, m - 1);
      if k < |front| {
        GroupedInside(relocs, m - 1, k);
      } else {
        OwnIndex(relocs, m - 1, k - |front|);
      }
    }
  }

  lemma GroupedNone(relocs: seq<Reloc>)
    ensures Grouped(relocs, 0) == []
  {
  }

  /** The grouping is a permutation of all relocations, with an explicit inverse. */
  lemma GroupedIsPermutation(relocs: seq<Reloc>, m: nat)
    requires InSections(relocs, m)
    ensures forall r :: 0 <= r < |relocs| ==> PlaceOf(relocs, r) < |Grouped(relocs, m)| && Grouped(relocs, m)[PlaceOf(relocs, r)] == r
    ensures forall k :: 0 <= k < |Grouped(relocs, m)| ==>
              Grouped(relocs, m)[k] < |relocs| && PlaceOf(relocs, Grouped(relocs, m)[k]) == k
    ensures |Grouped(relocs, m)| == |relocs|
  {
    hide PlaceOf, Grouped;
    forall r | 0 <= r < |relocs|
      ensures PlaceOf(relocs, r) < |Grouped(relocs, m)| && Grouped(relocs, m)[PlaceOf(relocs, r)] == r
    {
      GroupedHolds(relocs, m, r);
    }
    forall k | 0 <= k < |Grouped(relocs, m)|
      ensures Grouped(relocs, m)[k] < |relocs| && PlaceOf(relocs, Grouped(relocs, m)[k]) == k
    {
      GroupedInside(relocs, m, k);
    }
    SameLength(relocs, m, |relocs|);
  }

  function CountBelow(relocs: seq<Reloc>, m: nat, n: nat): nat
    requires n <= |relocs|
  {
    if m == 0 then 0 else CountBelow(relocs, m - 1, n) + |IndicesOf(relocs, m - 1, n)|
  }

  lemma {:induction false} OneMore(relocs: seq<Reloc>, m: nat, n: nat)
    requires n < |relocs|
    ensures CountBelow(relocs, m, n + 1) == CountBelow(relocs, m, n) + if relocs[n].section < m then 1 else 0
  {
    hide IndicesOf;
    if m != 0 {
      OneMore(relocs, m - 1, n);
      IndicesNext(relocs, m - 1, n);
    }
  }

  lemma {:induction false} StartIsCount(relocs: seq<Reloc>, m: nat)
    ensures StartOf(relocs, m) == CountBelow(relocs, m, |relocs|)
  {
    hide IndicesOf;
    if m != 0 { StartIsCount(relocs, m - 1); }
  }

  lemma {:induction false} CountNone(relocs: seq<Reloc>, m: nat)
    ensures CountBelow(relocs, m, 0) == 0
  {
    hide IndicesOf;
    if m != 0 {
      CountNone(relocs, m - 1);
      NoIndices(relocs, m);
    }
  }

  lemma {:induction false} CountAll(relocs: seq<Reloc>, m: nat, n: nat)
    requires InSections(relocs, m) && n <= |relocs|
    ensures CountBelow(relocs, m, n) == n
  {
    if n == 0 {
      CountNone(relocs, m);
    } else {
      CountAll(relocs, m, n - 1);
      OneMore(relocs, m, n - 1);
    }
  }

  lemma SameLength(relocs: seq<Reloc>, m: nat, n: nat)
    requires InSections(relocs, m) && n == |relocs|
    ensures StartOf(relocs, m) == n
  {
    StartIsCount(relocs, m);
    CountAll(relocs, m, n);
  }

  // ----- against the nested scan -----

  function Pick(relocs: seq<Reloc>, indices: seq<nat>): (r: seq<Reloc>)
    requires forall p :: 0 <= p < |indices| ==> indices[p] < |relocs|
    ensures |r| == |indices|
  {
    seq(|indices|, p requires 0 <= p < |indices| => relocs[indices[p]])
  }

  /** The indices of a section are those of the relocations a nested scan finds. */
  lemma {:induction false} IndicesAreFilter(relocs: seq<Reloc>, i: nat, n: nat)
    requires n <= |relocs|
    ensures Pick(relocs, IndicesOf(relocs, i, n)) == RelocsOf(relocs[..n], i)
  {
    if n != 0 {
      IndicesAreFilter(relocs, i, n - 1);
      assert relocs[..n][..n - 1] == relocs[..n - 1];
      var a := IndicesOf(relocs, i, n - 1);
      if relocs[n - 1].section == i {
        assert Pick(relocs, a + [n - 1]) == Pick(relocs, a) + [relocs[n - 1]];
      } else {
        assert a + [] == a;
        assert RelocsOf(relocs[..n], i) == RelocsOf(relocs[..n - 1], i);
      }
    }
  }

  /** The run of section i is exactly what the other writer's scan for section i emits. */
  lemma RunIsFilter(relocs: seq<Reloc>, m: nat, i: nat, p: nat)
    requires i < m && p < |RelocsOf(relocs, i)|
    ensures |IndicesOf(relocs, i, |relocs|)| == |RelocsOf(relocs, i)|
    ensures StartOf(relocs, i) + p < |Grouped(relocs, m)| && Grouped(relocs, m)[StartOf(relocs, i) + p] < |relocs|
    ensures relocs[Grouped(relocs, m)[StartOf(relocs, i) + p]] == RelocsOf(relocs, i)[p]
  {
    hide RelocsOf, IndicesOf, Grouped, StartOf;
    IndicesAreFilter(relocs, i, |relocs|);
    assert relocs[..|relocs|] == relocs;
    var own := IndicesOf(relocs, i, |relocs|);
    GroupedAt(relocs, m, i, p);
    assert Pick(relocs, own)[p] == relocs[own[p]];
  }

  lemma StartNext(relocs: seq<Reloc>, i: nat)
    ensures StartOf(relocs, i + 1) == StartOf(relocs, i) + |IndicesOf(relocs, i, |relocs|)|
  {}

  // ----- the one-pass placement -----

  /** Prefix sums of the counts give each section its range. */
  method PrefixSums(relocs: seq<Reloc>, m: nat, counts: array<nat>) returns (start: array<nat>)
    requires counts.Length == m && forall i :: 0 <= i < m ==> counts[i] == |IndicesOf(relocs, i, |relocs|)|
    ensures fresh(start) && start.Length == m + 1 && forall i :: 0 <= i <= m ==> start[i] == StartOf(relocs, i)
  {
    hide IndicesOf, StartOf;
    start := new nat[m + 1](_ => 0);
    StartZero(relocs);
    for i := 0 to m
      invariant forall j :: 0 <= j <= i ==> start[j] == StartOf(relocs, j)
    {
      StartNext(relocs, i);
      start[i + 1] := start[i] + counts[i];
    }
  }

  lemma StartZero(relocs: seq<Reloc>)
    ensures StartOf(relocs, 0) == 0
  {}

  lemma IndicesNext(relocs: seq<Reloc>, i: nat, r: nat)
    requires r < |relocs|
    ensures |IndicesOf(relocs, i, r + 1)| == |IndicesOf(relocs, i, r)| + if relocs[r].section == i then 1 else 0
  {}

  /** One stable placement pass over the relocations. */
  method OrderRelocations(relocs: seq<Reloc>, m: nat, counts: array<nat>) returns (start: array<nat>, ordered: array<nat>)
    requires InSections(relocs, m) && counts.Length == m
    requires forall i :: 0 <= i < m ==> counts[i] == |IndicesOf(relocs, i, |relocs|)|
    ensures fresh(start) && start.Length == m + 1 && forall i :: 0 <= i <= m ==> start[i] == StartOf(relocs, i)
    ensures fresh(ordered) && ordered[..] == Grouped(relocs, m)
  {
    hide StartOf, Grouped, IndicesOf, PlaceOf;
    GroupedIsPermutation(relocs, m);
    start := PrefixSums(relocs, m, counts);
    ordered := new nat[|relocs|](_ => 0);
    var cursor := new nat[m](_ => 0);
    NoIndices(relocs, m);
    for r := 0 to |relocs|
      invariant forall i :: 0 <= i < m ==> cursor[i] == |IndicesOf(relocs, i, r)|
      invariant forall i :: 0 <= i <= m ==> start[i] == StartOf(relocs, i)
      invariant forall q :: 0 <= q < r ==> ordered[PlaceOf(relocs, q)] == q
    {
      var sec := relocs[r].section;
      var dst := start[sec] + cursor[sec];
      PlaceIs(relocs, r);
      forall i | 0 <= i < m
        ensures |IndicesOf(relocs, i, r + 1)| == |IndicesOf(relocs, i, r)| + if sec == i then 1 else 0
      {
        IndicesNext(relocs, i, r);
      }
      ordered[dst] := r;
      cursor[sec] := cursor[sec] + 1;
    }
    forall k | 0 <= k < |relocs| ensures ordered[k] == Grouped(relocs, m)[k] {
      assert ordered[PlaceOf(relocs, Grouped(relocs, m)[k])] == Grouped(relocs, m)[k];
    }
  }

  lemma NoIndices(relocs: seq<Reloc>, m: nat)
    ensures forall i :: 0 <= i < m ==> IndicesOf(relocs, i, 0) == []
  {}

  lemma PlaceIs(relocs: seq<Reloc>, r: nat)
    requires r < |relocs|
    ensures PlaceOf(relocs, r) == StartOf(relocs, relocs[r].section) + |IndicesOf(relocs, relocs[r].section, r)|
  {}
}
