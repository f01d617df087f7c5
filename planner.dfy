/**
 * Deletion planning in `Clean`: every orphan gets a weight and the orphans
 * are sorted by ascending weight, so that ordinary objects go first, then
 * namespaces, then custom resource definitions. The sort of the source
 * (`sort.Slice`) is not stable; nothing here promises an order within a weight.
 */
module Planner {
  import opened KubeGC

  const CustomResourceDefinition: string := "CustomResourceDefinition"
  const NamespaceKind: string := "Namespace"

  /** The `weight` closure: 4 for a CRD, 3 for a namespace, 2 for a namespaced object, 1 otherwise. */
  function Weight(o: Orphan): (w: int)
    ensures 1 <= w <= 4
  {
    if o.kind == CustomResourceDefinition then 4
    else if o.kind == NamespaceKind then 3
    else if o.namespace != [] then 2
    else 1
  }

  /** The four classes: CRDs weigh 4, namespaces 3, other namespaced objects 2, the rest 1. */
  lemma WeightClasses(o: Orphan)
    ensures Weight(o) == 4 <==> o.kind == CustomResourceDefinition
    ensures Weight(o) == 3 <==> o.kind == NamespaceKind
    ensures Weight(o) == 2 <==>
              o.kind != CustomResourceDefinition && o.kind != NamespaceKind && o.namespace != []
    ensures Weight(o) == 1 <==>
              o.kind != CustomResourceDefinition && o.kind != NamespaceKind && o.namespace == []
  {
  }

  ghost predicate SortedByWeight(plan: seq<Orphan>)
  {
    forall p, q :: 0 <= p < q < |plan| ==> Weight(plan[p]) <= Weight(plan[q])
  }

  /** Exchanges the neighbours `a[j - 1]` and `a[j]`. */
  method SwapDown(a: array<Orphan>, j: nat)
    requires 0 < j < a.Length
    modifies a
    ensures a[..] == old(a[..])[j - 1 := old(a[j])][j := old(a[j - 1])]
    ensures multiset(a[..]) == old(multiset(a[..]))
  {
    a[j - 1], a[j] := a[j], a[j - 1];
  }

  /**
   * `sort.Slice(orphans, less)` with `less` comparing weights: afterwards the
   * array holds the same orphans, in ascending weight.
   */
  method SortByWeight(a: array<Orphan>)
    modifies a
    ensures SortedByWeight(a[..])
    ensures multiset(a[..]) == old(multiset(a[..]))
  {
    for i := 0 to a.Length
      invariant forall p, q :: 0 <= p < q < i ==> Weight(a[p]) <= Weight(a[q])
      invariant multiset(a[..]) == old(multiset(a[..]))
    {
      SinkLast(a, i);
    }
  }

  /** Moves `a[i]` down into the sorted prefix `a[..i]`, so that `a[..i + 1]` is sorted. */
  method SinkLast(a: array<Orphan>, i: nat)
    requires i < a.Length
    requires forall p, q :: 0 <= p < q < i ==> Weight(a[p]) <= Weight(a[q])
    modifies a
    ensures forall p, q :: 0 <= p < q <= i ==> Weight(a[p]) <= Weight(a[q])
    ensures multiset(a[..]) == old(multiset(a[..]))
    ensures a[i + 1..] == old(a[i + 1..])
  {
    var j := i;
    while j > 0 && Weight(a[j - 1]) > Weight(a[j])
      invariant 0 <= j <= i
      invariant multiset(a[..]) == old(multiset(a[..]))
      invariant forall p, q :: 0 <= p < q <= i && q != j ==> Weight(a[p]) <= Weight(a[q])
      invariant 0 < j < i ==> Weight(a[j - 1]) <= Weight(a[j + 1])
      invariant a[i + 1..] == old(a[i + 1..])
    {
      SwapDown(a, j);
      j := j - 1;
    }
  }

  /**
   * What the order means: in a sorted plan nothing follows a CRD but CRDs,
   * nothing follows a namespace but namespaces and CRDs, and no cluster-scoped
   * ordinary object follows a namespaced one.
   */
  lemma PlanPhases(plan: seq<Orphan>, p: nat, q: nat)
    requires SortedByWeight(plan) && p < q < |plan|
    ensures plan[p].kind == CustomResourceDefinition ==> plan[q].kind == CustomResourceDefinition
    ensures plan[p].kind == NamespaceKind ==>
              plan[q].kind == NamespaceKind || plan[q].kind == CustomResourceDefinition
    ensures plan[p].kind != CustomResourceDefinition && plan[p].kind != NamespaceKind &&
            plan[p].namespace != [] ==>
              plan[q].namespace != [] || plan[q].kind == NamespaceKind ||
              plan[q].kind == CustomResourceDefinition
  {
    assert Weight(plan[p]) <= Weight(plan[q]);
    WeightClasses(plan[p]);
    WeightClasses(plan[q]);
  }

  /** Two sorted arrangements of the same orphans end with orphans of the same weight. */
  lemma LastWeightsAgree(a: seq<Orphan>, b: seq<Orphan>)
    requires SortedByWeight(a) && SortedByWeight(b) && multiset(a) == multiset(b)
    requires a != [] && b != []
    ensures Weight(a[|a| - 1]) == Weight(b[|b| - 1])
  {
    var x, y := a[|a| - 1], b[|b| - 1];
    assert x in multiset(b) && y in multiset(a);
    var m :| 0 <= m < |b| && b[m] == x;
    var n :| 0 <= n < |a| && a[n] == y;
    assert Weight(b[m]) <= Weight(y) && Weight(a[n]) <= Weight(x);
  }

  /** Replacing an element by one with another copy removed keeps the multiset balance. */
  lemma ReplaceMultiset(a': seq<Orphan>, n: nat, x: Orphan, y: Orphan)
    requires n < |a'| && a'[n] == y
    ensures multiset(a'[n := x]) + multiset{y} == multiset(a') + multiset{x}
  {
    var c := a'[n := x];
    assert a' == a'[..n] + [y] + a'[n + 1..];
    assert c == a'[..n] + [x] + a'[n + 1..];
  }

  lemma CancelOne(m: multiset<Orphan>, n: multiset<Orphan>, y: Orphan)
    requires m + multiset{y} == n + multiset{y}
    ensures m == n
  {
    forall z ensures m[z] == n[z] {
      assert (m + multiset{y})[z] == (n + multiset{y})[z];
    }
  }

  /** Replacing an element by one of the same weight changes no weight. */
  lemma ReplaceSameWeight(a: seq<Orphan>, n: nat, x: Orphan)
    requires n < |a| && Weight(a[n]) == Weight(x)
    ensures |a[n := x]| == |a|
    ensures forall k :: 0 <= k < |a| ==> Weight(a[n := x][k]) == Weight(a[k])
  {
  }

  lemma SplitLast(a: seq<Orphan>)
    requires a != []
    ensures multiset(a) == multiset(a[..|a| - 1]) + multiset{a[|a| - 1]}
  {
    assert a == a[..|a| - 1] + [a[|a| - 1]];
  }

  /** Dropping the last element keeps a plan sorted. */
  lemma SortedInit(a: seq<Orphan>)
    requires SortedByWeight(a) && a != []
    ensures SortedByWeight(a[..|a| - 1])
  {
    var a' := a[..|a| - 1];
    forall p, q | 0 <= p < q < |a'| ensures Weight(a'[p]) <= Weight(a'[q]) {
      assert a'[p] == a[p] && a'[q] == a[q];
    }
  }

  /**
   * When `a' + [x]` and `b' + [y]` hold the same orphans and `x`, `y` weigh the
   * same, `a'` can be rearranged, weight for weight, into the orphans of `b'`.
   */
  lemma MatchInit(a': seq<Orphan>, b': seq<Orphan>, x: Orphan, y: Orphan) returns (c: seq<Orphan>)
    requires SortedByWeight(a') && Weight(x) == Weight(y)
    requires multiset(a') + multiset{x} == multiset(b') + multiset{y}
    ensures |c| == |a'| && SortedByWeight(c) && multiset(c) == multiset(b')
    ensures forall k :: 0 <= k < |c| ==> Weight(c[k]) == Weight(a'[k])
  {
    if x == y {
      CancelOne(multiset(a'), multiset(b'), x);
      return a';
    }
    assert (multiset(a') + multiset{x})[y] == (multiset(b') + multiset{y})[y];
    assert multiset(a')[y] > 0;
    assert y in a';
    var n :| 0 <= n < |a'| && a'[n] == y;
    c := a'[n := x];
    ReplaceMultiset(a', n, x, y);
    CancelOne(multiset(c), multiset(b'), y);
    ReplaceSameWeight(a', n, x);
    forall p, q | 0 <= p < q < |c| ensures Weight(c[p]) <= Weight(c[q]) {
      assert Weight(c[p]) == Weight(a'[p]) && Weight(c[q]) == Weight(a'[q]);
    }
  }

  /**
   * Sorting decides the sequence of weights: two sorted arrangements of the
   * same orphans agree on the weight at every position, even when the orphans
   * of one weight come in different orders.
   */
  lemma {:induction false} SortedWeightsDetermined(a: seq<Orphan>, b: seq<Orphan>)
    requires SortedByWeight(a) && SortedByWeight(b) && multiset(a) == multiset(b)
    ensures |a| == |b|
    ensures forall k :: 0 <= k < |a| ==> Weight(a[k]) == Weight(b[k])
    decreases |a|
  {
    assert |a| == |multiset(a)| == |multiset(b)| == |b|;
    if a != [] {
      var x, y := a[|a| - 1], b[|b| - 1];
      LastWeightsAgree(a, b);
      var a', b' := a[..|a| - 1], b[..|b| - 1];
      SortedInit(a);
      SortedInit(b);
      SplitLast(a);
      SplitLast(b);
      var c := MatchInit(a', b', x, y);
      SortedWeightsDetermined(c, b');
      forall k | 0 <= k < |a| ensures Weight(a[k]) == Weight(b[k]) {
        if k < |a'| {
          assert Weight(c[k]) == Weight(b'[k]) && a[k] == a'[k] && b[k] == b'[k];
        }
      }
    }
  }
}
