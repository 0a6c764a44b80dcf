/** Small facts about sequences and finite sets. */
module Collections {

  ghost predicate NoDup<T>(s: seq<T>) {
    forall i, j :: 0 <= i < j < |s| ==> s[i] != s[j]
  }

  /** The numbers below `n`. */
  function Below(n: nat): (s: set<nat>)
    ensures |s| == n && forall x: nat :: x in s <==> x < n
  {
    if n == 0 then {} else Below(n - 1) + {n - 1}
  }

  /** An arrangement of the numbers below its length. */
  ghost predicate Permutation(order: seq<nat>) {
    && (forall k :: 0 <= k < |order| ==> order[k] < |order|)
    && NoDup(order)
  }

  lemma NotYet(order: seq<nat>, n: nat)
    requires Permutation(order) && n < |order|
    ensures order[n] !in order[..n]
  {
  }

  /** A permutation hits every index. */
  lemma Onto(order: seq<nat>, i: nat)
    requires Permutation(order) && i < |order|
    ensures exists k :: 0 <= k < |order| && order[k] == i
  {
    var image := ImageOf(order);
    var all := Below(|order|);
    if i !in image {
      assert image <= all - {i};
      Subset(image, all - {i});
    }
  }

  function ImageOf(s: seq<nat>): (r: set<nat>)
    ensures forall x :: x in r <==> exists k :: 0 <= k < |s| && s[k] == x
    ensures (forall k, l :: 0 <= k < l < |s| ==> s[k] != s[l]) ==> |r| == |s|
  {
    if s == [] then {}
    else
      assert s == s[..|s| - 1] + [s[|s| - 1]];
      ImageOf(s[..|s| - 1]) + {s[|s| - 1]}
  }

  lemma {:induction false} Subset(a: set<nat>, b: set<nat>)
    requires a <= b
    ensures |a| <= |b|
  {
    if a != {} {
      var x :| x in a;
      Subset(a - {x}, b - {x});
    }
  }
}
