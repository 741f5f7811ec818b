/** Weighted choice as both generators write it (`select_state` and
    `select_candidate`): walk the ordered table, return the first key whose
    weight is at least the remaining target, otherwise subtract the weight
    and go on. The random target is a parameter. */
module Weighted {
  import opened Common

  /** An ordered table of keys and their weights (a Ruby hash, in insertion
      order). Weights are whole numbers. */
  type Weights<K> = seq<(K, nat)>

  /** The keys of a table, in order. */
  function KeysOf<K>(w: Weights<K>): (r: seq<K>)
    ensures |r| == |w| && forall i :: 0 <= i < |w| ==> r[i] == w[i].0
  {
    seq(|w|, i requires 0 <= i < |w| => w[i].0)
  }

  lemma KeysOfAppend<K>(a: Weights<K>, b: Weights<K>)
    ensures KeysOf(a + b) == KeysOf(a) + KeysOf(b)
  {
  }

  /** `inject(0) { |sum, (item, weight)| sum + weight }`. */
  function Sum<K>(w: Weights<K>): nat
    decreases |w|
  {
    if w == [] then 0 else Sum(w[..|w| - 1]) + w[|w| - 1].1
  }

  lemma {:induction false} SumAppend<K>(a: Weights<K>, b: Weights<K>)
    ensures Sum(a + b) == Sum(a) + Sum(b)
    decreases |b|
  {
    if b == [] {
      assert a + b == a;
    } else {
      assert (a + b)[..|a + b| - 1] == a + b[..|b| - 1];
      SumAppend(a, b[..|b| - 1]);
    }
  }

  /** The same total accumulated from the front, which unfolds on a table
      written out as a display. */
  function SumFromFront<K>(w: Weights<K>): nat
    decreases |w|
  {
    if w == [] then 0 else w[0].1 + SumFromFront(w[1..])
  }

  lemma {:induction false} SumFromFrontAgrees<K>(w: Weights<K>)
    ensures Sum(w) == SumFromFront(w)
    decreases |w|
  {
    if w != [] {
      SumFromFrontAgrees(w[1..]);
      SumAppend([w[0]], w[1..]);
      assert [w[0]] + w[1..] == w;
      var first: Weights<K> := [w[0]];
      assert first[..0] == [];
    }
  }

  lemma PrefixStep<K>(w: Weights<K>, i: nat)
    requires i < |w|
    ensures Sum(w[..i + 1]) == Sum(w[..i]) + w[i].1
  {
    assert w[..i + 1][..i] == w[..i];
  }

  /** Prefix sums never decrease. */
  lemma {:induction false} PrefixMonotone<K>(w: Weights<K>, i: nat, j: nat)
    requires i <= j <= |w|
    ensures Sum(w[..i]) <= Sum(w[..j])
    decreases j - i
  {
    if i < j {
      PrefixStep(w, j - 1);
      PrefixMonotone(w, i, j - 1);
    }
  }

  /** The running sum up to and including key `i`. */
  function Through<K>(w: Weights<K>, i: nat): nat
    requires i < |w|
  {
    Sum(w[..i + 1])
  }

  /** Key `i` is the one chosen for `target`: the first whose running prefix
      sum, its own weight included, is at least the target. */
  ghost predicate Reaches<K>(w: Weights<K>, target: int, i: nat)
  {
    i < |w| && target <= Through(w, i) &&
    forall j :: 0 <= j < i ==> Through(w, j) < target
  }

  /** The loop of `select_state`/`select_candidate`. When no key is reached
      the Ruby loop falls through and `each` returns the table; that case is
      `None` here. */
  method SelectWeighted<K>(weighted: Weights<K>, target: int) returns (r: Option<K>)
    ensures r.Some? <==> (|weighted| > 0 && target <= Sum(weighted))
    ensures r.Some? ==> exists i: nat :: Reaches(weighted, target, i) && r.value == weighted[i].0
  {
    var t := target;
    var i := 0;
    while i < |weighted|
      invariant 0 <= i <= |weighted|
      invariant t == target - Sum(weighted[..i])
      invariant forall j :: 0 <= j < i ==> Through(weighted, j) < target
    {
      PrefixStep(weighted, i);
      if t <= weighted[i].1 {
        PrefixMonotone(weighted, i + 1, |weighted|);
        assert weighted[..|weighted|] == weighted;
        assert Reaches(weighted, target, i);
        return Some(weighted[i].0);
      }
      t := t - weighted[i].1;
      i := i + 1;
    }
    assert weighted[..|weighted|] == weighted;
    if |weighted| > 0 {
      assert Through(weighted, |weighted| - 1) < target;
      assert weighted[..|weighted| - 1 + 1] == weighted;
    }
    return None;
  }

  // ----- Which key is chosen -----

  /** The chosen key is unique. */
  lemma ReachesUnique<K>(w: Weights<K>, target: int, i: nat, j: nat)
    requires Reaches(w, target, i) && Reaches(w, target, j)
    ensures i == j
  {
  }

  /** The interval of targets of a key: key `i` is chosen exactly for the
      targets above the prefix sum of the keys before it and at most the prefix
      sum including it (for the first key, every target up to its weight). */
  lemma ReachesInterval<K>(w: Weights<K>, target: int, i: nat)
    requires i < |w|
    ensures Reaches(w, target, i) <==>
      ((i == 0 || Sum(w[..i]) < target) && target <= Sum(w[..i + 1]))
  {
    if (i == 0 || Sum(w[..i]) < target) && target <= Sum(w[..i + 1]) {
      forall j | 0 <= j < i
        ensures Through(w, j) < target
      {
        PrefixMonotone(w, j + 1, i);
      }
    }
    if Reaches(w, target, i) && i > 0 {
      assert Through(w, i - 1) < target;
    }
  }

  /** Every target up to the sum chooses a key; in particular every target
      in `[0, sum)`, the range `rand(sum)` draws from. */
  lemma {:induction false} TargetInRangeReaches<K>(w: Weights<K>, target: int)
    requires |w| > 0 && target <= Sum(w)
    ensures exists i: nat :: Reaches(w, target, i)
    decreases |w|
  {
    var n := |w| - 1;
    assert w[..n + 1] == w;
    if n == 0 || Sum(w[..n]) < target {
      ReachesInterval(w, target, n);
    } else {
      assert w[..n][..|w[..n]|] == w[..n];
      TargetInRangeReaches(w[..n], target);
      var i: nat :| Reaches(w[..n], target, i);
      forall j | 0 <= j <= i
        ensures Through(w[..n], j) == Through(w, j)
      {
        assert w[..n][..j + 1] == w[..j + 1];
      }
      assert Reaches(w, target, i);
    }
  }

  /** The `<=` test puts each boundary target with the earlier key: target 0
      always chooses the first key, and with two keys of weight 1 the target
      1 chooses the first, so over `rand(2)` the second key is never
      chosen. */
  lemma BoundaryGoesToEarlierKey<K>(a: K, b: K, target: nat)
    requires target < 2
    ensures Reaches([(a, 1), (b, 1)], target, 0)
    ensures !Reaches([(a, 1), (b, 1)], target, 1)
  {
    var w: Weights<K> := [(a, 1), (b, 1)];
    assert w[..1][..0] == [];
  }

  lemma ZeroTargetChoosesFirst<K>(w: Weights<K>)
    requires |w| > 0
    ensures Reaches(w, 0, 0)
  {
  }
}
