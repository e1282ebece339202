/** Grouped reduction over a label partition: `apply_func_to_labels` and
    `apply_weighted_func_to_labels`. The flattened positions are sorted by
    label (`np.argsort`), `np.cumsum(np.bincount(...))` gives the boundaries
    of each label's run in that order, and a reducer is applied per run.

    numpy's default argsort is not stable, so the order of the positions
    inside one run is not determined. The model takes the sort's result as
    a parameter `args`, constrained only by what argsort guarantees
    (`IsArgSort`), and reducers receive the multiset of a run's values. */
module Grouping {
  import opened LabelArrays

  function Range(n: nat): (r: seq<nat>)
    ensures |r| == n && forall i :: 0 <= i < n ==> r[i] == i
  {
    seq(n, i => i)
  }

  predicate Sorted(s: seq<nat>)
  {
    forall i, j :: 0 <= i < j < |s| ==> s[i] <= s[j]
  }

  /** What `np.argsort(labels.ravel())` returns: a permutation of the
      positions that lists them in nondecreasing label order. */
  ghost predicate IsArgSort(labels: seq<nat>, args: seq<nat>)
  {
    && |args| == |labels|
    && InRange(args, |labels|)
    && multiset(args) == multiset(Range(|labels|))
    && Sorted(Gather(labels, args))
  }

  /** Every label array has an argsort, so the requirement can always be met. */
  lemma ArgSortExists(labels: seq<nat>) returns (args: seq<nat>)
    ensures IsArgSort(labels, args)
  {
    args := ArgSortPrefix(labels, |labels|);
  }

  /** An ordering of the first `n` positions by label, built by insertion. */
  lemma {:induction false} ArgSortPrefix(labels: seq<nat>, n: nat) returns (args: seq<nat>)
    requires n <= |labels|
    ensures |args| == n && InRange(args, |labels|)
    ensures multiset(args) == multiset(Range(n))
    ensures Sorted(Gather(labels, args))
  {
    if n == 0 {
      args := [];
    } else {
      var prev := ArgSortPrefix(labels, n - 1);
      args := InsertByLabel(labels, prev, n - 1);
      assert Range(n) == Range(n - 1) + [n - 1];
    }
  }

  /** Puts position `p` after every position whose label is not larger. */
  lemma InsertByLabel(labels: seq<nat>, s: seq<nat>, p: nat) returns (t: seq<nat>)
    requires InRange(s, |labels|) && p < |labels|
    requires Sorted(Gather(labels, s))
    ensures |t| == |s| + 1 && InRange(t, |labels|)
    ensures multiset(t) == multiset(s) + multiset{p}
    ensures Sorted(Gather(labels, t))
  {
    var i := 0;
    while i < |s| && labels[s[i]] <= labels[p]
      invariant i <= |s|
      invariant forall k :: 0 <= k < i ==> labels[s[k]] <= labels[p]
    {
      i := i + 1;
    }
    t := s[..i] + [p] + s[i..];
    assert s == s[..i] + s[i..];
    InsertedSorted(labels, s, p, i);
  }

  lemma InsertedSorted(labels: seq<nat>, s: seq<nat>, p: nat, i: nat)
    requires InRange(s, |labels|) && p < |labels| && i <= |s|
    requires Sorted(Gather(labels, s))
    requires forall k :: 0 <= k < i ==> labels[s[k]] <= labels[p]
    requires i < |s| ==> labels[s[i]] > labels[p]
    ensures InRange(s[..i] + [p] + s[i..], |labels|)
    ensures Sorted(Gather(labels, s[..i] + [p] + s[i..]))
  {
    var t := s[..i] + [p] + s[i..];
    var g, h := Gather(labels, s), Gather(labels, t);
    forall k | 0 <= k < |t|
      ensures h[k] == if k < i then g[k] else if k == i then labels[p] else g[k - 1]
    {
    }
    forall a, b | 0 <= a < b < |h| ensures h[a] <= h[b] {
      if b > i && a <= i {
        assert a < i ==> g[a] <= g[i];
      }
    }
  }

  /** `np.bincount(labels.ravel())`: how often each value 0..max occurs; an
      empty array gives an empty count. */
  function BinCount(labels: seq<nat>): (counts: seq<nat>)
    ensures |counts| == if |labels| == 0 then 0 else MaxLabel(labels) + 1
    ensures forall v :: 0 <= v < |counts| ==> counts[v] == multiset(labels)[v]
  {
    if |labels| == 0 then [] else seq(MaxLabel(labels) + 1, v => multiset(labels)[v])
  }

  /** `bins = np.cumsum(np.bincount(labels.ravel()))`. */
  function Bins(labels: seq<nat>): (bins: seq<nat>)
    ensures |bins| == if |labels| == 0 then 0 else MaxLabel(labels) + 1
  {
    CumSum(BinCount(labels))
  }

  /** `range(bins.size - 1)` has this many entries. */
  function NumGroups(bins: seq<nat>): nat
  {
    if |bins| == 0 then 0 else |bins| - 1
  }

  /** Number of elements of `m` that are at most `v`. */
  function CountUpTo(m: multiset<nat>, v: nat): nat
  {
    m[v] + if v == 0 then 0 else CountUpTo(m, v - 1)
  }

  // ---------------------------------------------------------------------
  // Counting lemmas
  // ---------------------------------------------------------------------

  lemma {:induction false} CountUpToEmpty(v: nat)
    ensures CountUpTo(multiset{}, v) == 0
  {
    if v > 0 {
      CountUpToEmpty(v - 1);
    }
  }

  lemma {:induction false} CountUpToAdd(m: multiset<nat>, x: nat, v: nat)
    ensures CountUpTo(m + multiset{x}, v) == CountUpTo(m, v) + if x <= v then 1 else 0
  {
    if v > 0 {
      CountUpToAdd(m, x, v - 1);
    }
  }

  /** `cumsum` of per-value counts is the number of elements up to each value. */
  lemma {:induction false} CumSumOfCounts(xs: seq<nat>, m: multiset<nat>)
    requires forall v :: 0 <= v < |xs| ==> xs[v] == m[v]
    ensures forall i :: 0 <= i < |xs| ==> CumSum(xs)[i] == CountUpTo(m, i)
  {
    if |xs| > 0 {
      var n := |xs|;
      var init := xs[..n - 1];
      CumSumOfCounts(init, m);
      assert CumSum(xs) == CumSum(init) + [(if n == 1 then 0 else CumSum(init)[n - 2]) + xs[n - 1]];
    }
  }

  /** In a sorted sequence the elements at most `v` are exactly a prefix, and
      its length is the number of such elements. */
  lemma {:induction false} SortedSplit(ks: seq<nat>, v: nat)
    requires Sorted(ks)
    ensures CountUpTo(multiset(ks), v) <= |ks|
    ensures forall k :: 0 <= k < |ks| ==> (ks[k] <= v <==> k < CountUpTo(multiset(ks), v))
    decreases |ks|
  {
    if |ks| == 0 {
      CountUpToEmpty(v);
    } else {
      var init, x := ks[..|ks| - 1], ks[|ks| - 1];
      assert ks == init + [x];
      assert multiset(ks) == multiset(init) + multiset{x};
      assert Sorted(init) by {
        forall a, b | 0 <= a < b < |init| ensures init[a] <= init[b] {
          assert init[a] == ks[a] && init[b] == ks[b];
        }
      }
      CountUpToAdd(multiset(init), x, v);
      SortedSplit(init, v);
      if x <= v && |init| > 0 {
        assert init[|init| - 1] <= x;
      }
      forall k | 0 <= k < |ks| ensures (ks[k] <= v <==> k < CountUpTo(multiset(ks), v)) {
        if k < |init| {
          assert ks[k] == init[k];
        }
      }
    }
  }

  // ---------------------------------------------------------------------
  // Permutations and gathering
  // ---------------------------------------------------------------------

  lemma GatherConcat<T>(vals: seq<T>, a: seq<nat>, b: seq<nat>)
    requires InRange(a, |vals|) && InRange(b, |vals|)
    ensures InRange(a + b, |vals|)
    ensures Gather(vals, a + b) == Gather(vals, a) + Gather(vals, b)
  {
  }

  /** Taking out entry `j` removes one occurrence of it, and of the value it selects. */
  lemma GatherRemove<T>(vals: seq<T>, qs: seq<nat>, j: nat)
    requires InRange(qs, |vals|) && j < |qs|
    ensures InRange(qs[..j] + qs[j + 1..], |vals|)
    ensures multiset(qs) == multiset(qs[..j] + qs[j + 1..]) + multiset{qs[j]}
    ensures multiset(Gather(vals, qs)) == multiset(Gather(vals, qs[..j] + qs[j + 1..])) + multiset{vals[qs[j]]}
  {
    var a, b := qs[..j], qs[j + 1..];
    assert qs == a + [qs[j]] + b;
    GatherConcat(vals, a, [qs[j]]);
    GatherConcat(vals, a + [qs[j]], b);
    GatherConcat(vals, a, b);
    var ga, gb := Gather(vals, a), Gather(vals, b);
    assert Gather(vals, qs) == ga + [vals[qs[j]]] + gb;
    assert multiset(ga + [vals[qs[j]]] + gb) == multiset(ga + gb) + multiset{vals[qs[j]]};
  }

  lemma MultisetCancel<T>(a: multiset<T>, b: multiset<T>, x: T)
    requires a + multiset{x} == b + multiset{x}
    ensures a == b
  {
    forall y ensures a[y] == b[y] {
      assert (a + multiset{x})[y] == (b + multiset{x})[y];
    }
  }

  /** Gathering through two orderings of the same positions yields the same multiset. */
  lemma {:induction false} GatherPermutation<T>(vals: seq<T>, ps: seq<nat>, qs: seq<nat>)
    requires InRange(ps, |vals|) && InRange(qs, |vals|)
    requires multiset(ps) == multiset(qs)
    ensures multiset(Gather(vals, ps)) == multiset(Gather(vals, qs))
    decreases |ps|
  {
    if |ps| == 0 {
      assert |qs| == |multiset(qs)| == 0;
    } else {
      var x := ps[0];
      assert x in multiset(qs);
      var j :| 0 <= j < |qs| && qs[j] == x;
      var rest := qs[..j] + qs[j + 1..];
      GatherRemove(vals, qs, j);
      GatherRemove(vals, ps, 0);
      assert ps[..0] + ps[1..] == ps[1..];
      MultisetCancel(multiset(ps[1..]), multiset(rest), x);
      GatherPermutation(vals, ps[1..], rest);
    }
  }

  lemma {:induction false} RangeCount(n: nat, x: nat)
    ensures multiset(Range(n))[x] == if x < n then 1 else 0
  {
    if n > 0 {
      RangeCount(n - 1, x);
      assert Range(n) == Range(n - 1) + [n - 1];
    }
  }

  /** A strictly increasing sequence holds each value at most once. */
  lemma {:induction false} IncreasingCount(s: seq<nat>, x: nat)
    requires forall j, k :: 0 <= j < k < |s| ==> s[j] < s[k]
    ensures multiset(s)[x] == if x in s then 1 else 0
  {
    if |s| > 0 {
      IncreasingCount(s[1..], x);
      assert s == [s[0]] + s[1..];
      if x == s[0] {
        assert x !in s[1..];
      }
    }
  }

  lemma SliceCount(s: seq<nat>, a: nat, b: nat, x: nat)
    requires a <= b <= |s|
    ensures multiset(s[a..b])[x] <= multiset(s)[x]
  {
    assert s == s[..a] + s[a..b] + s[b..];
  }

  // ---------------------------------------------------------------------
  // The runs of the sorted order are the label groups
  // ---------------------------------------------------------------------

  /** Every label 1..max has a run `bins[i] .. bins[i + 1]` inside the sorted order. */
  predicate RunFits(bins: seq<nat>, n: nat, i: nat)
  {
    i + 1 < |bins| && bins[i] <= bins[i + 1] <= n
  }

  /** `args[bins[i]:bins[i + 1]]`: the sorted-order entries of label i + 1. */
  function Run(args: seq<nat>, bins: seq<nat>, i: nat): seq<nat>
    requires RunFits(bins, |args|, i)
  {
    args[bins[i]..bins[i + 1]]
  }

  /** The run of label i + 1 is exactly where that label sits in the sorted order. */
  lemma Bucket(labels: seq<nat>, args: seq<nat>, i: nat)
    requires IsArgSort(labels, args) && i < MaxLabel(labels)
    ensures RunFits(Bins(labels), |args|, i)
    ensures forall k :: 0 <= k < |args| ==> (labels[args[k]] == i + 1 <==> Bins(labels)[i] <= k < Bins(labels)[i + 1])
  {
    var n := |labels|;
    var ks := Gather(labels, args);
    assert Gather(labels, Range(n)) == labels;
    GatherPermutation(labels, args, Range(n));
    var m := multiset(labels);
    assert multiset(ks) == m;
    SortedSplit(ks, i);
    SortedSplit(ks, i + 1);
    var lo, hi := CountUpTo(m, i), CountUpTo(m, i + 1);
    assert lo <= hi <= |args|;
    CumSumOfCounts(BinCount(labels), m);
    assert Bins(labels)[i] == lo && Bins(labels)[i + 1] == hi;
    forall k | 0 <= k < |args| ensures (labels[args[k]] == i + 1 <==> lo <= k < hi) {
      assert ks[k] == labels[args[k]];
    }
  }

  /** A slice of the sorted order that holds exactly the entries of label `l`
      contains each position of `l` once and nothing else. */
  lemma RunCountAt(labels: seq<nat>, args: seq<nat>, lo: nat, hi: nat, l: nat, x: nat)
    requires IsArgSort(labels, args) && lo <= hi <= |args|
    requires forall k :: 0 <= k < |args| ==> (labels[args[k]] == l <==> lo <= k < hi)
    ensures multiset(args[lo..hi])[x] == multiset(Positions(labels, l))[x]
  {
    var run := args[lo..hi];
    var ps := Positions(labels, l);
    SliceCount(args, lo, hi, x);
    RangeCount(|labels|, x);
    IncreasingCount(ps, x);
    if x in run {
      var k :| 0 <= k < |run| && run[k] == x;
      assert args[lo + k] == x && labels[x] == l;
      assert x in ps;
    }
    if x in ps {
      assert x < |labels| && labels[x] == l;
      assert x in multiset(args);
      var k :| 0 <= k < |args| && args[k] == x;
      assert run[k - lo] == x;
    }
  }

  /** The run of label i + 1 holds exactly that label's positions, each once,
      and is empty exactly when the label is absent. */
  lemma BucketPositions(labels: seq<nat>, args: seq<nat>, i: nat)
    requires IsArgSort(labels, args) && i < MaxLabel(labels)
    ensures RunFits(Bins(labels), |args|, i)
    ensures multiset(Run(args, Bins(labels), i)) == multiset(Positions(labels, i + 1))
    ensures |Run(args, Bins(labels), i)| > 0 <==> i + 1 in labels
  {
    Bucket(labels, args, i);
    var bins := Bins(labels);
    var run: seq<nat> := Run(args, bins, i);
    var ps: seq<nat> := Positions(labels, i + 1);
    forall x: nat ensures multiset(run)[x] == multiset(ps)[x] {
      RunCountAt(labels, args, bins[i], bins[i + 1], i + 1, x);
    }
    assert multiset(run) == multiset(ps);
    assert |run| == |multiset(run)| == |multiset(ps)| == |ps|;
    if i + 1 in labels {
      var p :| 0 <= p < |labels| && labels[p] == i + 1;
      assert p in ps;
    }
  }

  // ---------------------------------------------------------------------
  // apply_func_to_labels
  // ---------------------------------------------------------------------

  /** The field values at the positions of label `l`, as a multiset. */
  function GroupValues<V(==)>(labels: seq<nat>, field: seq<V>, l: nat): multiset<V>
    requires |field| == |labels|
  {
    multiset(Gather(field, Positions(labels, l)))
  }

  lemma SliceInRange(s: seq<nat>, lo: nat, hi: nat, n: nat)
    requires InRange(s, n) && lo <= hi <= |s|
    ensures InRange(s[lo..hi], n)
  {
    assert forall k :: 0 <= k < hi - lo ==> s[lo..hi][k] == s[lo + k];
  }

  /** Gathering `vals` through the run of label i + 1 gives that label's values. */
  lemma RunValues<T>(labels: seq<nat>, args: seq<nat>, vals: seq<T>, bins: seq<nat>, i: nat)
    requires IsArgSort(labels, args) && |vals| == |labels| && bins == Bins(labels)
    requires i < MaxLabel(labels)
    ensures RunFits(bins, |args|, i)
    ensures InRange(Run(args, bins, i), |vals|)
    ensures bins[i + 1] > bins[i] <==> i + 1 in labels
    ensures multiset(Gather(vals, Run(args, bins, i))) == multiset(Gather(vals, Positions(labels, i + 1)))
  {
    BucketPositions(labels, args, i);
    var run := Run(args, bins, i);
    SliceInRange(args, bins[i], bins[i + 1], |vals|);
    GatherPermutation(vals, run, Positions(labels, i + 1));
  }

  /** The reducer's entry for label i + 1: `func` of the gathered run, or
      `None` when the run is empty. */
  function RunResult<T(==), R>(vals: seq<T>, func: multiset<T> -> R, args: seq<nat>, bins: seq<nat>, i: nat)
    : Option<R>
    requires RunFits(bins, |args|, i) && InRange(Run(args, bins, i), |vals|)
  {
    if bins[i + 1] > bins[i] then Some(func(multiset(Gather(vals, Run(args, bins, i))))) else None
  }

  /** Each entry is `func` of the label's values, present exactly for present labels. */
  lemma AllRunResults<T, R>(labels: seq<nat>, args: seq<nat>, vals: seq<T>, func: multiset<T> -> R, bins: seq<nat>)
    requires IsArgSort(labels, args) && |vals| == |labels| && bins == Bins(labels)
    ensures NumGroups(bins) == MaxLabel(labels)
    ensures forall i :: 0 <= i < MaxLabel(labels) ==> RunFits(bins, |args|, i) && InRange(Run(args, bins, i), |vals|)
    ensures forall i :: 0 <= i < MaxLabel(labels) ==>
              RunResult(vals, func, args, bins, i)
                == if i + 1 in labels then Some(func(multiset(Gather(vals, Positions(labels, i + 1))))) else None
  {
    forall i | 0 <= i < MaxLabel(labels)
      ensures RunFits(bins, |args|, i) && InRange(Run(args, bins, i), |vals|)
      ensures RunResult(vals, func, args, bins, i)
                == if i + 1 in labels then Some(func(multiset(Gather(vals, Positions(labels, i + 1))))) else None
    {
      RunValues(labels, args, vals, bins, i);
    }
  }

  /** The loop both reducers share,
      `[func(vals[args[bins[i]:bins[i + 1]]]) if bins[i + 1] > bins[i] else None for i in range(bins.size - 1)]`. */
  function ReduceRuns<T(==), R>(labels: seq<nat>, vals: seq<T>, func: multiset<T> -> R, args: seq<nat>)
    : (out: seq<Option<R>>)
    requires IsArgSort(labels, args) && |vals| == |labels|
    ensures |out| == MaxLabel(labels)
    ensures forall i :: 0 <= i < |out| ==>
              out[i] == if i + 1 in labels then Some(func(multiset(Gather(vals, Positions(labels, i + 1))))) else None
  {
    var bins := Bins(labels);
    AllRunResults(labels, args, vals, func, bins);
    seq(NumGroups(bins), i requires 0 <= i < NumGroups(bins) => RunResult(vals, func, args, bins, i))
  }

  /** `apply_func_to_labels(labels, field, func)`: one entry per label 1..max,
      `func` of that label's field values, or `None` for an absent label. The
      shape check comes first. */
  function ApplyFuncToLabels<V(==), R>(labels: seq<nat>, labelShape: Shape, field: seq<V>, fieldShape: Shape,
                                      func: multiset<V> -> R, args: seq<nat>): (r: Result<seq<Option<R>>>)
    requires |labels| == labelShape.Size() && |field| == fieldShape.Size()
    requires IsArgSort(labels, args)
    ensures r.Err? <==> labelShape != fieldShape
    ensures r.Err? ==> r.error == ShapeMismatch
    ensures r.Ok? ==> |r.value| == MaxLabel(labels)
    ensures r.Ok? ==> forall i :: 0 <= i < |r.value| ==>
              r.value[i] == if i + 1 in labels then Some(func(GroupValues(labels, field, i + 1))) else None
  {
    if labelShape != fieldShape then Err(ShapeMismatch)
    else Ok(ReduceRuns(labels, field, func, args))
  }

  /** With `len` as the reducer the result is the histogram `np.bincount` gives. */
  lemma CountReducerIsHistogram<V>(labels: seq<nat>, shape: Shape, field: seq<V>, args: seq<nat>)
    requires |labels| == shape.Size() && |field| == shape.Size()
    requires IsArgSort(labels, args)
    ensures var r := ApplyFuncToLabels(labels, shape, field, shape, (m: multiset<V>) => |m|, args);
      r.Ok? && |r.value| == MaxLabel(labels) &&
      forall i :: 0 <= i < |r.value| ==>
        r.value[i] == if multiset(labels)[i + 1] > 0 then Some(multiset(labels)[i + 1]) else None
  {
    forall l: nat ensures |Positions(labels, l)| == multiset(labels)[l] {
      PositionsCount(labels, l);
    }
  }

  lemma {:induction false} PositionsCount(s: seq<nat>, l: nat)
    ensures |Positions(s, l)| == multiset(s)[l]
  {
    if |s| > 0 {
      PositionsCount(s[..|s| - 1], l);
      assert s == s[..|s| - 1] + [s[|s| - 1]];
    }
  }

  // ---------------------------------------------------------------------
  // apply_weighted_func_to_labels
  // ---------------------------------------------------------------------

  /** Values and weights aligned position by position. */
  function Zip<V, W>(field: seq<V>, weights: seq<W>): (z: seq<(V, W)>)
    requires |weights| >= |field|
    ensures |z| == |field| && forall k :: 0 <= k < |field| ==> z[k] == (field[k], weights[k])
  {
    seq(|field|, k requires 0 <= k < |field| => (field[k], weights[k]))
  }

  /** The (value, weight) pairs at the positions of label `l`. */
  function GroupPairs<V(==), W(==)>(labels: seq<nat>, field: seq<V>, weights: seq<W>, l: nat): multiset<(V, W)>
    requires |field| == |labels| && |weights| >= |field|
  {
    multiset(Gather(Zip(field, weights), Positions(labels, l)))
  }

  /** `apply_weighted_func_to_labels(labels, field, weights, func)`: as above,
      with the reducer seeing each value beside its weight. Only the field's
      shape is checked; the weights are read through the same positions, so
      any weights array with at least as many elements is accepted. */
  function ApplyWeightedFuncToLabels<V(==), W(==), R>(labels: seq<nat>, labelShape: Shape, field: seq<V>,
                                                     fieldShape: Shape, weights: seq<W>,
                                                     func: multiset<(V, W)> -> R, args: seq<nat>)
    : (r: Result<seq<Option<R>>>)
    requires |labels| == labelShape.Size() && |field| == fieldShape.Size()
    requires labelShape == fieldShape ==> |weights| >= |labels|
    requires IsArgSort(labels, args)
    ensures r.Err? <==> labelShape != fieldShape
    ensures r.Err? ==> r.error == ShapeMismatch
    ensures r.Ok? ==> |r.value| == MaxLabel(labels)
    ensures r.Ok? ==> forall i :: 0 <= i < |r.value| ==>
              r.value[i] == if i + 1 in labels then Some(func(GroupPairs(labels, field, weights, i + 1))) else None
  {
    if labelShape != fieldShape then Err(ShapeMismatch)
    else Ok(ReduceRuns(labels, Zip(field, weights), func, args))
  }
}
