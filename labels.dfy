/** Label arrays of the tobac-flow analysis engine.

    A label array has shape (time, row, column) and is held here flattened in
    C order, as `labels.ravel()` gives it: 0 is background and every positive
    value is the identity of one object. Masks are boolean arrays of the same
    length. This module holds the vocabulary the other modules share. */
module LabelArrays {

  /** The exceptions the core raises, all `ValueError` in the source:
      field and labels of different shapes, a `masks` argument that is not a
      list, and a labeled comprehension over the empty index `range(1, 1)` of
      an array without objects (its `index.min()` has nothing to reduce). */
  datatype Error = ShapeMismatch | MasksNotList | NoObjects

  datatype Option<T> = None | Some(value: T)

  datatype Result<T> = Ok(value: T) | Err(error: Error)

  /** Shape of a (time, row, column) array. */
  datatype Shape = Shape(t: nat, r: nat, c: nat) {
    function Size(): nat { t * r * c }
    function Plane(): nat { r * c }
  }

  /** Index along the leading (time) axis of flat position `p`. */
  function TimeIndex(shape: Shape, p: nat): nat
  {
    if shape.Plane() == 0 then 0 else p / shape.Plane()
  }

  lemma TimeIndexMonotone(shape: Shape)
    ensures forall p: nat, q: nat :: p <= q ==> TimeIndex(shape, p) <= TimeIndex(shape, q)
  {
    forall p: nat, q: nat | p <= q ensures TimeIndex(shape, p) <= TimeIndex(shape, q) {
      if shape.Plane() != 0 {
        DivMonotone(p, q, shape.Plane());
      }
    }
  }

  lemma DivMonotone(p: nat, q: nat, d: nat)
    requires p <= q && d > 0
    ensures p / d <= q / d
  {
    var a, b := p / d, q / d;
    assert a * d <= p;
    assert q < (b + 1) * d;
    assert a * d < (b + 1) * d;
  }

  /** Every position of an array of shape `shape` lies in one of its `t` time slices. */
  lemma TimeIndexBound(shape: Shape, p: nat)
    requires p < shape.Size()
    ensures TimeIndex(shape, p) < shape.t
  {
    assert shape.Size() == shape.t * shape.Plane();
  }

  /** `labels.max()`; 0 for an empty array, which has no objects. */
  function MaxLabel(s: seq<nat>): (m: nat)
    ensures forall i :: 0 <= i < |s| ==> s[i] <= m
    ensures |s| > 0 ==> m in s
    ensures |s| == 0 ==> m == 0
  {
    if |s| == 0 then 0
    else
      var m := MaxLabel(s[1..]);
      if s[0] >= m then s[0] else m
  }

  /** Every label 1..max occurs: what `find_objects` needs so that no entry is `None`. */
  predicate GapFree(s: seq<nat>)
  {
    forall l :: 1 <= l <= MaxLabel(s) ==> l in s
  }

  /** The distinct object labels of an array (background excluded). */
  function ObjectLabels(s: seq<nat>): set<nat>
  {
    set p | 0 <= p < |s| && s[p] != 0 :: s[p]
  }

  /** Number of true entries. */
  function CountTrue(bs: seq<bool>): (n: nat)
    ensures n <= |bs|
  {
    if |bs| == 0 then 0
    else CountTrue(bs[..|bs| - 1]) + (if bs[|bs| - 1] then 1 else 0)
  }

  /** A boolean vector as 0/1 integers, as numpy promotes it in arithmetic. */
  function AsInts(bs: seq<bool>): (xs: seq<nat>)
    ensures |xs| == |bs|
    ensures forall i :: 0 <= i < |bs| ==> xs[i] == if bs[i] then 1 else 0
  {
    seq(|bs|, i requires 0 <= i < |bs| => if bs[i] then 1 else 0)
  }

  /** `np.cumsum`: running totals, computed front to back. */
  function CumSum(xs: seq<nat>): (cs: seq<nat>)
    ensures |cs| == |xs|
  {
    if |xs| == 0 then []
    else
      var cs := CumSum(xs[..|xs| - 1]);
      cs + [(if |cs| == 0 then 0 else cs[|cs| - 1]) + xs[|xs| - 1]]
  }

  /** The positions holding label `l`, in increasing order. */
  function Positions(s: seq<nat>, l: nat): (ps: seq<nat>)
    ensures forall k :: 0 <= k < |ps| ==> ps[k] < |s| && s[ps[k]] == l
    ensures forall p :: 0 <= p < |s| && s[p] == l ==> p in ps
    ensures forall j, k :: 0 <= j < k < |ps| ==> ps[j] < ps[k]
  {
    if |s| == 0 then []
    else
      var ps := Positions(s[..|s| - 1], l);
      if s[|s| - 1] == l then ps + [|s| - 1] else ps
  }

  predicate InRange(ps: seq<nat>, n: nat)
  {
    forall k :: 0 <= k < |ps| ==> ps[k] < n
  }

  /** Fancy indexing `vals[ps]`. */
  function Gather<T>(vals: seq<T>, ps: seq<nat>): (r: seq<T>)
    requires InRange(ps, |vals|)
    ensures |r| == |ps|
    ensures forall k :: 0 <= k < |ps| ==> r[k] == vals[ps[k]]
  {
    seq(|ps|, k requires 0 <= k < |ps| => vals[ps[k]])
  }

  /** `np.any`. */
  function AnyTrue(bs: seq<bool>): bool
  {
    true in bs
  }

  /** Label `l` has at least one position where `mask` is true. */
  ghost predicate Overlaps(labels: seq<nat>, mask: seq<bool>, l: nat)
    requires |mask| == |labels|
  {
    exists p :: 0 <= p < |labels| && labels[p] == l && mask[p]
  }
}
