/** Extent of each object along the leading (time) axis, as
    `ndi.find_objects` and `find_object_lengths` give it. */
module Extents {
  import opened LabelArrays

  /** First position holding `l`. */
  function FirstIndex(s: seq<nat>, l: nat): (i: nat)
    requires l in s
    ensures i < |s| && s[i] == l
    ensures forall j :: 0 <= j < i ==> s[j] != l
  {
    if s[0] == l then 0 else 1 + FirstIndex(s[1..], l)
  }

  /** Last position holding `l`. */
  function LastIndex(s: seq<nat>, l: nat): (i: nat)
    requires l in s
    ensures i < |s| && s[i] == l
    ensures forall j :: i < j < |s| ==> s[j] != l
  {
    if s[|s| - 1] == l then |s| - 1 else LastIndex(s[..|s| - 1], l)
  }

  /** The half-open range [start, stop) of one slice object on axis 0. */
  datatype Slice = Slice(start: nat, stop: nat)

  /** Axis-0 part of the bounding box `find_objects` returns for a present
      label: from the time index of its first position to one past that of
      its last position. */
  function BoundingSlice(labels: seq<nat>, shape: Shape, l: nat): (sl: Slice)
    requires l in labels
    ensures sl.start <= sl.stop
  {
    var first, last := FirstIndex(labels, l), LastIndex(labels, l);
    TimeIndexMonotone(shape);
    Slice(TimeIndex(shape, first), TimeIndex(shape, last) + 1)
  }

  /** The slice is the smallest range of time indices covering every position of
      `l`: each position lies inside it, and both of its ends are reached. */
  lemma BoundingSliceTight(labels: seq<nat>, shape: Shape, l: nat)
    requires l in labels
    ensures var sl := BoundingSlice(labels, shape, l);
      && sl.start < sl.stop
      && (forall p :: 0 <= p < |labels| && labels[p] == l ==> sl.start <= TimeIndex(shape, p) < sl.stop)
      && (exists p :: 0 <= p < |labels| && labels[p] == l && TimeIndex(shape, p) == sl.start)
      && (exists p :: 0 <= p < |labels| && labels[p] == l && TimeIndex(shape, p) == sl.stop - 1)
  {
    TimeIndexMonotone(shape);
    var first, last := FirstIndex(labels, l), LastIndex(labels, l);
    assert first <= last;
  }

  /** `o[0].stop - o[0].start`: the number of time steps an object spans. */
  function ObjectLength(labels: seq<nat>, shape: Shape, l: nat): (n: nat)
    requires l in labels
  {
    var sl := BoundingSlice(labels, shape, l);
    sl.stop - sl.start
  }

  /** The length is one more than the largest time difference between two
      positions of the object; in particular it is at least 1. */
  lemma ObjectLengthSpread(labels: seq<nat>, shape: Shape, l: nat)
    requires l in labels
    ensures ObjectLength(labels, shape, l) >= 1
    ensures forall p, q :: 0 <= p < |labels| && 0 <= q < |labels| && labels[p] == l && labels[q] == l ==>
              TimeIndex(shape, q) - TimeIndex(shape, p) < ObjectLength(labels, shape, l)
    ensures exists p, q :: 0 <= p < |labels| && 0 <= q < |labels| && labels[p] == l && labels[q] == l &&
              TimeIndex(shape, q) - TimeIndex(shape, p) == ObjectLength(labels, shape, l) - 1
  {
    BoundingSliceTight(labels, shape, l);
  }

  /** `find_object_lengths`: one length per label 1..max. Every label must be
      present, since `find_objects` yields `None` for an absent one and `o[0]`
      then fails, and the array must not be empty, since `find_objects` takes
      the maximum of its input. */
  function FindObjectLengths(labels: seq<nat>, shape: Shape): (lengths: seq<nat>)
    requires |labels| > 0 && GapFree(labels)
    ensures |lengths| == MaxLabel(labels)
    ensures forall i :: 0 <= i < |lengths| ==> lengths[i] == ObjectLength(labels, shape, i + 1)
  {
    seq(MaxLabel(labels), i requires 0 <= i < MaxLabel(labels) => ObjectLength(labels, shape, i + 1))
  }

  /** Every length lies between 1 and the number of time steps. */
  lemma ObjectLengthBounds(labels: seq<nat>, shape: Shape)
    requires |labels| > 0 && GapFree(labels) && |labels| == shape.Size()
    ensures forall i :: 0 <= i < MaxLabel(labels) ==>
              1 <= FindObjectLengths(labels, shape)[i] <= shape.t
  {
    var lengths := FindObjectLengths(labels, shape);
    forall i | 0 <= i < MaxLabel(labels) ensures 1 <= lengths[i] <= shape.t {
      var sl := BoundingSlice(labels, shape, i + 1);
      BoundingSliceTight(labels, shape, i + 1);
      var p :| 0 <= p < |labels| && labels[p] == i + 1 && TimeIndex(shape, p) == sl.stop - 1;
      TimeIndexBound(shape, p);
    }
  }

  /** The length of a label depends only on where it occurs: two labels with the
      same footprint, in two arrays of the same length, have the same length. */
  lemma ObjectLengthFootprint(a: seq<nat>, x: nat, b: seq<nat>, y: nat, shape: Shape)
    requires |a| == |b| && x in a
    requires forall p :: 0 <= p < |a| ==> (a[p] == x <==> b[p] == y)
    ensures y in b
    ensures ObjectLength(a, shape, x) == ObjectLength(b, shape, y)
  {
    var i := FirstIndex(a, x);
    assert b[i] == y;
    var fa, fb := FirstIndex(a, x), FirstIndex(b, y);
    var la, lb := LastIndex(a, x), LastIndex(b, y);
    assert a[fb] == x && b[fa] == y;
    assert a[lb] == x && b[la] == y;
  }
}
