/** The non-legacy label filters: each computes a keep-vector over labels
    1..max and renumbers through `remap[1:] = cumsum(wh) * wh`. */
module Filters {
  import opened LabelArrays
  import opened Extents
  import opened Masks
  import opened Remap

  /** The `masks` argument of the multi-mask filters. Only a Python `list` is
      accepted (`type(masks) is not type(list())` rejects tuples, arrays and
      every other container); the other case carries the same masks. */
  datatype MaskCollection = MaskList(masks: seq<seq<bool>>) | NotAList(masks: seq<seq<bool>>)

  // ---------------------------------------------------------------------
  // Keep-vectors
  // ---------------------------------------------------------------------

  /** `np.array([o[0].stop - o[0].start for o in find_objects(labels)]) >= min_length`. */
  function LengthKeep(labels: seq<nat>, shape: Shape, minLength: int): (wh: seq<bool>)
    requires |labels| > 0 && GapFree(labels)
    ensures |wh| == MaxLabel(labels)
    ensures forall i :: 0 <= i < |wh| ==> (wh[i] <==> ObjectLength(labels, shape, i + 1) >= minLength)
  {
    var lengths := FindObjectLengths(labels, shape);
    seq(|lengths|, i requires 0 <= i < |lengths| => lengths[i] >= minLength)
  }

  /** Conjunction of two keep-vectors, `np.logical_and`. */
  function And(a: seq<bool>, b: seq<bool>): (c: seq<bool>)
    requires |a| == |b|
    ensures |c| == |a| && forall i :: 0 <= i < |a| ==> (c[i] <==> a[i] && b[i])
  {
    seq(|a|, i requires 0 <= i < |a| => a[i] && b[i])
  }

  // ---------------------------------------------------------------------
  // The filters
  // ---------------------------------------------------------------------

  /** `filter_labels_by_length`. The shape is the array's own. */
  function FilterByLength(labels: seq<nat>, shape: Shape, minLength: int): (r: seq<nat>)
    requires |labels| > 0 && GapFree(labels) && |labels| == shape.Size()
    ensures |r| == |labels|
    ensures forall p :: 0 <= p < |labels| ==> r[p] == NewLabel(LengthKeep(labels, shape, minLength), labels[p])
  {
    ApplyKeep(labels, LengthKeep(labels, shape, minLength))
  }

  /** `filter_labels_by_mask`. Every label must be present: the comprehension's
      default `None` for an absent label would put NaN into the table. On an
      array without objects the comprehension's index is empty and it raises. */
  function FilterByMask(labels: seq<nat>, mask: seq<bool>): (r: Result<seq<nat>>)
    requires |labels| > 0 && GapFree(labels) && |mask| == |labels|
    ensures r.Err? <==> MaxLabel(labels) == 0
    ensures r.Err? ==> r.error == NoObjects
    ensures r.Ok? ==> |r.value| == |labels|
    ensures r.Ok? ==> forall p :: 0 <= p < |labels| ==> r.value[p] == NewLabel(AnyOverlapFlags(labels, mask), labels[p])
  {
    if MaxLabel(labels) == 0 then Err(NoObjects)
    else Ok(ApplyKeep(labels, AnyOverlapFlags(labels, mask)))
  }

  /** `filter_labels_by_length_and_mask`: `find_objects` copes with an array
      without objects, the comprehension after it does not. */
  function FilterByLengthAndMask(labels: seq<nat>, shape: Shape, mask: seq<bool>, minLength: int)
    : (r: Result<seq<nat>>)
    requires |labels| > 0 && GapFree(labels) && |labels| == shape.Size() && |mask| == |labels|
    ensures r.Err? <==> MaxLabel(labels) == 0
    ensures r.Err? ==> r.error == NoObjects
    ensures r.Ok? ==> |r.value| == |labels|
    ensures r.Ok? ==> forall p :: 0 <= p < |labels| ==>
              r.value[p] == NewLabel(And(LengthKeep(labels, shape, minLength), AnyOverlapFlags(labels, mask)), labels[p])
  {
    if MaxLabel(labels) == 0 then Err(NoObjects)
    else Ok(ApplyKeep(labels, And(LengthKeep(labels, shape, minLength), AnyOverlapFlags(labels, mask))))
  }

  /** The table `[0] + cumsum(True) * True`: the reduction of an empty list of
      masks is the scalar `True`, and its single cumulative sum 1 is broadcast
      over `remap[1:]`. */
  function MergeTable(maxLabel: nat): (table: seq<nat>)
    ensures |table| == maxLabel + 1 && table[0] == 0
    ensures forall l :: 1 <= l <= maxLabel ==> table[l] == 1
  {
    [0] + seq(maxLabel, _ => 1)
  }

  /** `remap[labels]` with the merging table: every object becomes object 1. */
  function MergeObjects(labels: seq<nat>): (r: seq<nat>)
    ensures |r| == |labels|
    ensures forall p :: 0 <= p < |labels| ==> (r[p] == 0 <==> labels[p] == 0) && r[p] <= 1
  {
    var table := MergeTable(MaxLabel(labels));
    seq(|labels|, p requires 0 <= p < |labels| => table[labels[p]])
  }

  /** `filter_labels_by_multimask`. Anything but a list is refused first, so
      that case demands nothing of the array. Absent labels are simply not
      kept (the comprehension's default is 0), so gaps are allowed. With at
      least one mask, an array without objects makes the comprehension raise;
      an empty list runs no comprehension and merges all objects into one. */
  function FilterByMultimask(labels: seq<nat>, ms: MaskCollection): (r: Result<seq<nat>>)
    requires ms.MaskList? ==> |labels| > 0 && MasksFit(labels, ms.masks)
    ensures r.Err? <==> ms.NotAList? || (|ms.masks| > 0 && MaxLabel(labels) == 0)
    ensures ms.NotAList? ==> r.error == MasksNotList
    ensures ms.MaskList? && r.Err? ==> r.error == NoObjects
    ensures r.Ok? ==> |r.value| == |labels|
    ensures r.Ok? && |ms.masks| > 0 ==> forall p :: 0 <= p < |labels| ==>
              r.value[p] == NewLabel(AllMasksFlags(labels, ms.masks), labels[p])
    ensures r.Ok? && |ms.masks| == 0 ==> forall p :: 0 <= p < |labels| ==>
              r.value[p] == if labels[p] == 0 then 0 else 1
  {
    if ms.NotAList? then Err(MasksNotList)
    else if |ms.masks| == 0 then Ok(MergeObjects(labels))
    else if MaxLabel(labels) == 0 then Err(NoObjects)
    else Ok(ApplyKeep(labels, AllMasksFlags(labels, ms.masks)))
  }

  /** `filter_labels_by_length_and_multimask`. The list check comes first; an
      empty list leaves `np.logical_and(lengths >= min_length, True)`, the
      length test alone. */
  function FilterByLengthAndMultimask(labels: seq<nat>, shape: Shape, ms: MaskCollection, minLength: int)
    : (r: Result<seq<nat>>)
    requires ms.MaskList? ==> |labels| > 0 && GapFree(labels) && |labels| == shape.Size() && MasksFit(labels, ms.masks)
    ensures r.Err? <==> ms.NotAList? || (|ms.masks| > 0 && MaxLabel(labels) == 0)
    ensures ms.NotAList? ==> r.error == MasksNotList
    ensures ms.MaskList? && r.Err? ==> r.error == NoObjects
    ensures r.Ok? ==> |r.value| == |labels|
    ensures r.Ok? && |ms.masks| > 0 ==> forall p :: 0 <= p < |labels| ==>
              r.value[p] == NewLabel(And(LengthKeep(labels, shape, minLength), AllMasksFlags(labels, ms.masks)), labels[p])
    ensures r.Ok? && |ms.masks| == 0 ==> r.value == FilterByLength(labels, shape, minLength)
  {
    if ms.NotAList? then Err(MasksNotList)
    else if |ms.masks| == 0 then Ok(ApplyKeep(labels, LengthKeep(labels, shape, minLength)))
    else if MaxLabel(labels) == 0 then Err(NoObjects)
    else Ok(ApplyKeep(labels, And(LengthKeep(labels, shape, minLength), AllMasksFlags(labels, ms.masks))))
  }
}
