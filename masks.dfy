/** Per-label "any overlap with a mask" flags: `mask_labels`, the
    `labeled_comprehension(mask, labels, range(1, max + 1), np.any, ...)`
    call of the filters, and `np.logical_and.reduce` over several masks. */
module Masks {
  import opened LabelArrays

  /** `np.unique(labels[wh])`: the labels found at the true positions of the mask. */
  function MaskedLabelSet(labels: seq<nat>, mask: seq<bool>): (hit: set<nat>)
    requires |mask| == |labels|
    ensures forall l :: l in hit <==> Overlaps(labels, mask, l)
  {
    set p | 0 <= p < |labels| && mask[p] :: labels[p]
  }

  /** `mask_labels`: a flag for every label value 0..max is set where a masked
      label occurs, and the entry of label 0 is dropped. `labels.max()` raises
      on an empty array. */
  function MaskLabels(labels: seq<nat>, mask: seq<bool>): (flags: seq<bool>)
    requires |labels| > 0 && |mask| == |labels|
    ensures |flags| == MaxLabel(labels)
    ensures forall i :: 0 <= i < |flags| ==> (flags[i] <==> Overlaps(labels, mask, i + 1))
  {
    var hit := MaskedLabelSet(labels, mask);
    var output := seq(MaxLabel(labels) + 1, v => v in hit);
    output[1..]
  }

  /** `np.any` applied to the mask values of one label, in position order;
      false for a label that does not occur (the comprehension's default 0). */
  function LabelAny(labels: seq<nat>, mask: seq<bool>, l: nat): (b: bool)
    requires |mask| == |labels|
    ensures b <==> Overlaps(labels, mask, l)
  {
    GatherAnyIsOverlap(labels, mask, l);
    AnyTrue(Gather(mask, Positions(labels, l)))
  }

  lemma GatherAnyIsOverlap(labels: seq<nat>, mask: seq<bool>, l: nat)
    requires |mask| == |labels|
    ensures AnyTrue(Gather(mask, Positions(labels, l))) <==> Overlaps(labels, mask, l)
  {
    var ps := Positions(labels, l);
    var vals := Gather(mask, ps);
    if AnyTrue(vals) {
      var k :| 0 <= k < |vals| && vals[k];
      assert labels[ps[k]] == l && mask[ps[k]];
    }
    if Overlaps(labels, mask, l) {
      var p :| 0 <= p < |labels| && labels[p] == l && mask[p];
      var k :| 0 <= k < |ps| && ps[k] == p;
      assert vals[k];
    }
  }

  /** The labeled comprehension over labels 1..max with `np.any`. */
  function AnyOverlapFlags(labels: seq<nat>, mask: seq<bool>): (flags: seq<bool>)
    requires |mask| == |labels|
    ensures |flags| == MaxLabel(labels)
    ensures forall i :: 0 <= i < |flags| ==> (flags[i] <==> Overlaps(labels, mask, i + 1))
  {
    seq(MaxLabel(labels), i requires 0 <= i < MaxLabel(labels) => LabelAny(labels, mask, i + 1))
  }

  /** `np.logical_and.reduce` over a non-empty list of flag vectors of length `n`. */
  function AndReduce(rows: seq<seq<bool>>, n: nat): (r: seq<bool>)
    requires |rows| > 0
    requires forall j :: 0 <= j < |rows| ==> |rows[j]| == n
    ensures |r| == n
    ensures forall i :: 0 <= i < n ==> (r[i] <==> forall j :: 0 <= j < |rows| ==> rows[j][i])
  {
    if |rows| == 1 then rows[0]
    else
      var rest := AndReduce(rows[1..], n);
      assert forall i :: 0 <= i < n ==> (rest[i] <==> forall j :: 1 <= j < |rows| ==> rows[j][i]) by {
        forall i | 0 <= i < n ensures (rest[i] <==> forall j :: 1 <= j < |rows| ==> rows[j][i]) {
          assert forall j :: 1 <= j < |rows| ==> rows[j] == rows[1..][j - 1];
        }
      }
      seq(n, i requires 0 <= i < n => rows[0][i] && rest[i])
  }

  /** Every mask has the array's length. */
  predicate MasksFit(labels: seq<nat>, masks: seq<seq<bool>>)
  {
    forall j :: 0 <= j < |masks| ==> |masks[j]| == |labels|
  }

  /** The multi-mask keep-vector: a label is kept iff it overlaps every mask. */
  function AllMasksFlags(labels: seq<nat>, masks: seq<seq<bool>>): (flags: seq<bool>)
    requires |masks| > 0 && MasksFit(labels, masks)
    ensures |flags| == MaxLabel(labels)
    ensures forall i :: 0 <= i < |flags| ==>
              (flags[i] <==> forall j :: 0 <= j < |masks| ==> Overlaps(labels, masks[j], i + 1))
  {
    var rows := OverlapRows(labels, masks);
    var flags := AndReduce(rows, MaxLabel(labels));
    AllMasksFlagsMeaning(labels, masks, rows, flags);
    flags
  }

  lemma AllMasksFlagsMeaning(labels: seq<nat>, masks: seq<seq<bool>>, rows: seq<seq<bool>>, flags: seq<bool>)
    requires MasksFit(labels, masks) && |rows| == |masks| && |flags| == MaxLabel(labels)
    requires forall j :: 0 <= j < |rows| ==> |rows[j]| == |flags|
    requires forall j, i :: 0 <= j < |masks| && 0 <= i < |flags| ==>
               (rows[j][i] <==> Overlaps(labels, masks[j], i + 1))
    requires forall i :: 0 <= i < |flags| ==> (flags[i] <==> forall j :: 0 <= j < |rows| ==> rows[j][i])
    ensures forall i :: 0 <= i < |flags| ==>
              (flags[i] <==> forall j :: 0 <= j < |masks| ==> Overlaps(labels, masks[j], i + 1))
  {
    forall i | 0 <= i < |flags|
      ensures flags[i] <==> forall j :: 0 <= j < |masks| ==> Overlaps(labels, masks[j], i + 1)
    {
      if forall j :: 0 <= j < |rows| ==> rows[j][i] {
        forall j | 0 <= j < |masks| ensures Overlaps(labels, masks[j], i + 1) {
          assert rows[j][i];
        }
      } else {
        var j :| 0 <= j < |rows| && !rows[j][i];
        assert !Overlaps(labels, masks[j], i + 1);
      }
    }
  }

  /** One row of any-overlap flags per mask. */
  function OverlapRows(labels: seq<nat>, masks: seq<seq<bool>>): (rows: seq<seq<bool>>)
    requires MasksFit(labels, masks)
    ensures |rows| == |masks|
    ensures forall j :: 0 <= j < |masks| ==> |rows[j]| == MaxLabel(labels)
    ensures forall j, i :: 0 <= j < |masks| && 0 <= i < MaxLabel(labels) ==>
              (rows[j][i] <==> Overlaps(labels, masks[j], i + 1))
  {
    seq(|masks|, j requires 0 <= j < |masks| => AnyOverlapFlags(labels, masks[j]))
  }

  /** `mask_labels` computes the same flags as the filters' comprehension. */
  lemma MaskLabelsIsAnyOverlap(labels: seq<nat>, mask: seq<bool>)
    requires |labels| > 0 && |mask| == |labels|
    ensures MaskLabels(labels, mask) == AnyOverlapFlags(labels, mask)
  {
  }
}
