/** The legacy filters, which renumber the label array IN PLACE: positions are
    sorted by label, and each label's run `args[bins[i]:bins[i + 1]]` is
    overwritten with either 0 or the next number from a running counter. The
    array is modified and also returned.

    Each method is proved to leave the array holding exactly what the
    corresponding non-legacy filter returns. The one exception is a non-empty
    array without objects, which the loop leaves as it is where a non-legacy
    mask filter raises. Like the non-legacy filters, they need a non-empty
    array: `find_objects` takes the maximum of its input. */
module Legacy {
  import opened LabelArrays
  import opened Extents
  import opened Masks
  import opened Remap
  import opened Filters
  import opened Grouping
  import opened FilterProperties

  /** `labels.ravel()[args[lo:hi]] = v`. */
  method Scatter(labels: array<nat>, args: seq<nat>, lo: nat, hi: nat, v: nat)
    requires lo <= hi <= |args| && InRange(args, labels.Length)
    modifies labels
    ensures forall p :: 0 <= p < labels.Length ==> labels[p] == if p in args[lo..hi] then v else old(labels[p])
  {
    forall k | lo <= k < hi {
      labels[args[k]] := v;
    }
    forall p | 0 <= p < labels.Length && p in args[lo..hi]
      ensures labels[p] == v
    {
      var k :| 0 <= k < hi - lo && args[lo..hi][k] == p;
      assert args[lo + k] == p;
    }
  }

  /** The run of label i + 1 in the sorted order names exactly that label's positions. */
  lemma RunTargets(labels: seq<nat>, args: seq<nat>, bins: seq<nat>, i: nat)
    requires IsArgSort(labels, args) && bins == Bins(labels) && i < MaxLabel(labels)
    ensures RunFits(bins, |args|, i)
    ensures InRange(Run(args, bins, i), |labels|)
    ensures forall p :: 0 <= p < |labels| ==> (p in Run(args, bins, i) <==> labels[p] == i + 1)
    ensures bins[i + 1] > bins[i] <==> i + 1 in labels
  {
    BucketPositions(labels, args, i);
    SliceInRange(args, bins[i], bins[i + 1], |labels|);
    forall p | 0 <= p < |labels| ensures p in Run(args, bins, i) <==> labels[p] == i + 1 {
      assert p in Run(args, bins, i) <==> p in multiset(Positions(labels, i + 1));
    }
  }

  /** `np.any(mask.ravel()[run])` for a run that names exactly the positions of
      label `l` is that label's overlap with the mask. */
  lemma RunAny(labels: seq<nat>, mask: seq<bool>, run: seq<nat>, l: nat)
    requires |mask| == |labels| && InRange(run, |labels|)
    requires forall p :: 0 <= p < |labels| ==> (p in run <==> labels[p] == l)
    ensures AnyTrue(Gather(mask, run)) <==> Overlaps(labels, mask, l)
  {
    if AnyTrue(Gather(mask, run)) {
      var k :| 0 <= k < |run| && Gather(mask, run)[k];
      assert run[k] in run;
    }
    if Overlaps(labels, mask, l) {
      var p :| 0 <= p < |labels| && labels[p] == l && mask[p];
      var k :| 0 <= k < |run| && run[k] == p;
      assert Gather(mask, run)[k];
    }
  }

  /** The mask filter's test on one run is its keep-vector entry. */
  lemma MaskDecision(labels: seq<nat>, shape: Shape, mask: seq<bool>, minLength: int, lengths: seq<nat>,
                     run: seq<nat>, i: nat)
    requires |labels| > 0 && GapFree(labels) && |mask| == |labels| && lengths == FindObjectLengths(labels, shape)
    requires i < MaxLabel(labels) && InRange(run, |labels|)
    requires forall p :: 0 <= p < |labels| ==> (p in run <==> labels[p] == i + 1)
    ensures (lengths[i] >= minLength && AnyTrue(Gather(mask, run)))
              == And(LengthKeep(labels, shape, minLength), AnyOverlapFlags(labels, mask))[i]
  {
    RunAny(labels, mask, run, i + 1);
  }

  /** The multi-mask filter's test on one run is its keep-vector entry. */
  lemma MultimaskDecision(labels: seq<nat>, shape: Shape, masks: seq<seq<bool>>, minLength: int,
                          lengths: seq<nat>, run: seq<nat>, i: nat)
    requires |labels| > 0 && GapFree(labels) && MasksFit(labels, masks) && lengths == FindObjectLengths(labels, shape)
    requires i < MaxLabel(labels) && InRange(run, |labels|)
    requires forall p :: 0 <= p < |labels| ==> (p in run <==> labels[p] == i + 1)
    ensures (lengths[i] >= minLength && AllMasksHit(labels, masks, run))
              == MultimaskKeep(labels, shape, masks, minLength)[i]
  {
    forall j | 0 <= j < |masks|
      ensures AnyTrue(Gather(masks[j], run)) <==> Overlaps(labels, masks[j], i + 1)
    {
      RunAny(labels, masks[j], run, i + 1);
    }
  }

  /** Relabelling after the first `i` labels: those are renumbered, the rest
      still hold their original label. */
  function Partial(keep: seq<bool>, l: nat, i: nat): nat
    requires l <= |keep|
  {
    if 1 <= l <= i then NewLabel(keep, l) else l
  }

  /** One turn of the loop: the counter is the number label i + 1 gets if kept. */
  lemma Step(keep: seq<bool>, i: nat, counter: nat)
    requires i < |keep| && counter == 1 + CountTrue(keep[..i])
    ensures NewLabel(keep, i + 1) == if keep[i] then counter else 0
    ensures CountTrue(keep[..i + 1]) == CountTrue(keep[..i]) + if keep[i] then 1 else 0
  {
    assert keep[..i + 1][..i] == keep[..i];
  }

  /** The loop invariant: `cur` is `orig` with the first `i` labels renumbered. */
  predicate Relabelled(cur: seq<nat>, orig: seq<nat>, keep: seq<bool>, i: nat)
  {
    && |cur| == |orig| && |keep| == MaxLabel(orig)
    && forall p :: 0 <= p < |orig| ==> cur[p] == Partial(keep, orig[p], i)
  }

  /** Overwriting the run of label i + 1 with its new number advances the invariant. */
  lemma Advance(orig: seq<nat>, keep: seq<bool>, i: nat, run: seq<nat>, prev: seq<nat>, next: seq<nat>, v: nat)
    requires Relabelled(prev, orig, keep, i) && i < |keep| && |next| == |orig|
    requires v == NewLabel(keep, i + 1)
    requires forall p :: 0 <= p < |orig| ==> (p in run <==> orig[p] == i + 1)
    requires forall p :: 0 <= p < |orig| ==> next[p] == if p in run then v else prev[p]
    ensures Relabelled(next, orig, keep, i + 1)
  {
  }

  /** After the last label every position holds its new number. */
  lemma Finish(cur: seq<nat>, orig: seq<nat>, keep: seq<bool>)
    requires Relabelled(cur, orig, keep, |keep|)
    ensures cur == ApplyKeep(orig, keep)
  {
    forall p | 0 <= p < |cur| ensures cur[p] == ApplyKeep(orig, keep)[p] {
      assert cur[p] == Partial(keep, orig[p], |keep|);
    }
  }

  /** One turn of the loop for label i + 1: its run is overwritten with the
      counter, which then advances, when `hit`, and with 0 otherwise. */
  method RelabelRun(labels: array<nat>, args: seq<nat>, bins: seq<nat>, i: nat, counter: nat, hit: bool,
                    ghost orig: seq<nat>, ghost keep: seq<bool>)
    returns (next: nat)
    requires IsArgSort(orig, args) && bins == Bins(orig) && i < |keep| == MaxLabel(orig)
    requires Relabelled(labels[..], orig, keep, i) && counter == 1 + CountTrue(keep[..i]) && hit == keep[i]
    modifies labels
    ensures Relabelled(labels[..], orig, keep, i + 1) && next == 1 + CountTrue(keep[..i + 1])
  {
    RunTargets(orig, args, bins, i);
    Step(keep, i, counter);
    ghost var prev := labels[..];
    if hit {
      Scatter(labels, args, bins[i], bins[i + 1], counter);
      Advance(orig, keep, i, Run(args, bins, i), prev, labels[..], counter);
      next := counter + 1;
    } else {
      Scatter(labels, args, bins[i], bins[i + 1], 0);
      Advance(orig, keep, i, Run(args, bins, i), prev, labels[..], 0);
      next := counter;
    }
  }

  /** `filter_labels_by_length_legacy(labels, min_length)`. */
  method FilterByLengthLegacy(labels: array<nat>, shape: Shape, minLength: int, args: seq<nat>)
    returns (out: array<nat>)
    requires labels.Length > 0 && GapFree(labels[..]) && IsArgSort(labels[..], args)
    requires labels.Length == shape.Size()
    modifies labels
    ensures out == labels
    ensures labels[..] == ApplyKeep(old(labels[..]), LengthKeep(old(labels[..]), shape, minLength))
    ensures labels[..] == FilterByLength(old(labels[..]), shape, minLength)
  {
    ghost var orig := labels[..];
    ghost var keep := LengthKeep(orig, shape, minLength);
    var bins := Bins(labels[..]);
    var lengths := FindObjectLengths(labels[..], shape);
    assert NumGroups(bins) == MaxLabel(orig);
    var counter := 1;
    for i := 0 to NumGroups(bins)
      invariant counter == 1 + CountTrue(keep[..i])
      invariant Relabelled(labels[..], orig, keep, i)
    {
      RunTargets(orig, args, bins, i);
      assert i + 1 in orig;
      if bins[i + 1] > bins[i] {
        counter := RelabelRun(labels, args, bins, i, counter, !(lengths[i] < minLength), orig, keep);
      } else {
        assert false;
      }
    }
    Finish(labels[..], orig, keep);
    out := labels;
  }

  /** `filter_labels_by_length_and_mask_legacy(labels, mask, min_length)`. */
  method FilterByLengthAndMaskLegacy(labels: array<nat>, shape: Shape, mask: seq<bool>, minLength: int,
                                     args: seq<nat>)
    returns (out: array<nat>)
    requires labels.Length > 0 && GapFree(labels[..]) && IsArgSort(labels[..], args)
    requires labels.Length == shape.Size() && |mask| == labels.Length
    modifies labels
    ensures out == labels
    ensures labels[..] == ApplyKeep(old(labels[..]),
                                    And(LengthKeep(old(labels[..]), shape, minLength), AnyOverlapFlags(old(labels[..]), mask)))
    ensures MaxLabel(old(labels[..])) > 0 ==>
              FilterByLengthAndMask(old(labels[..]), shape, mask, minLength) == Ok(labels[..])
    ensures MaxLabel(old(labels[..])) == 0 ==> labels[..] == old(labels[..])
  {
    ghost var orig := labels[..];
    ghost var keep := And(LengthKeep(orig, shape, minLength), AnyOverlapFlags(orig, mask));
    var bins := Bins(labels[..]);
    var lengths := FindObjectLengths(labels[..], shape);
    assert NumGroups(bins) == MaxLabel(orig);
    var counter := 1;
    for i := 0 to NumGroups(bins)
      invariant counter == 1 + CountTrue(keep[..i])
      invariant Relabelled(labels[..], orig, keep, i)
    {
      RunTargets(orig, args, bins, i);
      assert i + 1 in orig;
      if bins[i + 1] > bins[i] {
        var run := args[bins[i]..bins[i + 1]];
        MaskDecision(orig, shape, mask, minLength, lengths, run, i);
        var hit := lengths[i] >= minLength && AnyTrue(Gather(mask, run));
        counter := RelabelRun(labels, args, bins, i, counter, hit, orig, keep);
      } else {
        assert false;
      }
    }
    Finish(labels[..], orig, keep);
    if MaxLabel(orig) == 0 {
      ApplyAllKept(orig, keep);
    }
    out := labels;
  }

  /** `np.all([np.any(m.ravel()[run]) for m in masks])`; true for no masks. */
  function AllMasksHit(labels: seq<nat>, masks: seq<seq<bool>>, run: seq<nat>): (b: bool)
    requires MasksFit(labels, masks) && InRange(run, |labels|)
    ensures b <==> forall j :: 0 <= j < |masks| ==> AnyTrue(Gather(masks[j], run))
  {
    forall j :: 0 <= j < |masks| ==> AnyTrue(Gather(masks[j], run))
  }

  /** The keep-vector the multi-mask legacy loop applies. */
  ghost function MultimaskKeep(labels: seq<nat>, shape: Shape, masks: seq<seq<bool>>, minLength: int)
    : (wh: seq<bool>)
    requires |labels| > 0 && GapFree(labels) && MasksFit(labels, masks)
    ensures |wh| == MaxLabel(labels)
  {
    var lk := LengthKeep(labels, shape, minLength);
    seq(|lk|, i requires 0 <= i < |lk| =>
      lk[i] && forall j :: 0 <= j < |masks| ==> Overlaps(labels, masks[j], i + 1))
  }

  /** With at least one mask that keep-vector is the non-legacy one; with none
      only the length test remains. */
  lemma MultimaskKeepIs(labels: seq<nat>, shape: Shape, masks: seq<seq<bool>>, minLength: int)
    requires |labels| > 0 && GapFree(labels) && MasksFit(labels, masks)
    ensures |masks| > 0 ==>
              MultimaskKeep(labels, shape, masks, minLength)
                == And(LengthKeep(labels, shape, minLength), AllMasksFlags(labels, masks))
    ensures |masks| == 0 ==> MultimaskKeep(labels, shape, masks, minLength) == LengthKeep(labels, shape, minLength)
  {
  }

  /** `filter_labels_by_length_and_multimask_legacy(labels, masks, min_length)`.
      Anything but a list is refused before anything else is computed, so
      that case demands nothing of the array. An empty list keeps every
      label that passes the length test. */
  method FilterByLengthAndMultimaskLegacy(labels: array<nat>, shape: Shape, ms: MaskCollection, minLength: int,
                                          args: seq<nat>)
    returns (r: Result<array<nat>>)
    requires ms.MaskList? ==>
               labels.Length > 0 && GapFree(labels[..]) && IsArgSort(labels[..], args) &&
               labels.Length == shape.Size() && MasksFit(labels[..], ms.masks)
    modifies labels
    ensures ms.NotAList? ==> r == Err(MasksNotList) && labels[..] == old(labels[..])
    ensures ms.MaskList? ==> r == Ok(labels)
    ensures ms.MaskList? ==>
              labels[..] == ApplyKeep(old(labels[..]), MultimaskKeep(old(labels[..]), shape, ms.masks, minLength))
    ensures ms.MaskList? && (|ms.masks| == 0 || MaxLabel(old(labels[..])) > 0) ==>
              FilterByLengthAndMultimask(old(labels[..]), shape, ms, minLength) == Ok(labels[..])
    ensures ms.MaskList? && MaxLabel(old(labels[..])) == 0 ==> labels[..] == old(labels[..])
  {
    if ms.NotAList? {
      return Err(MasksNotList);
    }
    var masks := ms.masks;
    ghost var orig := labels[..];
    ghost var keep := MultimaskKeep(orig, shape, masks, minLength);
    var bins := Bins(labels[..]);
    var lengths := FindObjectLengths(labels[..], shape);
    assert NumGroups(bins) == MaxLabel(orig);
    var counter := 1;
    for i := 0 to NumGroups(bins)
      invariant counter == 1 + CountTrue(keep[..i])
      invariant Relabelled(labels[..], orig, keep, i)
    {
      RunTargets(orig, args, bins, i);
      assert i + 1 in orig;
      if bins[i + 1] > bins[i] {
        var run := args[bins[i]..bins[i + 1]];
        MultimaskDecision(orig, shape, masks, minLength, lengths, run, i);
        var hit := lengths[i] >= minLength && AllMasksHit(labels[..], masks, run);
        counter := RelabelRun(labels, args, bins, i, counter, hit, orig, keep);
      } else {
        assert false;
      }
    }
    Finish(labels[..], orig, keep);
    MultimaskKeepIs(orig, shape, masks, minLength);
    if MaxLabel(orig) == 0 {
      ApplyAllKept(orig, keep);
    }
    r := Ok(labels);
  }
}
