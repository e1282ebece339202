/** What every filter guarantees: background stays background, objects are
    kept or dropped whole, survivors are renumbered 1..K in their original
    order, the object count never grows, and filtering twice is filtering once. */
module FilterProperties {
  import opened LabelArrays
  import opened Extents
  import opened Masks
  import opened Remap
  import opened Filters

  // ---------------------------------------------------------------------
  // Structure of any renumbering through a keep-vector
  // ---------------------------------------------------------------------

  /** Every filter's output is `ApplyKeep(labels, wh)` for its keep-vector `wh`. */
  lemma RemapStructure(labels: seq<nat>, wh: seq<bool>)
    requires |wh| == MaxLabel(labels)
    ensures var r := ApplyKeep(labels, wh);
      && (forall p :: 0 <= p < |labels| ==> (r[p] != 0 <==> labels[p] != 0 && wh[labels[p] - 1]))
      && (forall p :: 0 <= p < |labels| && r[p] != 0 ==> 1 <= r[p] <= CountTrue(wh))
      && (forall p, q :: 0 <= p < |labels| && 0 <= q < |labels| && labels[p] == labels[q] ==> r[p] == r[q])
      && (forall p, q :: 0 <= p < |labels| && 0 <= q < |labels| && r[p] != 0 && r[q] != 0 ==>
            (r[p] < r[q] <==> labels[p] < labels[q]) && (r[p] == r[q] <==> labels[p] == labels[q]))
  {
    var r := ApplyKeep(labels, wh);
    forall p | 0 <= p < |labels|
      ensures r[p] != 0 <==> labels[p] != 0 && wh[labels[p] - 1]
      ensures r[p] != 0 ==> 1 <= r[p] <= CountTrue(wh)
    {
      SurvivalAt(labels, wh, p);
      if r[p] != 0 {
        NewLabelRange(wh, labels[p]);
      }
    }
    forall p, q | 0 <= p < |labels| && 0 <= q < |labels| && r[p] != 0 && r[q] != 0
      ensures (r[p] < r[q] <==> labels[p] < labels[q]) && (r[p] == r[q] <==> labels[p] == labels[q])
    {
      OrderAt(labels, wh, p, q);
    }
  }

  /** Two surviving positions compare as their original labels do. */
  lemma OrderAt(labels: seq<nat>, wh: seq<bool>, p: nat, q: nat)
    requires |wh| == MaxLabel(labels) && p < |labels| && q < |labels|
    requires ApplyKeep(labels, wh)[p] != 0 && ApplyKeep(labels, wh)[q] != 0
    ensures ApplyKeep(labels, wh)[p] < ApplyKeep(labels, wh)[q] <==> labels[p] < labels[q]
    ensures ApplyKeep(labels, wh)[p] == ApplyKeep(labels, wh)[q] <==> labels[p] == labels[q]
  {
    SurvivalAt(labels, wh, p);
    SurvivalAt(labels, wh, q);
    var a, b := labels[p], labels[q];
    assert 1 <= a <= |wh| && wh[a - 1] && 1 <= b <= |wh| && wh[b - 1];
    if a < b {
      NewLabelOrder(wh, a, b);
    } else if b < a {
      NewLabelOrder(wh, b, a);
    }
  }

  /** A kept label's new number occurs exactly where the label did. */
  lemma SurvivorFootprint(labels: seq<nat>, wh: seq<bool>, l: nat)
    requires |wh| == MaxLabel(labels)
    requires 1 <= l <= |wh| && wh[l - 1]
    ensures forall p :: 0 <= p < |labels| ==> (ApplyKeep(labels, wh)[p] == NewLabel(wh, l) <==> labels[p] == l)
  {
    NewLabelRange(wh, l);
    forall p | 0 <= p < |labels| && ApplyKeep(labels, wh)[p] == NewLabel(wh, l)
      ensures labels[p] == l
    {
      NewLabelInjective(wh, labels[p], l);
    }
  }

  /** No position is renumbered past the number of kept labels. */
  lemma BoundAt(labels: seq<nat>, wh: seq<bool>, p: nat)
    requires |wh| == MaxLabel(labels) && p < |labels|
    ensures ApplyKeep(labels, wh)[p] <= CountTrue(wh)
  {
    SurvivalAt(labels, wh, p);
    if ApplyKeep(labels, wh)[p] != 0 {
      NewLabelRange(wh, labels[p]);
    }
  }

  /** New label n in 1..K occurs when the kept label it comes from occurs. */
  lemma SurvivorPresent(labels: seq<nat>, wh: seq<bool>, n: nat)
    requires |wh| == MaxLabel(labels)
    requires forall i :: 0 <= i < |wh| && wh[i] ==> i + 1 in labels
    requires 1 <= n <= CountTrue(wh)
    ensures n in ApplyKeep(labels, wh)
  {
    NewLabelOnto(wh, n);
    var l :| 1 <= l <= |wh| && wh[l - 1] && NewLabel(wh, l) == n;
    assert l - 1 < |wh| && wh[l - 1];
    assert l in labels;
    var p :| 0 <= p < |labels| && labels[p] == l;
    assert ApplyKeep(labels, wh)[p] == n;
  }

  /** When every kept label occurs (always so on a gap-free array) the
      survivors are exactly 1..K, all present. */
  lemma SurvivorsContiguous(labels: seq<nat>, wh: seq<bool>)
    requires |labels| > 0 && |wh| == MaxLabel(labels)
    requires forall i :: 0 <= i < |wh| && wh[i] ==> i + 1 in labels
    ensures MaxLabel(ApplyKeep(labels, wh)) == CountTrue(wh)
    ensures GapFree(ApplyKeep(labels, wh))
  {
    var r := ApplyKeep(labels, wh);
    var k := CountTrue(wh);
    forall p | 0 <= p < |r| ensures r[p] <= k {
      BoundAt(labels, wh, p);
    }
    forall n | 1 <= n <= k ensures n in r {
      SurvivorPresent(labels, wh, n);
    }
    if k > 0 {
      assert k in r;
    } else {
      assert MaxLabel(r) in r;
    }
  }

  /** Cardinality: a set covered by the image of another is no larger. */
  lemma {:induction false} CoveredNotLarger(s: set<nat>, t: set<nat>, f: nat -> nat)
    requires forall y :: y in t ==> exists x :: x in s && f(x) == y
    ensures |t| <= |s|
    decreases |s|
  {
    if s != {} {
      var x :| x in s;
      var s', t' := s - {x}, t - {f(x)};
      forall y | y in t' ensures exists x' :: x' in s' && f(x') == y {
        var x' :| x' in s && f(x') == y;
        assert x' != x;
      }
      CoveredNotLarger(s', t', f);
      assert t <= t' + {f(x)};
    }
  }

  /** Filtering never increases the number of distinct objects. */
  lemma RemapCountNotLarger(labels: seq<nat>, wh: seq<bool>)
    requires |wh| == MaxLabel(labels)
    ensures |ObjectLabels(ApplyKeep(labels, wh))| <= |ObjectLabels(labels)|
  {
    var r := ApplyKeep(labels, wh);
    var f := (l: nat) => if l <= |wh| then NewLabel(wh, l) else 0;
    forall y | y in ObjectLabels(r) ensures exists x :: x in ObjectLabels(labels) && f(x) == y {
      var p :| 0 <= p < |r| && r[p] != 0 && r[p] == y;
      assert labels[p] in ObjectLabels(labels) && f(labels[p]) == y;
    }
    CoveredNotLarger(ObjectLabels(labels), ObjectLabels(r), f);
  }

  /** A keep-vector that keeps everything changes nothing. */
  lemma ApplyAllKept(labels: seq<nat>, wh: seq<bool>)
    requires |wh| == MaxLabel(labels)
    requires forall i :: 0 <= i < |wh| ==> wh[i]
    ensures ApplyKeep(labels, wh) == labels
  {
    forall p | 0 <= p < |labels| ensures ApplyKeep(labels, wh)[p] == labels[p] {
      NewLabelAllKept(wh, labels[p]);
    }
  }

  // ---------------------------------------------------------------------
  // Which objects survive each filter
  // ---------------------------------------------------------------------

  /** One position of `ApplyKeep`: it survives iff its label is an object and kept. */
  lemma SurvivalAt(labels: seq<nat>, wh: seq<bool>, p: nat)
    requires |wh| == MaxLabel(labels) && p < |labels|
    ensures labels[p] <= |wh|
    ensures ApplyKeep(labels, wh)[p] != 0 <==> labels[p] != 0 && wh[labels[p] - 1]
  {
    if labels[p] != 0 && wh[labels[p] - 1] {
      NewLabelRange(wh, labels[p]);
    }
  }

  lemma FilterByLengthRule(labels: seq<nat>, shape: Shape, minLength: int)
    requires |labels| > 0 && GapFree(labels) && |labels| == shape.Size()
    ensures forall p :: 0 <= p < |labels| ==>
              (FilterByLength(labels, shape, minLength)[p] != 0 <==>
                 labels[p] != 0 && ObjectLength(labels, shape, labels[p]) >= minLength)
  {
    var wh := LengthKeep(labels, shape, minLength);
    forall p | 0 <= p < |labels|
      ensures FilterByLength(labels, shape, minLength)[p] != 0 <==>
                labels[p] != 0 && ObjectLength(labels, shape, labels[p]) >= minLength
    {
      SurvivalAt(labels, wh, p);
    }
  }

  lemma FilterByMaskRule(labels: seq<nat>, mask: seq<bool>)
    requires |labels| > 0 && GapFree(labels) && |mask| == |labels|
    ensures var r := FilterByMask(labels, mask);
      r.Ok? ==> forall p :: 0 <= p < |labels| ==>
        (r.value[p] != 0 <==> labels[p] != 0 && Overlaps(labels, mask, labels[p]))
  {
    var wh := AnyOverlapFlags(labels, mask);
    var r := FilterByMask(labels, mask);
    if r.Ok? {
      forall p | 0 <= p < |labels|
        ensures r.value[p] != 0 <==> labels[p] != 0 && Overlaps(labels, mask, labels[p])
      {
        SurvivalAt(labels, wh, p);
      }
    }
  }

  lemma FilterByLengthAndMaskRule(labels: seq<nat>, shape: Shape, mask: seq<bool>, minLength: int)
    requires |labels| > 0 && GapFree(labels) && |labels| == shape.Size() && |mask| == |labels|
    ensures var r := FilterByLengthAndMask(labels, shape, mask, minLength);
      r.Ok? ==> forall p :: 0 <= p < |labels| ==>
        (r.value[p] != 0 <==>
           labels[p] != 0 && ObjectLength(labels, shape, labels[p]) >= minLength &&
           Overlaps(labels, mask, labels[p]))
  {
    var lk, mk := LengthKeep(labels, shape, minLength), AnyOverlapFlags(labels, mask);
    var wh := And(lk, mk);
    var r := FilterByLengthAndMask(labels, shape, mask, minLength);
    if r.Ok? {
      forall p | 0 <= p < |labels|
        ensures r.value[p] != 0 <==>
                  labels[p] != 0 && ObjectLength(labels, shape, labels[p]) >= minLength &&
                  Overlaps(labels, mask, labels[p])
      {
        SurvivalAt(labels, wh, p);
        if labels[p] != 0 {
          var i := labels[p] - 1;
          assert wh[i] <==> lk[i] && mk[i];
        }
      }
    }
  }

  lemma FilterByMultimaskRule(labels: seq<nat>, masks: seq<seq<bool>>)
    requires |labels| > 0 && |masks| > 0 && MasksFit(labels, masks)
    ensures var r := FilterByMultimask(labels, MaskList(masks));
      r.Ok? ==> forall p :: 0 <= p < |labels| ==>
        (r.value[p] != 0 <==> labels[p] != 0 && forall j :: 0 <= j < |masks| ==> Overlaps(labels, masks[j], labels[p]))
  {
    var wh := AllMasksFlags(labels, masks);
    var r := FilterByMultimask(labels, MaskList(masks));
    if r.Ok? {
      forall p | 0 <= p < |labels|
        ensures r.value[p] != 0 <==>
                  labels[p] != 0 && forall j :: 0 <= j < |masks| ==> Overlaps(labels, masks[j], labels[p])
      {
        SurvivalAt(labels, wh, p);
      }
    }
  }

  lemma FilterByLengthAndMultimaskRule(labels: seq<nat>, shape: Shape, masks: seq<seq<bool>>, minLength: int)
    requires |labels| > 0 && GapFree(labels) && |labels| == shape.Size() && |masks| > 0 && MasksFit(labels, masks)
    ensures var r := FilterByLengthAndMultimask(labels, shape, MaskList(masks), minLength);
      r.Ok? ==> forall p :: 0 <= p < |labels| ==>
        (r.value[p] != 0 <==>
           labels[p] != 0 && ObjectLength(labels, shape, labels[p]) >= minLength &&
           forall j :: 0 <= j < |masks| ==> Overlaps(labels, masks[j], labels[p]))
  {
    var lk, mk := LengthKeep(labels, shape, minLength), AllMasksFlags(labels, masks);
    var wh := And(lk, mk);
    var r := FilterByLengthAndMultimask(labels, shape, MaskList(masks), minLength);
    if r.Ok? {
      assert r.value == ApplyKeep(labels, wh);
      forall p | 0 <= p < |labels|
        ensures r.value[p] != 0 <==>
                  labels[p] != 0 && ObjectLength(labels, shape, labels[p]) >= minLength &&
                  forall j :: 0 <= j < |masks| ==> Overlaps(labels, masks[j], labels[p])
      {
        SurvivalAt(labels, wh, p);
        if labels[p] != 0 {
          var i := labels[p] - 1;
          assert wh[i] <==> lk[i] && mk[i];
        }
      }
    }
  }

  // ---------------------------------------------------------------------
  // Identity and emptiness cases
  // ---------------------------------------------------------------------

  /** Every object spans at least one time step, so `min_length <= 1` keeps all. */
  lemma FilterByLengthTrivial(labels: seq<nat>, shape: Shape, minLength: int)
    requires |labels| > 0 && GapFree(labels) && |labels| == shape.Size() && minLength <= 1
    ensures FilterByLength(labels, shape, minLength) == labels
  {
    var wh := LengthKeep(labels, shape, minLength);
    forall i | 0 <= i < |wh| ensures wh[i] {
      ObjectLengthSpread(labels, shape, i + 1);
    }
    ApplyAllKept(labels, wh);
  }

  /** An all-true mask keeps every object of a gap-free array. */
  lemma FilterByMaskAllTrue(labels: seq<nat>, mask: seq<bool>)
    requires |labels| > 0 && GapFree(labels) && |mask| == |labels|
    requires forall p :: 0 <= p < |mask| ==> mask[p]
    ensures MaxLabel(labels) > 0 ==> FilterByMask(labels, mask) == Ok(labels)
  {
    var wh := AnyOverlapFlags(labels, mask);
    forall i | 0 <= i < |wh| ensures wh[i] {
      assert i + 1 in labels;
      var p :| 0 <= p < |labels| && labels[p] == i + 1;
      assert mask[p];
    }
    ApplyAllKept(labels, wh);
  }

  /** An all-false mask removes every object. */
  lemma FilterByMaskAllFalse(labels: seq<nat>, mask: seq<bool>)
    requires |labels| > 0 && GapFree(labels) && |mask| == |labels|
    requires forall p :: 0 <= p < |mask| ==> !mask[p]
    ensures var r := FilterByMask(labels, mask);
      r.Ok? ==> forall p :: 0 <= p < |labels| ==> r.value[p] == 0
  {
    RemapStructure(labels, AnyOverlapFlags(labels, mask));
  }

  // ---------------------------------------------------------------------
  // Idempotence
  // ---------------------------------------------------------------------

  /** Each new label k of a filter's output is some kept old label, with the same footprint. */
  lemma Preimage(labels: seq<nat>, wh: seq<bool>, k: nat) returns (l: nat)
    requires |labels| > 0 && |wh| == MaxLabel(labels)
    requires 1 <= k <= CountTrue(wh)
    ensures 1 <= l <= |wh| && wh[l - 1] && NewLabel(wh, l) == k
    ensures forall p :: 0 <= p < |labels| ==> (ApplyKeep(labels, wh)[p] == k <==> labels[p] == l)
  {
    NewLabelOnto(wh, k);
    l :| 1 <= l <= |wh| && wh[l - 1] && NewLabel(wh, l) == k;
    SurvivorFootprint(labels, wh, l);
  }

  /** A survivor's new number spans as many time steps as the old label did. */
  lemma LengthSurvivesAgain(labels: seq<nat>, shape: Shape, wh: seq<bool>, minLength: int, k: nat)
    requires |labels| > 0 && GapFree(labels) && |wh| == MaxLabel(labels)
    requires forall i :: 0 <= i < |wh| && wh[i] ==> ObjectLength(labels, shape, i + 1) >= minLength
    requires 1 <= k <= CountTrue(wh)
    ensures k in ApplyKeep(labels, wh)
    ensures ObjectLength(ApplyKeep(labels, wh), shape, k) >= minLength
  {
    var l := Preimage(labels, wh, k);
    ObjectLengthFootprint(labels, l, ApplyKeep(labels, wh), k, shape);
  }

  /** A survivor's new number overlaps every mask the old label overlapped. */
  lemma OverlapSurvivesAgain(labels: seq<nat>, wh: seq<bool>, mask: seq<bool>, k: nat)
    requires |labels| > 0 && |wh| == MaxLabel(labels) && |mask| == |labels|
    requires forall i :: 0 <= i < |wh| && wh[i] ==> Overlaps(labels, mask, i + 1)
    requires 1 <= k <= CountTrue(wh)
    ensures Overlaps(ApplyKeep(labels, wh), mask, k)
  {
    var l := Preimage(labels, wh, k);
    var p :| 0 <= p < |labels| && labels[p] == l && mask[p];
    assert ApplyKeep(labels, wh)[p] == k;
  }

  lemma AllMasksSurviveAgain(labels: seq<nat>, wh: seq<bool>, masks: seq<seq<bool>>, k: nat)
    requires |labels| > 0 && |wh| == MaxLabel(labels) && MasksFit(labels, masks)
    requires forall i :: 0 <= i < |wh| && wh[i] ==> forall j :: 0 <= j < |masks| ==> Overlaps(labels, masks[j], i + 1)
    requires 1 <= k <= CountTrue(wh)
    ensures forall j :: 0 <= j < |masks| ==> Overlaps(ApplyKeep(labels, wh), masks[j], k)
  {
    forall j | 0 <= j < |masks| ensures Overlaps(ApplyKeep(labels, wh), masks[j], k) {
      OverlapSurvivesAgain(labels, wh, masks[j], k);
    }
  }

  /** Survivor i + 1 passes the length test again. */
  lemma LengthKeepAgain(labels: seq<nat>, shape: Shape, wh: seq<bool>, minLength: int, i: nat)
    requires |labels| > 0 && GapFree(labels) && |wh| == MaxLabel(labels)
    requires forall i' :: 0 <= i' < |wh| && wh[i'] ==> ObjectLength(labels, shape, i' + 1) >= minLength
    requires GapFree(ApplyKeep(labels, wh)) && i < MaxLabel(ApplyKeep(labels, wh)) == CountTrue(wh)
    ensures LengthKeep(ApplyKeep(labels, wh), shape, minLength)[i]
  {
    LengthSurvivesAgain(labels, shape, wh, minLength, i + 1);
  }

  /** Survivor i + 1 overlaps the mask again. */
  lemma MaskKeepAgain(labels: seq<nat>, wh: seq<bool>, mask: seq<bool>, i: nat)
    requires |labels| > 0 && |wh| == MaxLabel(labels) && |mask| == |labels|
    requires forall i' :: 0 <= i' < |wh| && wh[i'] ==> Overlaps(labels, mask, i' + 1)
    requires i < MaxLabel(ApplyKeep(labels, wh)) == CountTrue(wh)
    ensures AnyOverlapFlags(ApplyKeep(labels, wh), mask)[i]
  {
    OverlapSurvivesAgain(labels, wh, mask, i + 1);
  }

  /** Survivor i + 1 overlaps every mask again. */
  lemma MasksKeepAgain(labels: seq<nat>, wh: seq<bool>, masks: seq<seq<bool>>, i: nat)
    requires |labels| > 0 && |wh| == MaxLabel(labels) && |masks| > 0 && MasksFit(labels, masks)
    requires forall i' :: 0 <= i' < |wh| && wh[i'] ==> forall j :: 0 <= j < |masks| ==> Overlaps(labels, masks[j], i' + 1)
    requires i < MaxLabel(ApplyKeep(labels, wh)) == CountTrue(wh)
    ensures MasksFit(ApplyKeep(labels, wh), masks)
    ensures AllMasksFlags(ApplyKeep(labels, wh), masks)[i]
  {
    AllMasksSurviveAgain(labels, wh, masks, i + 1);
  }

  lemma FilterByLengthIdempotent(labels: seq<nat>, shape: Shape, minLength: int)
    requires |labels| > 0 && GapFree(labels) && |labels| == shape.Size()
    ensures var once := FilterByLength(labels, shape, minLength);
      GapFree(once) && FilterByLength(once, shape, minLength) == once
  {
    var wh := LengthKeep(labels, shape, minLength);
    var once := ApplyKeep(labels, wh);
    SurvivorsContiguous(labels, wh);
    var wh2 := LengthKeep(once, shape, minLength);
    forall i | 0 <= i < |wh2| ensures wh2[i] {
      LengthSurvivesAgain(labels, shape, wh, minLength, i + 1);
    }
    ApplyAllKept(once, wh2);
  }

  /** A second mask filter returns its input, unless the first one dropped
      every object: then the second call raises. */
  lemma FilterByMaskIdempotent(labels: seq<nat>, mask: seq<bool>)
    requires |labels| > 0 && GapFree(labels) && |mask| == |labels|
    ensures var once := FilterByMask(labels, mask);
      once.Ok? ==>
        GapFree(once.value) &&
        FilterByMask(once.value, mask) == (if MaxLabel(once.value) > 0 then once else Err(NoObjects))
  {
    if MaxLabel(labels) > 0 {
      var wh := AnyOverlapFlags(labels, mask);
      var once := ApplyKeep(labels, wh);
      SurvivorsContiguous(labels, wh);
      if MaxLabel(once) > 0 {
        var wh2 := AnyOverlapFlags(once, mask);
        forall i | 0 <= i < |wh2| ensures wh2[i] {
          OverlapSurvivesAgain(labels, wh, mask, i + 1);
        }
        ApplyAllKept(once, wh2);
      }
    }
  }

  /** What the conjunctive keep-vector promises of each kept label. */
  lemma LengthAndMaskKeepParts(labels: seq<nat>, shape: Shape, mask: seq<bool>, minLength: int)
    requires |labels| > 0 && GapFree(labels) && |mask| == |labels|
    ensures var wh := And(LengthKeep(labels, shape, minLength), AnyOverlapFlags(labels, mask));
      && (forall i :: 0 <= i < |wh| && wh[i] ==> ObjectLength(labels, shape, i + 1) >= minLength)
      && (forall i :: 0 <= i < |wh| && wh[i] ==> Overlaps(labels, mask, i + 1))
  {
  }

  /** Survivor i + 1 of the length-and-mask filter passes both tests again. */
  lemma LengthAndMaskKeptAgainAt(labels: seq<nat>, shape: Shape, mask: seq<bool>, minLength: int, i: nat)
    requires |labels| > 0 && GapFree(labels) && |mask| == |labels|
    requires var once := ApplyKeep(labels, And(LengthKeep(labels, shape, minLength), AnyOverlapFlags(labels, mask)));
      GapFree(once) && i < MaxLabel(once) ==
        CountTrue(And(LengthKeep(labels, shape, minLength), AnyOverlapFlags(labels, mask)))
    ensures var once := ApplyKeep(labels, And(LengthKeep(labels, shape, minLength), AnyOverlapFlags(labels, mask)));
      And(LengthKeep(once, shape, minLength), AnyOverlapFlags(once, mask))[i]
  {
    var wh := And(LengthKeep(labels, shape, minLength), AnyOverlapFlags(labels, mask));
    LengthAndMaskKeepParts(labels, shape, mask, minLength);
    LengthKeepAgain(labels, shape, wh, minLength, i);
    MaskKeepAgain(labels, wh, mask, i);
  }

  /** Every survivor of the length-and-mask filter passes both tests again. */
  lemma LengthAndMaskKeptAgain(labels: seq<nat>, shape: Shape, mask: seq<bool>, minLength: int)
    requires |labels| > 0 && GapFree(labels) && |mask| == |labels|
    ensures var wh := And(LengthKeep(labels, shape, minLength), AnyOverlapFlags(labels, mask));
      var once := ApplyKeep(labels, wh);
      GapFree(once) && |once| == |labels| &&
      forall i :: 0 <= i < MaxLabel(once) ==>
        And(LengthKeep(once, shape, minLength), AnyOverlapFlags(once, mask))[i]
  {
    var wh := And(LengthKeep(labels, shape, minLength), AnyOverlapFlags(labels, mask));
    SurvivorsContiguous(labels, wh);
    var once := ApplyKeep(labels, wh);
    forall i | 0 <= i < MaxLabel(once)
      ensures And(LengthKeep(once, shape, minLength), AnyOverlapFlags(once, mask))[i]
    {
      LengthAndMaskKeptAgainAt(labels, shape, mask, minLength, i);
    }
  }

  /** A second length-and-mask filter returns its input, unless nothing survived. */
  lemma FilterByLengthAndMaskIdempotent(labels: seq<nat>, shape: Shape, mask: seq<bool>, minLength: int)
    requires |labels| > 0 && GapFree(labels) && |labels| == shape.Size() && |mask| == |labels|
    ensures var once := FilterByLengthAndMask(labels, shape, mask, minLength);
      once.Ok? ==>
        GapFree(once.value) &&
        FilterByLengthAndMask(once.value, shape, mask, minLength) ==
          (if MaxLabel(once.value) > 0 then once else Err(NoObjects))
  {
    if MaxLabel(labels) > 0 {
      var once := FilterByLengthAndMask(labels, shape, mask, minLength).value;
      LengthAndMaskKeptAgain(labels, shape, mask, minLength);
      if MaxLabel(once) > 0 {
        ApplyAllKept(once, And(LengthKeep(once, shape, minLength), AnyOverlapFlags(once, mask)));
      }
    }
  }

  /** What the conjunctive multi-mask keep-vector promises of each kept label. */
  lemma LengthAndMasksKeepParts(labels: seq<nat>, shape: Shape, masks: seq<seq<bool>>, minLength: int)
    requires |labels| > 0 && GapFree(labels) && |masks| > 0 && MasksFit(labels, masks)
    ensures var wh := And(LengthKeep(labels, shape, minLength), AllMasksFlags(labels, masks));
      && (forall i :: 0 <= i < |wh| && wh[i] ==> ObjectLength(labels, shape, i + 1) >= minLength)
      && (forall i :: 0 <= i < |wh| && wh[i] ==> forall j :: 0 <= j < |masks| ==> Overlaps(labels, masks[j], i + 1))
  {
  }

  /** Survivor i + 1 of the length-and-multimask filter passes all tests again. */
  lemma LengthAndMasksKeptAgainAt(labels: seq<nat>, shape: Shape, masks: seq<seq<bool>>, minLength: int, i: nat)
    requires |labels| > 0 && GapFree(labels) && |masks| > 0 && MasksFit(labels, masks)
    requires var once := ApplyKeep(labels, And(LengthKeep(labels, shape, minLength), AllMasksFlags(labels, masks)));
      GapFree(once) && i < MaxLabel(once) ==
        CountTrue(And(LengthKeep(labels, shape, minLength), AllMasksFlags(labels, masks)))
    ensures var once := ApplyKeep(labels, And(LengthKeep(labels, shape, minLength), AllMasksFlags(labels, masks)));
      MasksFit(once, masks) && And(LengthKeep(once, shape, minLength), AllMasksFlags(once, masks))[i]
  {
    var wh := And(LengthKeep(labels, shape, minLength), AllMasksFlags(labels, masks));
    LengthAndMasksKeepParts(labels, shape, masks, minLength);
    LengthKeepAgain(labels, shape, wh, minLength, i);
    MasksKeepAgain(labels, wh, masks, i);
  }

  /** Every survivor of the length-and-multimask filter passes all tests again. */
  lemma LengthAndMasksKeptAgain(labels: seq<nat>, shape: Shape, masks: seq<seq<bool>>, minLength: int)
    requires |labels| > 0 && GapFree(labels) && |masks| > 0 && MasksFit(labels, masks)
    ensures var wh := And(LengthKeep(labels, shape, minLength), AllMasksFlags(labels, masks));
      var once := ApplyKeep(labels, wh);
      GapFree(once) && |once| == |labels| && MasksFit(once, masks) &&
      forall i :: 0 <= i < MaxLabel(once) ==>
        And(LengthKeep(once, shape, minLength), AllMasksFlags(once, masks))[i]
  {
    var wh := And(LengthKeep(labels, shape, minLength), AllMasksFlags(labels, masks));
    SurvivorsContiguous(labels, wh);
    var once := ApplyKeep(labels, wh);
    assert MasksFit(once, masks);
    forall i | 0 <= i < MaxLabel(once)
      ensures And(LengthKeep(once, shape, minLength), AllMasksFlags(once, masks))[i]
    {
      LengthAndMasksKeptAgainAt(labels, shape, masks, minLength, i);
    }
  }

  /** A second length-and-multimask filter returns its input, unless masks
      were given and nothing survived. */
  lemma FilterByLengthAndMultimaskIdempotent(labels: seq<nat>, shape: Shape, masks: seq<seq<bool>>, minLength: int)
    requires |labels| > 0 && GapFree(labels) && |labels| == shape.Size() && MasksFit(labels, masks)
    ensures var once := FilterByLengthAndMultimask(labels, shape, MaskList(masks), minLength);
      once.Ok? ==>
        GapFree(once.value) &&
        FilterByLengthAndMultimask(once.value, shape, MaskList(masks), minLength) ==
          (if |masks| > 0 && MaxLabel(once.value) == 0 then Err(NoObjects) else once)
  {
    if |masks| == 0 {
      FilterByLengthIdempotent(labels, shape, minLength);
    } else if MaxLabel(labels) > 0 {
      var once := FilterByLengthAndMultimask(labels, shape, MaskList(masks), minLength).value;
      LengthAndMasksKeptAgain(labels, shape, masks, minLength);
      if MaxLabel(once) > 0 {
        ApplyAllKept(once, And(LengthKeep(once, shape, minLength), AllMasksFlags(once, masks)));
      }
    }
  }

  /** Merging every object into object 1 twice is merging once. */
  lemma MergeObjectsIdempotent(labels: seq<nat>)
    requires |labels| > 0
    ensures GapFree(MergeObjects(labels))
    ensures MergeObjects(MergeObjects(labels)) == MergeObjects(labels)
  {
    var m := MergeObjects(labels);
    assert MaxLabel(m) in m;
    var mm := MergeObjects(m);
    forall p | 0 <= p < |m| ensures mm[p] == m[p] {
    }
  }

  /** A label kept by every mask occurs in the array. */
  lemma AllMasksKeptPresent(labels: seq<nat>, masks: seq<seq<bool>>)
    requires |masks| > 0 && MasksFit(labels, masks)
    ensures var wh := AllMasksFlags(labels, masks);
      forall i :: 0 <= i < |wh| && wh[i] ==> i + 1 in labels
  {
    var wh := AllMasksFlags(labels, masks);
    forall i | 0 <= i < |wh| && wh[i] ensures i + 1 in labels {
      var p :| 0 <= p < |labels| && labels[p] == i + 1 && masks[0][p];
    }
  }

  /** Survivor i + 1 of the multi-mask filter is kept again. */
  lemma AllMasksKeptAgainAt(labels: seq<nat>, masks: seq<seq<bool>>, i: nat)
    requires |labels| > 0 && |masks| > 0 && MasksFit(labels, masks)
    requires i < MaxLabel(ApplyKeep(labels, AllMasksFlags(labels, masks))) == CountTrue(AllMasksFlags(labels, masks))
    ensures MasksFit(ApplyKeep(labels, AllMasksFlags(labels, masks)), masks)
    ensures AllMasksFlags(ApplyKeep(labels, AllMasksFlags(labels, masks)), masks)[i]
  {
    var wh := AllMasksFlags(labels, masks);
    assert forall i' :: 0 <= i' < |wh| && wh[i'] ==> forall j :: 0 <= j < |masks| ==> Overlaps(labels, masks[j], i' + 1);
    MasksKeepAgain(labels, wh, masks, i);
  }

  /** With masks: the all-masks renumbering is gap-free and, when something
      survives, renumbering it again changes nothing. */
  lemma AllMasksKeptAgain(labels: seq<nat>, masks: seq<seq<bool>>)
    requires |labels| > 0 && |masks| > 0 && MasksFit(labels, masks)
    ensures var once := ApplyKeep(labels, AllMasksFlags(labels, masks));
      && GapFree(once) && MasksFit(once, masks)
      && (MaxLabel(once) > 0 ==> ApplyKeep(once, AllMasksFlags(once, masks)) == once)
  {
    var wh := AllMasksFlags(labels, masks);
    AllMasksKeptPresent(labels, masks);
    SurvivorsContiguous(labels, wh);
    var once := ApplyKeep(labels, wh);
    assert MasksFit(once, masks);
    if MaxLabel(once) > 0 {
      var wh2 := AllMasksFlags(once, masks);
      forall i | 0 <= i < |wh2| ensures wh2[i] {
        AllMasksKeptAgainAt(labels, masks, i);
      }
      ApplyAllKept(once, wh2);
    }
  }

  /** A second multi-mask filter returns its input, unless masks were given
      and nothing survived; gaps are allowed because an absent label is
      never kept. */
  lemma FilterByMultimaskIdempotent(labels: seq<nat>, masks: seq<seq<bool>>)
    requires |labels| > 0 && MasksFit(labels, masks)
    ensures var once := FilterByMultimask(labels, MaskList(masks));
      once.Ok? ==>
        GapFree(once.value) &&
        FilterByMultimask(once.value, MaskList(masks)) ==
          (if |masks| > 0 && MaxLabel(once.value) == 0 then Err(NoObjects) else once)
  {
    if |masks| == 0 {
      MergeObjectsIdempotent(labels);
    } else if MaxLabel(labels) > 0 {
      AllMasksKeptAgain(labels, masks);
    }
  }
}
