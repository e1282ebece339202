/** Renumbering of labels through a keep-vector: `remap_labels`, and the
    `remap[1:] = cumsum(wh) * wh` table every non-legacy filter builds. */
module Remap {
  import opened LabelArrays

  /** The renumbering rule: background stays 0; label `l` is dropped (becomes 0)
      unless `keep[l - 1]`, and a kept label becomes the number of kept labels
      among 1..l. */
  function NewLabel(keep: seq<bool>, l: nat): nat
    requires l <= |keep|
  {
    if l == 0 || !keep[l - 1] then 0 else CountTrue(keep[..l])
  }

  // ---------------------------------------------------------------------
  // remap_labels: remapper[1:][locations] = arange(1, sum(locations) + 1)
  // ---------------------------------------------------------------------

  function Zeros(n: nat): (z: seq<nat>)
    ensures |z| == n && forall i :: 0 <= i < n ==> z[i] == 0
  {
    seq(n, _ => 0)
  }

  /** The indices boolean indexing selects, in increasing order. */
  function TruePositions(keep: seq<bool>): (ps: seq<nat>)
    ensures |ps| == CountTrue(keep)
    ensures forall k :: 0 <= k < |ps| ==> ps[k] < |keep| && keep[ps[k]]
  {
    if |keep| == 0 then []
    else
      var ps := TruePositions(keep[..|keep| - 1]);
      if keep[|keep| - 1] then ps + [|keep| - 1] else ps
  }

  /** `t[1:][pos] = arange(first, first + len(pos))`: the k-th selected slot,
      shifted by one past the background entry, receives `first + k`. */
  function ScatterFrom(t: seq<nat>, pos: seq<nat>, first: nat): (r: seq<nat>)
    requires forall k :: 0 <= k < |pos| ==> pos[k] + 1 < |t|
    ensures |r| == |t|
    decreases |pos|
  {
    if |pos| == 0 then t else ScatterFrom(t[pos[0] + 1 := first], pos[1..], first + 1)
  }

  lemma {:induction false} ScatterSnoc(t: seq<nat>, pos: seq<nat>, x: nat, first: nat)
    requires forall k :: 0 <= k < |pos| ==> pos[k] + 1 < |t|
    requires x + 1 < |t|
    ensures ScatterFrom(t, pos + [x], first) == ScatterFrom(t, pos, first)[x + 1 := first + |pos|]
    decreases |pos|
  {
    if |pos| > 0 {
      assert (pos + [x])[1..] == pos[1..] + [x];
      ScatterSnoc(t[pos[0] + 1 := first], pos[1..], x, first + 1);
    }
  }

  /** The table `remap_labels` builds for a keep-vector. */
  function RemapTable(keep: seq<bool>): (table: seq<nat>)
    ensures |table| == |keep| + 1
    ensures forall l :: 0 <= l <= |keep| ==> table[l] == NewLabel(keep, l)
  {
    RemapTablePrefix(keep, |keep|);
    assert keep[..|keep|] == keep;
    ScatterFrom(Zeros(|keep| + 1), TruePositions(keep), 1)
  }

  /** After the selected slots of keep[..i] are filled, slots 1..i hold the rule
      and the rest are still 0. */
  lemma {:induction false} RemapTablePrefix(keep: seq<bool>, i: nat)
    requires i <= |keep|
    ensures forall k :: 0 <= k < |TruePositions(keep[..i])| ==> TruePositions(keep[..i])[k] + 1 < |keep| + 1
    ensures forall l :: 0 <= l <= |keep| ==>
              ScatterFrom(Zeros(|keep| + 1), TruePositions(keep[..i]), 1)[l]
                == if 1 <= l <= i then NewLabel(keep, l) else 0
  {
    var z := Zeros(|keep| + 1);
    if i > 0 {
      RemapTablePrefix(keep, i - 1);
      var prefix := keep[..i];
      assert prefix[..i - 1] == keep[..i - 1];
      var prev := TruePositions(keep[..i - 1]);
      if keep[i - 1] {
        assert TruePositions(prefix) == prev + [i - 1];
        ScatterSnoc(z, prev, i - 1, 1);
        assert CountTrue(prefix) == CountTrue(keep[..i - 1]) + 1;
      } else {
        assert TruePositions(prefix) == prev;
      }
    }
  }

  /** `remap_labels(labels, locations)`: every position is looked up in the
      table, so each label is renumbered by the rule. */
  function RemapLabels(labels: seq<nat>, keep: seq<bool>): (r: seq<nat>)
    requires |labels| > 0
    requires |keep| == MaxLabel(labels)
    ensures |r| == |labels|
    ensures forall p :: 0 <= p < |labels| ==> r[p] == NewLabel(keep, labels[p])
  {
    var table := RemapTable(keep);
    seq(|labels|, p requires 0 <= p < |labels| => table[labels[p]])
  }

  // ---------------------------------------------------------------------
  // The filters' table: remap[1:] = cumsum(wh) * wh
  // ---------------------------------------------------------------------

  /** `cumsum(wh)[i]` counts the true entries among wh[0..i]. */
  lemma {:induction false} CumSumCountsTrue(wh: seq<bool>)
    ensures forall i :: 0 <= i < |wh| ==> CumSum(AsInts(wh))[i] == CountTrue(wh[..i + 1])
  {
    if |wh| > 0 {
      var n := |wh|;
      var init := wh[..n - 1];
      CumSumCountsTrue(init);
      var xs := AsInts(wh);
      assert xs[..n - 1] == AsInts(init);
      var cs := CumSum(xs);
      assert cs == CumSum(AsInts(init)) + [(if n == 1 then 0 else CumSum(AsInts(init))[n - 2]) + xs[n - 1]];
      forall i | 0 <= i < n ensures cs[i] == CountTrue(wh[..i + 1]) {
        if i < n - 1 {
          assert wh[..i + 1] == init[..i + 1];
        } else {
          assert wh[..n][..n - 1] == init;
          if n > 1 {
            assert init[..n - 1] == init;
          } else {
            assert init == [];
          }
        }
      }
    }
  }

  function KeepTable(wh: seq<bool>): (table: seq<nat>)
    ensures |table| == |wh| + 1
    ensures forall l :: 0 <= l <= |wh| ==> table[l] == NewLabel(wh, l)
  {
    CumSumCountsTrue(wh);
    var cs, w := CumSum(AsInts(wh)), AsInts(wh);
    [0] + seq(|wh|, i requires 0 <= i < |wh| => cs[i] * w[i])
  }

  /** `remap[labels]` with the filters' table. There is no emptiness check: an
      empty keep-vector maps every position to 0. */
  function ApplyKeep(labels: seq<nat>, wh: seq<bool>): (r: seq<nat>)
    requires |wh| == MaxLabel(labels)
    ensures |r| == |labels|
    ensures forall p :: 0 <= p < |labels| ==> r[p] == NewLabel(wh, labels[p])
  {
    var table := KeepTable(wh);
    seq(|labels|, p requires 0 <= p < |labels| => table[labels[p]])
  }

  /** The two tables are the same: every filter is "keep-vector, then remap_labels". */
  lemma KeepTableIsRemapTable(wh: seq<bool>)
    ensures KeepTable(wh) == RemapTable(wh)
  {
  }

  lemma FilterIsRemap(labels: seq<nat>, wh: seq<bool>)
    requires |labels| > 0 && |wh| == MaxLabel(labels)
    ensures ApplyKeep(labels, wh) == RemapLabels(labels, wh)
  {
  }

  // ---------------------------------------------------------------------
  // Properties of the renumbering rule
  // ---------------------------------------------------------------------

  lemma {:induction false} CountTruePrefixMonotone(bs: seq<bool>, i: nat, j: nat)
    requires i <= j <= |bs|
    ensures CountTrue(bs[..i]) <= CountTrue(bs[..j])
    decreases j - i
  {
    if i < j {
      CountTruePrefixMonotone(bs, i, j - 1);
      assert bs[..j][..j - 1] == bs[..j - 1];
    }
  }

  /** A kept label gets a number in 1..K, K the number of kept labels. */
  lemma NewLabelRange(keep: seq<bool>, l: nat)
    requires 1 <= l <= |keep| && keep[l - 1]
    ensures 1 <= NewLabel(keep, l) <= CountTrue(keep)
  {
    assert keep[..l][..l - 1] == keep[..l - 1];
    CountTruePrefixMonotone(keep, l, |keep|);
    assert keep[..|keep|] == keep;
  }

  /** Kept labels keep their relative order, strictly. */
  lemma NewLabelOrder(keep: seq<bool>, a: nat, b: nat)
    requires 1 <= a < b <= |keep| && keep[a - 1] && keep[b - 1]
    ensures NewLabel(keep, a) < NewLabel(keep, b)
  {
    CountTruePrefixMonotone(keep, a, b - 1);
    assert keep[..b][..b - 1] == keep[..b - 1];
  }

  /** Every number 1..K is the new number of some kept label. */
  lemma {:induction false} NewLabelOnto(keep: seq<bool>, k: nat)
    requires 1 <= k <= CountTrue(keep)
    ensures exists l :: 1 <= l <= |keep| && keep[l - 1] && NewLabel(keep, l) == k
  {
    var n := |keep|;
    var init := keep[..n - 1];
    assert keep[..n] == keep;
    if k <= CountTrue(init) {
      NewLabelOnto(init, k);
      var l :| 1 <= l <= |init| && init[l - 1] && NewLabel(init, l) == k;
      assert init[..l] == keep[..l];
      assert keep[l - 1] && NewLabel(keep, l) == k;
    } else {
      assert keep[n - 1] && NewLabel(keep, n) == k;
    }
  }

  /** Two kept labels that share a new number are the same label. */
  lemma NewLabelInjective(keep: seq<bool>, a: nat, b: nat)
    requires a <= |keep| && b <= |keep|
    requires NewLabel(keep, a) != 0 && NewLabel(keep, a) == NewLabel(keep, b)
    ensures a == b
  {
    if a < b {
      NewLabelOrder(keep, a, b);
    } else if b < a {
      NewLabelOrder(keep, b, a);
    }
  }

  /** With everything kept the rule is the identity. */
  lemma {:induction false} NewLabelAllKept(keep: seq<bool>, l: nat)
    requires forall i :: 0 <= i < |keep| ==> keep[i]
    requires l <= |keep|
    ensures NewLabel(keep, l) == l
    decreases l
  {
    if l > 0 {
      NewLabelAllKept(keep, l - 1);
      assert keep[..l][..l - 1] == keep[..l - 1];
      if l > 1 {
        assert NewLabel(keep, l - 1) == CountTrue(keep[..l - 1]);
      } else {
        assert keep[..0] == [];
      }
    }
  }
}
