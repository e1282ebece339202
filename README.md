# tobac-flow label-array engine, modelled in Dafny

tobac-flow tracks convective cloud objects through time. The tracking code
labels each connected region and stores the labels in an integer array:
0 is background, and 1..max are objects, with time on the leading axis. The
engine in `tobac_flow/analysis.py` works on such arrays:

- `find_object_lengths` gets each object's extent along the time axis.
- `mask_labels` and the `np.any` comprehension flag the objects that touch
  a mask.
- `remap_labels` and the `remap[1:] = cumsum(wh) * wh` table renumber the
  objects that are kept to 1..K, in their original order, and send
  everything else to 0.
- Five vectorised filters apply a length and/or mask criterion.
- Three legacy filters do the same in place: they walk the `argsort`
  buckets and write a running counter.
- `apply_func_to_labels` and its weighted variant apply a reducer to the
  field values of each label.

The model works on a flat sequence of labels in C order, together with a
`Shape(t, r, c)`. The time index of flat position `p` is `p / (r * c)`.
Masks are boolean sequences of the same length. Where a filter succeeds it
is proved to equal one renumbering rule, `NewLabel(keep, l)`:

- 0 stays 0, and so does every label that is not kept.
- A kept label `l` becomes the number of kept labels among `1..l`.

The one exception is the multi-mask filter given an empty list: the
reduction is then the scalar `True`, and every object becomes object 1.
The errors are modelled as values: a `masks` argument that is not a list,
and a mask comprehension over an array without objects, whose index
`range(1, 1)` is empty, which scipy refuses.

Modules:

- `LabelArrays` (labels.dfy): shapes, the maximum label, gap-free arrays,
  positions of a label, gathering and the error type.
- `Extents` (extents.dfy): the `find_objects` bounding slice along time,
  and object lengths.
- `Masks` (masks.dfy): `mask_labels`, the per-label `np.any` flags, and
  `np.logical_and.reduce`.
- `Remap` (remap.dfy): the renumbering rule and the two tables that
  implement it.
- `Filters` (filters.dfy): the five vectorised filters.
- `FilterProperties` (filter_properties.dfy): the survival rule of each
  filter, the structure of the renumbering, and idempotence.
- `Grouping` (grouping.dfy): `bincount`/`cumsum` bins over an argsort
  permutation, and `apply_func_to_labels` / `apply_weighted_func_to_labels`.
- `Legacy` (legacy.dfy): the three in-place filters, as methods on
  `array<nat>` with loop invariants, proved equal to the vectorised
  filters.

## Model

| member | source | states |
|---|---|---|
| Extents.BoundingSliceTight | tobac_flow/analysis.py:19 | The slice `find_objects` gives an object along time is non-empty. It contains the time index of every cell of the object, and both its first and its last time step hold a cell of the object. |
| Extents.ObjectLengthSpread | tobac_flow/analysis.py:19 | An object's length is at least 1. It exceeds the time distance between any two of its cells, and equals that distance plus one for some pair of cells. |
| Extents.FindObjectLengths | tobac_flow/analysis.py:5-21 | On a non-empty gap-free array, one length per label 1..max, in label order. Entry i is the time extent of label i+1. |
| Extents.ObjectLengthBounds | tobac_flow/analysis.py:5-21 | Every object length lies between 1 and the number of time steps. |
| Extents.ObjectLengthFootprint | tobac_flow/analysis.py:19 | An object's length depends only on which cells it occupies. It is unchanged when the object is relabelled to another value. |
| Masks.MaskedLabelSet | tobac_flow/analysis.py:24 | `np.unique(labels[wh])` holds exactly the labels that occur at a true mask cell. |
| Masks.MaskLabels | tobac_flow/analysis.py:23-27 | `mask_labels` returns max flags. Flag i is set exactly when label i+1 occurs at a true mask cell; label 0's entry is dropped. |
| Masks.LabelAny | tobac_flow/analysis.py:95 | `np.any` over the mask values of one label is true exactly when that label overlaps the mask. For an absent label it is false, the default 0 of the multi-mask comprehension; the single-mask comprehension at line 74 is only applied to arrays where every label occurs. |
| Masks.AnyOverlapFlags | tobac_flow/analysis.py:74 | The comprehension over labels 1..max with `np.any` gives max flags. Flag i means label i+1 overlaps the mask. On an array without objects the index `range(1, 1)` is empty and scipy raises; the filters return that error before using these flags. |
| Masks.AndReduce | tobac_flow/analysis.py:95 | `np.logical_and.reduce` over a non-empty list of rows is true at i exactly when every row is true at i. |
| Masks.AllMasksFlags | tobac_flow/analysis.py:95 | The multi-mask keep vector: flag i means label i+1 overlaps every mask. |
| Masks.OverlapRows | tobac_flow/analysis.py:95 | One overlap row per mask. Entry (j, i) means label i+1 overlaps mask j. The filters raise before building the rows when the array has no objects. |
| Masks.MaskLabelsIsAnyOverlap | tobac_flow/analysis.py:23-27 | `mask_labels` and the filters' `np.any` comprehension compute the same flags. |
| Remap.RemapTable | tobac_flow/analysis.py:30-31 | `remapper` has max+1 entries. Entry l is the renumbered label of l: 0 for label 0 or a dropped label, the rank among kept labels otherwise. |
| Remap.RemapLabels | tobac_flow/analysis.py:29-35 | `remap_labels` keeps the array's length and sends every cell's label through the renumbering rule. |
| Remap.KeepTable | tobac_flow/analysis.py:68-69 | The table `[0] + cumsum(wh) * wh` has one entry per label 0..max, and each entry is that label's renumbered value. |
| Remap.CumSumCountsTrue | tobac_flow/analysis.py:69 | `cumsum(wh)[i]` counts the true flags among the first i+1. |
| Remap.ApplyKeep | tobac_flow/analysis.py:68-71 | `remap[labels]` keeps the array's length and renumbers each cell by the rule. |
| Remap.KeepTableIsRemapTable | tobac_flow/analysis.py:29-35 | The filters' cumsum table equals the `remap_labels` arange table for every keep vector. |
| Remap.FilterIsRemap | tobac_flow/analysis.py:65-71 | Applying the filters' table equals `remap_labels` with the same flags. |
| Remap.NewLabelRange | tobac_flow/analysis.py:69 | A kept label is renumbered into 1..K, where K is the number of kept labels. |
| Remap.NewLabelOrder | tobac_flow/analysis.py:69 | Renumbering keeps the order of kept labels strictly. |
| Remap.NewLabelOnto | tobac_flow/analysis.py:69 | Every value 1..K is the new label of some kept label. |
| Remap.NewLabelInjective | tobac_flow/analysis.py:69 | Two labels with the same non-zero new label are the same label. |
| Remap.NewLabelAllKept | tobac_flow/analysis.py:69 | When every label is kept, renumbering is the identity. |
| Filters.LengthKeep | tobac_flow/analysis.py:66 | On a non-empty gap-free array, flag i is set exactly when label i+1 lasts at least `min_length` time steps. |
| Filters.MergeObjects | tobac_flow/analysis.py:95-100 | With the scalar `True` of an empty reduction broadcast over `remap[1:]`, a cell becomes 0 exactly when it was 0, and 1 otherwise. |
| Filters.FilterByLength | tobac_flow/analysis.py:65-71 | `filter_labels_by_length` on an array of the given shape keeps the length, and each cell's label is renumbered by the length keep vector. An array without objects is allowed: `find_objects` returns no slices and the result is all zeros. |
| Filters.FilterByMask | tobac_flow/analysis.py:73-79 | `filter_labels_by_mask` fails with the no-objects error exactly when the maximum label is 0 (the comprehension index `range(1, 1)` is empty). Otherwise it keeps the length and renumbers each cell by the overlap flags. |
| Filters.FilterByLengthAndMask | tobac_flow/analysis.py:81-89 | `filter_labels_by_length_and_mask` fails with the no-objects error exactly when the maximum label is 0. Otherwise it renumbers each cell by the conjunction of the length and overlap flags. |
| Filters.FilterByMultimask | tobac_flow/analysis.py:91-100 | A non-list argument is refused first, whatever the array. For a list it fails exactly when there is a mask and no object. An empty list merges every object into label 1 and keeps 0 as 0. Otherwise each cell is renumbered by the all-masks flags. |
| Filters.FilterByLengthAndMultimask | tobac_flow/analysis.py:102-114 | A non-list argument is refused first, whatever the array. For a list it fails exactly when there is a mask and no object. An empty list gives exactly the length filter. Otherwise each cell is renumbered by length AND all masks. |
| FilterProperties.RemapStructure | tobac_flow/analysis.py:68-71 | After renumbering, a cell is non-zero iff it was labelled and its label kept. Survivors lie in 1..K, equal labels stay equal, and order and distinctness among survivors are preserved both ways. |
| FilterProperties.OrderAt | tobac_flow/analysis.py:69-71 | For two surviving cells, new labels compare exactly as the old labels did. |
| FilterProperties.SurvivalAt | tobac_flow/analysis.py:69-71 | A single cell survives iff it is labelled and its label is kept. |
| FilterProperties.SurvivorFootprint | tobac_flow/analysis.py:69-71 | A kept object's cells are exactly the cells carrying its new label. |
| FilterProperties.BoundAt | tobac_flow/analysis.py:69-71 | No cell is renumbered above the number of kept labels. |
| FilterProperties.SurvivorPresent | tobac_flow/analysis.py:69-71 | When every kept label occurs, every new label 1..K occurs in the output. |
| FilterProperties.SurvivorsContiguous | tobac_flow/analysis.py:69-71 | When every kept label occurs, the output's maximum is the number kept, and the output has no gaps. |
| FilterProperties.RemapCountNotLarger | tobac_flow/analysis.py:69-71 | Filtering never increases the number of distinct labels. |
| FilterProperties.ApplyAllKept | tobac_flow/analysis.py:68-71 | With every flag set, the renumbering table leaves the array unchanged. |
| FilterProperties.FilterByLengthRule | tobac_flow/analysis.py:65-71 | A cell survives the length filter iff it is labelled and its object lasts at least `min_length` steps. |
| FilterProperties.FilterByMaskRule | tobac_flow/analysis.py:73-79 | When the mask filter succeeds, a cell survives iff it is labelled and its object touches the mask. |
| FilterProperties.FilterByLengthAndMaskRule | tobac_flow/analysis.py:81-89 | When the filter succeeds, a cell survives iff its object is long enough and touches the mask. |
| FilterProperties.FilterByMultimaskRule | tobac_flow/analysis.py:91-100 | With at least one mask, when the filter succeeds, a cell survives iff its object touches every mask. |
| FilterProperties.FilterByLengthAndMultimaskRule | tobac_flow/analysis.py:102-114 | With at least one mask, when the filter succeeds, a cell survives iff its object is long enough and touches every mask. |
| FilterProperties.FilterByLengthTrivial | tobac_flow/analysis.py:65-71 | With `min_length <= 1`, the length filter returns the array unchanged. |
| FilterProperties.FilterByMaskAllTrue | tobac_flow/analysis.py:73-79 | On an array with objects, an all-true mask returns the array unchanged. |
| FilterProperties.FilterByMaskAllFalse | tobac_flow/analysis.py:73-79 | When the filter succeeds, an all-false mask clears the array. |
| FilterProperties.Preimage | tobac_flow/analysis.py:69-71 | Each new label 1..K comes from exactly one kept old label, and occupies exactly that label's cells. |
| FilterProperties.LengthSurvivesAgain | tobac_flow/analysis.py:66 | After renumbering with length-respecting flags, each new object is present and still at least `min_length` long. |
| FilterProperties.OverlapSurvivesAgain | tobac_flow/analysis.py:74 | After renumbering with overlap-respecting flags, each new object still touches the mask. |
| FilterProperties.AllMasksSurviveAgain | tobac_flow/analysis.py:95 | After renumbering with all-masks flags, each new object still touches every mask. |
| FilterProperties.LengthKeepAgain | tobac_flow/analysis.py:66 | On the filtered array, every length flag is set. |
| FilterProperties.MaskKeepAgain | tobac_flow/analysis.py:74 | On the filtered array, every overlap flag is set. |
| FilterProperties.MasksKeepAgain | tobac_flow/analysis.py:95 | On the filtered array, the masks still fit and every all-masks flag is set. |
| FilterProperties.LengthAndMaskKeepParts | tobac_flow/analysis.py:82-84 | A label kept by the combined flags is long enough and touches the mask. |
| FilterProperties.LengthAndMaskKeptAgainAt | tobac_flow/analysis.py:81-89 | On the filtered array, the combined length-and-mask flag of every remaining label is set. |
| FilterProperties.LengthAndMaskKeptAgain | tobac_flow/analysis.py:81-89 | The length-and-mask output is gap-free, and all its combined flags are set. |
| FilterProperties.LengthAndMasksKeepParts | tobac_flow/analysis.py:106-109 | A label kept by length AND all masks is long enough and touches every mask. |
| FilterProperties.LengthAndMasksKeptAgainAt | tobac_flow/analysis.py:102-114 | On the filtered array, the masks fit and the combined flag of every remaining label is set. |
| FilterProperties.LengthAndMasksKeptAgain | tobac_flow/analysis.py:102-114 | The length-and-multimask output is gap-free, the masks fit, and all combined flags are set. |
| FilterProperties.FilterByLengthIdempotent | tobac_flow/analysis.py:65-71 | The length filter's output is gap-free, and filtering it again changes nothing. |
| FilterProperties.FilterByMaskIdempotent | tobac_flow/analysis.py:73-79 | The mask filter's output is gap-free. Filtering it again returns it, unless no object survived; then the second call raises the no-objects error. |
| FilterProperties.FilterByLengthAndMaskIdempotent | tobac_flow/analysis.py:81-89 | The output is gap-free. Filtering it again returns it, unless no object survived; then the second call raises. |
| FilterProperties.FilterByMultimaskIdempotent | tobac_flow/analysis.py:91-100 | Even on an array with gaps, and for any list of masks (the empty one included), the output is gap-free. Filtering it again returns it, unless masks were given and no object survived; then the second call raises. |
| FilterProperties.FilterByLengthAndMultimaskIdempotent | tobac_flow/analysis.py:102-114 | For any list of masks the output is gap-free. Filtering it again returns it, unless masks were given and no object survived; then the second call raises. |
| FilterProperties.MergeObjectsIdempotent | tobac_flow/analysis.py:95-100 | Merging all objects gives a gap-free array, and merging it again changes nothing. |
| FilterProperties.AllMasksKeptPresent | tobac_flow/analysis.py:95 | A label that touches every mask occurs in the array. |
| FilterProperties.AllMasksKeptAgainAt | tobac_flow/analysis.py:95-100 | On the multi-mask output, the masks still fit and the all-masks flag of each remaining label is set. |
| FilterProperties.AllMasksKeptAgain | tobac_flow/analysis.py:95-100 | The multi-mask renumbering is gap-free, the masks still fit, and when an object survives, renumbering it again changes nothing. |
| Grouping.CumSumOfCounts | tobac_flow/analysis.py:51 | `cumsum(bincount)[i]` is the number of cells whose label is at most i. |
| Grouping.ArgSortExists | tobac_flow/analysis.py:52 | Every label array has an ordering that `np.argsort` may return: a permutation of the positions listing the labels in nondecreasing order. |
| Grouping.ArgSortPrefix | tobac_flow/analysis.py:52 | The first n positions can be ordered by label, and that ordering is a permutation of 0..n-1. |
| Grouping.InsertByLabel | tobac_flow/analysis.py:52 | Inserting a position after every position whose label is not larger keeps the ordering sorted and adds exactly that position. |
| Grouping.SortedSplit | tobac_flow/analysis.py:51-52 | In a sorted label sequence, position k holds a label `<= v` iff k is below the number of such labels. |
| Grouping.GatherRemove | tobac_flow/analysis.py:53 | Removing one index removes the matching value from the gathered multiset. |
| Grouping.GatherPermutation | tobac_flow/analysis.py:53 | Index sequences with the same multiset gather value sequences with the same multiset. |
| Grouping.Bucket | tobac_flow/analysis.py:51-53 | For an argsort permutation, `args[k]` holds label i+1 iff `bins[i] <= k < bins[i+1]`. |
| Grouping.RunCountAt | tobac_flow/analysis.py:53 | A slice of `args` holding exactly the positions of label l holds each position as often as the positions of l do. |
| Grouping.BucketPositions | tobac_flow/analysis.py:53-54 | `args[bins[i]:bins[i+1]]` is, as a multiset, the set of cells labelled i+1. It is non-empty iff label i+1 occurs. |
| Grouping.RunValues | tobac_flow/analysis.py:53-54 | The field values gathered through a bucket are, as a multiset, those at the cells of label i+1. The guard `bins[i+1] > bins[i]` holds iff the label occurs. |
| Grouping.AllRunResults | tobac_flow/analysis.py:53-54 | For every label, the guarded reduction of its bucket is `None` for an absent label. Otherwise it is the reducer applied to that label's field values. |
| Grouping.ReduceRuns | tobac_flow/analysis.py:53-54 | The list comprehension has max entries. Entry i is `None` when label i+1 is absent, otherwise `func` of that label's values. |
| Grouping.ApplyFuncToLabels | tobac_flow/analysis.py:48-54 | Differing shapes give the error, and only they do. Otherwise entry i is `None` if label i+1 is absent, else `func` of the field values at its cells. Label 0's cells never reach `func`. |
| Grouping.CountReducerIsHistogram | tobac_flow/analysis.py:48-54 | With `len` as the reducer, the result is the histogram of labels 1..max, with `None` where a count is zero. |
| Grouping.PositionsCount | tobac_flow/analysis.py:51 | The number of cells holding label l is its multiplicity in the array. |
| Grouping.ApplyWeightedFuncToLabels | tobac_flow/analysis.py:56-63 | The same error rule. Entry i is `None` or `func` of the (value, weight) pairs at the cells of label i+1. |
| Legacy.Scatter | tobac_flow/analysis.py:124 | `labels.ravel()[args[lo:hi]] = v` writes v at exactly the listed positions and leaves every other cell unchanged. |
| Legacy.RunTargets | tobac_flow/analysis.py:122-124 | During the loop, the bucket of label i+1 holds exactly that label's cells. The guard `bins[i+1] > bins[i]` holds iff the label occurs. |
| Legacy.RunAny | tobac_flow/analysis.py:137 | `np.any(mask.ravel()[bucket])` is true iff the label overlaps the mask. |
| Legacy.MaskDecision | tobac_flow/analysis.py:137 | The legacy keep test equals the vectorised length-and-mask flag of the label. |
| Legacy.MultimaskDecision | tobac_flow/analysis.py:155 | The legacy keep test with `np.all` over the masks equals the multi-mask keep flag of the label. |
| Legacy.Step | tobac_flow/analysis.py:123-127 | With `counter` equal to one plus the number kept so far, the value written for label i+1 is its renumbered label. |
| Legacy.Advance | tobac_flow/analysis.py:121-127 | Writing that value over the bucket of label i+1 extends the relabelled prefix by one label. |
| Legacy.Finish | tobac_flow/analysis.py:128 | After all labels, the array equals the vectorised renumbering of the original. |
| Legacy.RelabelRun | tobac_flow/analysis.py:122-127 | One turn of the loop relabels the next bucket and advances `counter` exactly when the label is kept. |
| Legacy.FilterByLengthLegacy | tobac_flow/analysis.py:116-128 | On a non-empty array the input array is updated in place and returned, and it ends equal to `filter_labels_by_length` of the old contents. |
| Legacy.FilterByLengthAndMaskLegacy | tobac_flow/analysis.py:130-142 | Updated in place and returned. On an array with objects it ends equal to the result of `filter_labels_by_length_and_mask` of the old contents. On a non-empty array without objects the loop does not run, and the array is unchanged (where the vectorised filter raises). |
| Legacy.MultimaskKeepIs | tobac_flow/analysis.py:155 | The legacy multi-mask keep vector is length AND all masks, and just the length test for an empty list (`np.all([])` is true). |
| Legacy.FilterByLengthAndMultimaskLegacy | tobac_flow/analysis.py:145-160 | A non-list argument gives the error and leaves the array untouched, whatever the array. A list updates the array in place and returns it. It ends equal to the result of `filter_labels_by_length_and_multimask` when that succeeds, and is unchanged on a non-empty array without objects. |

## Left out

- `tobac_flow/detection.py`, `src/tobac_flow/utils.py` and `setup.py` are not part of this model. They are the callers, the date helpers and the packaging.
- The statistics helpers of `analysis.py` (lines 162-184 and 205-269) and `get_label_stats` (186-203) are not modelled. They build xarray datasets from floating-point reductions, which this model does not represent.
- The `labeled_comprehension` wrapper (37-46) is not a separate member. The filters' calls to `ndi.labeled_comprehension` with `np.any` are modelled as `Masks.AnyOverlapFlags`, with the empty-index error checked by each filter.
- Some members only define numpy primitives and have no row: `Grouping.Range` is `np.arange`, `Grouping.BinCount` is `np.bincount`, `Grouping.Zip` pairs the field and weight values cell by cell, `Filters.And` is `np.logical_and`, and `Legacy.AllMasksHit` is `np.all` over per-mask `np.any`.
- Some lemmas are generic proof helpers and have no row: `Grouping.GatherConcat`, `Grouping.MultisetCancel`, `Grouping.RangeCount`, `Grouping.IncreasingCount`, `Grouping.SliceCount`, `Grouping.SliceInRange`, `Grouping.CountUpToAdd`, `Grouping.InsertedSorted` and `FilterProperties.CoveredNotLarger`. They state facts about sequences, multisets and sets that the lemmas with rows use.
- Labels are unbounded natural numbers. The array's dtype, integer overflow, negative labels and NaN are not modelled. The `remap` table's dtype is taken to hold every new label.
- Grouping.ApplyFuncToLabels: `np.argsort` is a parameter constrained to be a sorting permutation (`Grouping.ArgSortExists` shows one always exists). Its order inside one label's bucket is not determined, so reducers take the bucket as a multiset, and a reducer that depends on the order inside a bucket is not modelled.
- Grouping.ApplyFuncToLabels: the `np.array(...)` conversion of the result list is not modelled; the result is the list of optional reducer values.
- Grouping.ApplyWeightedFuncToLabels: the `np.array(...)` conversion of the result list is not modelled. For a reducer that returns a sequence, such as `weighted_stats`, an absent label's `None` makes the list ragged; recent numpy versions then raise a ValueError and older ones build an object array. Neither is modelled.
- Grouping.ApplyWeightedFuncToLabels: requires the weights to be at least as long as the labels. It does not model numpy's error when `weights` has another shape.
- Legacy.FilterByLengthLegacy: the argsort permutation is a parameter here too.
- Legacy.FilterByLengthLegacy, Legacy.FilterByLengthAndMaskLegacy and Legacy.FilterByLengthAndMultimaskLegacy: the array is taken to be contiguous. For a non-contiguous array `labels.ravel()` is a copy, the writes are lost and the input comes back unchanged; that case is not modelled.
- The vectorised filters require a non-empty array, because `np.nanmax` raises on an empty one.
- Extents.FindObjectLengths, Filters.LengthKeep and the three legacy filters require a non-empty array (for the multi-mask legacy filter, only when `masks` is a list). `find_objects` takes the maximum of its input, which raises a ValueError on an empty array; that error is not modelled as a value.
- Every filter that computes object lengths (the vectorised length filters and the three legacy filters) requires every label 1..max to occur. For an absent label `find_objects` yields `None`, and `o[0]` raises a TypeError; this error is not modelled.
- Filters.FilterByMask: requires every label 1..max to occur. For an absent label the comprehension's default `None` becomes NaN in a float keep vector. The NaN goes through `cumsum` into the integer table, and the table then holds values numpy does not define; no error is raised. Arrays with gaps are excluded rather than modelling those values. The multi-mask filter (default 0) is modelled on arrays with gaps.
- Remap.RemapLabels: requires one keep flag per label 1..max. With another number of flags, the boolean index at line 31 raises an IndexError, which is not modelled.
- Masks.MaskLabels: requires the mask to have the array's length; numpy broadcasting of other shapes is not modelled.
- Filters.FilterByMask: requires the mask to have the array's length; broadcasting is not modelled.
- Filters.FilterByLengthAndMask: requires the mask to have the array's length; broadcasting is not modelled.
- Filters.FilterByMultimask: requires every mask to have the array's length; broadcasting is not modelled.
- Filters.FilterByLengthAndMultimask: requires every mask to have the array's length; broadcasting is not modelled.
- Legacy.FilterByLengthAndMaskLegacy: requires the mask to have the array's length; broadcasting is not modelled.
- Legacy.FilterByLengthAndMultimaskLegacy: requires every mask to have the array's length; broadcasting is not modelled.
- Masks of non-bool dtype are not modelled: values are taken to be booleans.
