# Analysis pipeline of the experiment dashboard

This project models the analysis engine of the web dashboard. It holds two
components.

- `AnalysisPlot.doPlot` reads one `(params, data)` entry per experiment
  configuration. It folds the user's list of analysis steps over the entries:
  `compare`, `drop`, `best`, `average`, `moving_average`, `merge`, `filter`,
  `log_transform` and `subtract_min`. It then turns every surviving entry into
  a named scatter trace, with error bars when the entry carries a standard
  deviation. The user's layout is deep-defaulted onto the default layout.
- `AnalysisScatter.doPlot` applies only `compare` and `drop` to the
  parameters. It emits one trace whose `x`, `y` and `text` are aligned with
  the configurations.

## Modules

| file | module | what it holds |
|---|---|---|
| `wrappers.dfy` | `Wrappers` | `Option` |
| `parameters.dfy` | `Parameters` | parameter objects as association lists with distinct keys; lodash `pick`, `omit` and `toPairs`/`sortBy`; the canonical group key |
| `grouping.dfy` | `Grouping` | `_u.values(_u.groupBy(...))`, with a reference definition (distinct keys in first-occurrence order, members in list order) |
| `series.dfy` | `Series` | numeric columns (a number or an array); element-wise mean and population variance; scores; the moving-average window; the stable sort by x; the minimum |
| `labels.dfy` | `Labels` | the `k:v` / `", "` label reduction and a reference joiner |
| `documents.dfy` | `Documents` | JSON documents; key-path lookup (`_u.result`); `_u.defaultsDeep` |
| `steps.dfy` | `Steps` | each of the nine step operators on a list of entries, with its properties |
| `analysisplot.dfy` | `AnalysisPlot` | the fold, its stopping behaviour, trace building and the `doPlot` method |
| `analysisscatter.dfy` | `AnalysisScatter` | the scatter's fold, descriptions and the `doPlot` method |
| `averageexample.dfy` | `AverageExample` | a worked example: two seeds averaged with a standard deviation |

## Modelling decisions

- Numbers are `real`. `math.log`, `math.sqrt` and number-to-text conversion
  are parameters: the `AnalysisPlot.Numerics` record, or a `sqrt`/`log`
  argument. Facts about `y_std` are stated as `sqrt` of the population
  variance.
- A column is `Scalar(v)` or `Vector(vs)`. mathjs accepts a single number in
  `mean`, `min`, `log` and `subtract`, and `merge` zips one value per member.
- The fold's state is `AnalysisPlot.Stage`:
  - `Live(entries)`: the two aligned lists.
  - `Unset`: `_u.unzip([])` left `params` and `datas` undefined. A later
    `compare`, `drop`, `average`, `moving_average`, `merge`, `log_transform`
    or `subtract_min` then throws. `best`, `filter` and unknown actions leave
    the lists undefined. The final `_u.zipWith` then gives no traces.
  - `Failed(i)`: step `i` threw.
  - `Unmodelled(i)`: step `i` met input whose result this model does not
    define (see "Left out").
- Error paths of the source are modelled as outcomes, not as preconditions:
  - `average` or `merge` on an empty list;
  - `moving_average` on a non-array `y`, or on a non-empty `y` with a window
    size below one;
  - `subtract_min` with nothing to take the minimum of;
  - a `filter` predicate object with no pairs reached before a match.
- `best` with an unknown score method keeps `grouped` as an object;
  `_u.unzip` of an object is `[]`, so the lists become undefined (`Unset`).
- The steps that overwrite `data.y` or `data[axis]` in place
  (`analysis-plot.ts:106`, `:131`, `:141`) are modelled as building new
  values. Every data object is created fresh per configuration at
  `analysis-plot.ts:40-45` and is never shared, so nothing else observes the
  overwrite.
- Three behaviours of the code that are easy to misread:
  - `best` ties go to the last tied member for `max_*` (the end of a stable
    ascending sort) and to the first for `min_*`.
  - The `average` deviation is the population standard deviation (divided by
    the group size), not the sample deviation.
  - After `subtract_min` the global minimum is `-epsilon`, not `+epsilon`.
- `best` with an `*_auc` score throws when some member's `y` is the empty
  array, because `math.mean([])` throws (`Failed(i)`).

## Model

| member | source | states |
|---|---|---|
| AnalysisPlot.DoPlot | web/imports/client/analysis-plot/analysis-plot.ts:36-162 | reading the series, running the steps and building the traces and layout computes exactly the specification `PlotOf` |
| AnalysisPlot.RunSteps | web/imports/client/analysis-plot/analysis-plot.ts:47-145 | the loop over the steps, which leaves at the first step that throws, computes exactly the fold `Run` |
| AnalysisPlot.RunSnoc | web/imports/client/analysis-plot/analysis-plot.ts:47-145 | the fold over one more step is that step applied to the fold so far |
| AnalysisPlot.Initial | web/imports/client/analysis-plot/analysis-plot.ts:40-46 | one entry per configuration in order: params are `local_config`, x and y are the values at the key paths (`[]` when missing), and there is no deviation; defined iff every series is numeric |
| AnalysisPlot.ToColumn | web/imports/client/analysis-plot/analysis-plot.ts:42-43 | a number reads as a scalar and an all-number array as a vector of the same values; everything else is not numeric |
| AnalysisPlot.Unzipped | web/imports/client/analysis-plot/analysis-plot.ts:75 | the lists become undefined iff the zipped list is empty; otherwise they are the list itself |
| AnalysisPlot.ApplyStep | web/imports/client/analysis-plot/analysis-plot.ts:47-145 | once a step has thrown, later steps change nothing; a new stop carries the index of the step that caused it |
| AnalysisPlot.Run | web/imports/client/analysis-plot/analysis-plot.ts:47-145 | a stop always names a step of the list |
| AnalysisPlot.RunStopped | web/imports/client/analysis-plot/analysis-plot.ts:47-145 | once a prefix of the steps stops, the whole fold ends in that same state |
| AnalysisPlot.RunFailureIsItsStep | web/imports/client/analysis-plot/analysis-plot.ts:47-145 | a stopped fold stopped at step `i`: the steps before `i` ran without stopping, and step `i` on their result gives the final state |
| AnalysisPlot.StepWithoutStd | web/imports/client/analysis-plot/analysis-plot.ts:47-145 | every step other than `average` with `with_std` keeps entries without a deviation |
| AnalysisPlot.RunWithoutStd | web/imports/client/analysis-plot/analysis-plot.ts:47-145 | a fold without an `average` with `with_std` ends with no entry carrying a deviation |
| AnalysisPlot.Render | web/imports/client/analysis-plot/analysis-plot.ts:147-162 | one trace per entry in order: the name is the `k:v` pieces joined by `", "` (`""` for empty params), x and y are the entry's, and error bars are present iff the entry has `y_std`, then equal to it |
| AnalysisPlot.NoStdStepNoErrorBars | web/imports/client/analysis-plot/analysis-plot.ts:154-160 | without an `average` with `with_std`, no trace has error bars |
| AnalysisPlot.AverageStepGivesStd | web/imports/client/analysis-plot/analysis-plot.ts:77-95 | an `average` with `with_std` that leaves live lists gives every entry a deviation |
| AnalysisPlot.AverageWithStdGivesErrorBars | web/imports/client/analysis-plot/analysis-plot.ts:154-160 | when the last step is an `average` with `with_std`, every trace has error bars |
| AnalysisPlot.PlotLayout | web/imports/client/analysis-plot/analysis-plot.ts:191-196 | the layout is the user's layout deep-defaulted onto the defaults, and the defaults themselves when the spec has no layout |
| Steps.CompareOf | web/imports/client/analysis-plot/analysis-plot.ts:48-50 | same number of entries and unchanged data; each entry's params are `Pick` of its old params (ordered as `PickOrder` states); a pair is kept iff its key is listed |
| Steps.DropOf | web/imports/client/analysis-plot/analysis-plot.ts:51-53 | same number of entries and unchanged data; each entry's params are `Omit` of its old params; a pair is kept iff its key is not listed |
| Parameters.Pick | web/imports/client/analysis-plot/analysis-plot.ts:49 | the result has distinct keys, its keys are the object's keys that are listed, and its values are the object's |
| Parameters.PickOrder | web/imports/client/analysis-plot/analysis-plot.ts:49 | the picked pairs come in the order of the listed keys |
| Parameters.PickRestricts | web/imports/client/analysis-plot/analysis-plot.ts:49 | a pair is in the pick iff it is in the object and its key is listed |
| Parameters.Omit | web/imports/client/analysis-plot/analysis-plot.ts:52 | a pair is kept iff its key is not listed; distinct keys stay distinct |
| Parameters.OmitCons | web/imports/client/analysis-plot/analysis-plot.ts:52 | a leading pair stays iff its key is not listed, and the rest is omitted on its own |
| Parameters.OmitAppend | web/imports/client/analysis-plot/analysis-plot.ts:52 | omission works pair by pair, so the object's order is kept |
| Parameters.Lookup | web/imports/client/analysis-plot/analysis-plot.ts:125 | `param[k]` is defined iff `k` is a key, and then it is that key's value |
| Parameters.LookupDistinct | web/imports/client/analysis-plot/analysis-plot.ts:125 | with distinct keys, looking up a pair's key gives the pair's value |
| Parameters.SortByKey | web/imports/client/analysis-plot/analysis-plot.ts:55 | the pairs sorted strictly by key: a permutation of the input |
| Parameters.InsertByKey | web/imports/client/analysis-plot/analysis-plot.ts:55 | inserting a new key into a strictly sorted list keeps it sorted and adds exactly that pair |
| Parameters.StrictlySortedUnique | web/imports/client/analysis-plot/analysis-plot.ts:55 | two strictly key-sorted lists with the same pairs are equal |
| Parameters.SortByKeyPairs | web/imports/client/analysis-plot/analysis-plot.ts:55 | sorting by key keeps exactly the same pairs |
| Parameters.MapEqualIffPairs | web/imports/client/analysis-plot/analysis-plot.ts:55 | with distinct keys, two objects are the same map iff they hold the same pairs |
| Parameters.LessTotal | web/imports/client/analysis-plot/analysis-plot.ts:55 | the key order relates any two distinct keys |
| Parameters.LessTransitive | web/imports/client/analysis-plot/analysis-plot.ts:55 | the key order is transitive |
| Parameters.GroupKeyCanonical | web/imports/client/analysis-plot/analysis-plot.ts:55 | two parameter objects get the same group key iff they are the same map once the step's keys are omitted, whatever their key order |
| Grouping.FirstIndex | web/imports/client/analysis-plot/analysis-plot.ts:55 | the position holds the key and no earlier position does |
| Grouping.Dedupe | web/imports/client/analysis-plot/analysis-plot.ts:55 | the distinct keys: every key occurs, nothing else does, and none occurs twice |
| Grouping.DedupeFirstOccurrence | web/imports/client/analysis-plot/analysis-plot.ts:55 | the distinct keys come in order of first occurrence |
| Grouping.GroupByIsMembers | web/imports/client/analysis-plot/analysis-plot.ts:55 | the buckets are, for each distinct key in first-occurrence order, the elements with that key in list order |
| Grouping.GroupByBuckets | web/imports/client/analysis-plot/analysis-plot.ts:55 | buckets are non-empty, come from the list, share their first member's key, and have distinct keys |
| Grouping.GroupByFirstOccurrence | web/imports/client/analysis-plot/analysis-plot.ts:55 | buckets come in the order in which their keys first occur |
| Grouping.SameKeySameBucket | web/imports/client/analysis-plot/analysis-plot.ts:79 | two elements with one key land in the same bucket |
| Grouping.MembersContain | web/imports/client/analysis-plot/analysis-plot.ts:111 | every element is a member of its own key's bucket |
| Steps.SameGroupIffSameRest | web/imports/client/analysis-plot/analysis-plot.ts:79 | two entries share a group iff their params are the same map once the step's keys are omitted |
| Steps.GroupsFacts | web/imports/client/analysis-plot/analysis-plot.ts:111 | groups are non-empty, their members come from the list and share the group key, and the keys of different groups differ |
| Steps.GroupsCover | web/imports/client/analysis-plot/analysis-plot.ts:111 | every entry is in some group |
| Series.LastMax | web/imports/client/analysis-plot/analysis-plot.ts:59-61 | the last element of the stable ascending sort is at an index with the largest score, and every later index scores strictly less |
| Series.FirstMin | web/imports/client/analysis-plot/analysis-plot.ts:63-64 | the first element of the stable ascending sort is at an index with the smallest score, and every earlier index scores strictly more |
| Steps.WinnerMaximising | web/imports/client/analysis-plot/analysis-plot.ts:58-73 | for `max_final`/`max_auc` the winner is the last member of highest score |
| Steps.WinnerMinimising | web/imports/client/analysis-plot/analysis-plot.ts:58-73 | for `min_final`/`min_auc` the winner is the first member of lowest score |
| Steps.AucUnscored | web/imports/client/analysis-plot/analysis-plot.ts:66-67 | under an `*_auc` score a member has no score iff its `y` is the empty array |
| AnalysisPlot.BestStepOutcome | web/imports/client/analysis-plot/analysis-plot.ts:54-76 | `best` with an `*_auc` score throws iff some member's `y` is the empty array; with every member scored the lists become the groups' best members |
| Steps.BestOfMaximising | web/imports/client/analysis-plot/analysis-plot.ts:54-76 | one entry per group; entry `i` is, unchanged, the last member of group `i` whose score is maximal |
| Steps.BestOfMinimising | web/imports/client/analysis-plot/analysis-plot.ts:54-76 | one entry per group; entry `i` is, unchanged, the first member of group `i` whose score is minimal |
| Steps.BestOfOnePerGroup | web/imports/client/analysis-plot/analysis-plot.ts:54-76 | the chosen entries come from the input, have pairwise distinct group keys, cover every input key, and are empty iff the input is |
| Steps.BestOfInGroups | web/imports/client/analysis-plot/analysis-plot.ts:54-76 | the `i`-th chosen entry is a member of the `i`-th group |
| Steps.AverageOf | web/imports/client/analysis-plot/analysis-plot.ts:77-95 | defined iff every group's members have one shape |
| Steps.AverageOfSpec | web/imports/client/analysis-plot/analysis-plot.ts:77-95 | one entry per group; entry `i`'s params are `Omit` of group `i`'s first member's params; its x and y are the element-wise means of the members' x and y columns; its `y_std` is `sqrt` mapped over the members' element-wise population variance when asked for and absent otherwise; `y[j]` is the members' mean at `j`; `y_std` is present iff asked for, and then `y_std[j]` is `sqrt` of the members' population variance at `j` |
| Steps.AverageOfIdentical | web/imports/client/analysis-plot/analysis-plot.ts:88-90 | a group of identical series averages to that series with a deviation of `sqrt(0)` everywhere |
| AverageExample.SeedsAverage | web/imports/client/analysis-plot/analysis-plot.ts:77-95 | seeds `[1,2,3]` and `[3,2,1]` with `seed` omitted average to `y=[2,2,2]`, `y_std=[1,0,1]` |
| Series.MeanColumns | web/imports/client/analysis-plot/analysis-plot.ts:85-86 | `math.mean(cols, 0)`: the mean of the numbers, or the position-wise mean of the arrays |
| Series.VarianceColumns | web/imports/client/analysis-plot/analysis-plot.ts:89 | the population variance, position by position |
| Series.ColumnsConstant | web/imports/client/analysis-plot/analysis-plot.ts:85-89 | identical members have themselves as their mean and zero variance |
| Series.MeanBounds | web/imports/client/analysis-plot/analysis-plot.ts:104 | a mean lies within the bounds of its values |
| Series.PopVarianceConstant | web/imports/client/analysis-plot/analysis-plot.ts:89 | constant values have zero population variance |
| Series.HalfWidth | web/imports/client/analysis-plot/analysis-plot.ts:100 | `round(w/2) - 1` is the half width `h` with `w == 2h + 1` or `w == 2h + 2` |
| Series.Window | web/imports/client/analysis-plot/analysis-plot.ts:101-104 | the clamped window around `i` holds `y[i]` and at most `2h + 1` values |
| Series.MovingAverageNarrowIsIdentity | web/imports/client/analysis-plot/analysis-plot.ts:99-105 | windows of size 1 or 2 leave a series unchanged |
| Series.MovingAverageWithinRange | web/imports/client/analysis-plot/analysis-plot.ts:99-105 | smoothed values stay within the bounds of the original values |
| Steps.MovingAverageOf | web/imports/client/analysis-plot/analysis-plot.ts:96-109 | defined iff every `y` is an array and the window has size at least 1 or `y` is empty; params, x and `y_std` are kept, `y` keeps its length, and `y[k]` is the mean of the clamped window around `k` |
| Steps.MovingAverageOfNarrow | web/imports/client/analysis-plot/analysis-plot.ts:96-109 | for window sizes 1 and 2 the step is the identity |
| Steps.MovingAverageOfInRange | web/imports/client/analysis-plot/analysis-plot.ts:96-109 | the step never leaves the range of the input values |
| Series.SortPointsSorted | web/imports/client/analysis-plot/analysis-plot.ts:116 | the sorted points have non-decreasing x |
| Series.SortPointsPermutes | web/imports/client/analysis-plot/analysis-plot.ts:116 | the sorted points are a permutation of the input |
| Series.SortPointsStable | web/imports/client/analysis-plot/analysis-plot.ts:116 | points with equal x keep their relative order |
| Series.InsertPointSorted | web/imports/client/analysis-plot/analysis-plot.ts:116 | inserting into x-sorted points keeps them sorted |
| Series.InsertPointAdds | web/imports/client/analysis-plot/analysis-plot.ts:116 | insertion adds exactly the new point |
| Series.InsertPointStable | web/imports/client/analysis-plot/analysis-plot.ts:116 | insertion keeps the points with any one x in order, the new point last among them |
| Steps.PointsOf | web/imports/client/analysis-plot/analysis-plot.ts:116 | each member contributes its single (x, y) point, in member order |
| Steps.MergeOf | web/imports/client/analysis-plot/analysis-plot.ts:110-122 | defined iff every entry is a single point; one entry per group |
| Steps.MergeGroupSpec | web/imports/client/analysis-plot/analysis-plot.ts:112-121 | one group's curve is sorted by x, is a permutation of the members' points, keeps member order among equal x, has no deviation, and its params are `Omit` of the first member's params |
| Steps.MergeOfSpec | web/imports/client/analysis-plot/analysis-plot.ts:110-122 | on the whole list, entry `i` is group `i`'s points as one stably x-sorted curve whose params are `Omit` of its first member's params |
| Steps.AnyMatchIsMatches | web/imports/client/analysis-plot/analysis-plot.ts:124-125 | with non-empty predicate objects, an entry matches iff some predicate's first pair is in its params |
| Steps.FilterOfSingle | web/imports/client/analysis-plot/analysis-plot.ts:125 | one entry is kept iff it matches, and filtering throws iff matching throws |
| Steps.FilterOfAppend | web/imports/client/analysis-plot/analysis-plot.ts:125 | filtering a concatenation concatenates the filtered parts, so survivors keep their order |
| Steps.FilterOfMembers | web/imports/client/analysis-plot/analysis-plot.ts:123-126 | the survivors are exactly the entries that match some predicate |
| Steps.FilterOfFails | web/imports/client/analysis-plot/analysis-plot.ts:124-125 | filtering throws iff some entry reaches a predicate object without pairs |
| Steps.LogTransformOf | web/imports/client/analysis-plot/analysis-plot.ts:127-134 | every element of the named axis becomes `log(1 + v)`; the axis keeps its shape; params, the other axis and `y_std` are kept |
| Series.MinOf | web/imports/client/analysis-plot/analysis-plot.ts:137-138 | the minimum is an element and at most every element |
| Steps.SubtractMinOf | web/imports/client/analysis-plot/analysis-plot.ts:135-144 | defined iff there is at least one entry and every `y` has a minimum |
| Steps.SubtractMinOfSpec | web/imports/client/analysis-plot/analysis-plot.ts:135-144 | every `y` element drops by the same `global_min + 1e-10`; afterwards the global minimum is exactly `-1e-10`; params, x and `y_std` are kept |
| Steps.ShiftYSpec | web/imports/client/analysis-plot/analysis-plot.ts:139-143 | taking `c` off one entry changes only its `y`, element by element, and lowers its minimum by `c` |
| Steps.MinOfShift | web/imports/client/analysis-plot/analysis-plot.ts:140 | shifting every value by `d` shifts the minimum by `d` |
| Labels.Pieces | web/imports/client/analysis-plot/analysis-plot.ts:149 | one `k:v` piece per pair, in the object's key order |
| Labels.LabelIsJoin | web/imports/client/analysis-plot/analysis-plot.ts:149 | the `reduce` builds the pieces joined by `", "`, and `""` for empty params |
| Labels.ReduceNonEmpty | web/imports/client/analysis-plot/analysis-plot.ts:149 | from a non-empty accumulator the reduction appends `", "` and the joined pieces |
| Documents.ResultOr | web/imports/client/analysis-plot/analysis-plot.ts:42-43 | `_u.result(config, path, [])` is the value at the path, or the default when there is none |
| Documents.FieldOfMerged | web/imports/client/analysis-plot/analysis-plot.ts:196 | a key of the merged object holds the user's value merged onto the default's, or the default's when the user has none |
| Documents.UserScalarsWin | web/imports/client/analysis-plot/analysis-plot.ts:196 | a scalar the user set at any depth survives the merge unchanged |
| Documents.DefaultsFillAbsent | web/imports/client/analysis-plot/analysis-plot.ts:196 | a path the user's object lacks reads the default's value after the merge |
| Documents.AbsentIsUndefined | web/imports/client/analysis-plot/analysis-plot.ts:196 | a path the user's object lacks reads as undefined there |
| Documents.NoUserLayout | web/imports/client/analysis-plot/analysis-plot.ts:191-196 | without a user layout the result is the default layout |
| AnalysisScatter.DoScatter | web/imports/client/analysis-scatter/analysis-scatter.ts:36-65 | the loop over the steps computes exactly the specification `ScatterOf` |
| AnalysisScatter.ParamsAfterKeeps | web/imports/client/analysis-scatter/analysis-scatter.ts:47-54 | after the steps, a pair remains iff it was in the configuration's params, every `compare` lists its key and no `drop` does |
| AnalysisScatter.OnlyCompareDropMatter | web/imports/client/analysis-scatter/analysis-scatter.ts:47-54 | removing every step other than `compare` and `drop` gives the same params |
| AnalysisScatter.CompareDropOnly | web/imports/client/analysis-scatter/analysis-scatter.ts:47-54 | the filtered step list holds only `compare` and `drop` steps |
| AnalysisScatter.Descriptions | web/imports/client/analysis-scatter/analysis-scatter.ts:58 | one description per parameter object |
| AnalysisScatter.ScatterTraceAligned | web/imports/client/analysis-scatter/analysis-scatter.ts:56-65 | exactly one trace; x, y and text have one entry per configuration in order; x and y are the values read from the configuration, untouched by the steps; text is the joined `k:v` list (`""` for empty params) |
| Documents.FieldMergeFields | web/imports/client/analysis-scatter/analysis-scatter.ts:91 | a user key of the merged fields holds the user value merged onto the default's |
| Documents.FieldMissingFields | web/imports/client/analysis-scatter/analysis-scatter.ts:91 | a key the user lacks keeps the default's value |

## Left out

- The Angular component wiring, DOM queries and `Plotly.plot` calls are left out. Rendering is a foreign library.
- `savePlot` (Blob, `saveAs`, `JSON.stringify`) is left out. It is file I/O.
- The literal default-layout constants and the `mode`/`marker` styling (`analysis-plot.ts:164-189`, `:198-204`; `analysis-scatter.ts:67-84`, `:93-99`) are left out. They are appearance only, and the default layout is a parameter.
- `math.log`, `math.sqrt` and number-to-text conversion are parameters, not modelled. They are floating-point functions of the host. Numbers are exact reals, so rounding is not modelled.
- Steps.LogTransformOf: does not model the complex results mathjs gives for values below -1, because `log` is an abstract real function.
- Steps.FilterOf: compares by value equality, not JavaScript's loose `==`.
- Documents.Get: key paths are already split at their dots; array indices in paths and `_u.result` calling function-valued properties are not modelled.
- Documents.DefaultsDeep: the user's value wins whenever the two sides are not both objects or both arrays. lodash details beyond that (prototype handling, `undefined` values) are not modelled.
- AnalysisPlot.Initial: a configuration whose x or y is neither a number nor an array of numbers ends the model in `NotNumeric`; the source still plots such series when no step computes on them.
- Parameters.PickOrder, Labels.Pieces: JavaScript enumerates integer-like keys (`"0"`, `"12"`) first and in ascending numeric order; the model keeps insertion order (and `pick`'s listed order) for every key.
- Steps.MovingAverageOf: the model assumes `new_y` (`analysis-plot.ts:99`) is an implicit global assignment, as in sloppy-mode scripts; compiled as strict module code, every `moving_average` over at least one configuration would throw a `ReferenceError`.
- Steps.FilterOf: the predicate test calls the global `_.some` (`analysis-plot.ts:125`), not `_u`; the model assumes `_` is present and behaves as lodash's `some`.
- Values are numbers, strings and booleans. Nested objects as parameter values are not modelled.
- Parameters.Less: keys compare by character code. JavaScript compares strings by UTF-16 units; the two orders agree on the basic multilingual plane.
- Inputs whose result mathjs or lodash defines by coercion end the model's fold as `Unmodelled(i)`, not as a value:
  - `average` over members of different lengths or shapes;
  - `merge` of members whose x or y is an array: an array x makes the sort compare arrays, and an array y with scalar x gives a y that is an array of arrays, which a `Column` cannot hold;
  - `best` with a `*_final` score where some member's `y` is the empty array or a single number, because `y[y.length-1]` is then `undefined` and sorting by `undefined` is not modelled.
- Steps.MovingAverageOf: window sizes are integers; `math.round` of a non-integer half is not modelled.
- Axes other than `x` and `y` in `log_transform` are not modelled.
- `AnalysisPlot.Configuration` holds `local_config` as its own field, next to the record that key paths are resolved in.
