# Cloudflared metrics dashboard — a verified model of its data core

The dashboard reads a JSON-Lines export of cloudflared's Prometheus metrics. It
turns that export into labelled time series and sorts them into seven categories
(Tunnel Health, Network & QUIC, HTTP Responses, Memory & Resources, Process
Metrics, RPC & Registration, Other Metrics). The browser view then filters the
series by time window, by category and by a search query. It collects favourite
charts into their own group and merges a chart's series into rows for plotting.
A chart can show a counter as it was recorded or as deltas between samples. A
metric name with more than fifteen series is split into several charts on one
of its label keys.

The model covers:
- the parser: `parseJSONL`, `getSeriesKey`, `categorizeMetrics`,
  `formatMetricName`, `formatLabels` and `calculateRate`;
- `calculateDelta` of the chart settings;
- the data paths of the dashboard component: time filter, favourites, category
  and search filter, `groupMetricsByBaseName` and `formatMetricTitle`;
- the data paths of the chart component: the delta view, the merged rows, the
  latest values, the drag selection and the two series-label helpers.

## Modules
- `MetricTypes` (`types.dfy`): the records of `src/types/metrics.ts`.
  - A label set is a sequence of key/value pairs with distinct keys, in
    insertion order, as a JavaScript object's entries are.
  - Timestamps are integer milliseconds. Values are reals.
  - The groups record is a sequence of key/group entries.
- `Strings` (`strings.dfy`): the string operations the code uses.
  - `trim` uses ECMAScript's whitespace set.
  - The module also has `split`, `join`, `startsWith`, `includes`,
    `toLowerCase`/`toUpperCase` and a lexicographic order.
- `Buckets` (`buckets.dfy`): grouping by key in order of first appearance. This
  is what every JavaScript `Map` and `Set` the code fills from a loop does.
  - The method `GroupBy` is proved against the functions `Keys` and `Bucket`.
- `ArraySort` (`sorting.dfy`): `Array.prototype.sort`.
  - It is stable, as ECMAScript requires.
  - It is an insertion sort by an integer key, or by label key.
- `MetricsParser` (`metrics_parser.dfy`): `src/utils/metricsParser.ts`.
- `ChartSettings` (`chart_settings.dfy`): `calculateDelta` of
  `src/utils/chartSettings.ts`.
- `ChartUnits` (`chart_units.dfy`): `groupMetricsByBaseName` of
  `src/components/Dashboard.tsx`.
- `Dashboard` (`dashboard.dfy`): the rest of the data handling of
  `src/components/Dashboard.tsx`.
- `MetricChart` (`metric_chart.dfy`): the data handling of
  `src/components/MetricChart.tsx`.

Where the code does its work in a loop, the model has a method with loop
invariants. That method is proved equal to a specification function, and the
properties are lemmas about that function. Where the code is a single
expression, the model is a function.

Where the design description and the code disagree, the model follows the code:
- A chart split on a label key can still hold more than fifteen series. Splitting
  is done once, and the sub-charts are never checked against the threshold.
- A split key that is the empty string counts as "no key" (it is falsy), and the
  chart is not split.
- A label whose value is the empty string lands in the `other` sub-chart, like a
  missing label.
- The series key is not injective: a label value containing `",` can make two
  different label sets share a key. Such series are merged. The model proves only
  that the key does not depend on label order.
- A chart's rows are keyed by `getSeriesLabel`, which keeps insertion order.
  Two series with the same labels in different orders get different columns.
  Two series with equal labels share one column, and the later series wins.

## Model

| member | source | states |
|---|---|---|
| MetricTypes.LabelValue | src/components/Dashboard.tsx:364 | a label lookup succeeds exactly when the key is present, and returns that key's value |
| MetricTypes.PointCountPermutation | src/utils/metricsParser.ts:73 | reordering series does not change the number of points they hold |
| MetricTypes.GroupPointCountFlatten | src/components/Dashboard.tsx:63-67 | the points of all groups are the points of their concatenated series lists |
| Strings.Trim | src/utils/metricsParser.ts:7 | the trimmed string is a slice of the input that neither starts nor ends with whitespace |
| Strings.TrimEmptyIffBlank | src/utils/metricsParser.ts:12 | a line trims to empty exactly when every character is whitespace |
| Strings.JoinSplit | src/utils/metricsParser.ts:7 | splitting on newline and joining back with newline gives the input again |
| Strings.ContainsIffOccurs | src/components/Dashboard.tsx:132 | `includes` holds exactly when the query occurs at some position |
| Strings.LowerIdempotent | src/components/Dashboard.tsx:128 | lower-casing twice is the same as lower-casing once |
| Strings.LessTransitive | src/utils/metricsParser.ts:82 | the label-key order is transitive |
| Strings.LessTotal | src/utils/metricsParser.ts:82 | any two different keys are ordered one way or the other |
| Buckets.KeysMembership | src/utils/metricsParser.ts:26-45 | the keys of a map filled in a loop are exactly the keys of the elements, each once |
| Buckets.BucketsPartition | src/utils/metricsParser.ts:26-45 | the buckets, in key order, hold each element exactly once |
| Buckets.KeysFirstAppearance | src/utils/metricsParser.ts:31-38 | keys come in the order of their first appearance |
| Buckets.GroupBy | src/utils/metricsParser.ts:26-45 | the loop builds exactly the key list and the per-key buckets |
| ArraySort.SortByPermutes | src/utils/metricsParser.ts:48-50 | sorting keeps exactly the same elements |
| ArraySort.SortBySorted | src/utils/metricsParser.ts:49 | the result is in ascending key order |
| ArraySort.SortByStable | src/utils/metricsParser.ts:49 | elements with equal keys keep their relative order |
| ArraySort.SortLabelsAscending | src/utils/metricsParser.ts:81-82 | labels with distinct keys come out strictly ascending by key |
| ArraySort.AscendingUnique | src/utils/metricsParser.ts:81-82 | two key-ascending arrangements of the same labels are identical |
| MetricsParser.SeriesKey | src/utils/metricsParser.ts:80-86 | the key is the bare name without labels, else the name with the key-sorted `k="v"` list joined by "," in braces |
| MetricsParser.SeriesKeyOrderIndependent | src/utils/metricsParser.ts:80-86 | two label sets with the same entries, in any order, give the same key |
| MetricsParser.FormatLabels | src/utils/metricsParser.ts:140-145 | empty exactly when there are no labels; otherwise the `k="v"` entries in insertion order joined by ", " |
| MetricsParser.FormatMetricName | src/utils/metricsParser.ts:131-135 | same length and no underscore left; each underscore becomes a space, a word character that starts a word (at the start, or after an underscore or a non-word character) is upper-cased, and every other character is kept |
| MetricsParser.FormatMetricNameIdempotent | src/utils/metricsParser.ts:131-135 | formatting a formatted name changes nothing |
| MetricsParser.CategoryOf | src/utils/metricsParser.ts:102-119 | a name goes to the first category, in rule order, whose rule it matches |
| MetricsParser.CategorizeMetrics | src/utils/metricsParser.ts:91-126 | the loop and the pruning produce the categorized groups |
| MetricsParser.PresentInRuleOrder | src/utils/metricsParser.ts:122-125 | the groups kept are in the fixed category order |
| MetricsParser.CategorizedKeys | src/utils/metricsParser.ts:122-125 | no group is empty and no key appears twice |
| MetricsParser.CategorizedMembership | src/utils/metricsParser.ts:102-120 | a series sits only in the group of its own category |
| MetricsParser.CategorizedCovers | src/utils/metricsParser.ts:102-120 | every series sits in some group |
| MetricsParser.CategorizedPermutes | src/utils/metricsParser.ts:91-126 | the groups together hold exactly the input series |
| MetricsParser.CategorizedPoints | src/utils/metricsParser.ts:91-126 | categorizing keeps every point |
| MetricsParser.LinesJoin | src/utils/metricsParser.ts:7 | the lines rejoined with newlines are the trimmed content |
| MetricsParser.DecodeAllMembership | src/utils/metricsParser.ts:11-19 | a sample is kept exactly when some non-blank line decodes to it |
| MetricsParser.DecodeLines | src/utils/metricsParser.ts:11-19 | the loop keeps the decodable non-blank lines in order |
| MetricsParser.AssembleSeries | src/utils/metricsParser.ts:26-50 | the map loop and the per-series sort produce the assembled series |
| MetricsParser.AssembledIdentity | src/utils/metricsParser.ts:29-38 | each series takes its key, name, type and labels from the first sample with that key |
| MetricsParser.AssembledDistinct | src/utils/metricsParser.ts:31 | no two series share a key |
| MetricsParser.AssembledPoints | src/utils/metricsParser.ts:40-50 | a series holds exactly its samples' points, sorted by time, with equal times in file order |
| MetricsParser.AssembledPointCount | src/utils/metricsParser.ts:41-44 | the series hold one point per sample |
| MetricsParser.TimeRangeOf | src/utils/metricsParser.ts:56-68 | every sample lies between start and end, and both bounds are attained |
| MetricsParser.ParseJsonl | src/utils/metricsParser.ts:6-75 | fails with "No valid metrics found in file" exactly when no line decodes; otherwise gives the categorized series, a tight time range and the sample count, which equals the points in the groups |
| MetricsParser.CalculateRate | src/utils/metricsParser.ts:150-176 | no result exactly for a non-counter or fewer than two points; otherwise a gauge named `<name>_rate` with the same labels and the rate points |
| MetricsParser.RatePointsMembership | src/utils/metricsParser.ts:156-167 | a rate point exists exactly for a step where time advances and the value does not fall; it sits at the later time, and its value is the increase divided by the gap in seconds |
| MetricsParser.RatePointsBounds | src/utils/metricsParser.ts:156-168 | there are fewer rate points than samples, and none is negative |
| MetricsParser.RatePointsIncreasing | src/utils/metricsParser.ts:156-168 | over time-sorted data the rate points are strictly increasing in time |
| ChartSettings.ClampedDiff | src/utils/chartSettings.ts:56 | the clamp is non-negative, at least the difference, and is either 0 or the difference |
| ChartSettings.CalculateDelta | src/utils/chartSettings.ts:51-64 | returns the input for at most one point, and the deltas otherwise |
| ChartSettings.DeltaOfElements | src/utils/chartSettings.ts:54-62 | one point fewer; each point has the later timestamp and the increase, or 0 after a fall |
| ChartSettings.DeltasNonNegative | src/utils/chartSettings.ts:56 | no delta is negative |
| ChartSettings.DeltasTelescope | src/utils/chartSettings.ts:54-62 | for a counter that never falls, the deltas add up to last minus first |
| ChartUnits.SeenKeysMembership | src/components/Dashboard.tsx:353-354 | the collected label keys are exactly the keys some series carries |
| ChartUnits.FirstSeenKey | src/components/Dashboard.tsx:358 | no key is collected exactly when no series has labels; otherwise the first is the first key of the first labelled series |
| ChartUnits.CollectLabelKeys | src/components/Dashboard.tsx:353-354 | the loop collects the keys in order of first appearance |
| ChartUnits.SplitKeyChoice | src/components/Dashboard.tsx:351-360 | no split at 15 series or fewer; otherwise the earliest preferred key carried, else the first key seen, unless it is empty or missing |
| ChartUnits.ValueOrOther | src/components/Dashboard.tsx:364 | the sub-chart value is the label's value when present and non-empty, otherwise "other" |
| ChartUnits.SplitBucket | src/components/Dashboard.tsx:350-381 | one metric name becomes its charts: one unsplit chart, or one sub-chart per split value in order of first appearance |
| ChartUnits.GroupMetricsByBaseName | src/components/Dashboard.tsx:334-385 | the two loops produce the charts of every name, in order of first appearance |
| ChartUnits.ChartUnitsPartition | src/components/Dashboard.tsx:334-385 | the charts together hold exactly the input series |
| ChartUnits.ChartUnitsShape | src/components/Dashboard.tsx:362-381 | every chart is non-empty, holds one metric name only, and its title starts with that name |
| ChartUnits.BucketUnitsShape | src/components/Dashboard.tsx:362-381 | a chart of one name is non-empty and its title starts with the name; unsplit, it is the whole bucket under the bare name; split, it holds exactly the series whose `name (key="value")` title it bears |
| Dashboard.FilterPointsMembership | src/components/Dashboard.tsx:40-43 | a point is kept exactly when it lies in the closed window |
| Dashboard.FilterPointsTwice | src/components/Dashboard.tsx:38-44 | filtering by two windows is filtering by their intersection |
| Dashboard.FilterByTime | src/components/Dashboard.tsx:37-75 | the window becomes the time range; a group is kept exactly when points remain, as the filtered form of an input group; the groups kept are in input order; distinct keys stay distinct; the total is the points left, no more than before |
| Dashboard.FilterSeriesListOrder | src/components/Dashboard.tsx:48-50 | the series a group keeps are in their input order |
| Dashboard.FilterGroupsOrder | src/components/Dashboard.tsx:46-61 | the groups kept are in their input order |
| Dashboard.FilteredSeriesInWindow | src/components/Dashboard.tsx:46-61 | every series left is non-empty and lies within the window |
| Dashboard.FilterGroupsAll | src/components/Dashboard.tsx:46-61 | a window covering every point leaves groups of non-empty series as they were |
| Dashboard.FormatMetricTitle | src/components/Dashboard.tsx:390-394 | a chart title is formatted like a metric name: underscores become spaces, word-initial characters are upper-cased, the rest is kept; formatting it again changes nothing |
| Dashboard.FavoritesGroup | src/components/Dashboard.tsx:80-107 | the loops build the favorites group |
| Dashboard.FavoriteSeriesMembership | src/components/Dashboard.tsx:87-99 | a series is a favourite exactly when it is in a chart, of some group, whose title is a favourite |
| Dashboard.FavoritesOfSpec | src/components/Dashboard.tsx:80-107 | no group when the list is empty or nothing matches; otherwise the group keyed `favorites`, named `Favorites`, with exactly the favourite series |
| Dashboard.WithKey | src/components/Dashboard.tsx:115 | the entries kept are exactly those with the selected key |
| Dashboard.GroupsToFilterCases | src/components/Dashboard.tsx:110-122 | `all` shows every group, led by the favorites group; `favorites` shows only that group; other keys select by key |
| Dashboard.MatchingSeries | src/components/Dashboard.tsx:131-133 | a series is kept exactly when its lower-cased name contains the query |
| Dashboard.SearchFilterSpec | src/components/Dashboard.tsx:118-137 | a blank query changes nothing; otherwise a group is kept exactly when some of its series match |
| Dashboard.SearchIgnoresCase | src/components/Dashboard.tsx:128-136 | a query and its lower-cased form select the same series |
| Dashboard.DashboardViewShown | src/components/Dashboard.tsx:37-137 | every series on screen is the time-filtered form of a series of some input group, non-empty and inside the window, and under a non-blank query its lower-cased name contains the lower-cased query |
| MetricChart.GetSeriesLabel | src/components/MetricChart.tsx:614-620 | the bare name without labels; otherwise the name with the insertion-order labels joined by ", " in braces |
| MetricChart.SeriesLabelIsKey | src/components/MetricChart.tsx:614-620 | with at most one label, the chart label equals the series key |
| MetricChart.PresentLabels | src/components/MetricChart.tsx:627-628 | exactly the labels whose keys are in the important list, in the order of that list |
| MetricChart.GetShortSeriesLabel | src/components/MetricChart.tsx:622-642 | the important labels in list order if any; else the first two labels; else the name |
| MetricChart.ProcessedSeries | src/components/MetricChart.tsx:81-91 | series keep their identity; data becomes deltas only in delta mode for a counter chart, and is unchanged otherwise |
| MetricChart.AllTimesMembership | src/components/MetricChart.tsx:94-97 | a timestamp is collected exactly when some series has a point there |
| MetricChart.ValueAt | src/components/MetricChart.tsx:109-111 | a cell has a value exactly when the series has a point at that time, namely the first such point's value |
| MetricChart.ChartData | src/components/MetricChart.tsx:94-115 | the loops build one row per distinct timestamp, sorted, with its cells |
| MetricChart.RowTimes | src/components/MetricChart.tsx:94-115 | rows are strictly ascending in time, with one row for each timestamp some series has, and none other |
| MetricChart.RowCellsDomain | src/components/MetricChart.tsx:108-112 | a row has a cell for exactly the labels of the series |
| MetricChart.RowCellsSpec | src/components/MetricChart.tsx:108-112 | a label's cell holds the value of the last series with that label |
| MetricChart.LatestValues | src/components/MetricChart.tsx:118-132 | the loop builds the latest-value map |
| MetricChart.LatestOfSpec | src/components/MetricChart.tsx:118-132 | a label has a latest value exactly when some series with it has points |
| MetricChart.LatestOfValue | src/components/MetricChart.tsx:120-129 | the value is the last point of the last non-empty series with that label |
| MetricChart.FindRow | src/components/MetricChart.tsx:185-186 | the index found is the first row with that time; none exactly when no row has it |
| MetricChart.SelectRangeReported | src/components/MetricChart.tsx:182-201 | a range is reported exactly when both ends are set, a callback exists and both ends name rows |
| MetricChart.SelectRangeSymmetric | src/components/MetricChart.tsx:182-201 | the range is the same whichever way the drag went |
| MetricChart.SelectRangeEnds | src/components/MetricChart.tsx:182-201 | a reported range's ends are the times of the two rows named; over time-ordered rows it starts no later than it ends |

## Left out
- `JSON.parse` is not modelled. The decoder is a parameter that maps a line to
  a sample or to nothing. The source does no field validation: the parse result
  is only cast to a sample. In the model, "decodes to a sample" stands for
  "parses as JSON and has the shape of a sample". A line that is not JSON is
  "nothing", which matches the `catch` branch that skips it.
- MetricsParser.ParseJsonl: a line that parses as JSON but does not have a
  sample's shape (`{}`, `1`, `null`) is kept by the source, and `parseJSONL`
  then throws a TypeError, from `sample.name` or from `Object.entries` of
  missing labels. That crash is not modelled. The contract's "fails exactly
  when no line decodes" holds only for inputs whose JSON lines all have a
  sample's shape.
- `console.error` logging is left out.
- `new Date(sample.timestamp)` is not modelled. Samples carry integer
  milliseconds, so an unparsable date (NaN) cannot be expressed.
- Values are exact reals. NaN, Infinity, `null` and floating-point rounding are
  not modelled.
- MetricsParser.RatePointsMembership: the rate is exact real division, not
  floating point.
- MetricsParser.TimeRangeOf: it starts from the first sample instead of ±Infinity.
  That gives the same result, because it requires at least one sample and the
  parser throws before reaching it otherwise.
- `localeCompare` is modelled as lexicographic order on Unicode code points
  (Dafny characters). Locale collation rules are not modelled, and neither is
  UTF-16 code-unit order, which differs from code-point order when a character
  outside the Basic Multilingual Plane meets one in U+E000–U+FFFF.
- `toLowerCase` and `toUpperCase` are modelled on ASCII letters only.
- The `\b\w` regex of `formatMetricName` uses ASCII word characters, as in
  JavaScript.
- JavaScript objects list integer-like keys first, and `labels[k]` can see
  `Object.prototype` members. Neither is modelled: label sets and the groups
  record keep plain insertion order.
- ChartSettings.CalculateDelta: for at most one point it returns the same array
  object. The model returns an equal value and does not model aliasing.
- MetricChart.ChartData: the row keys `timestamp` and `time` can collide with a
  series label of that name. This is not modelled; cells are kept apart from the
  row's own fields.
- `toLocaleTimeString` is a parameter of `ChartData`.
- `seriesLatestValues` skips `null` and `undefined` values. Values are never
  missing in the model, so a series' latest value is its last point's.
- Everything else is left out: React state and rendering, `localStorage`
  favourites and chart settings, CSV export, the table modal, the upload
  component, the time-range picker, `formatBytes`/`formatDuration`/`formatValue`,
  the metric descriptions and the worker. None of them changes the data the
  model covers.
- The parser's `seriesMap` fills series in place. The model builds the same
  series with `GroupBy`: first-appearance keys, then the per-key samples in
  order. Mutation of the shared sample objects is not modelled.
- `MetricChart` returns `null` for an empty series list. `ProcessedSeries`
  handles that case by returning the empty list unchanged.
