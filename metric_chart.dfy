/** The data helpers of src/components/MetricChart.tsx: series labels, the delta view,
    the merge of all series into chart rows, latest values and the drag selection. */
module MetricChart {
  import opened MetricTypes
  import opened Strings
  import opened Buckets
  import opened ArraySort
  import opened MetricsParser
  import opened ChartSettings

  // ---------------------------------------------------------------------------
  // Series labels
  // ---------------------------------------------------------------------------

  /** `getSeriesLabel`: the name, followed by the labels in braces when there are any. */
  function GetSeriesLabel(s: Series): (r: string)
    ensures s.labels == [] ==> r == s.name
    ensures s.labels != [] ==> r == s.name + "{" + Join(RenderLabels(s.labels), ", ") + "}"
  {
    var labels := FormatLabels(s.labels);
    if labels != [] then s.name + "{" + labels + "}" else s.name
  }

  /** With at most one label the chart label coincides with the series key. */
  lemma SeriesLabelIsKey(s: Series)
    requires |s.labels| <= 1
    ensures GetSeriesLabel(s) == SeriesKey(s.name, s.labels)
  {
    if |s.labels| == 1 {
      assert SortLabels(s.labels) == InsertLabel(s.labels[0], []);
    }
  }

  /** The keys shown first in a legend entry, in this order. */
  const ImportantKeys: seq<string> := ["frame_type", "conn_index", "le", "quantile", "code", "method", "handler"]

  /** The labels with the keys `keys` that are present, in the order of `keys`. */
  function PresentLabels(ls: Labels, keys: seq<string>): (r: seq<(string, string)>)
    ensures forall e :: e in r <==> e.0 in keys && e in ls
    ensures forall i, j :: 0 <= i < j < |r| ==> KeyOrder(keys, r[i].0, r[j].0)
  {
    if keys == [] then []
    else
      var rest := PresentLabels(ls, keys[1..]);
      match LabelValue(ls, keys[0])
      case Some(v) => PresentLabelsCons(keys, v, rest); [(keys[0], v)] + rest
      case None => PresentLabelsSkip(keys, rest); rest
  }

  /** Key `a` occurs in `keys` before key `b`. */
  predicate KeyOrder(keys: seq<string>, a: string, b: string) {
    exists m, n :: 0 <= m < n < |keys| && keys[m] == a && keys[n] == b
  }

  lemma PresentLabelsSkip(keys: seq<string>, rest: seq<(string, string)>)
    requires keys != []
    requires forall i, j :: 0 <= i < j < |rest| ==> KeyOrder(keys[1..], rest[i].0, rest[j].0)
    ensures forall i, j :: 0 <= i < j < |rest| ==> KeyOrder(keys, rest[i].0, rest[j].0)
  {
    forall i, j | 0 <= i < j < |rest| ensures KeyOrder(keys, rest[i].0, rest[j].0) {
      assert KeyOrder(keys[1..], rest[i].0, rest[j].0);
      var m, n :| 0 <= m < n < |keys[1..]| && keys[1..][m] == rest[i].0 && keys[1..][n] == rest[j].0;
      assert keys[m + 1] == rest[i].0 && keys[n + 1] == rest[j].0;
    }
  }

  lemma PresentLabelsCons(keys: seq<string>, v: string, rest: seq<(string, string)>)
    requires keys != []
    requires forall e :: e in rest ==> e.0 in keys[1..]
    requires forall i, j :: 0 <= i < j < |rest| ==> KeyOrder(keys[1..], rest[i].0, rest[j].0)
    ensures forall i, j :: 0 <= i < j < |[(keys[0], v)] + rest| ==>
              KeyOrder(keys, ([(keys[0], v)] + rest)[i].0, ([(keys[0], v)] + rest)[j].0)
  {
    PresentLabelsSkip(keys, rest);
    var r := [(keys[0], v)] + rest;
    forall i, j | 0 <= i < j < |r| ensures KeyOrder(keys, r[i].0, r[j].0) {
      if i == 0 {
        assert r[j] == rest[j - 1] && r[j] in rest;
        var n :| 0 <= n < |keys[1..]| && keys[1..][n] == r[j].0;
        assert keys[0] == r[0].0 && keys[n + 1] == r[j].0;
      } else {
        assert r[i] == rest[i - 1] && r[j] == rest[j - 1];
      }
    }
  }

  /** `getShortSeriesLabel`: the important labels present, in the order of the
      important keys; failing that the first two labels; failing that the name. */
  function GetShortSeriesLabel(s: Series): (r: string)
    ensures r != [] || s.name == []
    ensures PresentLabels(s.labels, ImportantKeys) != [] ==>
              r == Join(RenderLabels(PresentLabels(s.labels, ImportantKeys)), ", ")
    ensures PresentLabels(s.labels, ImportantKeys) == [] && s.labels != [] ==>
              r == Join(RenderLabels(s.labels[..if |s.labels| < 2 then |s.labels| else 2]), ", ")
    ensures s.labels == [] ==> r == s.name
  {
    var important := Join(RenderLabels(PresentLabels(s.labels, ImportantKeys)), ", ");
    var firstTwo := s.labels[..if |s.labels| < 2 then |s.labels| else 2];
    var allLabels := Join(RenderLabels(firstTwo), ", ");
    ShortLabelPieces(s);
    if important != [] then important
    else if allLabels != [] then allLabels
    else s.name
  }

  lemma ShortLabelPieces(s: Series)
    ensures PresentLabels(s.labels, ImportantKeys) != [] ==>
              Join(RenderLabels(PresentLabels(s.labels, ImportantKeys)), ", ") != []
    ensures PresentLabels(s.labels, ImportantKeys) == [] ==> forall i :: 0 <= i < |s.labels| ==> s.labels[i].0 !in ImportantKeys
    ensures s.labels != [] ==> Join(RenderLabels(s.labels[..if |s.labels| < 2 then |s.labels| else 2]), ", ") != []
  {
    if PresentLabels(s.labels, ImportantKeys) != [] {
      JoinNonEmpty(RenderLabels(PresentLabels(s.labels, ImportantKeys)), ", ");
    } else {
      forall i | 0 <= i < |s.labels| ensures s.labels[i].0 !in ImportantKeys {
        assert s.labels[i] !in PresentLabels(s.labels, ImportantKeys);
      }
    }
    if s.labels != [] {
      JoinNonEmpty(RenderLabels(s.labels[..if |s.labels| < 2 then |s.labels| else 2]), ", ");
    }
  }

  // ---------------------------------------------------------------------------
  // The delta view
  // ---------------------------------------------------------------------------

  datatype ViewMode = Cumulative | Delta

  /** `processedSeries`: the delta of every series, but only for a counter chart (judged
      by its first series) in delta mode; otherwise the series as they are. */
  function ProcessedSeries(series: seq<Series>, viewMode: ViewMode): (r: seq<Series>)
    ensures |r| == |series|
    ensures forall i :: 0 <= i < |series| ==>
              r[i].name == series[i].name && r[i].kind == series[i].kind && r[i].labels == series[i].labels
    ensures (series == [] || series[0].kind != Counter || viewMode == Cumulative) ==> r == series
    ensures series != [] && series[0].kind == Counter && viewMode == Delta ==>
              forall i :: 0 <= i < |series| ==> r[i].data == DeltaOf(series[i].data)
  {
    if series == [] || series[0].kind != Counter || viewMode == Cumulative then series
    else seq(|series|, i requires 0 <= i < |series| => series[i].(data := DeltaOf(series[i].data)))
  }

  // ---------------------------------------------------------------------------
  // Chart rows
  // ---------------------------------------------------------------------------

  function TimeOf(p: Point): int {
    p.timestamp
  }

  function IntId(t: int): int {
    t
  }

  /** The timestamps of the points, in order. */
  function PointTimes(data: seq<Point>): (ts: seq<int>)
    ensures |ts| == |data| && forall i :: 0 <= i < |data| ==> ts[i] == data[i].timestamp
  {
    if data == [] then [] else PointTimes(data[..|data| - 1]) + [data[|data| - 1].timestamp]
  }

  /** Every timestamp of every series, series by series. */
  function AllTimes(ss: seq<Series>): seq<int> {
    if ss == [] then [] else AllTimes(ss[..|ss| - 1]) + PointTimes(ss[|ss| - 1].data)
  }

  /** Some series has a point at `t`. */
  predicate HasTimestamp(ss: seq<Series>, t: int) {
    exists i, j :: 0 <= i < |ss| && 0 <= j < |ss[i].data| && ss[i].data[j].timestamp == t
  }

  lemma {:induction false} AllTimesMembership(ss: seq<Series>, t: int)
    ensures t in AllTimes(ss) <==> HasTimestamp(ss, t)
  {
    if ss != [] {
      var init, s := ss[..|ss| - 1], ss[|ss| - 1];
      AllTimesMembership(init, t);
      if t in PointTimes(s.data) {
        var j :| 0 <= j < |s.data| && PointTimes(s.data)[j] == t;
        assert ss[|ss| - 1].data[j].timestamp == t;
      }
      if HasTimestamp(ss, t) {
        var i, j :| 0 <= i < |ss| && 0 <= j < |ss[i].data| && ss[i].data[j].timestamp == t;
        if i < |init| {
          assert init[i] == ss[i];
        } else {
          assert PointTimes(s.data)[j] == t;
        }
      }
      if HasTimestamp(init, t) {
        var i, j :| 0 <= i < |init| && 0 <= j < |init[i].data| && init[i].data[j].timestamp == t;
        assert ss[i] == init[i];
      }
    }
  }

  /** `allTimestamps`: the distinct timestamps, in order of insertion into the set. */
  function DistinctTimes(ss: seq<Series>): seq<int> {
    Keys(AllTimes(ss), IntId)
  }

  /** `sortedTimestamps`. */
  function SortedTimes(ss: seq<Series>): seq<int> {
    SortBy(DistinctTimes(ss), IntId)
  }

  /** `s.data.find((d) => d.timestamp.getTime() === ts)?.value ?? null`. */
  function ValueAt(data: seq<Point>, t: int): (r: Option<real>)
    ensures r.Some? <==> exists j :: 0 <= j < |data| && data[j].timestamp == t
    ensures r.Some? ==> var j := FirstIndex(data, TimeOf, t);
                        j < |data| && r.value == data[j].value
  {
    var j := FirstIndex(data, TimeOf, t);
    if j < |data| then Some(data[j].value) else None
  }

  /** One row of `chartData`: its timestamp, its formatted time and one cell per series
      label. */
  datatype Row = Row(timestamp: int, time: string, cells: map<string, Option<real>>)

  /** The cells at `t` of the series, each under the label `labelOf` gives it; a later
      series with the same label overwrites. */
  function CellsBy(ss: seq<Series>, t: int, labelOf: Series -> string): map<string, Option<real>> {
    if ss == [] then map[]
    else
      var s := ss[|ss| - 1];
      CellsBy(ss[..|ss| - 1], t, labelOf)[labelOf(s) := ValueAt(s.data, t)]
  }

  /** The cells of the row at `t`, under each series' chart label. */
  function RowCells(ss: seq<Series>, t: int): map<string, Option<real>> {
    CellsBy(ss, t, GetSeriesLabel)
  }

  function RowsFor(ss: seq<Series>, ts: seq<int>, timeOf: int -> string): (rows: seq<Row>)
    ensures |rows| == |ts|
    ensures forall i :: 0 <= i < |ts| ==> rows[i] == Row(ts[i], timeOf(ts[i]), RowCells(ss, ts[i]))
  {
    if ts == [] then [] else RowsFor(ss, ts[..|ts| - 1], timeOf) + [Row(ts[|ts| - 1], timeOf(ts[|ts| - 1]), RowCells(ss, ts[|ts| - 1]))]
  }

  /** What `chartData` holds; `timeOf` stands for `toLocaleTimeString`. */
  function ChartRowsOf(ss: seq<Series>, timeOf: int -> string): seq<Row> {
    RowsFor(ss, SortedTimes(ss), timeOf)
  }

  /** The `allTimestamps` loop for one series. */
  method AddTimes(seen0: seq<int>, ghost before: seq<int>, data: seq<Point>) returns (seen: seq<int>)
    requires seen0 == Keys(before, IntId)
    ensures seen == Keys(before + PointTimes(data), IntId)
  {
    seen := seen0;
    assert before + PointTimes(data[..0]) == before;
    for j := 0 to |data|
      invariant seen == Keys(before + PointTimes(data[..j]), IntId)
    {
      var t := data[j].timestamp;
      PointTimesSnoc(before, data, j);
      KeysSnoc(before + PointTimes(data[..j]), t, IntId);
      if t !in seen {
        seen := seen + [t];
      }
    }
    assert data[..|data|] == data;
  }

  lemma PointTimesSnoc(before: seq<int>, data: seq<Point>, j: nat)
    requires j < |data|
    ensures before + PointTimes(data[..j + 1]) == (before + PointTimes(data[..j])) + [data[j].timestamp]
  {
    assert data[..j + 1][..j] == data[..j];
    assert PointTimes(data[..j + 1]) == PointTimes(data[..j]) + [data[j].timestamp];
  }

  /** The cells loop of one row. */
  method FillRow(ss: seq<Series>, t: int) returns (cells: map<string, Option<real>>)
    ensures cells == RowCells(ss, t)
  {
    cells := map[];
    for i := 0 to |ss|
      invariant cells == CellsBy(ss[..i], t, GetSeriesLabel)
    {
      assert ss[..i + 1][..i] == ss[..i];
      cells := cells[GetSeriesLabel(ss[i]) := ValueAt(ss[i].data, t)];
    }
    assert ss[..|ss|] == ss;
  }

  /** The `allTimestamps` set: every timestamp of every series, each once, in order of
      insertion. */
  method CollectTimestamps(ss: seq<Series>) returns (allTimestamps: seq<int>)
    ensures allTimestamps == DistinctTimes(ss)
  {
    allTimestamps := [];
    for i := 0 to |ss|
      invariant allTimestamps == Keys(AllTimes(ss[..i]), IntId)
    {
      assert ss[..i + 1][..i] == ss[..i];
      allTimestamps := AddTimes(allTimestamps, AllTimes(ss[..i]), ss[i].data);
    }
    assert ss[..|ss|] == ss;
  }

  /** One row per timestamp, in the order given. */
  method BuildRows(ss: seq<Series>, ts: seq<int>, timeOf: int -> string) returns (rows: seq<Row>)
    ensures rows == RowsFor(ss, ts, timeOf)
  {
    rows := [];
    for i := 0 to |ts|
      invariant rows == RowsFor(ss, ts[..i], timeOf)
    {
      var t := ts[i];
      var cells := FillRow(ss, t);
      assert ts[..i + 1][..i] == ts[..i];
      rows := rows + [Row(t, timeOf(t), cells)];
    }
    assert ts[..|ts|] == ts;
  }

  /** `chartData`: the distinct timestamps of all series, sorted, one row each. */
  method ChartData(ss: seq<Series>, timeOf: int -> string) returns (rows: seq<Row>)
    ensures rows == ChartRowsOf(ss, timeOf)
  {
    var allTimestamps := CollectTimestamps(ss);
    var sortedTimestamps := SortBy(allTimestamps, IntId);
    rows := BuildRows(ss, sortedTimestamps, timeOf);
  }

  lemma {:induction false} DistinctAtMostOnce(a: seq<int>, x: int)
    requires forall i, j :: 0 <= i < j < |a| ==> a[i] != a[j]
    ensures multiset(a)[x] <= 1
  {
    if a != [] {
      assert a == [a[0]] + a[1..];
      DistinctAtMostOnce(a[1..], x);
      if a[0] == x {
        assert x !in a[1..];
      }
    }
  }

  lemma TwiceCounted(b: seq<int>, i: nat, j: nat)
    requires i < j < |b| && b[i] == b[j]
    ensures multiset(b)[b[i]] >= 2
  {
    assert b == b[..i] + [b[i]] + b[i + 1..j] + [b[j]] + b[j + 1..];
  }

  /** The sorted timestamps are strictly ascending: each distinct timestamp once. */
  lemma SortedTimesAscending(ss: seq<Series>)
    ensures var ts := SortedTimes(ss);
            forall i, j :: 0 <= i < j < |ts| ==> ts[i] < ts[j]
  {
    var d := DistinctTimes(ss);
    var ts := SortedTimes(ss);
    SortBySorted(d, IntId);
    SortByPermutes(d, IntId);
    forall i, j | 0 <= i < j < |ts| ensures ts[i] < ts[j] {
      assert IntId(ts[i]) <= IntId(ts[j]);
      if ts[i] == ts[j] {
        TwiceCounted(ts, i, j);
        DistinctAtMostOnce(d, ts[i]);
      }
    }
  }

  /** A timestamp is among the sorted ones exactly when some series has a point there. */
  lemma SortedTimesMembership(ss: seq<Series>, t: int)
    ensures t in SortedTimes(ss) <==> HasTimestamp(ss, t)
  {
    var d := DistinctTimes(ss);
    SortByPermutes(d, IntId);
    KeysMembership(AllTimes(ss), IntId, t);
    AllTimesMembership(ss, t);
    assert t in SortedTimes(ss) <==> t in multiset(SortedTimes(ss));
    assert t in d <==> t in multiset(d);
  }

  /** The rows are in strictly ascending time order and there is one for each timestamp
      that some series has, and no other. */
  lemma RowTimes(ss: seq<Series>, timeOf: int -> string)
    ensures var rows := ChartRowsOf(ss, timeOf);
            && (forall i, j :: 0 <= i < j < |rows| ==> rows[i].timestamp < rows[j].timestamp)
            && (forall t :: (exists i :: 0 <= i < |rows| && rows[i].timestamp == t) <==> HasTimestamp(ss, t))
  {
    var ts := SortedTimes(ss);
    var rows := ChartRowsOf(ss, timeOf);
    assert forall i :: 0 <= i < |rows| ==> rows[i].timestamp == ts[i];
    SortedTimesAscending(ss);
    forall t ensures (exists i :: 0 <= i < |rows| && rows[i].timestamp == t) <==> HasTimestamp(ss, t) {
      SortedTimesMembership(ss, t);
      if t in ts {
        var i :| 0 <= i < |ts| && ts[i] == t;
        assert rows[i].timestamp == t;
      }
    }
  }

  /** Series `i` of `ss` is shown under `key` by `labelOf`. */
  predicate LabelledBy(ss: seq<Series>, i: int, key: string, labelOf: Series -> string) {
    0 <= i < |ss| && labelOf(ss[i]) == key
  }

  /** Series `i` of `ss` has the chart label `key`. */
  predicate LabelledAt(ss: seq<Series>, i: int, key: string) {
    LabelledBy(ss, i, key, GetSeriesLabel)
  }

  lemma {:induction false} CellsByDomain(ss: seq<Series>, t: int, key: string, labelOf: Series -> string)
    ensures key in CellsBy(ss, t, labelOf) <==> exists i :: LabelledBy(ss, i, key, labelOf)
  {
    if ss != [] {
      var n := |ss| - 1;
      var init := ss[..n];
      CellsByDomain(init, t, key, labelOf);
      if key in CellsBy(ss, t, labelOf) {
        if key == labelOf(ss[n]) {
          assert LabelledBy(ss, n, key, labelOf);
        } else {
          var i :| LabelledBy(init, i, key, labelOf);
          assert ss[i] == init[i];
          assert LabelledBy(ss, i, key, labelOf);
        }
      }
      if exists i :: LabelledBy(ss, i, key, labelOf) {
        var i :| LabelledBy(ss, i, key, labelOf);
        if i < n {
          assert init[i] == ss[i];
          assert LabelledBy(init, i, key, labelOf);
        }
      }
    }
  }

  lemma {:induction false} CellsByLast(ss: seq<Series>, t: int, i: nat, labelOf: Series -> string)
    requires i < |ss|
    requires forall j :: i < j ==> !LabelledBy(ss, j, labelOf(ss[i]), labelOf)
    ensures labelOf(ss[i]) in CellsBy(ss, t, labelOf)
    ensures CellsBy(ss, t, labelOf)[labelOf(ss[i])] == ValueAt(ss[i].data, t)
  {
    var n := |ss| - 1;
    var init := ss[..n];
    var key := labelOf(ss[i]);
    if i < n {
      assert init[i] == ss[i];
      forall j | i < j ensures !LabelledBy(init, j, key, labelOf) {
        if j < |init| {
          assert init[j] == ss[j];
          assert !LabelledBy(ss, j, key, labelOf);
        }
      }
      CellsByLast(init, t, i, labelOf);
      assert !LabelledBy(ss, n, key, labelOf);
    }
  }

  /** A row has a cell for exactly the labels of the series. */
  lemma RowCellsDomain(ss: seq<Series>, t: int, key: string)
    ensures key in RowCells(ss, t) <==> exists i :: LabelledAt(ss, i, key)
  {
    CellsByDomain(ss, t, key, GetSeriesLabel);
    if key in RowCells(ss, t) {
      var i :| LabelledBy(ss, i, key, GetSeriesLabel);
      assert LabelledAt(ss, i, key);
    }
    if exists i :: LabelledAt(ss, i, key) {
      var i :| LabelledAt(ss, i, key);
      assert LabelledBy(ss, i, key, GetSeriesLabel);
    }
  }

  /** The cell of a label holds the value of the first point at the row's time of the
      last series with that label, or nothing when that series has no point there. */
  lemma RowCellsSpec(ss: seq<Series>, t: int, i: nat)
    requires i < |ss|
    requires forall j :: i < j ==> !LabelledAt(ss, j, GetSeriesLabel(ss[i]))
    ensures GetSeriesLabel(ss[i]) in RowCells(ss, t)
    ensures RowCells(ss, t)[GetSeriesLabel(ss[i])] == ValueAt(ss[i].data, t)
  {
    var key := GetSeriesLabel(ss[i]);
    forall j | i < j ensures !LabelledBy(ss, j, key, GetSeriesLabel) {
      assert !LabelledAt(ss, j, key);
    }
    CellsByLast(ss, t, i, GetSeriesLabel);
  }

  // ---------------------------------------------------------------------------
  // Latest values
  // ---------------------------------------------------------------------------

  /** The value of the last point of the last non-empty series under each label
      `labelOf` gives. */
  function LatestBy(ss: seq<Series>, labelOf: Series -> string): map<string, real> {
    if ss == [] then map[]
    else
      var s := ss[|ss| - 1];
      var m := LatestBy(ss[..|ss| - 1], labelOf);
      if s.data == [] then m else m[labelOf(s) := s.data[|s.data| - 1].value]
  }

  /** What `seriesLatestValues` holds, under each series' chart label. */
  function LatestOf(ss: seq<Series>): map<string, real> {
    LatestBy(ss, GetSeriesLabel)
  }

  /** `seriesLatestValues`. */
  method LatestValues(ss: seq<Series>) returns (values: map<string, real>)
    ensures values == LatestOf(ss)
  {
    values := map[];
    for i := 0 to |ss|
      invariant values == LatestBy(ss[..i], GetSeriesLabel)
    {
      assert ss[..i + 1][..i] == ss[..i];
      var data := ss[i].data;
      if |data| > 0 {
        values := values[GetSeriesLabel(ss[i]) := data[|data| - 1].value];
      }
    }
    assert ss[..|ss|] == ss;
  }

  lemma {:induction false} LatestByDomain(ss: seq<Series>, key: string, labelOf: Series -> string)
    ensures key in LatestBy(ss, labelOf) <==> exists i :: LabelledBy(ss, i, key, labelOf) && ss[i].data != []
  {
    if ss != [] {
      var n := |ss| - 1;
      var init := ss[..n];
      LatestByDomain(init, key, labelOf);
      if key in LatestBy(ss, labelOf) {
        if key == labelOf(ss[n]) && ss[n].data != [] {
          assert LabelledBy(ss, n, key, labelOf);
        } else {
          assert key in LatestBy(init, labelOf);
          var i :| LabelledBy(init, i, key, labelOf) && init[i].data != [];
          assert ss[i] == init[i];
          assert LabelledBy(ss, i, key, labelOf);
        }
      }
      if exists i :: LabelledBy(ss, i, key, labelOf) && ss[i].data != [] {
        var i :| LabelledBy(ss, i, key, labelOf) && ss[i].data != [];
        if i < n {
          assert init[i] == ss[i];
          assert LabelledBy(init, i, key, labelOf);
        }
      }
    }
  }

  lemma {:induction false} LatestByLast(ss: seq<Series>, i: nat, labelOf: Series -> string)
    requires i < |ss| && ss[i].data != []
    requires forall j :: i < j && LabelledBy(ss, j, labelOf(ss[i]), labelOf) ==> ss[j].data == []
    ensures labelOf(ss[i]) in LatestBy(ss, labelOf)
    ensures LatestBy(ss, labelOf)[labelOf(ss[i])] == ss[i].data[|ss[i].data| - 1].value
  {
    var n := |ss| - 1;
    var init := ss[..n];
    var key := labelOf(ss[i]);
    if i < n {
      assert init[i] == ss[i];
      forall j | i < j && LabelledBy(init, j, key, labelOf) ensures init[j].data == [] {
        assert init[j] == ss[j];
        assert LabelledBy(ss, j, key, labelOf);
      }
      LatestByLast(init, i, labelOf);
      if ss[n].data != [] {
        assert !LabelledBy(ss, n, key, labelOf);
      }
    }
  }

  /** A label has a latest value exactly when some series with it has points. */
  lemma LatestOfSpec(ss: seq<Series>, key: string)
    ensures key in LatestOf(ss) <==> exists i :: LabelledAt(ss, i, key) && ss[i].data != []
  {
    LatestByDomain(ss, key, GetSeriesLabel);
    if key in LatestOf(ss) {
      var i :| LabelledBy(ss, i, key, GetSeriesLabel) && ss[i].data != [];
      assert LabelledAt(ss, i, key);
    }
    if exists i :: LabelledAt(ss, i, key) && ss[i].data != [] {
      var i :| LabelledAt(ss, i, key) && ss[i].data != [];
      assert LabelledBy(ss, i, key, GetSeriesLabel);
    }
  }

  /** The latest value of the label of series `i` is the value of its last point when no
      later series with the same label has points. */
  lemma LatestOfValue(ss: seq<Series>, i: nat)
    requires i < |ss| && ss[i].data != []
    requires forall j :: i < j && LabelledAt(ss, j, GetSeriesLabel(ss[i])) ==> ss[j].data == []
    ensures GetSeriesLabel(ss[i]) in LatestOf(ss)
    ensures LatestOf(ss)[GetSeriesLabel(ss[i])] == ss[i].data[|ss[i].data| - 1].value
  {
    var key := GetSeriesLabel(ss[i]);
    forall j | i < j && LabelledBy(ss, j, key, GetSeriesLabel) ensures ss[j].data == [] {
      assert LabelledAt(ss, j, key);
    }
    LatestByLast(ss, i, GetSeriesLabel);
  }

  // ---------------------------------------------------------------------------
  // Drag selection
  // ---------------------------------------------------------------------------

  /** `chartData.findIndex((d) => d.time === label)`, None for -1. */
  function FindRow(rows: seq<Row>, key: string): (r: Option<nat>)
    ensures r.Some? ==> r.value < |rows| && rows[r.value].time == key
                        && forall j :: 0 <= j < r.value ==> rows[j].time != key
    ensures r.None? <==> forall j :: 0 <= j < |rows| ==> rows[j].time != key
  {
    if rows == [] then None
    else if rows[0].time == key then Some(0)
    else match FindRow(rows[1..], key)
      case Some(j) => Some(j + 1)
      case None => None
  }

  /** A reference-area end is set: neither null nor the empty string. */
  predicate IsSet(end: Option<string>) {
    end.Some? && end.value != ""
  }

  /** `handleMouseUp`: the time range handed to `onTimeRangeSelect`, if any. */
  function SelectRange(rows: seq<Row>, left: Option<string>, right: Option<string>, hasCallback: bool): Option<TimeRange> {
    if IsSet(left) && IsSet(right) && hasCallback then
      match (FindRow(rows, left.value), FindRow(rows, right.value))
      case (Some(li), Some(ri)) =>
        var startIndex := if li < ri then li else ri;
        var endIndex := if li < ri then ri else li;
        Some(TimeRange(rows[startIndex].timestamp, rows[endIndex].timestamp))
      case _ => None
    else None
  }

  /** A range is reported exactly when both ends are set, there is a callback and both
      ends name a row. */
  lemma SelectRangeReported(rows: seq<Row>, left: Option<string>, right: Option<string>, hasCallback: bool)
    ensures SelectRange(rows, left, right, hasCallback).Some? <==>
              IsSet(left) && IsSet(right) && hasCallback
              && (exists i :: 0 <= i < |rows| && rows[i].time == left.value)
              && (exists j :: 0 <= j < |rows| && rows[j].time == right.value)
  {
    if IsSet(left) && IsSet(right) && hasCallback {
      var l, r := FindRow(rows, left.value), FindRow(rows, right.value);
      if l.Some? {
        assert rows[l.value].time == left.value;
      }
      if r.Some? {
        assert rows[r.value].time == right.value;
      }
    }
  }

  /** The range does not depend on the drag direction. */
  lemma SelectRangeSymmetric(rows: seq<Row>, left: Option<string>, right: Option<string>, hasCallback: bool)
    ensures SelectRange(rows, left, right, hasCallback) == SelectRange(rows, right, left, hasCallback)
  {
  }

  /** A reported range spans the two rows named; over rows in ascending time order it
      starts no later than it ends. */
  lemma SelectRangeEnds(rows: seq<Row>, left: Option<string>, right: Option<string>, hasCallback: bool)
    requires SelectRange(rows, left, right, hasCallback).Some?
    ensures IsSet(left) && IsSet(right)
    ensures FindRow(rows, left.value).Some? && FindRow(rows, right.value).Some?
    ensures var r := SelectRange(rows, left, right, hasCallback).value;
            var li, ri := FindRow(rows, left.value).value, FindRow(rows, right.value).value;
            && {r.start, r.end} == {rows[li].timestamp, rows[ri].timestamp}
            && ((forall i, j :: 0 <= i < j < |rows| ==> rows[i].timestamp <= rows[j].timestamp) ==> r.start <= r.end)
  {
  }
}
