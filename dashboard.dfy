/** The view derivations of src/components/Dashboard.tsx: the time-window filter,
    the favorites group, the category selector, the name search and chart titles. */
module Dashboard {
  import opened MetricTypes
  import opened Strings
  import opened MetricsParser
  import opened ChartUnits

  // ---------------------------------------------------------------------------
  // Time window
  // ---------------------------------------------------------------------------

  /** `point.timestamp >= startTime && point.timestamp <= endTime`. */
  predicate InWindow(p: Point, start: int, end: int) {
    start <= p.timestamp <= end
  }

  /** `data.filter(...)` with the window test. */
  function FilterPoints(data: seq<Point>, start: int, end: int): (r: seq<Point>)
    ensures |r| <= |data|
  {
    if data == [] then []
    else (if InWindow(data[0], start, end) then [data[0]] else []) + FilterPoints(data[1..], start, end)
  }

  /** A point is kept exactly when it lies in the window, both ends included. */
  lemma {:induction false} FilterPointsMembership(data: seq<Point>, start: int, end: int, p: Point)
    ensures p in FilterPoints(data, start, end) <==> p in data && InWindow(p, start, end)
  {
    if data != [] {
      FilterPointsMembership(data[1..], start, end, p);
      assert data == [data[0]] + data[1..];
    }
  }

  /** Filtering by one window and then another is filtering by their intersection. */
  lemma {:induction false} FilterPointsTwice(data: seq<Point>, s1: int, e1: int, s2: int, e2: int)
    ensures FilterPoints(FilterPoints(data, s1, e1), s2, e2)
         == FilterPoints(data, if s1 < s2 then s2 else s1, if e1 < e2 then e1 else e2)
  {
    if data != [] {
      FilterPointsTwice(data[1..], s1, e1, s2, e2);
      var head := if InWindow(data[0], s1, e1) then [data[0]] else [];
      var rest := FilterPoints(data[1..], s1, e1);
      if head != [] {
        assert (head + rest)[0] == data[0] && (head + rest)[1..] == rest;
      } else {
        assert head + rest == rest;
      }
    }
  }

  /** A window that holds every point keeps the data as it is. */
  lemma {:induction false} FilterPointsAll(data: seq<Point>, start: int, end: int)
    requires forall p :: p in data ==> InWindow(p, start, end)
    ensures FilterPoints(data, start, end) == data
  {
    if data != [] {
      FilterPointsAll(data[1..], start, end);
    }
  }

  /** `filterSeriesData`. */
  function FilterSeriesData(s: Series, start: int, end: int): Series {
    s.(data := FilterPoints(s.data, start, end))
  }

  /** `.map(filterSeriesData).filter((series) => series.data.length > 0)`. */
  function FilterSeriesList(ms: seq<Series>, start: int, end: int): (r: seq<Series>)
    ensures |r| <= |ms|
  {
    if ms == [] then []
    else
      var f := FilterSeriesData(ms[0], start, end);
      (if f.data != [] then [f] else []) + FilterSeriesList(ms[1..], start, end)
  }

  lemma {:induction false} FilterSeriesListMembership(ms: seq<Series>, start: int, end: int, x: Series)
    ensures x in FilterSeriesList(ms, start, end)
            <==> x.data != [] && exists y :: y in ms && x == FilterSeriesData(y, start, end)
  {
    if ms != [] {
      FilterSeriesListMembership(ms[1..], start, end, x);
      assert ms == [ms[0]] + ms[1..];
    }
  }

  /** The entry of one group after filtering its series. */
  function FilterEntry(g: GroupEntry, start: int, end: int): GroupEntry {
    GroupEntry(g.key, g.group.(metrics := FilterSeriesList(g.group.metrics, start, end)))
  }

  /** The `reduce` that keeps the groups with series left. */
  function FilterGroups(gs: seq<GroupEntry>, start: int, end: int): (r: seq<GroupEntry>)
    ensures |r| <= |gs|
  {
    if gs == [] then []
    else
      var f := FilterEntry(gs[0], start, end);
      (if f.group.metrics != [] then [f] else []) + FilterGroups(gs[1..], start, end)
  }

  lemma {:induction false} FilterGroupsMembership(gs: seq<GroupEntry>, start: int, end: int, x: GroupEntry)
    ensures x in FilterGroups(gs, start, end)
            <==> x.group.metrics != [] && exists g :: g in gs && x == FilterEntry(g, start, end)
  {
    if gs != [] {
      FilterGroupsMembership(gs[1..], start, end, x);
      assert gs == [gs[0]] + gs[1..];
    }
  }

  /** Filtering keeps the order of the groups, so distinct keys stay distinct. */
  lemma {:induction false} FilterGroupsDistinct(gs: seq<GroupEntry>, start: int, end: int)
    requires DistinctGroupKeys(gs)
    ensures DistinctGroupKeys(FilterGroups(gs, start, end))
  {
    if gs != [] {
      var rest := FilterGroups(gs[1..], start, end);
      FilterGroupsDistinct(gs[1..], start, end);
      forall i | 0 <= i < |rest| ensures rest[i].key != gs[0].key {
        FilterGroupsMembership(gs[1..], start, end, rest[i]);
        var g :| g in gs[1..] && rest[i] == FilterEntry(g, start, end);
        var j :| 0 <= j < |gs[1..]| && gs[1..][j] == g;
        assert gs[j + 1] == g;
      }
    }
  }

  function FilterSeriesFn(start: int, end: int): Series -> Series {
    s => FilterSeriesData(s, start, end)
  }

  /** Series `x` and `y` are the filtered forms of two series of `ms`, `x`'s before `y`'s. */
  predicate SeriesBefore(ms: seq<Series>, start: int, end: int, x: Series, y: Series) {
    Before(ms, FilterSeriesFn(start, end), x, y)
  }

  /** Filtering keeps the series in their input order. */
  lemma {:induction false} FilterSeriesListOrder(ms: seq<Series>, start: int, end: int)
    ensures forall i, j :: 0 <= i < j < |FilterSeriesList(ms, start, end)| ==>
              SeriesBefore(ms, start, end, FilterSeriesList(ms, start, end)[i], FilterSeriesList(ms, start, end)[j])
  {
    if ms != [] {
      var f := FilterSeriesFn(start, end);
      var rest := FilterSeriesList(ms[1..], start, end);
      var x := FilterSeriesData(ms[0], start, end);
      var head := if x.data != [] then [x] else [];
      assert FilterSeriesList(ms, start, end) == head + rest;
      FilterSeriesListOrder(ms[1..], start, end);
      forall y | y in rest ensures exists z :: z in ms[1..] && y == f(z) {
        FilterSeriesListMembership(ms[1..], start, end, y);
        var z :| z in ms[1..] && y == FilterSeriesData(z, start, end);
        assert y == f(z);
      }
      assert x == f(ms[0]);
      BeforeCons(ms, f, head, rest);
    }
  }

  function FilterEntryFn(start: int, end: int): GroupEntry -> GroupEntry {
    g => FilterEntry(g, start, end)
  }

  /** Entries `x` and `y` are the filtered forms of two entries of `gs`, `x`'s before `y`'s. */
  predicate GroupBefore(gs: seq<GroupEntry>, start: int, end: int, x: GroupEntry, y: GroupEntry) {
    Before(gs, FilterEntryFn(start, end), x, y)
  }

  /** Filtering keeps the groups in their input order. */
  lemma {:induction false} FilterGroupsOrder(gs: seq<GroupEntry>, start: int, end: int)
    ensures forall i, j :: 0 <= i < j < |FilterGroups(gs, start, end)| ==>
              GroupBefore(gs, start, end, FilterGroups(gs, start, end)[i], FilterGroups(gs, start, end)[j])
  {
    if gs != [] {
      var f := FilterEntryFn(start, end);
      var rest := FilterGroups(gs[1..], start, end);
      var x := FilterEntry(gs[0], start, end);
      var head := if x.group.metrics != [] then [x] else [];
      assert FilterGroups(gs, start, end) == head + rest;
      FilterGroupsOrder(gs[1..], start, end);
      forall y | y in rest ensures exists z :: z in gs[1..] && y == f(z) {
        FilterGroupsMembership(gs[1..], start, end, y);
        var z :| z in gs[1..] && y == FilterEntry(z, start, end);
        assert y == f(z);
      }
      assert x == f(gs[0]);
      BeforeCons(gs, f, head, rest);
    }
  }

  /** The time filter: every series and group left over is non-empty and every point
      lies in the window; a series or group is kept exactly when it still has points,
      under its own key, name, type and labels; distinct keys stay distinct; the window
      becomes the time range; the total is the number of points left, no more than
      before. */
  function FilterByTime(m: ParsedMetrics, start: int, end: int): (r: ParsedMetrics)
    ensures r.timeRange == TimeRange(start, end)
    ensures r.totalSamples == GroupPointCount(r.groups) <= GroupPointCount(m.groups)
    ensures DistinctGroupKeys(m.groups) ==> DistinctGroupKeys(r.groups)
    ensures forall x :: x in r.groups <==>
              x.group.metrics != [] && exists g :: g in m.groups && x == FilterEntry(g, start, end)
    ensures forall i, j :: 0 <= i < j < |r.groups| ==> GroupBefore(m.groups, start, end, r.groups[i], r.groups[j])
  {
    var groups := FilterGroups(m.groups, start, end);
    FilterGroupsFacts(m.groups, start, end);
    ParsedMetrics(groups, TimeRange(start, end), GroupPointCount(groups))
  }

  lemma FilterGroupsFacts(gs: seq<GroupEntry>, start: int, end: int)
    ensures GroupPointCount(FilterGroups(gs, start, end)) <= GroupPointCount(gs)
    ensures DistinctGroupKeys(gs) ==> DistinctGroupKeys(FilterGroups(gs, start, end))
    ensures forall x :: x in FilterGroups(gs, start, end) <==>
              x.group.metrics != [] && exists g :: g in gs && x == FilterEntry(g, start, end)
    ensures forall i, j :: 0 <= i < j < |FilterGroups(gs, start, end)| ==>
              GroupBefore(gs, start, end, FilterGroups(gs, start, end)[i], FilterGroups(gs, start, end)[j])
  {
    FilterGroupsCount(gs, start, end);
    FilterGroupsOrder(gs, start, end);
    if DistinctGroupKeys(gs) {
      FilterGroupsDistinct(gs, start, end);
    }
    forall x ensures x in FilterGroups(gs, start, end) <==> x.group.metrics != [] && exists g :: g in gs && x == FilterEntry(g, start, end) {
      FilterGroupsMembership(gs, start, end, x);
    }
  }

  /** Every series left after filtering is non-empty and lies within the window. */
  lemma FilteredSeriesInWindow(gs: seq<GroupEntry>, start: int, end: int, x: GroupEntry, s: Series)
    requires x in FilterGroups(gs, start, end) && s in x.group.metrics
    ensures s.data != [] && forall p :: p in s.data ==> InWindow(p, start, end)
  {
    FilterGroupsMembership(gs, start, end, x);
    var g :| g in gs && x == FilterEntry(g, start, end);
    FilterSeriesListMembership(g.group.metrics, start, end, s);
    var y :| y in g.group.metrics && s == FilterSeriesData(y, start, end);
    forall p | p in s.data ensures InWindow(p, start, end) {
      FilterPointsMembership(y.data, start, end, p);
    }
  }

  lemma {:induction false} FilterSeriesListCount(ms: seq<Series>, start: int, end: int)
    ensures PointCount(FilterSeriesList(ms, start, end)) <= PointCount(ms)
  {
    if ms != [] {
      FilterSeriesListCount(ms[1..], start, end);
      var f := FilterSeriesData(ms[0], start, end);
      PointCountAppend(if f.data != [] then [f] else [], FilterSeriesList(ms[1..], start, end));
    }
  }

  lemma {:induction false} FilterGroupsCount(gs: seq<GroupEntry>, start: int, end: int)
    ensures GroupPointCount(FilterGroups(gs, start, end)) <= GroupPointCount(gs)
  {
    if gs != [] {
      FilterGroupsCount(gs[1..], start, end);
      FilterSeriesListCount(gs[0].group.metrics, start, end);
      var f := FilterEntry(gs[0], start, end);
      var rest := FilterGroups(gs[1..], start, end);
      if f.group.metrics != [] {
        assert ([f] + rest)[1..] == rest;
      } else {
        assert [] + rest == rest;
      }
    }
  }

  /** A window holding every point of non-empty series changes no group. */
  lemma {:induction false} FilterGroupsAll(gs: seq<GroupEntry>, start: int, end: int)
    requires forall g, s :: g in gs && s in g.group.metrics ==> s.data != [] && forall p :: p in s.data ==> InWindow(p, start, end)
    requires forall g :: g in gs ==> g.group.metrics != []
    ensures FilterGroups(gs, start, end) == gs
  {
    if gs != [] {
      FilterGroupsAll(gs[1..], start, end);
      FilterSeriesListAll(gs[0].group.metrics, start, end);
    }
  }

  lemma {:induction false} FilterSeriesListAll(ms: seq<Series>, start: int, end: int)
    requires forall s :: s in ms ==> s.data != [] && forall p :: p in s.data ==> InWindow(p, start, end)
    ensures FilterSeriesList(ms, start, end) == ms
  {
    if ms != [] {
      FilterSeriesListAll(ms[1..], start, end);
      FilterPointsAll(ms[0].data, start, end);
    }
  }

  // ---------------------------------------------------------------------------
  // Chart titles and favorites
  // ---------------------------------------------------------------------------

  /** `formatMetricTitle`: the same replacements as `formatMetricName`. */
  function FormatMetricTitle(name: string): (r: string)
    ensures r == FormatMetricName(name)
    ensures |r| == |name| && forall i :: 0 <= i < |name| ==>
              r[i] == if name[i] == '_' then ' ' else if BeginsWord(name, i) then UpperChar(name[i]) else name[i]
    ensures FormatMetricName(r) == r
  {
    FormatMetricNameIdempotent(name);
    FormatMetricName(name)
  }

  /** The series of the charts of `ms` whose title is a favorite, in chart order. */
  function FavoriteSeriesOfUnits(us: seq<ChartUnit>, favorites: set<string>): seq<Series> {
    if us == [] then []
    else
      (if FormatMetricTitle(us[0].title) in favorites then us[0].series else [])
        + FavoriteSeriesOfUnits(us[1..], favorites)
  }

  /** The favorite series of every group, group by group. */
  function FavoriteSeries(gs: seq<GroupEntry>, favorites: set<string>): seq<Series> {
    if gs == [] then []
    else FavoriteSeries(gs[..|gs| - 1], favorites)
           + FavoriteSeriesOfUnits(ChartUnitsOf(gs[|gs| - 1].group.metrics), favorites)
  }

  lemma FavoriteSeriesSnoc(gs: seq<GroupEntry>, favorites: set<string>, i: nat)
    requires i < |gs|
    ensures FavoriteSeries(gs[..i + 1], favorites)
         == FavoriteSeries(gs[..i], favorites) + FavoriteSeriesOfUnits(ChartUnitsOf(gs[i].group.metrics), favorites)
  {
    assert gs[..i + 1][..i] == gs[..i];
  }

  /** The key and name of the favorites group. */
  const FavoritesKey: string := "favorites"
  const FavoritesName: string := "Favorites"

  /** `new Set(favorites)`. */
  function FavoriteSet(favorites: seq<string>): (fs: set<string>)
    ensures forall f :: f in fs <==> f in favorites
  {
    set f | f in favorites
  }

  /** What `favoritesGroup` evaluates to. */
  function FavoritesOf(gs: seq<GroupEntry>, favorites: seq<string>): Option<GroupEntry> {
    if |favorites| == 0 then None
    else
      var fm := FavoriteSeries(gs, FavoriteSet(favorites));
      if |fm| == 0 then None else Some(GroupEntry(FavoritesKey, Group(FavoritesName, fm)))
  }

  /** The chart loop of `favoritesGroup` for one group. */
  method AddFavoriteUnits(acc: seq<Series>, units: seq<ChartUnit>, favorites: set<string>) returns (r: seq<Series>)
    ensures r == acc + FavoriteSeriesOfUnits(units, favorites)
  {
    r := acc;
    for t := 0 to |units|
      invariant r == acc + FavoriteSeriesOfUnits(units[..t], favorites)
    {
      AddFavoriteStep(acc, units, favorites, t, r);
      if FormatMetricTitle(units[t].title) in favorites {
        r := r + units[t].series;
      }
    }
    assert units[..|units|] == units;
  }

  lemma AddFavoriteStep(acc: seq<Series>, units: seq<ChartUnit>, favorites: set<string>, t: nat, r: seq<Series>)
    requires t < |units| && r == acc + FavoriteSeriesOfUnits(units[..t], favorites)
    ensures (if FormatMetricTitle(units[t].title) in favorites then r + units[t].series else r)
         == acc + FavoriteSeriesOfUnits(units[..t + 1], favorites)
  {
    FavoriteUnitsSnoc(units[..t], units[t], favorites);
    assert units[..t + 1] == units[..t] + [units[t]];
  }

  lemma {:induction false} FavoriteUnitsSnoc(us: seq<ChartUnit>, u: ChartUnit, favorites: set<string>)
    ensures FavoriteSeriesOfUnits(us + [u], favorites)
         == FavoriteSeriesOfUnits(us, favorites) + (if FormatMetricTitle(u.title) in favorites then u.series else [])
  {
    if us == [] {
      assert [u][1..] == [];
    } else {
      var head := if FormatMetricTitle(us[0].title) in favorites then us[0].series else [];
      var last := if FormatMetricTitle(u.title) in favorites then u.series else [];
      assert (us + [u])[0] == us[0] && (us + [u])[1..] == us[1..] + [u];
      assert FavoriteSeriesOfUnits(us + [u], favorites) == head + FavoriteSeriesOfUnits(us[1..] + [u], favorites);
      FavoriteUnitsSnoc(us[1..], u, favorites);
      assert FavoriteSeriesOfUnits(us, favorites) == head + FavoriteSeriesOfUnits(us[1..], favorites);
      assert head + (FavoriteSeriesOfUnits(us[1..], favorites) + last)
          == (head + FavoriteSeriesOfUnits(us[1..], favorites)) + last;
    }
  }

  /** `favoritesGroup`: no group without favorites; otherwise every series of every
      chart whose title is a favorite, under the key `favorites`, unless there are none. */
  method FavoritesGroup(gs: seq<GroupEntry>, favorites: seq<string>) returns (r: Option<GroupEntry>)
    ensures r == FavoritesOf(gs, favorites)
  {
    if |favorites| == 0 {
      return None;
    }
    var favoriteSet := FavoriteSet(favorites);
    var favoriteMetrics: seq<Series> := [];
    for i := 0 to |gs|
      invariant favoriteMetrics == FavoriteSeries(gs[..i], favoriteSet)
    {
      var units := GroupMetricsByBaseName(gs[i].group.metrics);
      FavoriteSeriesSnoc(gs, favoriteSet, i);
      favoriteMetrics := AddFavoriteUnits(favoriteMetrics, units, favoriteSet);
    }
    assert gs[..|gs|] == gs;
    if |favoriteMetrics| == 0 {
      return None;
    }
    r := Some(GroupEntry(FavoritesKey, Group(FavoritesName, favoriteMetrics)));
  }

  lemma {:induction false} FavoriteUnitsMembership(us: seq<ChartUnit>, favorites: set<string>, x: Series)
    ensures x in FavoriteSeriesOfUnits(us, favorites)
            <==> exists u :: u in us && FormatMetricTitle(u.title) in favorites && x in u.series
  {
    if us != [] {
      FavoriteUnitsMembership(us[1..], favorites, x);
      assert us == [us[0]] + us[1..];
    }
  }

  /** `x` belongs to a chart, of some group, whose title is one of `favorites`. */
  predicate InFavoriteChart(gs: seq<GroupEntry>, favorites: set<string>, x: Series) {
    exists g, u :: g in gs && u in ChartUnitsOf(g.group.metrics) && FormatMetricTitle(u.title) in favorites && x in u.series
  }

  lemma {:induction false} FavoriteSeriesMembership(gs: seq<GroupEntry>, favorites: set<string>, x: Series)
    ensures x in FavoriteSeries(gs, favorites) <==> InFavoriteChart(gs, favorites, x)
  {
    if gs != [] {
      var init, last := gs[..|gs| - 1], gs[|gs| - 1];
      assert gs == init + [last];
      FavoriteSeriesMembership(init, favorites, x);
      FavoriteUnitsMembership(ChartUnitsOf(last.group.metrics), favorites, x);
      if InFavoriteChart(gs, favorites, x) {
        var g, u :| g in gs && u in ChartUnitsOf(g.group.metrics) && FormatMetricTitle(u.title) in favorites && x in u.series;
        if g != last {
          assert g in init;
        }
      }
    }
  }

  /** The favorites group is absent exactly when the list is empty or no chart whose
      title is a favorite has a series; otherwise it is keyed `favorites` and holds
      exactly the series of the charts, over all groups, whose title is a favorite. */
  lemma FavoritesOfSpec(gs: seq<GroupEntry>, favorites: seq<string>)
    ensures FavoritesOf(gs, favorites).None? <==>
              |favorites| == 0 || forall x :: !InFavoriteChart(gs, FavoriteSet(favorites), x)
    ensures FavoritesOf(gs, favorites).Some? ==>
              var e := FavoritesOf(gs, favorites).value;
              && e.key == FavoritesKey && e.group.name == FavoritesName
              && forall x :: x in e.group.metrics <==> InFavoriteChart(gs, FavoriteSet(favorites), x)
  {
    var fs := FavoriteSet(favorites);
    forall x ensures x in FavoriteSeries(gs, fs) <==> InFavoriteChart(gs, fs, x) {
      FavoriteSeriesMembership(gs, fs, x);
    }
    if FavoriteSeries(gs, fs) != [] {
      assert FavoriteSeries(gs, fs)[0] in FavoriteSeries(gs, fs);
    }
  }

  // ---------------------------------------------------------------------------
  // Category and search filters
  // ---------------------------------------------------------------------------

  /** The entries whose key is `key`. */
  function WithKey(gs: seq<GroupEntry>, key: string): (r: seq<GroupEntry>)
    ensures forall x :: x in r <==> x in gs && x.key == key
  {
    if gs == [] then []
    else (if gs[0].key == key then [gs[0]] else []) + WithKey(gs[1..], key)
  }

  /** `categoryFilteredGroups`. */
  function CategoryFiltered(gs: seq<GroupEntry>, selected: string, fav: Option<GroupEntry>): seq<GroupEntry> {
    if selected == "all" then gs
    else if selected == "favorites" && fav.Some? then [fav.value]
    else WithKey(gs, selected)
  }

  /** `groupsToFilter`: the favorites group goes first when every category is shown. */
  function GroupsToFilter(gs: seq<GroupEntry>, selected: string, fav: Option<GroupEntry>): seq<GroupEntry> {
    if selected == "all" && fav.Some? then [fav.value] + CategoryFiltered(gs, selected, fav)
    else CategoryFiltered(gs, selected, fav)
  }

  /** `'all'` shows every group, preceded by the favorites group when there is one;
      `'favorites'` shows only the favorites group when there is one; any other key
      (and `'favorites'` without favorites) shows the groups with that key. */
  lemma GroupsToFilterCases(gs: seq<GroupEntry>, selected: string, fav: Option<GroupEntry>)
    ensures selected == "all" && fav.None? ==> GroupsToFilter(gs, selected, fav) == gs
    ensures selected == "all" && fav.Some? ==> GroupsToFilter(gs, selected, fav) == [fav.value] + gs
    ensures selected == "favorites" && fav.Some? ==> GroupsToFilter(gs, selected, fav) == [fav.value]
    ensures selected != "all" && (selected != "favorites" || fav.None?) ==>
              forall x :: x in GroupsToFilter(gs, selected, fav) <==> x in gs && x.key == selected
  {
  }

  /** The series whose lower-cased name contains `query`. */
  function MatchingSeries(ms: seq<Series>, query: string): (r: seq<Series>)
    ensures forall x :: x in r <==> x in ms && Contains(Lower(x.name), query)
  {
    if ms == [] then []
    else (if Contains(Lower(ms[0].name), query) then [ms[0]] else []) + MatchingSeries(ms[1..], query)
  }

  function MatchingGroups(gs: seq<GroupEntry>, query: string): (r: seq<GroupEntry>)
    ensures forall x :: x in r <==> x.group.metrics != [] && exists g :: g in gs && x == SearchEntry(g, query)
  {
    if gs == [] then []
    else
      var e := SearchEntry(gs[0], query);
      (if e.group.metrics != [] then [e] else []) + MatchingGroups(gs[1..], query)
  }

  function SearchEntry(g: GroupEntry, query: string): GroupEntry {
    GroupEntry(g.key, g.group.(metrics := MatchingSeries(g.group.metrics, Lower(query))))
  }

  /** `filteredGroups`: a blank query changes nothing; otherwise the lower-cased query
      (untrimmed) filters the series and the groups left empty are dropped. */
  function SearchFilter(gs: seq<GroupEntry>, query: string): seq<GroupEntry> {
    if Trim(query) == [] then gs else MatchingGroups(gs, query)
  }

  /** A blank or all-whitespace query returns the groups unchanged. Otherwise a group
      is kept, searched, exactly when some of its series match. */
  lemma SearchFilterSpec(gs: seq<GroupEntry>, query: string)
    ensures AllWhitespace(query) ==> SearchFilter(gs, query) == gs
    ensures !AllWhitespace(query) ==>
              forall x :: x in SearchFilter(gs, query) <==>
                x.group.metrics != [] && exists g :: g in gs && x == SearchEntry(g, query)
  {
    TrimEmptyIffBlank(query);
  }

  /** A searched group keeps its key and name, and exactly the series whose name
      contains the query, ignoring case. */
  lemma SearchEntrySpec(g: GroupEntry, query: string, s: Series)
    ensures var e := SearchEntry(g, query);
            && e.key == g.key && e.group.name == g.group.name
            && (s in e.group.metrics <==> s in g.group.metrics && Contains(Lower(s.name), Lower(query)))
  {
  }

  /** The search ignores case: a query and its lower-cased form select the same. */
  lemma SearchIgnoresCase(gs: seq<GroupEntry>, query: string)
    ensures SearchFilter(gs, Lower(query)) == SearchFilter(gs, query)
  {
    LowerIdempotent(query);
    TrimEmptyIffBlank(query);
    TrimEmptyIffBlank(Lower(query));
    if !AllWhitespace(query) {
      MatchingGroupsLower(gs, query);
    }
  }

  lemma {:induction false} MatchingGroupsLower(gs: seq<GroupEntry>, query: string)
    ensures MatchingGroups(gs, Lower(query)) == MatchingGroups(gs, query)
  {
    LowerIdempotent(query);
    if gs != [] {
      MatchingGroupsLower(gs[1..], query);
    }
  }

  // ---------------------------------------------------------------------------
  // The whole view
  // ---------------------------------------------------------------------------

  /** The groups the dashboard displays: the time filter, then the favorites group of
      the filtered groups, the category selector and the name search. */
  function DashboardView(m: ParsedMetrics, start: int, end: int, favorites: seq<string>,
                         selected: string, query: string): seq<GroupEntry>
  {
    var gs := FilterByTime(m, start, end).groups;
    SearchFilter(GroupsToFilter(gs, selected, FavoritesOf(gs, favorites)), query)
  }

  /** A group handed to the search is one of the groups or the favorites group. */
  lemma GroupsToFilterFrom(gs: seq<GroupEntry>, selected: string, fav: Option<GroupEntry>, y: GroupEntry)
    requires y in GroupsToFilter(gs, selected, fav)
    ensures y in gs || (fav.Some? && y == fav.value)
  {
  }

  /** A series of the favorites group is a series of one of the groups. */
  lemma FavoriteFromGroups(gs: seq<GroupEntry>, favorites: seq<string>, s: Series)
    requires FavoritesOf(gs, favorites).Some? && s in FavoritesOf(gs, favorites).value.group.metrics
    ensures exists h :: h in gs && s in h.group.metrics
  {
    FavoritesOfSpec(gs, favorites);
    var g, u :| g in gs && u in ChartUnitsOf(g.group.metrics)
                && FormatMetricTitle(u.title) in FavoriteSet(favorites) && s in u.series;
    var units := ChartUnitsOf(g.group.metrics);
    var k :| 0 <= k < |units| && units[k] == u;
    FlattenMember(UnitSeries(units), k, s);
    ChartUnitsPartition(g.group.metrics);
    assert s in multiset(Flatten(UnitSeries(units)));
    assert s in g.group.metrics;
  }

  /** Every series on screen is the time-filtered form of a series of some input group,
      so it is non-empty and lies inside the window; under a non-blank query its
      lower-cased name contains the lower-cased query. */
  lemma DashboardViewShown(m: ParsedMetrics, start: int, end: int, favorites: seq<string>,
                           selected: string, query: string, x: GroupEntry, s: Series)
    requires x in DashboardView(m, start, end, favorites, selected, query) && s in x.group.metrics
    ensures s.data != [] && forall p :: p in s.data ==> InWindow(p, start, end)
    ensures exists g :: g in m.groups && s in FilterSeriesList(g.group.metrics, start, end)
    ensures !AllWhitespace(query) ==> Contains(Lower(s.name), Lower(query))
  {
    var gs := FilterByTime(m, start, end).groups;
    var fav := FavoritesOf(gs, favorites);
    var shown := GroupsToFilter(gs, selected, fav);
    SearchFilterSpec(shown, query);
    var y: GroupEntry := x;
    if !AllWhitespace(query) {
      y :| y in shown && x == SearchEntry(y, query);
      SearchEntrySpec(y, query, s);
    }
    assert y in shown && s in y.group.metrics;
    GroupsToFilterFrom(gs, selected, fav, y);
    var h: GroupEntry := y;
    if y !in gs {
      FavoriteFromGroups(gs, favorites, s);
      h :| h in gs && s in h.group.metrics;
    }
    FilteredSeriesInWindow(m.groups, start, end, h, s);
    FilterGroupsMembership(m.groups, start, end, h);
  }
}
