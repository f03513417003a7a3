/** `groupMetricsByBaseName` of src/components/Dashboard.tsx: the split of a group's
    series into charts. Series are bucketed by name; a bucket of more than fifteen
    series is split on one label key, and each value of that key gets its own chart. */
module ChartUnits {
  import opened MetricTypes
  import opened Strings
  import opened Buckets

  /** A bucket with more series than this is split. */
  const SplitThreshold: nat := 15

  /** The label keys tried first, in this order, when a bucket is split. */
  const PreferredKeys: seq<string> := ["frame_type", "conn_index", "code", "method", "handler", "quantile", "le"]

  /** One chart: its title and its series. */
  datatype ChartUnit = ChartUnit(title: string, series: seq<Series>)

  function SeriesName(s: Series): string {
    s.name
  }

  /** The series has a label with key `k`. */
  predicate HasLabelKey(s: Series, k: string) {
    exists j :: 0 <= j < |s.labels| && s.labels[j].0 == k
  }

  /** Some series of `b` has a label with key `k` (`labelKeys.has(k)`). */
  predicate AnyHasKey(b: seq<Series>, k: string) {
    exists s :: s in b && HasLabelKey(s, k)
  }

  // ---------------------------------------------------------------------------
  // The label keys seen in a bucket
  // ---------------------------------------------------------------------------

  /** `Object.keys(labels)`. */
  function KeyList(ls: seq<(string, string)>): (ks: seq<string>)
    ensures |ks| == |ls| && forall i :: 0 <= i < |ls| ==> ks[i] == ls[i].0
  {
    if ls == [] then [] else KeyList(ls[..|ls| - 1]) + [ls[|ls| - 1].0]
  }

  /** Every label key of every series of `b`, series by series. */
  function LabelKeysOf(b: seq<Series>): seq<string> {
    if b == [] then [] else LabelKeysOf(b[..|b| - 1]) + KeyList(b[|b| - 1].labels)
  }

  function Ident(k: string): string {
    k
  }

  /** The `labelKeys` set: the distinct label keys, in order of first insertion. */
  function SeenKeys(b: seq<Series>): seq<string> {
    Keys(LabelKeysOf(b), Ident)
  }

  lemma {:induction false} LabelKeysOfMembership(b: seq<Series>, k: string)
    ensures k in LabelKeysOf(b) <==> AnyHasKey(b, k)
  {
    if b != [] {
      var init, s := b[..|b| - 1], b[|b| - 1];
      assert b == init + [s];
      LabelKeysOfMembership(init, k);
      if k in KeyList(s.labels) {
        var j :| 0 <= j < |s.labels| && KeyList(s.labels)[j] == k;
        assert HasLabelKey(s, k);
      }
      if HasLabelKey(s, k) {
        var j :| 0 <= j < |s.labels| && s.labels[j].0 == k;
        assert KeyList(s.labels)[j] == k;
      }
      if AnyHasKey(b, k) {
        var t :| t in b && HasLabelKey(t, k);
        if t != s {
          assert t in init;
        }
      }
    }
  }

  /** A key is in the set exactly when some series of the bucket carries it. */
  lemma SeenKeysMembership(b: seq<Series>, k: string)
    ensures k in SeenKeys(b) <==> AnyHasKey(b, k)
  {
    KeysMembership(LabelKeysOf(b), Ident, k);
    LabelKeysOfMembership(b, k);
  }

  /** Index of the first series with labels (|b| when there is none). */
  function FirstLabelled(b: seq<Series>): (i: nat)
    ensures i <= |b| && (i < |b| ==> b[i].labels != [])
    ensures forall j :: 0 <= j < i ==> b[j].labels == []
  {
    if b == [] then 0 else if b[0].labels != [] then 0 else 1 + FirstLabelled(b[1..])
  }

  lemma {:induction false} LabelKeysOfEmpty(b: seq<Series>)
    ensures LabelKeysOf(b) == [] <==> forall i :: 0 <= i < |b| ==> b[i].labels == []
  {
    if b != [] {
      var init := b[..|b| - 1];
      LabelKeysOfEmpty(init);
      assert forall i :: 0 <= i < |init| ==> init[i] == b[i];
    }
  }

  lemma {:induction false} LabelKeysOfHead(b: seq<Series>, i: nat)
    requires i < |b| && b[i].labels != [] && forall j :: 0 <= j < i ==> b[j].labels == []
    ensures LabelKeysOf(b) != [] && LabelKeysOf(b)[0] == b[i].labels[0].0
  {
    var n := |b| - 1;
    var init := b[..n];
    var last := KeyList(b[n].labels);
    assert LabelKeysOf(b) == LabelKeysOf(init) + last;
    if i < n {
      assert forall j :: 0 <= j <= i ==> init[j] == b[j];
      LabelKeysOfHead(init, i);
      assert LabelKeysOf(b)[0] == LabelKeysOf(init)[0];
    } else {
      assert forall j :: 0 <= j < |init| ==> init[j].labels == [] by {
        forall j | 0 <= j < |init| ensures init[j].labels == [] {
          assert init[j] == b[j];
        }
      }
      LabelKeysOfEmpty(init);
      assert LabelKeysOf(b) == last && last[0] == b[i].labels[0].0;
    }
  }

  /** The set is empty exactly when no series has labels; otherwise its first key is the
      first key of the first series that has labels. */
  lemma FirstSeenKey(b: seq<Series>)
    ensures SeenKeys(b) == [] <==> forall i :: 0 <= i < |b| ==> b[i].labels == []
    ensures SeenKeys(b) != [] ==>
              var i := FirstLabelled(b);
              i < |b| && SeenKeys(b)[0] == b[i].labels[0].0
  {
    LabelKeysOfEmpty(b);
    var i := FirstLabelled(b);
    if i < |b| {
      LabelKeysOfHead(b, i);
      KeysHead(LabelKeysOf(b), Ident);
    }
  }

  /** The loop filling `labelKeys`: every key of every series, added when new. */
  method CollectLabelKeys(b: seq<Series>) returns (seen: seq<string>)
    ensures seen == SeenKeys(b)
  {
    seen := [];
    for i := 0 to |b|
      invariant seen == SeenKeys(b[..i])
    {
      assert b[..i + 1][..i] == b[..i];
      seen := AddKeys(seen, LabelKeysOf(b[..i]), b[i].labels);
    }
    assert b[..|b|] == b;
  }

  /** `Object.keys(labels).forEach(k => labelKeys.add(k))` for one series. */
  method AddKeys(seen0: seq<string>, ghost before: seq<string>, ls: seq<(string, string)>) returns (seen: seq<string>)
    requires seen0 == Keys(before, Ident)
    ensures seen == Keys(before + KeyList(ls), Ident)
  {
    seen := seen0;
    assert before + KeyList(ls[..0]) == before;
    for j := 0 to |ls|
      invariant seen == Keys(before + KeyList(ls[..j]), Ident)
    {
      var k := ls[j].0;
      KeyListSnoc(before, ls, j);
      KeysSnoc(before + KeyList(ls[..j]), k, Ident);
      if k !in seen {
        seen := seen + [k];
      }
    }
    assert ls[..|ls|] == ls;
  }

  lemma KeyListSnoc(before: seq<string>, ls: seq<(string, string)>, j: nat)
    requires j < |ls|
    ensures before + KeyList(ls[..j + 1]) == (before + KeyList(ls[..j])) + [ls[j].0]
  {
    assert ls[..j + 1][..j] == ls[..j];
    assert KeyList(ls[..j + 1]) == KeyList(ls[..j]) + [ls[j].0];
  }

  // ---------------------------------------------------------------------------
  // The split key
  // ---------------------------------------------------------------------------

  /** `candidates.find(k => seen.has(k))`. */
  function FindIn(candidates: seq<string>, seen: seq<string>): (r: Option<string>)
    ensures r.Some? ==> r.value in candidates && r.value in seen
    ensures r.None? <==> forall c :: c in candidates ==> c !in seen
  {
    if candidates == [] then None
    else if candidates[0] in seen then Some(candidates[0])
    else FindIn(candidates[1..], seen)
  }

  /** `FindIn` returns the earliest candidate that is seen. */
  lemma {:induction false} FindInFirst(candidates: seq<string>, seen: seq<string>, i: nat)
    requires i < |candidates| && candidates[i] in seen
    requires forall j :: 0 <= j < i ==> candidates[j] !in seen
    ensures FindIn(candidates, seen) == Some(candidates[i])
  {
    if i > 0 {
      FindInFirst(candidates[1..], seen, i - 1);
    }
  }

  /** The key a bucket is split on, when it is split: the first preferred key present,
      else the first key seen; an empty key or no key at all means no split. */
  function SplitKeyOf(b: seq<Series>): Option<string> {
    if |b| <= SplitThreshold then None
    else
      var candidate := SplitCandidate(SeenKeys(b));
      if candidate != "" then Some(candidate) else None
  }

  /** A split key is never empty and some series of the bucket carries it. */
  lemma SplitKeyPresent(b: seq<Series>)
    ensures SplitKeyOf(b).Some? ==> SplitKeyOf(b).value != "" && AnyHasKey(b, SplitKeyOf(b).value)
  {
    if SplitKeyOf(b).Some? {
      var seen := SeenKeys(b);
      var c := SplitKeyOf(b).value;
      assert c == SplitCandidate(seen);
      assert c in seen by {
        if FindIn(PreferredKeys, seen).None? {
          assert seen != [] && c == seen[0];
        }
      }
      SeenKeysMembership(b, c);
    }
  }

  /** In a bucket beyond the threshold, the earliest preferred key carried wins. */
  lemma SplitKeyPreferred(b: seq<Series>, i: nat)
    requires |b| > SplitThreshold && i < |PreferredKeys| && AnyHasKey(b, PreferredKeys[i])
    requires forall j :: 0 <= j < i ==> !AnyHasKey(b, PreferredKeys[j])
    ensures SplitKeyOf(b) == Some(PreferredKeys[i])
  {
    var seen := SeenKeys(b);
    SeenKeysMembership(b, PreferredKeys[i]);
    forall j | 0 <= j < i ensures PreferredKeys[j] !in seen {
      SeenKeysMembership(b, PreferredKeys[j]);
    }
    FindInFirst(PreferredKeys, seen, i);
    assert forall k :: k in PreferredKeys ==> k != "";
  }

  /** In a bucket beyond the threshold that carries no preferred key, the first key seen
      is used, unless there is none or it is the empty string. */
  lemma SplitKeyFallback(b: seq<Series>)
    requires |b| > SplitThreshold && forall k :: k in PreferredKeys ==> !AnyHasKey(b, k)
    ensures SplitKeyOf(b).None? <==> (forall i :: 0 <= i < |b| ==> b[i].labels == [])
                                     || (SeenKeys(b) != [] && SeenKeys(b)[0] == "")
    ensures SplitKeyOf(b).Some? ==> SplitKeyOf(b) == Some(SeenKeys(b)[0])
  {
    var seen := SeenKeys(b);
    forall k | k in PreferredKeys ensures k !in seen {
      SeenKeysMembership(b, k);
    }
    assert FindIn(PreferredKeys, seen).None?;
    FirstSeenKey(b);
  }

  /** Which key a bucket is split on. No bucket of at most fifteen series is split.
      Beyond that, the earliest preferred key that some series carries wins; when none
      is carried, the first key of the first series with labels is used unless it is
      the empty string; a bucket without labels is not split. */
  lemma SplitKeyChoice(b: seq<Series>)
    ensures |b| <= SplitThreshold ==> SplitKeyOf(b).None?
    ensures SplitKeyOf(b).Some? ==> SplitKeyOf(b).value != "" && AnyHasKey(b, SplitKeyOf(b).value)
    ensures forall i :: 0 <= i < |PreferredKeys| && |b| > SplitThreshold && AnyHasKey(b, PreferredKeys[i])
                        && (forall j :: 0 <= j < i ==> !AnyHasKey(b, PreferredKeys[j]))
                        ==> SplitKeyOf(b) == Some(PreferredKeys[i])
    ensures |b| > SplitThreshold && (forall k :: k in PreferredKeys ==> !AnyHasKey(b, k)) ==>
              (SplitKeyOf(b).None? <==> (forall i :: 0 <= i < |b| ==> b[i].labels == [])
                                        || (SeenKeys(b) != [] && SeenKeys(b)[0] == ""))
              && (SplitKeyOf(b).Some? ==> SplitKeyOf(b) == Some(SeenKeys(b)[0]))
  {
    SplitKeyPresent(b);
    forall i | 0 <= i < |PreferredKeys| && |b| > SplitThreshold && AnyHasKey(b, PreferredKeys[i])
               && (forall j :: 0 <= j < i ==> !AnyHasKey(b, PreferredKeys[j]))
      ensures SplitKeyOf(b) == Some(PreferredKeys[i])
    {
      SplitKeyPreferred(b, i);
    }
    if |b| > SplitThreshold && (forall k :: k in PreferredKeys ==> !AnyHasKey(b, k)) {
      SplitKeyFallback(b);
    }
  }

  // ---------------------------------------------------------------------------
  // Units
  // ---------------------------------------------------------------------------

  /** `s.labels[splitKey] || 'other'`: a missing or empty value reads as "other". */
  function ValueOrOther(s: Series, key: string): (v: string)
    ensures v != ""
    ensures LabelValue(s.labels, key).Some? && LabelValue(s.labels, key).value != "" ==> v == LabelValue(s.labels, key).value
    ensures (LabelValue(s.labels, key).None? || LabelValue(s.labels, key) == Some("")) ==> v == "other"
  {
    match LabelValue(s.labels, key)
    case Some(v) => if v != "" then v else "other"
    case None => "other"
  }

  /** The label of the chart a series goes to: `name (key="value")`. */
  function SubKey(name: string, key: string, s: Series): string {
    name + " (" + key + "=\"" + ValueOrOther(s, key) + "\")"
  }

  function SubKeyFn(name: string, key: string): Series -> string {
    s => SubKey(name, key, s)
  }

  /** The charts of the sub-keys `ks`, in that order. */
  function SubUnits(b: seq<Series>, f: Series -> string, ks: seq<string>): (us: seq<ChartUnit>)
    ensures |us| == |ks| && forall i :: 0 <= i < |ks| ==> us[i] == ChartUnit(ks[i], Bucket(b, f, ks[i]))
  {
    if ks == [] then [] else [ChartUnit(ks[0], Bucket(b, f, ks[0]))] + SubUnits(b, f, ks[1..])
  }

  /** The charts of the bucket of series named `name`. */
  function UnitsOfBucket(name: string, b: seq<Series>): seq<ChartUnit> {
    match SplitKeyOf(b)
    case None => [ChartUnit(name, b)]
    case Some(key) => SubUnits(b, SubKeyFn(name, key), Keys(b, SubKeyFn(name, key)))
  }

  /** The charts of the name buckets `names`, in that order. */
  function UnitsOfNames(ms: seq<Series>, names: seq<string>): seq<ChartUnit> {
    if names == [] then [] else UnitsOfBucket(names[0], Bucket(ms, SeriesName, names[0])) + UnitsOfNames(ms, names[1..])
  }

  /** What `groupMetricsByBaseName` returns for `ms`. */
  function ChartUnitsOf(ms: seq<Series>): seq<ChartUnit> {
    UnitsOfNames(ms, Keys(ms, SeriesName))
  }

  lemma {:induction false} UnitsOfNamesSnoc(ms: seq<Series>, names: seq<string>, n: string)
    ensures UnitsOfNames(ms, names + [n]) == UnitsOfNames(ms, names) + UnitsOfBucket(n, Bucket(ms, SeriesName, n))
  {
    if names == [] {
      assert UnitsOfNames(ms, [n]) == UnitsOfBucket(n, Bucket(ms, SeriesName, n)) + UnitsOfNames(ms, []);
    } else {
      assert (names + [n])[1..] == names[1..] + [n];
      UnitsOfNamesSnoc(ms, names[1..], n);
    }
  }

  /** `subGroups` filled by one pass over the bucket, then emitted in insertion order. */
  method SubCharts(b: seq<Series>, f: Series -> string) returns (units: seq<ChartUnit>)
    ensures units == SubUnits(b, f, Keys(b, f))
  {
    var subOrder, subGroups := GroupBy(b, f);
    units := [];
    for t := 0 to |subOrder|
      invariant units == SubUnits(b, f, subOrder[..t])
    {
      assert subOrder[..t + 1] == subOrder[..t] + [subOrder[t]];
      SubUnitsSnoc(b, f, subOrder[..t], subOrder[t]);
      units := units + [ChartUnit(subOrder[t], subGroups[subOrder[t]])];
    }
    assert subOrder[..|subOrder|] == subOrder;
  }

  lemma SubUnitsSnoc(b: seq<Series>, f: Series -> string, ks: seq<string>, k: string)
    ensures SubUnits(b, f, ks + [k]) == SubUnits(b, f, ks) + [ChartUnit(k, Bucket(b, f, k))]
  {
  }

  /** The split key as the loop computes it, from the collected `labelKeys`. */
  function SplitCandidate(labelKeys: seq<string>): string {
    match FindIn(PreferredKeys, labelKeys)
    case Some(k) => k
    case None => if labelKeys != [] then labelKeys[0] else ""
  }

  /** The charts of one name bucket: kept whole or split by sub-key. */
  method SplitBucket(name: string, b: seq<Series>) returns (units: seq<ChartUnit>)
    ensures units == UnitsOfBucket(name, b)
  {
    units := [ChartUnit(name, b)];
    if |b| > SplitThreshold {
      var labelKeys := CollectLabelKeys(b);
      var splitKey := SplitCandidate(labelKeys);
      if splitKey != "" {
        units := SubCharts(b, SubKeyFn(name, splitKey));
      }
    }
  }

  /** `groupMetricsByBaseName`: the name buckets in order of first appearance, each
      emitted whole or as its sub-key charts. */
  method GroupMetricsByBaseName(ms: seq<Series>) returns (result: seq<ChartUnit>)
    ensures result == ChartUnitsOf(ms)
  {
    var order, grouped := GroupBy(ms, SeriesName);
    result := [];
    for j := 0 to |order|
      invariant result == UnitsOfNames(ms, order[..j])
    {
      var name := order[j];
      assert name in order;
      var b := grouped[name];
      assert b == Bucket(ms, SeriesName, name);
      var units := SplitBucket(name, b);
      UnitsOfNamesStep(ms, order, j);
      result := result + units;
    }
    assert order[..|order|] == order;
  }

  lemma UnitsOfNamesStep(ms: seq<Series>, order: seq<string>, j: nat)
    requires j < |order|
    ensures UnitsOfNames(ms, order[..j + 1])
         == UnitsOfNames(ms, order[..j]) + UnitsOfBucket(order[j], Bucket(ms, SeriesName, order[j]))
  {
    assert order[..j + 1] == order[..j] + [order[j]];
    UnitsOfNamesSnoc(ms, order[..j], order[j]);
  }

  // ---------------------------------------------------------------------------
  // Properties of the split
  // ---------------------------------------------------------------------------

  /** The series lists of a list of charts. */
  function UnitSeries(us: seq<ChartUnit>): (ss: seq<seq<Series>>)
    ensures |ss| == |us| && forall i :: 0 <= i < |us| ==> ss[i] == us[i].series
  {
    if us == [] then [] else [us[0].series] + UnitSeries(us[1..])
  }

  lemma {:induction false} UnitSeriesAppend(a: seq<ChartUnit>, b: seq<ChartUnit>)
    ensures UnitSeries(a + b) == UnitSeries(a) + UnitSeries(b)
  {
    if a == [] {
      assert a + b == b;
    } else {
      assert (a + b)[1..] == a[1..] + b;
      UnitSeriesAppend(a[1..], b);
    }
  }

  lemma {:induction false} SubUnitsSeries(b: seq<Series>, f: Series -> string, ks: seq<string>)
    ensures UnitSeries(SubUnits(b, f, ks)) == BucketsOf(b, f, ks)
  {
    if ks != [] {
      SubUnitsSeries(b, f, ks[1..]);
    }
  }

  /** The charts of a name bucket hold its series, each exactly once. */
  lemma BucketUnitsPermute(name: string, b: seq<Series>)
    ensures multiset(Flatten(UnitSeries(UnitsOfBucket(name, b)))) == multiset(b)
  {
    match SplitKeyOf(b)
    case None =>
      assert UnitSeries([ChartUnit(name, b)]) == [b];
      assert Flatten([b]) == b;
    case Some(key) =>
      var f := SubKeyFn(name, key);
      SubUnitsSeries(b, f, Keys(b, f));
      BucketsPartition(b, f);
  }

  lemma {:induction false} UnitsOfNamesPermute(ms: seq<Series>, names: seq<string>)
    ensures multiset(Flatten(UnitSeries(UnitsOfNames(ms, names)))) == multiset(Flatten(BucketsOf(ms, SeriesName, names)))
  {
    if names != [] {
      var head := UnitsOfBucket(names[0], Bucket(ms, SeriesName, names[0]));
      UnitsOfNamesPermute(ms, names[1..]);
      UnitSeriesAppend(head, UnitsOfNames(ms, names[1..]));
      FlattenAppend(UnitSeries(head), UnitSeries(UnitsOfNames(ms, names[1..])));
      BucketUnitsPermute(names[0], Bucket(ms, SeriesName, names[0]));
    }
  }

  /** `groupMetricsByBaseName` is a partition: joined together, its charts hold every
      input series exactly once. */
  lemma ChartUnitsPartition(ms: seq<Series>)
    ensures multiset(Flatten(UnitSeries(ChartUnitsOf(ms)))) == multiset(ms)
  {
    UnitsOfNamesPermute(ms, Keys(ms, SeriesName));
    BucketsPartition(ms, SeriesName);
  }

  /** Each chart of the bucket of `name`, whose series all have that name, is non-empty
      and single-named. A chart labelled with the bare name holds the whole bucket and
      exists exactly when the bucket is not split; a chart of a split bucket is
      labelled `name (key="value")` and holds exactly the series with that sub-key. */
  lemma BucketUnitsShape(name: string, b: seq<Series>, u: ChartUnit)
    requires b != [] && forall s :: s in b ==> s.name == name
    requires u in UnitsOfBucket(name, b)
    ensures u.series != [] && forall s :: s in u.series ==> s.name == name
    ensures StartsWith(u.title, name)
    ensures SplitKeyOf(b).None? ==> u == ChartUnit(name, b)
    ensures SplitKeyOf(b).Some? ==>
              var key := SplitKeyOf(b).value;
              && u.title == SubKey(name, key, u.series[0])
              && u.title != name
              && forall s :: s in b ==> (s in u.series <==> SubKey(name, key, s) == u.title)
  {
    match SplitKeyOf(b)
    case None =>
      assert UnitsOfBucket(name, b) == [ChartUnit(name, b)];
      assert u.title[..|name|] == name;
    case Some(key) =>
      assert UnitsOfBucket(name, b) == SubUnits(b, SubKeyFn(name, key), Keys(b, SubKeyFn(name, key)));
      SubUnitShape(name, key, b, u);
      SubKeyPrefix(name, key, u.series[0]);
  }

  /** A chart of the bucket split on `key` is non-empty, labelled with the sub-key of
      its first series, and holds exactly the series of the bucket with that sub-key. */
  lemma SubUnitShape(name: string, key: string, b: seq<Series>, u: ChartUnit)
    requires forall s :: s in b ==> s.name == name
    requires u in SubUnits(b, SubKeyFn(name, key), Keys(b, SubKeyFn(name, key)))
    ensures u.series != [] && forall s :: s in u.series ==> s.name == name
    ensures u.title == SubKey(name, key, u.series[0])
    ensures u.title != name
    ensures forall s :: s in b ==> (s in u.series <==> SubKey(name, key, s) == u.title)
  {
    var f := SubKeyFn(name, key);
    var ks := Keys(b, f);
    var i :| 0 <= i < |ks| && SubUnits(b, f, ks)[i] == u;
    assert u == ChartUnit(ks[i], Bucket(b, f, ks[i]));
    KeysMembership(b, f, ks[i]);
    var x :| x in b && f(x) == ks[i];
    BucketMembership(b, f, ks[i], x);
    assert u.series != [];
    BucketMembership(b, f, ks[i], u.series[0]);
    SubKeyPrefix(name, key, u.series[0]);
    forall s | s in b ensures s in u.series <==> SubKey(name, key, s) == u.title {
      BucketMembership(b, f, ks[i], s);
    }
    forall s | s in u.series ensures s.name == name {
      BucketMembership(b, f, ks[i], s);
    }
  }

  /** A sub-key starts with the name and is longer than it. */
  lemma SubKeyPrefix(name: string, key: string, s: Series)
    ensures StartsWith(SubKey(name, key, s), name) && SubKey(name, key, s) != name
  {
    var sk := SubKey(name, key, s);
    assert sk[..|name|] == name;
    assert |sk| > |name|;
  }

  /** Every series in the bucket of `n` is named `n`. */
  lemma NameBucketNamed(ms: seq<Series>, n: string)
    ensures forall s :: s in Bucket(ms, SeriesName, n) ==> s.name == n
  {
    forall s | s in Bucket(ms, SeriesName, n) ensures s.name == n {
      BucketMembership(ms, SeriesName, n, s);
    }
  }

  /** Every chart of `groupMetricsByBaseName` is non-empty, and all its series share the
      name that starts its label. */
  lemma {:induction false} UnitsOfNamesShape(ms: seq<Series>, names: seq<string>, u: ChartUnit)
    requires forall n :: n in names ==> Bucket(ms, SeriesName, n) != []
    requires u in UnitsOfNames(ms, names)
    ensures u.series != []
    ensures exists n :: n in names && StartsWith(u.title, n) && forall s :: s in u.series ==> s.name == n
  {
    var n := names[0];
    var b := Bucket(ms, SeriesName, n);
    assert UnitsOfNames(ms, names) == UnitsOfBucket(n, b) + UnitsOfNames(ms, names[1..]);
    if u in UnitsOfBucket(n, b) {
      NameBucketNamed(ms, n);
      BucketUnitsShape(n, b, u);
    } else {
      assert names[1..] != [];
      UnitsOfNamesShape(ms, names[1..], u);
      var m :| m in names[1..] && StartsWith(u.title, m) && forall s :: s in u.series ==> s.name == m;
      assert m in names;
    }
  }

  lemma ChartUnitsShape(ms: seq<Series>, u: ChartUnit)
    requires u in ChartUnitsOf(ms)
    ensures u.series != []
    ensures exists n :: StartsWith(u.title, n) && forall s :: s in u.series ==> s.name == n
  {
    forall n | n in Keys(ms, SeriesName) ensures Bucket(ms, SeriesName, n) != [] {
      KeysMembership(ms, SeriesName, n);
      var x :| x in ms && SeriesName(x) == n;
      BucketMembership(ms, SeriesName, n, x);
    }
    UnitsOfNamesShape(ms, Keys(ms, SeriesName), u);
  }
}
