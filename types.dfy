/** Data model of the metrics dashboard: the records of src/types/metrics.ts.
    Timestamps are milliseconds since the epoch (what `Date.getTime()` returns),
    values are exact reals (no NaN or Infinity). */
module MetricTypes {

  datatype Option<+T> = None | Some(value: T)

  datatype Result<+T, +E> = Success(value: T) | Failure(error: E)

  /** `MetricType`; `type` is a Dafny keyword, so records call it `kind`. */
  datatype MetricType = Counter | Gauge | Histogram | Summary | Untyped

  /** No two entries of a label list share a key (a JavaScript object's own keys). */
  ghost predicate DistinctKeys(ls: seq<(string, string)>) {
    forall i, j :: 0 <= i < j < |ls| ==> ls[i].0 != ls[j].0
  }

  /** `Record<string, string>`: the entries of the object, in insertion order. */
  type Labels = ls: seq<(string, string)> | DistinctKeys(ls)

  /** `labels[key]`: the value stored under `key`, or None when the key is absent. */
  function LabelValue(ls: Labels, key: string): (r: Option<string>)
    ensures r.Some? <==> exists i :: 0 <= i < |ls| && ls[i].0 == key
    ensures r.Some? ==> (key, r.value) in ls
  {
    if FindKey(ls, key) < |ls| then Some(ls[FindKey(ls, key)].1) else None
  }

  /** Index of the entry with key `key`, or |ls| when there is none. */
  function FindKey(ls: seq<(string, string)>, key: string): (i: nat)
    ensures i <= |ls|
    ensures i < |ls| ==> ls[i].0 == key
    ensures forall j :: 0 <= j < i ==> ls[j].0 != key
  {
    if ls == [] then 0
    else if ls[0].0 == key then 0
    else 1 + FindKey(ls[1..], key)
  }

  /** One decoded line of the log (`MetricSample`). */
  datatype Sample = Sample(timestamp: int, name: string, kind: MetricType, value: real, labels: Labels)

  /** `TimeSeriesPoint`. */
  datatype Point = Point(timestamp: int, value: real)

  /** `MetricSeries`. */
  datatype Series = Series(name: string, kind: MetricType, labels: Labels, data: seq<Point>)

  /** `MetricGroup`. */
  datatype Group = Group(name: string, metrics: seq<Series>)

  /** One entry `[key, group]` of `ParsedMetrics.groups`, whose entries keep insertion order. */
  datatype GroupEntry = GroupEntry(key: string, group: Group)

  datatype TimeRange = TimeRange(start: int, end: int)

  /** `ParsedMetrics`. */
  datatype ParsedMetrics = ParsedMetrics(groups: seq<GroupEntry>, timeRange: TimeRange, totalSamples: nat)

  /** The keys of a groups record are distinct. */
  ghost predicate DistinctGroupKeys(gs: seq<GroupEntry>) {
    forall i, j :: 0 <= i < j < |gs| ==> gs[i].key != gs[j].key
  }

  /** Number of points over a list of series. */
  function PointCount(ss: seq<Series>): nat {
    if ss == [] then 0 else |ss[0].data| + PointCount(ss[1..])
  }

  lemma {:induction false} PointCountAppend(a: seq<Series>, b: seq<Series>)
    ensures PointCount(a + b) == PointCount(a) + PointCount(b)
  {
    if a == [] {
      assert a + b == b;
    } else {
      assert (a + b)[1..] == a[1..] + b;
      PointCountAppend(a[1..], b);
    }
  }

  /** Taking one series out of a list takes its points out of the count. */
  lemma PointCountRemove(b: seq<Series>, i: nat)
    requires i < |b|
    ensures PointCount(b) == |b[i].data| + PointCount(b[..i] + b[i + 1..])
  {
    assert b == b[..i] + ([b[i]] + b[i + 1..]);
    PointCountAppend(b[..i], [b[i]] + b[i + 1..]);
    PointCountAppend(b[..i], b[i + 1..]);
  }

  /** Removing the element at `i` removes one occurrence of it from the multiset. */
  lemma MultisetRemove<T>(b: seq<T>, i: nat)
    requires i < |b|
    ensures multiset(b[..i] + b[i + 1..]) == multiset(b) - multiset{b[i]}
  {
    assert b == b[..i] + [b[i]] + b[i + 1..];
  }

  /** The number of points does not depend on the order of the series. */
  lemma {:induction false} PointCountPermutation(a: seq<Series>, b: seq<Series>)
    requires multiset(a) == multiset(b)
    ensures PointCount(a) == PointCount(b)
  {
    if a == [] {
      assert |multiset(b)| == 0;
    } else {
      var x := a[0];
      assert x in multiset(a);
      assert x in b;
      var i :| 0 <= i < |b| && b[i] == x;
      var rest := b[..i] + b[i + 1..];
      MultisetRemove(b, i);
      MultisetRemove(a, 0);
      assert a[..0] + a[1..] == a[1..];
      PointCountPermutation(a[1..], rest);
      PointCountRemove(b, i);
    }
  }

  /** Number of points over all groups. */
  function GroupPointCount(gs: seq<GroupEntry>): nat {
    if gs == [] then 0 else PointCount(gs[0].group.metrics) + GroupPointCount(gs[1..])
  }

  /** Counting the points group by group is counting them over all member lists joined. */
  lemma {:induction false} GroupPointCountFlatten(gs: seq<GroupEntry>)
    ensures GroupPointCount(gs) == PointCount(Flatten(GroupMetricLists(gs)))
  {
    if gs != [] {
      GroupPointCountFlatten(gs[1..]);
      assert GroupMetricLists(gs)[1..] == GroupMetricLists(gs[1..]);
      PointCountAppend(gs[0].group.metrics, Flatten(GroupMetricLists(gs[1..])));
    }
  }

  /** The member lists of a list of group entries. */
  function GroupMetricLists(gs: seq<GroupEntry>): (ms: seq<seq<Series>>)
    ensures |ms| == |gs| && forall i :: 0 <= i < |gs| ==> ms[i] == gs[i].group.metrics
  {
    if gs == [] then [] else [gs[0].group.metrics] + GroupMetricLists(gs[1..])
  }

  /** Concatenation of a list of lists. */
  function Flatten<T>(xss: seq<seq<T>>): seq<T> {
    if xss == [] then [] else xss[0] + Flatten(xss[1..])
  }

  lemma {:induction false} FlattenAppend<T>(a: seq<seq<T>>, b: seq<seq<T>>)
    ensures Flatten(a + b) == Flatten(a) + Flatten(b)
  {
    if a == [] {
      assert a + b == b;
    } else {
      assert (a + b)[1..] == a[1..] + b;
      FlattenAppend(a[1..], b);
    }
  }

  /** An element of one of the lists is an element of their concatenation. */
  lemma {:induction false} FlattenMember<T>(xss: seq<seq<T>>, k: nat, x: T)
    requires k < |xss| && x in xss[k]
    ensures x in Flatten(xss)
  {
    if k > 0 {
      FlattenMember(xss[1..], k - 1, x);
    }
  }

  /** `x` and `y` are the images under `f` of two elements of `xs`, `x`'s first. */
  predicate Before<T, U(==)>(xs: seq<T>, f: T -> U, x: U, y: U) {
    exists a, b :: 0 <= a < b < |xs| && x == f(xs[a]) && y == f(xs[b])
  }

  /** Mapping and filtering keeps order: if the images kept from the tail are in tail
      order, putting the head's image, when kept, in front keeps them in order. */
  lemma BeforeCons<T, U>(xs: seq<T>, f: T -> U, head: seq<U>, rest: seq<U>)
    requires xs != [] && (head == [] || head == [f(xs[0])])
    requires forall y :: y in rest ==> exists z :: z in xs[1..] && y == f(z)
    requires forall i, j :: 0 <= i < j < |rest| ==> Before(xs[1..], f, rest[i], rest[j])
    ensures forall i, j :: 0 <= i < j < |head + rest| ==> Before(xs, f, (head + rest)[i], (head + rest)[j])
  {
    var r := head + rest;
    forall i, j | 0 <= i < j < |r| ensures Before(xs, f, r[i], r[j]) {
      assert r[j] == rest[j - |head|] && r[j] in rest;
      if i < |head| {
        var z :| z in xs[1..] && r[j] == f(z);
        var b :| 0 <= b < |xs[1..]| && xs[1..][b] == z;
        assert r[i] == f(xs[0]) && xs[b + 1] == z;
      } else {
        assert r[i] == rest[i - |head|];
        assert Before(xs[1..], f, rest[i - |head|], rest[j - |head|]);
        var a, b :| 0 <= a < b < |xs[1..]| && r[i] == f(xs[1..][a]) && r[j] == f(xs[1..][b]);
        assert xs[1..][a] == xs[a + 1] && xs[1..][b] == xs[b + 1];
      }
    }
  }
}
