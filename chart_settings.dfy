/** src/utils/chartSettings.ts: the delta view of a cumulative counter. */
module ChartSettings {
  import opened MetricTypes

  /** `Math.max(0, d)`. */
  function ClampedDiff(d: real): (r: real)
    ensures r >= 0.0 && r >= d
    ensures r == 0.0 || r == d
  {
    if d > 0.0 then d else 0.0
  }

  /** The delta points of consecutive pairs of `data`: one per pair, at the later
      timestamp, holding the clamped increase. */
  function Deltas(data: seq<Point>): (ds: seq<Point>)
    ensures |data| >= 1 ==> |ds| == |data| - 1
  {
    if |data| < 2 then []
    else
      var n := |data| - 1;
      Deltas(data[..n]) + [Point(data[n].timestamp, ClampedDiff(data[n].value - data[n - 1].value))]
  }

  /** What `calculateDelta` returns: its input when it has at most one point. */
  function DeltaOf(data: seq<Point>): seq<Point> {
    if |data| <= 1 then data else Deltas(data)
  }

  /** `calculateDelta`: a fresh array filled by an indexed loop. */
  method CalculateDelta(data: seq<Point>) returns (result: seq<Point>)
    ensures |data| <= 1 ==> result == data
    ensures |data| >= 2 ==> result == Deltas(data)
  {
    if |data| <= 1 {
      return data;
    }
    result := [];
    for i := 1 to |data|
      invariant result == Deltas(data[..i])
    {
      var delta := if data[i].value - data[i - 1].value > 0.0 then data[i].value - data[i - 1].value else 0.0;
      assert data[..i + 1][..i] == data[..i];
      result := result + [Point(data[i].timestamp, delta)];
    }
    assert data[..|data|] == data;
  }

  /** Output point `i - 1` carries the timestamp of input point `i` and the clamped
      increase from point `i - 1`. */
  lemma {:induction false} DeltasAt(data: seq<Point>, i: nat)
    requires 1 <= i < |data|
    ensures Deltas(data)[i - 1] == Point(data[i].timestamp, ClampedDiff(data[i].value - data[i - 1].value))
  {
    var n := |data| - 1;
    if i < n {
      DeltasAt(data[..n], i);
    }
  }

  /** For two or more points there is one point fewer; output point `i - 1` carries the
      timestamp of input point `i` and the increase from point `i - 1`, or 0 after a
      fall (a counter reset). */
  lemma DeltaOfElements(data: seq<Point>)
    requires |data| >= 2
    ensures var ds := DeltaOf(data);
            && |ds| == |data| - 1
            && forall i :: 1 <= i < |data| ==>
                 && ds[i - 1].timestamp == data[i].timestamp
                 && (data[i].value < data[i - 1].value ==> ds[i - 1].value == 0.0)
                 && (data[i].value >= data[i - 1].value ==> ds[i - 1].value == data[i].value - data[i - 1].value)
  {
    forall i | 1 <= i < |data| ensures DeltaOf(data)[i - 1] == Point(data[i].timestamp, ClampedDiff(data[i].value - data[i - 1].value)) {
      DeltasAt(data, i);
    }
  }

  /** No delta is negative. */
  lemma {:induction false} DeltasNonNegative(data: seq<Point>)
    requires |data| >= 2
    ensures forall p :: p in DeltaOf(data) ==> p.value >= 0.0
  {
    var n := |data| - 1;
    if n >= 2 {
      DeltasNonNegative(data[..n]);
    }
  }

  /** Sum of the values of a list of points. */
  function SumValues(ps: seq<Point>): real {
    if ps == [] then 0.0 else SumValues(ps[..|ps| - 1]) + ps[|ps| - 1].value
  }

  ghost predicate NonDecreasing(data: seq<Point>) {
    forall i :: 1 <= i < |data| ==> data[i - 1].value <= data[i].value
  }

  /** Over a counter that never resets, the deltas add up to the total increase. */
  lemma {:induction false} DeltasTelescope(data: seq<Point>)
    requires |data| >= 2 && NonDecreasing(data)
    ensures SumValues(DeltaOf(data)) == data[|data| - 1].value - data[0].value
  {
    var n := |data| - 1;
    var ds := Deltas(data);
    assert ds[..|ds| - 1] == Deltas(data[..n]);
    if n >= 2 {
      DeltasTelescope(data[..n]);
    }
  }
}
