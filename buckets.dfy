/** Grouping by key in order of first appearance: the idiom
      `if (!m.has(k)) m.set(k, []); m.get(k).push(x)`
    over a JavaScript `Map`, whose iteration order is insertion order. */
module Buckets {
  import opened MetricTypes

  /** The distinct keys `f(x)`, in the order in which they first appear in `xs`. */
  function Keys<T(!new), K(==,!new)>(xs: seq<T>, f: T -> K): (ks: seq<K>)
    ensures forall i, j :: 0 <= i < j < |ks| ==> ks[i] != ks[j]
  {
    if xs == [] then []
    else
      var ks := Keys(xs[..|xs| - 1], f);
      var k := f(xs[|xs| - 1]);
      if k in ks then ks else ks + [k]
  }

  /** A key is listed exactly when some element has it. */
  lemma {:induction false} KeysMembership<T(!new), K(!new)>(xs: seq<T>, f: T -> K, k: K)
    ensures k in Keys(xs, f) <==> exists x :: x in xs && f(x) == k
  {
    if xs != [] {
      var ys, x := xs[..|xs| - 1], xs[|xs| - 1];
      assert xs == ys + [x];
      KeysMembership(ys, f, k);
    }
  }

  /** The first key listed is the key of the first element. */
  lemma {:induction false} KeysHead<T(!new), K(!new)>(xs: seq<T>, f: T -> K)
    requires xs != []
    ensures Keys(xs, f) != [] && Keys(xs, f)[0] == f(xs[0])
  {
    if |xs| > 1 {
      KeysHead(xs[..|xs| - 1], f);
    }
  }

  /** The elements of `xs` whose key is `k`, in input order. */
  function Bucket<T(!new), K(==,!new)>(xs: seq<T>, f: T -> K, k: K): (b: seq<T>)
    ensures |b| <= |xs|
  {
    if xs == [] then []
    else (if f(xs[0]) == k then [xs[0]] else []) + Bucket(xs[1..], f, k)
  }

  /** The bucket of `k` holds exactly the elements whose key is `k`. */
  lemma {:induction false} BucketMembership<T(!new), K(!new)>(xs: seq<T>, f: T -> K, k: K, y: T)
    ensures y in Bucket(xs, f, k) <==> y in xs && f(y) == k
  {
    if xs != [] {
      assert xs == [xs[0]] + xs[1..];
      BucketMembership(xs[1..], f, k, y);
    }
  }

  /** The bucket of a list with one more element in front. */
  lemma BucketCons<T(!new), K(!new)>(x: T, xs: seq<T>, f: T -> K, k: K)
    ensures Bucket([x] + xs, f, k) == (if f(x) == k then [x] else []) + Bucket(xs, f, k)
  {
    assert ([x] + xs)[1..] == xs;
  }

  /** A key that no element has has an empty bucket. */
  lemma {:induction false} BucketOfNewKey<T(!new), K(!new)>(xs: seq<T>, f: T -> K, k: K)
    requires k !in Keys(xs, f)
    ensures Bucket(xs, f, k) == []
  {
    if Bucket(xs, f, k) != [] {
      var y := Bucket(xs, f, k)[0];
      BucketMembership(xs, f, k, y);
      KeysMembership(xs, f, k);
    }
  }

  /** The head of a bucket is the first element of the input with that key. */
  lemma {:induction false} BucketHead<T(!new), K(!new)>(xs: seq<T>, f: T -> K, k: K)
    requires Bucket(xs, f, k) != []
    ensures FirstIndex(xs, f, k) < |xs| && Bucket(xs, f, k)[0] == xs[FirstIndex(xs, f, k)]
  {
    if f(xs[0]) != k {
      BucketHead(xs[1..], f, k);
    }
  }

  /** The buckets of the keys `ks`, in the order of `ks`. */
  function BucketsOf<T(!new), K(==,!new)>(xs: seq<T>, f: T -> K, ks: seq<K>): (bs: seq<seq<T>>)
    ensures |bs| == |ks|
    ensures forall i :: 0 <= i < |ks| ==> bs[i] == Bucket(xs, f, ks[i])
  {
    if ks == [] then [] else [Bucket(xs, f, ks[0])] + BucketsOf(xs, f, ks[1..])
  }

  /** Extending the input by one element extends the key list only when the key is new. */
  lemma KeysSnoc<T(!new), K(!new)>(ys: seq<T>, x: T, f: T -> K)
    ensures Keys(ys + [x], f) == if f(x) in Keys(ys, f) then Keys(ys, f) else Keys(ys, f) + [f(x)]
  {
    assert (ys + [x])[..|ys|] == ys;
  }

  /** Extending the input by one element appends it to its own bucket only. */
  lemma {:induction false} BucketSnoc<T(!new), K(!new)>(ys: seq<T>, x: T, f: T -> K, k: K)
    ensures Bucket(ys + [x], f, k) == Bucket(ys, f, k) + (if f(x) == k then [x] else [])
  {
    if ys == [] {
      assert Bucket([x], f, k) == (if f(x) == k then [x] else []) + Bucket([], f, k);
    } else {
      var head := if f(ys[0]) == k then [ys[0]] else [];
      var last := if f(x) == k then [x] else [];
      assert (ys + [x])[0] == ys[0] && (ys + [x])[1..] == ys[1..] + [x];
      assert Bucket(ys + [x], f, k) == head + Bucket(ys[1..] + [x], f, k);
      BucketSnoc(ys[1..], x, f, k);
      assert Bucket(ys, f, k) == head + Bucket(ys[1..], f, k);
      assert head + (Bucket(ys[1..], f, k) + last) == (head + Bucket(ys[1..], f, k)) + last;
    }
  }

  lemma {:induction false} BucketsOfSnoc<T(!new), K(!new)>(ys: seq<T>, x: T, f: T -> K, ks: seq<K>)
    requires forall i, j :: 0 <= i < j < |ks| ==> ks[i] != ks[j]
    ensures multiset(Flatten(BucketsOf(ys + [x], f, ks)))
         == multiset(Flatten(BucketsOf(ys, f, ks))) + (if f(x) in ks then multiset{x} else multiset{})
  {
    if ks != [] {
      BucketsOfSnoc(ys, x, f, ks[1..]);
      BucketSnoc(ys, x, f, ks[0]);
      assert f(x) in ks <==> f(x) == ks[0] || f(x) in ks[1..];
      assert f(x) == ks[0] ==> f(x) !in ks[1..];
    }
  }

  lemma {:induction false} BucketsOfEmpty<T(!new), K(!new)>(f: T -> K, ks: seq<K>)
    ensures Flatten(BucketsOf([], f, ks)) == []
  {
    if ks != [] { BucketsOfEmpty(f, ks[1..]); }
  }

  /** When the keys `ks` are distinct and cover every element, concatenating their
      buckets gives a permutation of the input: every element lands in exactly one. */
  lemma {:induction false} BucketsCover<T(!new), K(!new)>(xs: seq<T>, f: T -> K, ks: seq<K>)
    requires forall i, j :: 0 <= i < j < |ks| ==> ks[i] != ks[j]
    requires forall x :: x in xs ==> f(x) in ks
    ensures multiset(Flatten(BucketsOf(xs, f, ks))) == multiset(xs)
  {
    if xs == [] {
      BucketsOfEmpty(f, ks);
    } else {
      var ys, x := xs[..|xs| - 1], xs[|xs| - 1];
      assert xs == ys + [x];
      BucketsCover(ys, f, ks);
      BucketsOfSnoc(ys, x, f, ks);
    }
  }

  /** Every element lands in exactly one bucket: concatenating the buckets, in key
      order, gives a permutation of the input. */
  lemma BucketsPartition<T(!new), K(!new)>(xs: seq<T>, f: T -> K)
    ensures multiset(Flatten(BucketsOf(xs, f, Keys(xs, f)))) == multiset(xs)
  {
    forall x | x in xs ensures f(x) in Keys(xs, f) {
      KeysMembership(xs, f, f(x));
    }
    BucketsCover(xs, f, Keys(xs, f));
  }

  /** The buckets hold as many elements together as the input. */
  lemma BucketSizes<T(!new), K(!new)>(xs: seq<T>, f: T -> K)
    ensures |Flatten(BucketsOf(xs, f, Keys(xs, f)))| == |xs|
  {
    BucketsPartition(xs, f);
    assert |multiset(Flatten(BucketsOf(xs, f, Keys(xs, f))))| == |multiset(xs)|;
  }

  /** Keys are listed in order of first appearance: a key listed earlier first occurs
      earlier in the input. */
  lemma {:induction false} KeysFirstAppearance<T(!new), K(!new)>(xs: seq<T>, f: T -> K, i: nat, j: nat)
    requires i < j < |Keys(xs, f)|
    ensures FirstIndex(xs, f, Keys(xs, f)[i]) < FirstIndex(xs, f, Keys(xs, f)[j])
  {
    var ys, x := xs[..|xs| - 1], xs[|xs| - 1];
    assert xs == ys + [x];
    var ks := Keys(ys, f);
    KeysSnoc(ys, x, f);
    FirstIndexSnoc(ys, x, f, Keys(xs, f)[i]);
    FirstIndexSnoc(ys, x, f, Keys(xs, f)[j]);
    if j < |ks| {
      KeysFirstAppearance(ys, f, i, j);
    } else {
      assert Keys(xs, f)[j] == f(x) && f(x) !in ks;
      assert Keys(xs, f)[i] in ks;
    }
  }

  /** Index of the first element of `xs` whose key is `k` (|xs| when there is none). */
  function FirstIndex<T(!new), K(==,!new)>(xs: seq<T>, f: T -> K, k: K): (i: nat)
    ensures i <= |xs|
    ensures i < |xs| ==> f(xs[i]) == k
    ensures forall j :: 0 <= j < i ==> f(xs[j]) != k
  {
    if xs == [] then 0
    else if f(xs[0]) == k then 0
    else 1 + FirstIndex(xs[1..], f, k)
  }

  lemma FirstIndexSnoc<T(!new), K(!new)>(ys: seq<T>, x: T, f: T -> K, k: K)
    ensures FirstIndex(ys, f, k) < |ys| ==> FirstIndex(ys + [x], f, k) == FirstIndex(ys, f, k)
    ensures FirstIndex(ys, f, k) == |ys| ==> FirstIndex(ys + [x], f, k) >= |ys|
    ensures k in Keys(ys, f) <==> FirstIndex(ys, f, k) < |ys|
  {
    var n := FirstIndex(ys + [x], f, k);
    var m := FirstIndex(ys, f, k);
    if m < |ys| {
      assert (ys + [x])[m] == ys[m];
    }
    KeysMembership(ys, f, k);
    if k in Keys(ys, f) {
      var y :| y in ys && f(y) == k;
      var p :| 0 <= p < |ys| && ys[p] == y;
    }
    if m < |ys| {
      assert ys[m] in ys;
    }
  }

  /** `new Map()` filled by one pass over `xs`: the keys in insertion order and,
      for each, the list of elements pushed under it. */
  method GroupBy<T(!new), K(==,!new)>(xs: seq<T>, f: T -> K) returns (order: seq<K>, groups: map<K, seq<T>>)
    ensures order == Keys(xs, f)
    ensures forall k :: k in groups <==> k in order
    ensures forall k :: k in order ==> groups[k] == Bucket(xs, f, k)
  {
    order, groups := [], map[];
    for i := 0 to |xs|
      invariant order == Keys(xs[..i], f)
      invariant forall k :: k in groups <==> k in order
      invariant forall k :: k in order ==> groups[k] == Bucket(xs[..i], f, k)
    {
      var k := f(xs[i]);
      assert xs[..i + 1] == xs[..i] + [xs[i]];
      KeysSnoc(xs[..i], xs[i], f);
      forall k' ensures Bucket(xs[..i + 1], f, k') == Bucket(xs[..i], f, k') + (if k == k' then [xs[i]] else []) {
        BucketSnoc(xs[..i], xs[i], f, k');
      }
      if k !in groups {
        groups := groups[k := []];
        order := order + [k];
        BucketOfNewKey(xs[..i], f, k);
      }
      groups := groups[k := groups[k] + [xs[i]]];
    }
    assert xs[..|xs|] == xs;
  }
}
