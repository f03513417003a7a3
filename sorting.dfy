/** The three uses of `Array.prototype.sort` in the core, as functions: the stable
    sort of a series' points by timestamp, the numeric sort of chart timestamps, and
    the sort of label entries by key. The built-in sort is stable (ECMAScript 2019),
    which insertion sort reproduces. */
module ArraySort {
  import opened Strings
  import opened Buckets

  /** Ascending by `key`. */
  ghost predicate SortedBy<T>(s: seq<T>, key: T -> int) {
    forall i, j :: 0 <= i < j < |s| ==> key(s[i]) <= key(s[j])
  }

  /** Inserts `x` before the first element whose key is not smaller. */
  function InsertBy<T>(x: T, s: seq<T>, key: T -> int): (r: seq<T>)
  {
    if s == [] then [x]
    else if key(x) <= key(s[0]) then [x] + s
    else [s[0]] + InsertBy(x, s[1..], key)
  }

  lemma {:induction false} InsertByPermutes<T>(x: T, s: seq<T>, key: T -> int)
    ensures multiset(InsertBy(x, s, key)) == multiset(s) + multiset{x}
  {
    if s != [] && key(x) > key(s[0]) {
      InsertByPermutes(x, s[1..], key);
      assert s == [s[0]] + s[1..];
    }
  }

  /** `s.slice().sort((a, b) => key(a) - key(b))`. */
  function SortBy<T>(s: seq<T>, key: T -> int): seq<T>
  {
    if s == [] then [] else InsertBy(s[0], SortBy(s[1..], key), key)
  }

  /** The sort result is a permutation of its input. */
  lemma {:induction false} SortByPermutes<T>(s: seq<T>, key: T -> int)
    ensures multiset(SortBy(s, key)) == multiset(s)
  {
    if s != [] {
      SortByPermutes(s[1..], key);
      InsertByPermutes(s[0], SortBy(s[1..], key), key);
      assert s == [s[0]] + s[1..];
    }
  }

  lemma {:induction false} InsertBySorted<T>(x: T, s: seq<T>, key: T -> int)
    requires SortedBy(s, key)
    ensures SortedBy(InsertBy(x, s, key), key)
  {
    if s == [] {
    } else if key(x) <= key(s[0]) {
      forall i | 0 <= i < |s| ensures key(x) <= key(s[i]) {
        if i > 0 {
          assert key(s[0]) <= key(s[i]);
        }
      }
      SortedCons(x, s, key);
    } else {
      SortedTail(s, key);
      InsertBySorted(x, s[1..], key);
      var r := InsertBy(x, s[1..], key);
      InsertByPermutes(x, s[1..], key);
      forall i | 0 <= i < |r| ensures key(s[0]) <= key(r[i]) {
        assert r[i] in multiset(s[1..]) + multiset{x};
        if r[i] != x {
          assert r[i] in s[1..];
        }
      }
      SortedCons(s[0], r, key);
    }
  }

  lemma SortedTail<T>(s: seq<T>, key: T -> int)
    requires s != [] && SortedBy(s, key)
    ensures SortedBy(s[1..], key)
  {
    forall i, j | 0 <= i < j < |s[1..]| ensures key(s[1..][i]) <= key(s[1..][j]) {
      assert s[1..][i] == s[i + 1] && s[1..][j] == s[j + 1];
    }
  }

  lemma SortedCons<T>(h: T, r: seq<T>, key: T -> int)
    requires SortedBy(r, key) && forall i :: 0 <= i < |r| ==> key(h) <= key(r[i])
    ensures SortedBy([h] + r, key)
  {
    var out := [h] + r;
    forall i, j | 0 <= i < j < |out| ensures key(out[i]) <= key(out[j]) {
      assert out[j] == r[j - 1];
      if i > 0 {
        assert out[i] == r[i - 1];
      }
    }
  }

  lemma {:induction false} InsertByStable<T(!new)>(x: T, s: seq<T>, key: T -> int, t: int)
    requires SortedBy(s, key)
    ensures Bucket(InsertBy(x, s, key), key, t) == (if key(x) == t then [x] else []) + Bucket(s, key, t)
  {
    if s == [] {
      BucketCons(x, [], key, t);
    } else if key(x) <= key(s[0]) {
      BucketCons(x, s, key, t);
    } else {
      SortedTail(s, key);
      InsertByStable(x, s[1..], key, t);
      InsertPastHead(x, s, key, t);
    }
  }

  /** The step of InsertByStable where `x` goes past the head of `s`. */
  lemma InsertPastHead<T(!new)>(x: T, s: seq<T>, key: T -> int, t: int)
    requires s != [] && key(x) > key(s[0])
    requires Bucket(InsertBy(x, s[1..], key), key, t) == (if key(x) == t then [x] else []) + Bucket(s[1..], key, t)
    ensures Bucket(InsertBy(x, s, key), key, t) == (if key(x) == t then [x] else []) + Bucket(s, key, t)
  {
    var r := InsertBy(x, s[1..], key);
    assert InsertBy(x, s, key) == [s[0]] + r;
    BucketCons(s[0], r, key, t);
    assert s == [s[0]] + s[1..];
    BucketCons(s[0], s[1..], key, t);
    if key(x) == t {
      assert key(s[0]) != t;
      assert Bucket(InsertBy(x, s, key), key, t) == Bucket(r, key, t);
      assert Bucket(s, key, t) == Bucket(s[1..], key, t);
    } else {
      assert Bucket(r, key, t) == Bucket(s[1..], key, t);
    }
  }

  /** The sort result is ascending. */
  lemma {:induction false} SortBySorted<T>(s: seq<T>, key: T -> int)
    ensures SortedBy(SortBy(s, key), key)
  {
    if s != [] {
      SortBySorted(s[1..], key);
      InsertBySorted(s[0], SortBy(s[1..], key), key);
    }
  }

  /** The sort is stable: for every key, the elements with that key keep their input order. */
  lemma {:induction false} SortByStable<T(!new)>(s: seq<T>, key: T -> int, t: int)
    ensures Bucket(SortBy(s, key), key, t) == Bucket(s, key, t)
  {
    if s != [] {
      SortByStable(s[1..], key, t);
      SortBySorted(s[1..], key);
      InsertByStable(s[0], SortBy(s[1..], key), key, t);
      assert s == [s[0]] + s[1..];
      BucketCons(s[0], s[1..], key, t);
    }
  }

  /** Label entries ascending by key in the strict order `Less`. */
  ghost predicate KeysAscending(ls: seq<(string, string)>) {
    forall i, j :: 0 <= i < j < |ls| ==> Less(ls[i].0, ls[j].0)
  }

  function InsertLabel(e: (string, string), ls: seq<(string, string)>): seq<(string, string)>
  {
    if ls == [] then [e]
    else if !Less(ls[0].0, e.0) then [e] + ls
    else [ls[0]] + InsertLabel(e, ls[1..])
  }

  lemma {:induction false} InsertLabelPermutes(e: (string, string), ls: seq<(string, string)>)
    ensures multiset(InsertLabel(e, ls)) == multiset(ls) + multiset{e}
  {
    if ls != [] && Less(ls[0].0, e.0) {
      InsertLabelPermutes(e, ls[1..]);
      assert ls == [ls[0]] + ls[1..];
    }
  }

  /** `Object.entries(labels).sort(([a], [b]) => a.localeCompare(b))`. */
  function SortLabels(ls: seq<(string, string)>): seq<(string, string)>
  {
    if ls == [] then [] else InsertLabel(ls[0], SortLabels(ls[1..]))
  }

  /** Sorting the entries permutes them. */
  lemma {:induction false} SortLabelsPermutes(ls: seq<(string, string)>)
    ensures multiset(SortLabels(ls)) == multiset(ls)
  {
    if ls != [] {
      SortLabelsPermutes(ls[1..]);
      InsertLabelPermutes(ls[0], SortLabels(ls[1..]));
      assert ls == [ls[0]] + ls[1..];
    }
  }

  lemma {:induction false} InsertLabelAscending(e: (string, string), ls: seq<(string, string)>)
    requires KeysAscending(ls)
    requires forall i :: 0 <= i < |ls| ==> ls[i].0 != e.0
    ensures KeysAscending(InsertLabel(e, ls))
  {
    if ls == [] {
    } else if !Less(ls[0].0, e.0) {
      LessTotal(e.0, ls[0].0);
      forall j | 0 < j < |ls| ensures Less(e.0, ls[j].0) {
        LessTransitive(e.0, ls[0].0, ls[j].0);
      }
    } else {
      InsertLabelAscending(e, ls[1..]);
      var r := InsertLabel(e, ls[1..]);
      InsertLabelPermutes(e, ls[1..]);
      forall i | 0 <= i < |r| ensures Less(ls[0].0, r[i].0) {
        assert r[i] in multiset(ls[1..]) + multiset{e};
        if r[i] != e {
          assert r[i] in ls[1..];
        }
      }
    }
  }

  /** Sorting entries with distinct keys yields strictly ascending keys. */
  lemma {:induction false} SortLabelsAscending(ls: seq<(string, string)>)
    requires forall i, j :: 0 <= i < j < |ls| ==> ls[i].0 != ls[j].0
    ensures KeysAscending(SortLabels(ls))
  {
    if ls != [] {
      SortLabelsAscending(ls[1..]);
      var r := SortLabels(ls[1..]);
      SortLabelsPermutes(ls[1..]);
      forall i | 0 <= i < |r| ensures r[i].0 != ls[0].0 {
        assert r[i] in multiset(ls[1..]);
        var j :| 0 <= j < |ls[1..]| && ls[1..][j] == r[i];
        assert ls[j + 1] == r[i];
      }
      InsertLabelAscending(ls[0], r);
    }
  }

  /** Two strictly ascending entry lists holding the same entries are equal. */
  lemma {:induction false} AscendingUnique(a: seq<(string, string)>, b: seq<(string, string)>)
    requires KeysAscending(a) && KeysAscending(b)
    requires multiset(a) == multiset(b)
    ensures a == b
  {
    if a != [] {
      assert a[0] in multiset(b);
      assert b[0] in multiset(a);
      HeadsEqual(a, b);
      SameTails(a, b);
      AscendingTail(a);
      AscendingTail(b);
      AscendingUnique(a[1..], b[1..]);
      assert a == [a[0]] + a[1..] && b == [b[0]] + b[1..];
    }
  }

  lemma AscendingTail(a: seq<(string, string)>)
    requires KeysAscending(a) && a != []
    ensures KeysAscending(a[1..])
  {
    forall i, j | 0 <= i < j < |a[1..]| ensures Less(a[1..][i].0, a[1..][j].0) {
      assert a[1..][i] == a[i + 1] && a[1..][j] == a[j + 1];
    }
  }

  lemma SameTails<T>(a: seq<T>, b: seq<T>)
    requires a != [] && b != [] && a[0] == b[0] && multiset(a) == multiset(b)
    ensures multiset(a[1..]) == multiset(b[1..])
  {
    assert a == [a[0]] + a[1..] && b == [b[0]] + b[1..];
    assert multiset(a) == multiset{a[0]} + multiset(a[1..]);
    assert multiset(b) == multiset{b[0]} + multiset(b[1..]);
    assert multiset(a[1..]) == multiset(a) - multiset{a[0]};
  }

  /** Two non-empty ascending lists with the same entries start alike. */
  lemma HeadsEqual(a: seq<(string, string)>, b: seq<(string, string)>)
    requires KeysAscending(a) && KeysAscending(b)
    requires a != [] && b != []
    requires a[0] in b && b[0] in a
    ensures a[0] == b[0]
  {
    if a[0] != b[0] {
      var k :| 0 <= k < |b| && b[k] == a[0];
      var m :| 0 <= m < |a| && a[m] == b[0];
      assert Less(b[0].0, a[0].0);
      assert Less(a[0].0, b[0].0);
      LessAsymmetric(a[0].0, b[0].0);
    }
  }
}
