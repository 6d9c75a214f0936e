/** The array operations the client applies to its lists: `filter`, `map`
    and `find`. */
module Lists {
  import opened Wrappers

  /** `s.filter(keep)`: the elements satisfying `keep`, in their original order. */
  function Filter<T>(s: seq<T>, keep: T -> bool): (r: seq<T>)
    ensures |r| <= |s|
    ensures forall k :: 0 <= k < |r| ==> r[k] in s && keep(r[k])
    ensures forall k :: 0 <= k < |s| && keep(s[k]) ==> s[k] in r
  {
    if s == [] then []
    else (if keep(s[0]) then [s[0]] else []) + Filter(s[1..], keep)
  }

  /** Filtering distributes over concatenation, so it keeps the relative order
      of the elements it retains. */
  lemma {:induction false} FilterAppend<T>(a: seq<T>, b: seq<T>, keep: T -> bool)
    ensures Filter(a + b, keep) == Filter(a, keep) + Filter(b, keep)
  {
    if a == [] {
      assert a + b == b;
    } else {
      assert (a + b)[1..] == a[1..] + b;
      FilterAppend(a[1..], b, keep);
    }
  }

  /** Filtering leaves nothing exactly when no element satisfies `keep`. */
  lemma FilterEmpty<T>(s: seq<T>, keep: T -> bool)
    ensures Filter(s, keep) == [] <==> forall k :: 0 <= k < |s| ==> !keep(s[k])
  {
    var r := Filter(s, keep);
    if r != [] {
      assert r[0] in s;
    }
  }

  /** Filtering keeps everything exactly when every element satisfies `keep`. */
  lemma {:induction false} FilterKeepsAll<T>(s: seq<T>, keep: T -> bool)
    ensures Filter(s, keep) == s <==> forall k :: 0 <= k < |s| ==> keep(s[k])
  {
    if s != [] && forall k :: 0 <= k < |s| ==> keep(s[k]) {
      var tail := s[1..];
      assert forall k :: 0 <= k < |tail| ==> tail[k] == s[k + 1];
      FilterKeepsAll(tail, keep);
      assert Filter(s, keep) == [s[0]] + tail == s;
    }
  }

  /** How many elements satisfy `keep`. */
  function CountWhere<T>(s: seq<T>, keep: T -> bool): nat {
    if s == [] then 0 else (if keep(s[0]) then 1 else 0) + CountWhere(s[1..], keep)
  }

  /** Filtering keeps exactly the elements that satisfy `keep`, so its length
      is their count. */
  lemma {:induction false} FilterLength<T>(s: seq<T>, keep: T -> bool)
    ensures |Filter(s, keep)| == CountWhere(s, keep)
  {
    if s != [] {
      FilterLength(s[1..], keep);
    }
  }

  /** No two elements share a key. */
  ghost predicate DistinctBy<T, K>(s: seq<T>, key: T -> K) {
    forall i, j :: 0 <= i < j < |s| ==> key(s[i]) != key(s[j])
  }

  /** Appending an element whose key no element has keeps the keys distinct. */
  lemma AppendFreshKey<T, K>(s: seq<T>, x: T, key: T -> K)
    requires DistinctBy(s, key)
    requires forall k :: 0 <= k < |s| ==> key(s[k]) != key(x)
    ensures DistinctBy(s + [x], key)
  {
  }

  /** The condition `key(x) == k` of a query. */
  function KeyIs<T, K(==)>(key: T -> K, k: K): T -> bool {
    (x: T) => key(x) == k
  }

  /** A lookup `where key == k`: the elements with that key, in their
      original order, each as often as it occurs. */
  function WithKey<T, K(==)>(s: seq<T>, key: T -> K, k: K): (r: seq<T>)
    ensures forall i :: 0 <= i < |r| ==> r[i] in s && key(r[i]) == k
    ensures forall i :: 0 <= i < |s| && key(s[i]) == k ==> s[i] in r
    ensures |r| == CountWhere(s, KeyIs(key, k))
    ensures r == [] <==> forall i :: 0 <= i < |s| ==> key(s[i]) != k
  {
    FilterLength(s, KeyIs(key, k));
    FilterEmpty(s, KeyIs(key, k));
    Filter(s, KeyIs(key, k))
  }

  /** When no two elements share a key, a lookup by key finds at most one. */
  lemma {:induction false} DistinctKeyLookup<T, K>(s: seq<T>, key: T -> K, k: K)
    requires DistinctBy(s, key)
    ensures |WithKey(s, key, k)| <= 1
  {
    if s != [] {
      var rest := s[1..];
      assert forall i :: 0 <= i < |rest| ==> rest[i] == s[i + 1];
      DistinctKeyLookup(rest, key, k);
      if key(s[0]) == k {
        assert forall i :: 0 <= i < |rest| ==> key(s[0]) != key(rest[i]);
        assert WithKey(rest, key, k) == [];
      }
      assert WithKey(s, key, k) == (if key(s[0]) == k then [s[0]] else []) + WithKey(rest, key, k);
    }
  }

  /** `s.map(f)`: same length, element by element. */
  function Map<T, U>(s: seq<T>, f: T -> U): (r: seq<U>)
    ensures |r| == |s|
    ensures forall k :: 0 <= k < |s| ==> r[k] == f(s[k])
  {
    seq(|s|, k requires 0 <= k < |s| => f(s[k]))
  }

  /** `s.find(pred)`: the first element satisfying `pred`, or `undefined`. */
  function Find<T>(s: seq<T>, pred: T -> bool): (r: Option<T>)
    ensures r.None? <==> forall k :: 0 <= k < |s| ==> !pred(s[k])
    ensures r.Some? ==> exists k :: 0 <= k < |s| && s[k] == r.value && pred(s[k]) &&
                                     forall j :: 0 <= j < k ==> !pred(s[j])
  {
    if s == [] then None
    else if pred(s[0]) then Some(s[0])
    else
      var r := Find(s[1..], pred);
      assert forall k :: 1 <= k < |s| ==> s[k] == s[1..][k - 1];
      r
  }
}
