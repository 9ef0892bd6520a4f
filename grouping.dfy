/** `_u.values(_u.groupBy(list, key))`: buckets in order of the first
    occurrence of their key, members in list order. The bucket keys are JSON
    texts that start with '[', never integer-like, so the object's key order is
    insertion order. */
module Grouping {
  import opened Wrappers

  /** The key of every element, in list order. */
  function KeysOf<T, K>(s: seq<T>, key: T -> K): (r: seq<K>)
    ensures |r| == |s|
    ensures forall i :: 0 <= i < |s| ==> r[i] == key(s[i])
  {
    seq(|s|, i requires 0 <= i < |s| => key(s[i]))
  }

  /** Reference: the distinct keys, each at the place it first occurs. */
  function Dedupe<K(==)>(s: seq<K>): (r: seq<K>)
    ensures forall i :: 0 <= i < |s| ==> s[i] in r
    ensures forall i :: 0 <= i < |r| ==> r[i] in s
    ensures forall i, j :: 0 <= i < j < |r| ==> r[i] != r[j]
  {
    if s == [] then []
    else
      var r := Dedupe(s[..|s| - 1]);
      assert s == s[..|s| - 1] + [s[|s| - 1]];
      if s[|s| - 1] in r then r else r + [s[|s| - 1]]
  }

  /** Position of the first occurrence of `k`. */
  function FirstIndex<K(==)>(s: seq<K>, k: K): (r: nat)
    requires k in s
    ensures r < |s| && s[r] == k
    ensures forall j :: 0 <= j < r ==> s[j] != k
  {
    if s[0] == k then 0 else 1 + FirstIndex(s[1..], k)
  }

  lemma FirstIndexPrefix<K>(s: seq<K>, n: nat, k: K)
    requires n <= |s| && k in s[..n]
    ensures FirstIndex(s, k) == FirstIndex(s[..n], k)
  {
    var a, b := FirstIndex(s, k), FirstIndex(s[..n], k);
    assert s[b] == k;
    assert a <= b < n;
    assert s[..n][a] == k;
  }

  /** Keys ordered by first occurrence in a prefix stay so in the whole list,
      and all of them occur before the prefix ends. */
  lemma PrefixKeepsOrder<K>(s: seq<K>, n: nat, r: seq<K>)
    requires n <= |s|
    requires forall i :: 0 <= i < |r| ==> r[i] in s[..n]
    requires forall i, j :: 0 <= i < j < |r| ==> FirstIndex(s[..n], r[i]) < FirstIndex(s[..n], r[j])
    ensures forall i :: 0 <= i < |r| ==> FirstIndex(s, r[i]) < n
    ensures forall i, j :: 0 <= i < j < |r| ==> FirstIndex(s, r[i]) < FirstIndex(s, r[j])
  {
    forall i | 0 <= i < |r| ensures FirstIndex(s, r[i]) == FirstIndex(s[..n], r[i]) < n {
      FirstIndexPrefix(s, n, r[i]);
    }
  }

  /** A key that first occurs after all of `r` extends the order. */
  lemma OrderedSnoc<K>(s: seq<K>, r: seq<K>, k: K)
    requires k in s && forall i :: 0 <= i < |r| ==> r[i] in s
    requires forall i :: 0 <= i < |r| ==> FirstIndex(s, r[i]) < FirstIndex(s, k)
    requires forall i, j :: 0 <= i < j < |r| ==> FirstIndex(s, r[i]) < FirstIndex(s, r[j])
    ensures forall i :: 0 <= i < |r + [k]| ==> (r + [k])[i] in s
    ensures forall i, j :: 0 <= i < j < |r + [k]| ==> FirstIndex(s, (r + [k])[i]) < FirstIndex(s, (r + [k])[j])
  {
    var d := r + [k];
    forall i, j | 0 <= i < j < |d| ensures FirstIndex(s, d[i]) < FirstIndex(s, d[j]) {
      assert d[i] == r[i];
      if j < |r| {
        assert d[j] == r[j];
      } else {
        assert d[j] == k;
      }
    }
  }

  /** The distinct keys come in order of their first occurrence. */
  lemma {:induction false} DedupeFirstOccurrence<K>(s: seq<K>)
    ensures forall i, j :: 0 <= i < j < |Dedupe(s)| ==>
      FirstIndex(s, Dedupe(s)[i]) < FirstIndex(s, Dedupe(s)[j])
    decreases |s|
  {
    if s != [] {
      var n := |s| - 1;
      var t, k := s[..n], s[n];
      assert s == t + [k];
      DedupeFirstOccurrence(t);
      DedupeSnoc(t, k);
      var r := Dedupe(t);
      PrefixKeepsOrder(s, n, r);
      if k !in r {
        assert FirstIndex(s, k) == n by {
          assert k !in t;
        }
        OrderedSnoc(s, r, k);
      }
    }
  }

  /** Reference: the elements whose key is `k`, in list order. */
  function Members<T, K(==)>(s: seq<T>, key: T -> K, k: K): seq<T> {
    if s == [] then []
    else Members(s[..|s| - 1], key, k) + (if key(s[|s| - 1]) == k then [s[|s| - 1]] else [])
  }

  /** Index of the bucket whose first member has key `k`. */
  function FindGroup<T, K(==)>(gs: seq<seq<T>>, key: T -> K, k: K): (r: Option<nat>)
    ensures r.Some? ==> r.value < |gs| && gs[r.value] != [] && key(gs[r.value][0]) == k
    ensures r.None? ==> forall i :: 0 <= i < |gs| && gs[i] != [] ==> key(gs[i][0]) != k
  {
    if gs == [] then None
    else if gs[0] != [] && key(gs[0][0]) == k then Some(0)
    else match FindGroup(gs[1..], key, k)
      case None => None
      case Some(i) => Some(i + 1)
  }

  function AddToGroup<T, K(==)>(gs: seq<seq<T>>, x: T, key: T -> K): seq<seq<T>> {
    match FindGroup(gs, key, key(x))
    case Some(i) => gs[i := gs[i] + [x]]
    case None => gs + [[x]]
  }

  /** The lodash bucketing, one element at a time. */
  function GroupBy<T, K(==)>(s: seq<T>, key: T -> K): seq<seq<T>> {
    if s == [] then []
    else AddToGroup(GroupBy(s[..|s| - 1], key), s[|s| - 1], key)
  }

  lemma {:induction false} MembersHaveKey<T, K>(s: seq<T>, key: T -> K, k: K)
    ensures forall x :: x in Members(s, key, k) ==> key(x) == k
    ensures k in KeysOf(s, key) ==> Members(s, key, k) != []
    ensures k !in KeysOf(s, key) ==> Members(s, key, k) == []
    decreases |s|
  {
    if s != [] {
      var n := |s| - 1;
      MembersHaveKey(s[..n], key, k);
      assert KeysOf(s, key) == KeysOf(s[..n], key) + [key(s[n])];
    }
  }

  lemma {:induction false} MembersIn<T, K>(s: seq<T>, key: T -> K, k: K)
    ensures forall x :: x in Members(s, key, k) ==> x in s
    decreases |s|
  {
    if s != [] {
      MembersIn(s[..|s| - 1], key, k);
      assert s == s[..|s| - 1] + [s[|s| - 1]];
    }
  }

  lemma KeysOfSnoc<T, K>(t: seq<T>, x: T, key: T -> K)
    ensures KeysOf(t + [x], key) == KeysOf(t, key) + [key(x)]
  {
  }

  lemma DedupeSnoc<K>(ks: seq<K>, k: K)
    ensures Dedupe(ks + [k]) == if k in Dedupe(ks) then Dedupe(ks) else Dedupe(ks) + [k]
  {
    assert (ks + [k])[..|ks|] == ks;
  }

  lemma GroupBySnoc<T, K>(t: seq<T>, x: T, key: T -> K)
    ensures GroupBy(t + [x], key) == AddToGroup(GroupBy(t, key), x, key)
  {
    assert (t + [x])[..|t|] == t;
  }

  lemma MembersSnoc<T, K>(t: seq<T>, x: T, key: T -> K, k: K)
    ensures Members(t + [x], key, k) == Members(t, key, k) + (if key(x) == k then [x] else [])
  {
    assert (t + [x])[..|t|] == t;
  }

  /** Bucket `i` holds exactly the members of the `i`-th distinct key, and the
      buckets follow the order in which the keys first occur. */
  lemma {:induction false} GroupByIsMembers<T, K>(s: seq<T>, key: T -> K)
    ensures |GroupBy(s, key)| == |Dedupe(KeysOf(s, key))|
    ensures forall i :: 0 <= i < |GroupBy(s, key)| ==>
      GroupBy(s, key)[i] == Members(s, key, Dedupe(KeysOf(s, key))[i])
    decreases |s|
  {
    if s != [] {
      var n := |s| - 1;
      var t, x := s[..n], s[n];
      assert s == t + [x];
      GroupByIsMembers(t, key);
      var g', d' := GroupBy(t, key), Dedupe(KeysOf(t, key));
      forall i | 0 <= i < |d'| ensures g'[i] != [] && key(g'[i][0]) == d'[i] {
        MembersHaveKey(t, key, d'[i]);
        assert g'[i][0] in g'[i];
      }
      MembersHaveKey(t, key, key(x));
      KeysOfSnoc(t, x, key);
      DedupeSnoc(KeysOf(t, key), key(x));
      GroupBySnoc(t, x, key);
      AddStep(g', d', t, x, key);
    }
  }

  /** The induction step on plain values: adding `x` to the buckets of `t`. */
  lemma AddStep<T, K>(g': seq<seq<T>>, d': seq<K>, t: seq<T>, x: T, key: T -> K)
    requires |g'| == |d'|
    requires forall i, j :: 0 <= i < j < |d'| ==> d'[i] != d'[j]
    requires forall i :: 0 <= i < |d'| ==> g'[i] != [] && key(g'[i][0]) == d'[i] && g'[i] == Members(t, key, d'[i])
    requires key(x) !in d' ==> Members(t, key, key(x)) == []
    ensures var d := if key(x) in d' then d' else d' + [key(x)];
      |AddToGroup(g', x, key)| == |d| &&
      forall i :: 0 <= i < |d| ==> AddToGroup(g', x, key)[i] == Members(t + [x], key, d[i])
  {
    var g := AddToGroup(g', x, key);
    var d := if key(x) in d' then d' else d' + [key(x)];
    forall i | 0 <= i < |d| ensures g[i] == Members(t + [x], key, d[i]) {
      MembersSnoc(t, x, key, d[i]);
      if key(x) in d' {
        var j := FindGroup(g', key, key(x)).value;
        assert d'[j] == key(x);
        if i != j {
          assert d'[i] != key(x);
          assert g[i] == g'[i] + [];
        }
      } else {
        assert FindGroup(g', key, key(x)).None?;
        if i < |g'| {
          assert g[i] == g'[i] + [];
        } else {
          assert [] + [x] == [x];
        }
      }
    }
  }

  /** Consequences for the callers: buckets are non-empty, every member of
      bucket `i` carries the bucket's key, and keys of distinct buckets differ. */
  lemma GroupByBuckets<T, K>(s: seq<T>, key: T -> K)
    ensures forall i :: 0 <= i < |GroupBy(s, key)| ==> GroupBy(s, key)[i] != []
    ensures forall i, x :: 0 <= i < |GroupBy(s, key)| && x in GroupBy(s, key)[i] ==>
      key(x) == key(GroupBy(s, key)[i][0])
    ensures forall i, j :: 0 <= i < j < |GroupBy(s, key)| ==>
      key(GroupBy(s, key)[i][0]) != key(GroupBy(s, key)[j][0])
    ensures forall i, x :: 0 <= i < |GroupBy(s, key)| && x in GroupBy(s, key)[i] ==> x in s
    ensures s != [] ==> GroupBy(s, key) != []
  {
    var g, d := GroupBy(s, key), Dedupe(KeysOf(s, key));
    GroupByIsMembers(s, key);
    forall i | 0 <= i < |g| ensures g[i] != [] && forall x :: x in g[i] ==> key(x) == d[i] && x in s {
      MembersHaveKey(s, key, d[i]);
      MembersIn(s, key, d[i]);
    }
    forall i, j | 0 <= i < j < |g| ensures key(g[i][0]) != key(g[j][0]) {
      assert g[i][0] in g[i] && g[j][0] in g[j];
    }
    if s != [] {
      assert key(s[0]) in KeysOf(s, key);
    }
  }

  /** Buckets come in the order in which their keys first occur in the list. */
  lemma GroupByFirstOccurrence<T, K>(s: seq<T>, key: T -> K)
    ensures forall i :: 0 <= i < |GroupBy(s, key)| ==>
      GroupBy(s, key)[i] != [] && key(GroupBy(s, key)[i][0]) in KeysOf(s, key)
    ensures forall i, j :: 0 <= i < j < |GroupBy(s, key)| ==>
      FirstIndex(KeysOf(s, key), key(GroupBy(s, key)[i][0])) <
      FirstIndex(KeysOf(s, key), key(GroupBy(s, key)[j][0]))
  {
    var g, d := GroupBy(s, key), Dedupe(KeysOf(s, key));
    GroupByIsMembers(s, key);
    DedupeFirstOccurrence(KeysOf(s, key));
    forall i | 0 <= i < |g| ensures g[i] != [] && key(g[i][0]) == d[i] {
      MembersHaveKey(s, key, d[i]);
      assert g[i][0] in g[i];
    }
  }

  /** Two elements with the same key always land in the same bucket. */
  lemma SameKeySameBucket<T, K>(s: seq<T>, key: T -> K, a: nat, b: nat)
    requires a < |s| && b < |s| && key(s[a]) == key(s[b])
    ensures exists i :: 0 <= i < |GroupBy(s, key)| && s[a] in GroupBy(s, key)[i] && s[b] in GroupBy(s, key)[i]
  {
    var g, d := GroupBy(s, key), Dedupe(KeysOf(s, key));
    GroupByIsMembers(s, key);
    var k := key(s[a]);
    assert k in KeysOf(s, key);
    var i :| 0 <= i < |d| && d[i] == k;
    MembersContain(s, key, a);
    MembersContain(s, key, b);
    assert s[a] in g[i] && s[b] in g[i];
  }

  lemma {:induction false} MembersContain<T, K>(s: seq<T>, key: T -> K, a: nat)
    requires a < |s|
    ensures s[a] in Members(s, key, key(s[a]))
    decreases |s|
  {
    var n := |s| - 1;
    if a < n {
      MembersContain(s[..n], key, a);
    }
  }
}
