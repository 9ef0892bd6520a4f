/** Hyperparameter sets (a configuration's `local_config`), the lodash `pick`
    and `omit` operations over them, and the canonical group key that the
    aggregating steps bucket entries by. */
module Parameters {
  import opened Wrappers
  import opened Grouping

  type Key = string

  /** A scalar hyperparameter value. */
  datatype Value = Num(n: real) | Str(s: string) | Flag(b: bool)

  /** (key, value) pairs in order. */
  type Pairs = seq<(Key, Value)>

  /** A JavaScript object never holds the same key twice. */
  predicate DistinctKeys(p: Pairs) {
    forall i, j :: 0 <= i < j < |p| ==> p[i].0 != p[j].0
  }

  /** A parameter object: its pairs in the object's own key order. */
  type Params = p: Pairs | DistinctKeys(p) witness []

  function KeySet(p: Pairs): set<Key> {
    set kv | kv in p :: kv.0
  }

  function PairSet(p: Pairs): set<(Key, Value)> {
    set kv | kv in p
  }

  /** The object seen as a finite map from keys to values. */
  function ToMap(p: Pairs): map<Key, Value>
    requires DistinctKeys(p)
  {
    map i | 0 <= i < |p| :: p[i].0 := p[i].1
  }

  /** `param[k]`: the value stored under `k`, if any. */
  function Lookup(p: Pairs, k: Key): (r: Option<Value>)
    ensures r.Some? <==> k in KeySet(p)
    ensures r.Some? ==> (k, r.value) in p
  {
    if p == [] then None
    else if p[0].0 == k then Some(p[0].1)
    else
      assert KeySet(p) == {p[0].0} + KeySet(p[1..]) by { assert p == [p[0]] + p[1..]; }
      Lookup(p[1..], k)
  }

  lemma LookupDistinct(p: Pairs, kv: (Key, Value))
    requires DistinctKeys(p) && kv in p
    ensures Lookup(p, kv.0) == Some(kv.1)
  {
    var r := Lookup(p, kv.0);
    var i :| 0 <= i < |p| && p[i] == kv;
    var j :| 0 <= j < |p| && p[j] == (kv.0, r.value);
    assert i == j;
  }

  /** lodash `_u.omit(param, ks)`: every pair whose key is not listed, in the
      object's order. */
  function Omit(p: Pairs, ks: seq<Key>): (r: Pairs)
    ensures forall kv :: kv in r <==> kv in p && kv.0 !in ks
    ensures DistinctKeys(p) ==> DistinctKeys(r)
  {
    if p == [] then []
    else if p[0].0 in ks then Omit(p[1..], ks)
    else
      var t := Omit(p[1..], ks);
      assert DistinctKeys(p) ==> forall kv :: kv in t ==> kv.0 != p[0].0 by {
        if DistinctKeys(p) {
          forall kv | kv in t ensures kv.0 != p[0].0 {
            var j :| 0 <= j < |p[1..]| && p[1..][j] == kv;
            assert p[j + 1] == kv;
          }
        }
      }
      [p[0]] + t
  }

  lemma ConcatAssoc(a: Pairs, b: Pairs, c: Pairs)
    ensures a + (b + c) == (a + b) + c
  {
  }

  lemma OmitCons(x: (Key, Value), t: Pairs, ks: seq<Key>)
    ensures Omit([x] + t, ks) == (if x.0 in ks then [] else [x]) + Omit(t, ks)
  {
    assert ([x] + t)[0] == x && ([x] + t)[1..] == t;
  }

  /** Omitting keys keeps the relative order of the pairs that stay. */
  lemma {:induction false} OmitAppend(a: Pairs, b: Pairs, ks: seq<Key>)
    ensures Omit(a + b, ks) == Omit(a, ks) + Omit(b, ks)
  {
    if a == [] {
      assert a + b == b;
    } else {
      var x, t := a[0], a[1..];
      assert a == [x] + t;
      assert a + b == [x] + (t + b);
      OmitAppend(t, b, ks);
      OmitCons(x, t + b, ks);
      OmitCons(x, t, ks);
      ConcatAssoc(if x.0 in ks then [] else [x], Omit(t, ks), Omit(b, ks));
    }
  }

  /** lodash `_u.pick(param, ks)`: walks the listed keys in order and copies
      each one the object has; a key listed twice is copied once. */
  function Pick(p: Pairs, ks: seq<Key>): (r: Pairs)
    ensures DistinctKeys(r)
    ensures KeySet(r) == KeySet(p) * (set k | k in ks)
    ensures forall kv :: kv in r ==> Lookup(p, kv.0) == Some(kv.1)
  {
    if ks == [] then []
    else
      var n := |ks| - 1;
      var rest := Pick(p, ks[..n]);
      var k := ks[n];
      assert (set k' | k' in ks) == (set k' | k' in ks[..n]) + {k} by {
        assert ks == ks[..n] + [k];
      }
      match Lookup(p, k)
      case None => rest
      case Some(v) =>
        if k in KeySet(rest) then rest
        else
          var r := rest + [(k, v)];
          assert KeySet(r) == KeySet(rest) + {k} by {
            assert forall kv :: kv in r <==> kv in rest || kv == (k, v);
          }
          assert forall i :: 0 <= i < |rest| ==> rest[i].0 != k by {
            forall i | 0 <= i < |rest| ensures rest[i].0 != k {
              assert rest[i] in rest;
            }
          }
          r
  }

  /** The picked keys come out in the order they are listed. */
  lemma {:induction false} PickOrder(p: Pairs, ks: seq<Key>)
    ensures forall kv :: kv in Pick(p, ks) ==> kv.0 in ks
    ensures forall i, j :: 0 <= i < j < |Pick(p, ks)| ==>
      FirstIndex(ks, Pick(p, ks)[i].0) < FirstIndex(ks, Pick(p, ks)[j].0)
  {
    var r := Pick(p, ks);
    forall kv | kv in r ensures kv.0 in ks {
      assert kv.0 in KeySet(r);
    }
    if ks != [] {
      var n := |ks| - 1;
      var rest := Pick(p, ks[..n]);
      var k := ks[n];
      PickOrder(p, ks[..n]);
      forall i | 0 <= i < |rest| ensures FirstIndex(ks, rest[i].0) == FirstIndex(ks[..n], rest[i].0) < n {
        assert rest[i] in rest;
        FirstIndexPrefix(ks, n, rest[i].0);
      }
      if r != rest {
        assert k !in ks[..n] by {
          assert (set k' | k' in ks[..n]) * KeySet(p) == KeySet(rest);
        }
        assert FirstIndex(ks, k) == n;
        assert r == rest + [r[|r| - 1]];
      }
    }
  }

  /** compare: the picked object is the restriction of `p` to the listed keys. */
  lemma PickRestricts(p: Pairs, ks: seq<Key>, kv: (Key, Value))
    requires DistinctKeys(p)
    ensures kv in Pick(p, ks) <==> kv in p && kv.0 in ks
  {
    var r := Pick(p, ks);
    if kv in r {
      assert kv.0 in KeySet(r);
    }
    if kv in p && kv.0 in ks {
      assert kv.0 in KeySet(p) * (set k | k in ks);
      var kv' :| kv' in r && kv'.0 == kv.0;
      LookupDistinct(p, kv);
    }
  }

  // ---- The key order used by `_u.sortBy(pairs, p => p[0])` ----

  /** Lexicographic order on strings by character code. */
  predicate Less(a: string, b: string) {
    if |a| == 0 then |b| > 0
    else |b| > 0 && (a[0] < b[0] || (a[0] == b[0] && Less(a[1..], b[1..])))
  }

  lemma LessIrreflexive(a: string)
    ensures !Less(a, a)
  {
    if |a| > 0 { LessIrreflexive(a[1..]); }
  }

  lemma LessTransitive(a: string, b: string, c: string)
    requires Less(a, b) && Less(b, c)
    ensures Less(a, c)
  {
    if |a| > 0 && a[0] == b[0] && b[0] == c[0] {
      LessTransitive(a[1..], b[1..], c[1..]);
    }
  }

  lemma LessTotal(a: string, b: string)
    requires a != b
    ensures Less(a, b) || Less(b, a)
  {
    if |a| > 0 && |b| > 0 && a[0] == b[0] {
      assert a == [a[0]] + a[1..] && b == [b[0]] + b[1..];
      LessTotal(a[1..], b[1..]);
    }
  }

  lemma LessAsymmetric(a: string, b: string)
    requires Less(a, b)
    ensures !Less(b, a)
  {
    if Less(b, a) {
      LessTransitive(a, b, a);
      LessIrreflexive(a);
    }
  }

  /** Keys strictly increase along `s` (so no key repeats). */
  predicate StrictlySorted(s: Pairs) {
    forall i, j :: 0 <= i < j < |s| ==> Less(s[i].0, s[j].0)
  }

  function InsertByKey(kv: (Key, Value), s: Pairs): (r: Pairs)
    requires StrictlySorted(s) && kv.0 !in KeySet(s)
    ensures multiset(r) == multiset(s) + multiset{kv}
    ensures StrictlySorted(r)
  {
    if s == [] then [kv]
    else if Less(kv.0, s[0].0) then
      assert forall j :: 0 <= j < |s| ==> Less(kv.0, s[j].0) by {
        forall j | 0 < j < |s| ensures Less(kv.0, s[j].0) { LessTransitive(kv.0, s[0].0, s[j].0); }
      }
      ConsSorted(kv, s);
      [kv] + s
    else
      assert s[0] in s;
      LessTotal(kv.0, s[0].0);
      KeySetTail(s);
      var t := InsertByKey(kv, s[1..]);
      assert s == [s[0]] + s[1..];
      HeadBelowInserted(s, kv, t);
      ConsSorted(s[0], t);
      [s[0]] + t
  }

  lemma ConsSorted(x: (Key, Value), s: Pairs)
    requires StrictlySorted(s) && forall j :: 0 <= j < |s| ==> Less(x.0, s[j].0)
    ensures StrictlySorted([x] + s)
  {
    var r := [x] + s;
    forall i, j | 0 <= i < j < |r| ensures Less(r[i].0, r[j].0) {
      assert r[j] == s[j - 1];
      if i > 0 {
        assert r[i] == s[i - 1];
      }
    }
  }

  lemma KeySetTail(s: Pairs)
    requires s != []
    ensures KeySet(s[1..]) <= KeySet(s)
  {
    forall k | k in KeySet(s[1..]) ensures k in KeySet(s) {
      var kv' :| kv' in s[1..] && kv'.0 == k;
      assert kv' in s;
    }
  }

  /** The head of a sorted list stays below every key once a larger pair is
      inserted into its tail. */
  lemma HeadBelowInserted(s: Pairs, kv: (Key, Value), t: Pairs)
    requires s != [] && StrictlySorted(s) && Less(s[0].0, kv.0)
    requires multiset(t) == multiset(s[1..]) + multiset{kv}
    ensures forall j :: 0 <= j < |t| ==> Less(s[0].0, t[j].0)
  {
    forall j | 0 <= j < |t| ensures Less(s[0].0, t[j].0) {
      assert t[j] in multiset(t);
      if t[j] != kv {
        assert t[j] in s[1..];
        var m :| 0 <= m < |s[1..]| && s[1..][m] == t[j];
        assert s[m + 1] == t[j];
      }
    }
  }

  /** `_u.sortBy(pairs, p => p[0])` for pairs with distinct keys. */
  function SortByKey(p: Pairs): (r: Pairs)
    requires DistinctKeys(p)
    ensures multiset(r) == multiset(p)
    ensures StrictlySorted(r)
  {
    if p == [] then []
    else
      assert DistinctKeys(p[1..]) by {
        forall i, j | 0 <= i < j < |p[1..]| ensures p[1..][i].0 != p[1..][j].0 {
          assert p[1..][i] == p[i + 1] && p[1..][j] == p[j + 1];
        }
      }
      var t := SortByKey(p[1..]);
      assert forall kv :: kv in t ==> kv.0 != p[0].0 by {
        forall kv | kv in t ensures kv.0 != p[0].0 {
          assert kv in multiset(p[1..]);
          var m :| 0 <= m < |p[1..]| && p[1..][m] == kv;
          assert p[m + 1] == kv;
        }
      }
      assert p == [p[0]] + p[1..];
      InsertByKey(p[0], t)
  }

  lemma PairSetHead(t: Pairs)
    ensures t != [] ==> t[0] in PairSet(t)
  {
  }

  /** In a strictly sorted list every other pair comes after the first. */
  lemma SortedHeadLeast(s: Pairs, x: (Key, Value))
    requires StrictlySorted(s) && x in s
    ensures x == s[0] || Less(s[0].0, x.0)
  {
    var i :| 0 <= i < |s| && s[i] == x;
  }

  lemma SortedTailPairs(s: Pairs)
    requires StrictlySorted(s) && s != []
    ensures PairSet(s[1..]) == PairSet(s) - {s[0]}
  {
    LessIrreflexive(s[0].0);
    forall x | x in s[1..] ensures x in s && x != s[0] {
      var i :| 0 <= i < |s[1..]| && s[1..][i] == x;
      assert s[i + 1] == x;
    }
    forall x | x in s && x != s[0] ensures x in s[1..] {
      var i :| 0 <= i < |s| && s[i] == x;
      assert s[1..][i - 1] == x;
    }
  }

  lemma LessNotBoth(a: string, b: string)
    ensures !(Less(a, b) && Less(b, a))
  {
    if Less(a, b) { LessAsymmetric(a, b); }
  }

  /** Two strictly sorted pair lists with the same pairs are the same list. */
  lemma {:induction false} StrictlySortedUnique(s: Pairs, t: Pairs)
    requires StrictlySorted(s) && StrictlySorted(t)
    requires PairSet(s) == PairSet(t)
    ensures s == t
  {
    PairSetHead(s);
    PairSetHead(t);
    if s != [] && t != [] {
      SortedHeadLeast(s, t[0]);
      SortedHeadLeast(t, s[0]);
      LessNotBoth(s[0].0, t[0].0);
      assert s[0] == t[0];
      SortedTailPairs(s);
      SortedTailPairs(t);
      StrictlySortedUnique(s[1..], t[1..]);
      assert s == [s[0]] + s[1..] && t == [t[0]] + t[1..];
    }
  }

  lemma ToMapHolds(p: Pairs)
    requires DistinctKeys(p)
    ensures forall kv :: kv in p ==> kv.0 in ToMap(p) && ToMap(p)[kv.0] == kv.1
    ensures forall k :: k in ToMap(p) ==> (k, ToMap(p)[k]) in p
  {
    var m := ToMap(p);
    forall kv | kv in p ensures kv.0 in m && m[kv.0] == kv.1 {
      var i :| 0 <= i < |p| && p[i] == kv;
      assert m[p[i].0] == p[i].1;
    }
    forall k | k in m ensures (k, m[k]) in p {
      var i :| 0 <= i < |p| && p[i].0 == k;
      assert p[i] == (k, m[k]);
    }
  }

  /** For parameter objects, equality as maps is equality of their pair sets. */
  lemma MapEqualIffPairs(p: Pairs, q: Pairs)
    requires DistinctKeys(p) && DistinctKeys(q)
    ensures ToMap(p) == ToMap(q) <==> PairSet(p) == PairSet(q)
  {
    ToMapHolds(p);
    ToMapHolds(q);
    var mp, mq := ToMap(p), ToMap(q);
    if mp == mq {
      assert forall kv :: kv in p <==> kv in q;
      assert PairSet(p) == PairSet(q);
    }
    if PairSet(p) == PairSet(q) {
      assert forall kv :: kv in p <==> kv in q by {
        forall kv ensures kv in p <==> kv in q {
          assert kv in p <==> kv in PairSet(p);
          assert kv in q <==> kv in PairSet(q);
        }
      }
      assert forall k :: k in mp <==> k in mq;
      assert mp == mq;
    }
  }

  /** Sorting keeps the same pairs. */
  lemma SortByKeyPairs(p: Pairs)
    requires DistinctKeys(p)
    ensures PairSet(SortByKey(p)) == PairSet(p)
  {
    var sp := SortByKey(p);
    forall kv ensures kv in sp <==> kv in p { assert kv in sp <==> kv in multiset(sp); }
  }

  /** The bucket key of `best`, `average` and `merge`: the pairs left after
      omitting the step's keys, sorted by key (the source hashes their JSON text). */
  function GroupKey(p: Params, ks: seq<Key>): Pairs {
    SortByKey(Omit(p, ks))
  }

  /** Two parameter objects share a group key exactly when they are the same
      map once the step's keys are omitted, whatever their key order. */
  lemma GroupKeyCanonical(p: Params, q: Params, ks: seq<Key>)
    ensures GroupKey(p, ks) == GroupKey(q, ks) <==> ToMap(Omit(p, ks)) == ToMap(Omit(q, ks))
  {
    var a, b := Omit(p, ks), Omit(q, ks);
    var sa, sb := SortByKey(a), SortByKey(b);
    MapEqualIffPairs(a, b);
    SortByKeyPairs(a);
    SortByKeyPairs(b);
    if PairSet(a) == PairSet(b) {
      StrictlySortedUnique(sa, sb);
    }
  }
}
