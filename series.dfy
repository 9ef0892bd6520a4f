/** The numeric side of an entry: its x and y columns, and the arithmetic the
    steps apply to them (mathjs means, minima, the moving-average window, the
    stable point sort used by `merge`). Numbers are modelled as `real`. */
module Series {
  import opened Wrappers

  /** What `data.x` / `data.y` hold: a single number (one point per
      configuration) or a sequence of numbers (a curve). */
  datatype Column = Scalar(v: real) | Vector(vs: seq<real>)

  /** One entry's data object; `yStd` is present only after `average` with std. */
  datatype Data = Data(x: Column, y: Column, yStd: Option<Column>)

  /** Apply a number-to-number function to every element (mathjs's
      element-wise operations on a number or an array). */
  function MapColumn(c: Column, f: real -> real): (r: Column)
    ensures r.Scalar? <==> c.Scalar?
    ensures c.Scalar? ==> r.v == f(c.v)
    ensures c.Vector? ==> |r.vs| == |c.vs| && forall i :: 0 <= i < |c.vs| ==> r.vs[i] == f(c.vs[i])
  {
    match c
    case Scalar(v) => Scalar(f(v))
    case Vector(vs) => Vector(seq(|vs|, i requires 0 <= i < |vs| => f(vs[i])))
  }

  // ---- Sums and means ----

  function Sum(s: seq<real>): real {
    if s == [] then 0.0 else s[0] + Sum(s[1..])
  }

  function Mean(s: seq<real>): real
    requires |s| > 0
  {
    Sum(s) / (|s| as real)
  }

  lemma {:induction false} SumBounds(s: seq<real>, lo: real, hi: real)
    requires forall i :: 0 <= i < |s| ==> lo <= s[i] <= hi
    ensures (|s| as real) * lo <= Sum(s) <= (|s| as real) * hi
  {
    if s != [] {
      SumBounds(s[1..], lo, hi);
    }
  }

  /** A mean lies between the smallest and the largest value averaged. */
  lemma MeanBounds(s: seq<real>, lo: real, hi: real)
    requires |s| > 0
    requires forall i :: 0 <= i < |s| ==> lo <= s[i] <= hi
    ensures lo <= Mean(s) <= hi
  {
    SumBounds(s, lo, hi);
    QuotientBounds(Sum(s), |s| as real, lo, hi);
  }

  lemma QuotientBounds(a: real, n: real, lo: real, hi: real)
    requires n > 0.0 && n * lo <= a <= n * hi
    ensures lo <= a / n <= hi
  {
    var q := a / n;
    assert a == q * n;
    assert (q - lo) * n >= 0.0 && (hi - q) * n >= 0.0;
  }

  lemma MeanConstant(s: seq<real>, c: real)
    requires |s| > 0
    requires forall i :: 0 <= i < |s| ==> s[i] == c
    ensures Mean(s) == c
  {
    MeanBounds(s, c, c);
  }

  function Square(d: real): real { d * d }

  /** Population variance: the mean squared distance from the mean. */
  function PopVariance(s: seq<real>): real
    requires |s| > 0
  {
    var m := Mean(s);
    Mean(seq(|s|, i requires 0 <= i < |s| => Square(s[i] - m)))
  }

  /** Identical values have no spread. */
  lemma PopVarianceConstant(s: seq<real>, c: real)
    requires |s| > 0
    requires forall i :: 0 <= i < |s| ==> s[i] == c
    ensures PopVariance(s) == 0.0
  {
    MeanConstant(s, c);
    var d := seq(|s|, i requires 0 <= i < |s| => Square(s[i] - Mean(s)));
    MeanConstant(d, 0.0);
  }

  // ---- Element-wise means across the members of a group ----

  /** Position `j` of every member's vector. */
  function Slice(cs: seq<Column>, j: nat): (r: seq<real>)
    requires forall m :: 0 <= m < |cs| ==> cs[m].Vector? && j < |cs[m].vs|
    ensures |r| == |cs| && forall m :: 0 <= m < |cs| ==> r[m] == cs[m].vs[j]
  {
    seq(|cs|, m requires 0 <= m < |cs| => cs[m].vs[j])
  }

  function Scalars(cs: seq<Column>): (r: seq<real>)
    requires forall m :: 0 <= m < |cs| ==> cs[m].Scalar?
    ensures |r| == |cs| && forall m :: 0 <= m < |cs| ==> r[m] == cs[m].v
  {
    seq(|cs|, m requires 0 <= m < |cs| => cs[m].v)
  }

  predicate AllScalars(cs: seq<Column>) {
    forall m :: 0 <= m < |cs| ==> cs[m].Scalar?
  }

  predicate AllVectorsOfLength(cs: seq<Column>, n: nat) {
    forall m :: 0 <= m < |cs| ==> cs[m].Vector? && |cs[m].vs| == n
  }

  /** The members have one shape: all numbers, or all vectors as long as the first. */
  predicate SameShape(cs: seq<Column>) {
    |cs| > 0 && (AllScalars(cs) || (cs[0].Vector? && AllVectorsOfLength(cs, |cs[0].vs|)))
  }

  /** The element-wise statistic `stat` across the members, in the members' shape
      (`math.mean(cols, 0)` for `Mean`). */
  function EachPosition(cs: seq<Column>, stat: seq<real> -> real): (r: Column)
    requires SameShape(cs)
    requires forall s :: |s| > 0 ==> stat.requires(s)
  {
    if AllScalars(cs) then Scalar(stat(Scalars(cs)))
    else
      var n := |cs[0].vs|;
      Vector(seq(n, j requires 0 <= j < n => stat(Slice(cs, j))))
  }

  /** The element-wise mean: position `j` of the result averages position `j`
      of every member; a group of single numbers averages to a number. */
  function MeanColumns(cs: seq<Column>): (r: Column)
    requires SameShape(cs)
    ensures AllScalars(cs) ==> r == Scalar(Mean(Scalars(cs)))
    ensures cs[0].Vector? ==> (r.Vector? && |r.vs| == |cs[0].vs| &&
      forall j :: 0 <= j < |cs[0].vs| ==> r.vs[j] == Mean(Slice(cs, j)))
  {
    EachPosition(cs, s => if |s| > 0 then Mean(s) else 0.0)
  }

  /** The element-wise population variance across the members. */
  function VarianceColumns(cs: seq<Column>): (r: Column)
    requires SameShape(cs)
    ensures AllScalars(cs) ==> r == Scalar(PopVariance(Scalars(cs)))
    ensures cs[0].Vector? ==> (r.Vector? && |r.vs| == |cs[0].vs| &&
      forall j :: 0 <= j < |cs[0].vs| ==> r.vs[j] == PopVariance(Slice(cs, j)))
  {
    EachPosition(cs, s => if |s| > 0 then PopVariance(s) else 0.0)
  }

  /** Members that are all the same column average to it, with zero
      variance at every position. */
  lemma ColumnsConstant(cs: seq<Column>)
    requires SameShape(cs)
    requires forall m :: 0 <= m < |cs| ==> cs[m] == cs[0]
    ensures MeanColumns(cs) == cs[0]
    ensures VarianceColumns(cs) == MapColumn(cs[0], v => 0.0)
  {
    var c := cs[0];
    if AllScalars(cs) {
      MeanConstant(Scalars(cs), c.v);
      PopVarianceConstant(Scalars(cs), c.v);
    } else {
      var mean, vari := MeanColumns(cs), VarianceColumns(cs);
      forall j | 0 <= j < |c.vs| ensures mean.vs[j] == c.vs[j] && vari.vs[j] == 0.0 {
        MeanConstant(Slice(cs, j), c.vs[j]);
        PopVarianceConstant(Slice(cs, j), c.vs[j]);
      }
      assert mean.vs == c.vs;
      assert vari.vs == MapColumn(c, v => 0.0).vs;
    }
  }

  // ---- Scores for `best` ----

  /** `y[y.length - 1]`; a number or an empty vector has no last element. */
  function FinalScore(y: Column): Option<real> {
    if y.Vector? && |y.vs| > 0 then Some(y.vs[|y.vs| - 1]) else None
  }

  /** `math.mean(y)`; mathjs takes the mean of a single number as itself and
      throws on an empty array. */
  function AucScore(y: Column): Option<real> {
    match y
    case Scalar(v) => Some(v)
    case Vector(vs) => if |vs| > 0 then Some(Mean(vs)) else None
  }

  /** The last element of a stable ascending sort: the last index holding the
      largest score. */
  function LastMax(s: seq<real>): (r: nat)
    requires |s| > 0
    ensures r < |s|
    ensures forall i :: 0 <= i < |s| ==> s[i] <= s[r]
    ensures forall j :: r < j < |s| ==> s[j] < s[r]
  {
    if |s| == 1 then 0
    else
      var r := LastMax(s[..|s| - 1]);
      if s[|s| - 1] >= s[r] then |s| - 1 else r
  }

  /** The first element of a stable ascending sort: the first index holding
      the smallest score. */
  function FirstMin(s: seq<real>): (r: nat)
    requires |s| > 0
    ensures r < |s|
    ensures forall i :: 0 <= i < |s| ==> s[r] <= s[i]
    ensures forall j :: 0 <= j < r ==> s[r] < s[j]
  {
    if |s| == 1 then 0
    else
      var r := FirstMin(s[..|s| - 1]);
      if s[|s| - 1] < s[r] then |s| - 1 else r
  }

  // ---- moving_average ----

  /** `math.round(window_size / 2) - 1` for a window of at least one element
      (halves round up). */
  function HalfWidth(w: int): (h: nat)
    requires w >= 1
    ensures w == 2 * h + 1 || w == 2 * h + 2
  {
    (w + 1) / 2 - 1
  }

  /** `y[max(0, i - h) .. min(i + h + 1, |y|)]`: the values at most `h`
      positions from `i`, in order. */
  function Window(y: seq<real>, i: nat, h: nat): (r: seq<real>)
    requires i < |y|
    ensures 0 < |r| <= 2 * h + 1
    ensures y[i] in r
  {
    var lo := if i >= h then i - h else 0;
    var hi := if i + h + 1 <= |y| then i + h + 1 else |y|;
    y[lo..hi]
  }

  /** Every value replaced by the mean of the centred window around it,
      clamped at both ends. */
  function Smoothed(y: seq<real>, w: int): (r: seq<real>)
    requires w >= 1
    ensures |r| == |y|
  {
    var h := HalfWidth(w);
    seq(|y|, i requires 0 <= i < |y| => Mean(Window(y, i, h)))
  }

  /** Windows of one or two elements reach no neighbour: nothing changes. */
  lemma MovingAverageNarrowIsIdentity(y: seq<real>, w: int)
    requires w == 1 || w == 2
    ensures Smoothed(y, w) == y
  {
    var r := Smoothed(y, w);
    forall i | 0 <= i < |y| ensures r[i] == y[i] {
      assert Window(y, i, 0) == [y[i]];
      MeanConstant([y[i]], y[i]);
    }
  }

  /** Smoothing never leaves the range of the original values. */
  lemma MovingAverageWithinRange(y: seq<real>, w: int, lo: real, hi: real)
    requires w >= 1
    requires forall i :: 0 <= i < |y| ==> lo <= y[i] <= hi
    ensures forall i :: 0 <= i < |y| ==> lo <= Smoothed(y, w)[i] <= hi
  {
    var h := HalfWidth(w);
    forall i | 0 <= i < |y| ensures lo <= Smoothed(y, w)[i] <= hi {
      var win := Window(y, i, h);
      var a := if i >= h then i - h else 0;
      forall k | 0 <= k < |win| ensures lo <= win[k] <= hi {
        assert win[k] == y[a + k];
      }
      MeanBounds(win, lo, hi);
    }
  }

  // ---- merge: `_u.sortBy(points, a => a[0])` ----

  type Point = (real, real)

  predicate SortedByX(s: seq<Point>) {
    forall i, j :: 0 <= i < j < |s| ==> s[i].0 <= s[j].0
  }

  /** The points whose x is `v`, in order. */
  function WithX(s: seq<Point>, v: real): seq<Point> {
    if s == [] then [] else WithX(s[..|s| - 1], v) + (if s[|s| - 1].0 == v then [s[|s| - 1]] else [])
  }

  lemma {:induction false} WithXAppend(a: seq<Point>, b: seq<Point>, v: real)
    ensures WithX(a + b, v) == WithX(a, v) + WithX(b, v)
    decreases |b|
  {
    if b == [] {
      assert a + b == a;
    } else {
      var n := |b| - 1;
      assert (a + b)[..|a + b| - 1] == a + b[..n];
      WithXAppend(a, b[..n], v);
    }
  }

  /** Put `p` after every trailing point whose x is larger. */
  function InsertPoint(t: seq<Point>, p: Point): seq<Point> {
    if t == [] || t[|t| - 1].0 <= p.0 then t + [p]
    else InsertPoint(t[..|t| - 1], p) + [t[|t| - 1]]
  }

  /** Insertion adds exactly `p`. */
  lemma {:induction false} InsertPointAdds(t: seq<Point>, p: Point)
    ensures multiset(InsertPoint(t, p)) == multiset(t) + multiset{p}
    decreases |t|
  {
    if !(t == [] || t[|t| - 1].0 <= p.0) {
      var n := |t| - 1;
      assert t == t[..n] + [t[n]];
      InsertPointAdds(t[..n], p);
    }
  }

  lemma SortedAppend(u: seq<Point>, q: Point)
    requires SortedByX(u)
    requires forall i :: 0 <= i < |u| ==> u[i].0 <= q.0
    ensures SortedByX(u + [q])
  {
  }

  /** Inserting into a sorted list keeps it sorted. */
  lemma {:induction false} InsertPointSorted(t: seq<Point>, p: Point)
    requires SortedByX(t)
    ensures SortedByX(InsertPoint(t, p))
    decreases |t|
  {
    if t == [] || t[|t| - 1].0 <= p.0 {
      SortedAppend(t, p);
    } else {
      var n := |t| - 1;
      var last := t[n];
      InsertPointSorted(t[..n], p);
      InsertPointAdds(t[..n], p);
      var u := InsertPoint(t[..n], p);
      forall i | 0 <= i < |u| ensures u[i].0 <= last.0 {
        assert u[i] in multiset(u);
        if u[i] != p {
          assert u[i] in multiset(t[..n]);
          var k :| 0 <= k < n && t[..n][k] == u[i];
          assert t[k] == u[i];
        }
      }
      SortedAppend(u, last);
    }
  }

  /** Stable insertion sort by x. */
  function SortPoints(s: seq<Point>): seq<Point> {
    if s == [] then [] else InsertPoint(SortPoints(s[..|s| - 1]), s[|s| - 1])
  }

  /** The sort's result is ordered by x. */
  lemma {:induction false} SortPointsSorted(s: seq<Point>)
    ensures SortedByX(SortPoints(s))
    decreases |s|
  {
    if s != [] {
      SortPointsSorted(s[..|s| - 1]);
      InsertPointSorted(SortPoints(s[..|s| - 1]), s[|s| - 1]);
    }
  }

  /** The sort's result is a permutation of its input. */
  lemma {:induction false} SortPointsPermutes(s: seq<Point>)
    ensures multiset(SortPoints(s)) == multiset(s)
    decreases |s|
  {
    if s != [] {
      var n := |s| - 1;
      SortPointsPermutes(s[..n]);
      InsertPointAdds(SortPoints(s[..n]), s[n]);
      assert s == s[..n] + [s[n]];
    }
  }

  lemma WithXSingle(q: Point, v: real)
    ensures WithX([q], v) == if q.0 == v then [q] else []
  {
    assert [q][..0] == [];
  }

  lemma ConcatSwap<T>(b: seq<T>, p: seq<T>, l: seq<T>)
    requires p == [] || l == []
    ensures (b + p) + l == (b + l) + p
  {
    if p == [] {
      assert b + [] == b && (b + l) + [] == b + l;
    } else {
      assert (b + p) + [] == b + p && b + [] == b;
    }
  }

  /** Insertion keeps the points with any one x in order, `p` last among them. */
  lemma {:induction false} InsertPointStable(t: seq<Point>, p: Point, v: real)
    ensures WithX(InsertPoint(t, p), v) == WithX(t, v) + WithX([p], v)
    decreases |t|
  {
    if t == [] || t[|t| - 1].0 <= p.0 {
      assert InsertPoint(t, p) == t + [p];
      WithXAppend(t, [p], v);
    } else {
      var n := |t| - 1;
      InsertPointStable(t[..n], p, v);
      assert InsertPoint(t, p) == InsertPoint(t[..n], p) + [t[n]];
      assert t == t[..n] + [t[n]];
      PassLarger(t[..n], t[n], InsertPoint(t[..n], p), p, v);
    }
  }

  /** The step of the induction: `p` lands in front of a point `last` of
      larger x, so the two never share an x. */
  lemma PassLarger(t: seq<Point>, last: Point, u: seq<Point>, p: Point, v: real)
    requires last.0 > p.0
    requires WithX(u, v) == WithX(t, v) + WithX([p], v)
    ensures WithX(u + [last], v) == WithX(t + [last], v) + WithX([p], v)
  {
    var P, L := WithX([p], v), WithX([last], v);
    WithXAppend(u, [last], v);
    WithXAppend(t, [last], v);
    assert P == [] || L == [] by {
      WithXSingle(p, v);
      WithXSingle(last, v);
    }
    ConcatSwap(WithX(t, v), P, L);
  }

  /** Stability: among points with the same x the original order is kept. */
  lemma {:induction false} SortPointsStable(s: seq<Point>, v: real)
    ensures WithX(SortPoints(s), v) == WithX(s, v)
    decreases |s|
  {
    if s != [] {
      var n := |s| - 1;
      SortPointsStable(s[..n], v);
      InsertPointStable(SortPoints(s[..n]), s[n], v);
      assert s == s[..n] + [s[n]];
      WithXAppend(s[..n], [s[n]], v);
    }
  }

  // ---- subtract_min ----

  function MinOf(s: seq<real>): (r: real)
    requires |s| > 0
    ensures r in s
    ensures forall i :: 0 <= i < |s| ==> r <= s[i]
  {
    if |s| == 1 then s[0]
    else
      var m := MinOf(s[1..]);
      assert s == [s[0]] + s[1..];
      if s[0] <= m then s[0] else m
  }

  /** `math.min(y)`: the smallest element; a number is its own minimum and an
      empty array throws. */
  function ColumnMin(c: Column): Option<real> {
    match c
    case Scalar(v) => Some(v)
    case Vector(vs) => if |vs| > 0 then Some(MinOf(vs)) else None
  }

  /** Every element of the column. */
  function Elements(c: Column): seq<real> {
    match c
    case Scalar(v) => [v]
    case Vector(vs) => vs
  }
}
