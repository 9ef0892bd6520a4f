/** The analysis steps of the plot: each one rewrites the list of
    (parameters, data) entries that the configurations of an experiment
    start out as. */
module Steps {
  import opened Wrappers
  import opened Parameters
  import opened Series
  import opened Grouping

  /** One configuration as the steps see it: its (remaining) parameters and
      its data object. */
  datatype Entry = Entry(params: Params, data: Data)

  /** `step.score` of a `best` step. */
  datatype Score = MaxFinal | MinFinal | MaxAuc | MinAuc | OtherScore(name: string)

  /** `step.axis` of a `log_transform` step. */
  datatype Axis = XAxis | YAxis

  /** One element of `spec.steps`, told apart by its `action`. */
  datatype Step =
    | Compare(keys: seq<Key>)
    | Drop(keys: seq<Key>)
    | Best(score: Score, keys: seq<Key>)
    | Average(keys: seq<Key>, withStd: bool)
    | MovingAverage(windowSize: int)
    | Merge(keys: seq<Key>)
    | Filter(predicates: seq<Params>)
    | LogTransform(axis: Axis)
    | SubtractMin
    | OtherAction(action: string)

  // ---- compare and drop ----

  /** compare: every entry keeps only the listed parameters. */
  function CompareOf(es: seq<Entry>, ks: seq<Key>): (r: seq<Entry>)
    ensures |r| == |es|
    ensures forall i :: 0 <= i < |r| ==> r[i].data == es[i].data
    ensures forall i :: 0 <= i < |r| ==> r[i].params == Pick(es[i].params, ks)
    ensures forall i, kv :: 0 <= i < |r| ==>
      (kv in r[i].params <==> kv in es[i].params && kv.0 in ks)
  {
    var r := seq(|es|, i requires 0 <= i < |es| => Entry(Pick(es[i].params, ks), es[i].data));
    assert forall i, kv :: 0 <= i < |r| ==>
      (kv in r[i].params <==> kv in es[i].params && kv.0 in ks) by {
      forall i, kv | 0 <= i < |r| ensures kv in r[i].params <==> kv in es[i].params && kv.0 in ks {
        PickRestricts(es[i].params, ks, kv);
      }
    }
    r
  }

  /** drop: every entry loses the listed parameters. */
  function DropOf(es: seq<Entry>, ks: seq<Key>): (r: seq<Entry>)
    ensures |r| == |es|
    ensures forall i :: 0 <= i < |r| ==> r[i].data == es[i].data
    ensures forall i :: 0 <= i < |r| ==> r[i].params == Omit(es[i].params, ks)
    ensures forall i, kv :: 0 <= i < |r| ==>
      (kv in r[i].params <==> kv in es[i].params && kv.0 !in ks)
  {
    seq(|es|, i requires 0 <= i < |es| => Entry(Omit(es[i].params, ks), es[i].data))
  }

  // ---- Groups of best, average and merge ----

  /** The bucket key of an entry: its parameters without the step's keys. */
  function EntryKey(ks: seq<Key>): Entry -> Pairs {
    (e: Entry) => GroupKey(e.params, ks)
  }

  function Groups(es: seq<Entry>, ks: seq<Key>): seq<seq<Entry>> {
    GroupBy(es, EntryKey(ks))
  }

  /** Two entries fall into one group exactly when their parameters are the
      same map once the step's keys are omitted, in whatever key order the
      objects hold them. */
  lemma SameGroupIffSameRest(es: seq<Entry>, ks: seq<Key>, a: nat, b: nat)
    requires a < |es| && b < |es|
    ensures (exists i :: 0 <= i < |Groups(es, ks)| && es[a] in Groups(es, ks)[i] && es[b] in Groups(es, ks)[i])
      <==> ToMap(Omit(es[a].params, ks)) == ToMap(Omit(es[b].params, ks))
  {
    var key := EntryKey(ks);
    var gs := Groups(es, ks);
    GroupKeyCanonical(es[a].params, es[b].params, ks);
    GroupByBuckets(es, key);
    if key(es[a]) == key(es[b]) {
      SameKeySameBucket(es, key, a, b);
    }
  }

  /** Every group is non-empty and drawn from the entries, its members share
      one key, and distinct groups have distinct keys. */
  lemma GroupsFacts(es: seq<Entry>, ks: seq<Key>)
    ensures forall i :: 0 <= i < |Groups(es, ks)| ==> Groups(es, ks)[i] != []
    ensures forall i, e :: 0 <= i < |Groups(es, ks)| && e in Groups(es, ks)[i] ==>
      e in es && GroupKey(e.params, ks) == GroupKey(Groups(es, ks)[i][0].params, ks)
    ensures forall i, j :: 0 <= i < j < |Groups(es, ks)| ==>
      GroupKey(Groups(es, ks)[i][0].params, ks) != GroupKey(Groups(es, ks)[j][0].params, ks)
  {
    GroupByBuckets(es, EntryKey(ks));
  }

  /** Every entry lands in some group. */
  lemma GroupsCover(es: seq<Entry>, ks: seq<Key>, a: nat)
    requires a < |es|
    ensures exists i :: 0 <= i < |Groups(es, ks)| && es[a] in Groups(es, ks)[i]
  {
    SameKeySameBucket(es, EntryKey(ks), a, a);
    assert Groups(es, ks) == GroupBy(es, EntryKey(ks));
  }

  // ---- best ----

  /** The score an entry is ranked by: `y[y.length - 1]` or `math.mean(y)`. */
  function ScoreOf(d: Data, s: Score): Option<real> {
    match s
    case MaxFinal => FinalScore(d.y)
    case MinFinal => FinalScore(d.y)
    case MaxAuc => AucScore(d.y)
    case MinAuc => AucScore(d.y)
    case OtherScore(_) => None
  }

  predicate Scored(es: seq<Entry>, s: Score) {
    forall e :: e in es ==> ScoreOf(e.data, s).Some?
  }

  /** For the `*_auc` scores a member has no score exactly when its `y` is
      the empty array. */
  lemma AucUnscored(es: seq<Entry>, s: Score)
    requires s.MaxAuc? || s.MinAuc?
    ensures !Scored(es, s) <==> exists e :: e in es && e.data.y == Vector([])
  {
  }

  function Scores(g: seq<Entry>, s: Score): (r: seq<real>)
    requires Scored(g, s)
    ensures |r| == |g|
    ensures forall m :: 0 <= m < |g| ==> r[m] == ScoreOf(g[m].data, s).value
  {
    seq(|g|, m requires 0 <= m < |g| => ScoreOf(g[m].data, s).value)
  }

  predicate Maximising(s: Score) {
    s == MaxFinal || s == MaxAuc
  }

  predicate Minimising(s: Score) {
    s == MinFinal || s == MinAuc
  }

  /** The last member of the group after a stable ascending sort by score
      (maximising scores) or its first member (minimising scores). */
  function Winner(g: seq<Entry>, s: Score): Entry
    requires g != [] && Scored(g, s) && (Maximising(s) || Minimising(s))
  {
    if Maximising(s) then g[LastMax(Scores(g, s))] else g[FirstMin(Scores(g, s))]
  }

  /** best: one winner per group. */
  function BestOf(es: seq<Entry>, s: Score, ks: seq<Key>): seq<Entry>
    requires Scored(es, s) && (Maximising(s) || Minimising(s))
  {
    var gs := Groups(es, ks);
    GroupsFacts(es, ks);
    seq(|gs|, i requires 0 <= i < |gs| => Winner(gs[i], s))
  }

  /** `m` is the last index of `g` holding the highest score. */
  predicate LastHighest(g: seq<Entry>, s: Score, m: nat)
    requires Scored(g, s)
  {
    m < |g| &&
    (forall j :: 0 <= j < |g| ==> ScoreOf(g[j].data, s).value <= ScoreOf(g[m].data, s).value) &&
    (forall j :: m < j < |g| ==> ScoreOf(g[j].data, s).value < ScoreOf(g[m].data, s).value)
  }

  /** `m` is the first index of `g` holding the lowest score. */
  predicate FirstLowest(g: seq<Entry>, s: Score, m: nat)
    requires Scored(g, s)
  {
    m < |g| &&
    (forall j :: 0 <= j < |g| ==> ScoreOf(g[m].data, s).value <= ScoreOf(g[j].data, s).value) &&
    (forall j :: 0 <= j < m ==> ScoreOf(g[m].data, s).value < ScoreOf(g[j].data, s).value)
  }

  lemma ScoredGroups(es: seq<Entry>, s: Score, ks: seq<Key>)
    requires Scored(es, s)
    ensures forall i :: 0 <= i < |Groups(es, ks)| ==> Scored(Groups(es, ks)[i], s)
  {
    GroupsFacts(es, ks);
  }

  lemma WinnerMaximising(g: seq<Entry>, s: Score)
    requires g != [] && Scored(g, s) && Maximising(s)
    ensures exists m: nat :: LastHighest(g, s, m) && Winner(g, s) == g[m]
  {
    var m := LastMax(Scores(g, s));
    assert LastHighest(g, s, m);
  }

  lemma WinnerMinimising(g: seq<Entry>, s: Score)
    requires g != [] && Scored(g, s) && Minimising(s)
    ensures exists m: nat :: FirstLowest(g, s, m) && Winner(g, s) == g[m]
  {
    var m := FirstMin(Scores(g, s));
    assert FirstLowest(g, s, m);
  }

  /** The `i`-th survivor is the winner of the `i`-th group. */
  lemma BestOfAt(es: seq<Entry>, s: Score, ks: seq<Key>, i: nat)
    requires Scored(es, s) && (Maximising(s) || Minimising(s)) && i < |Groups(es, ks)|
    ensures |BestOf(es, s, ks)| == |Groups(es, ks)|
    ensures Groups(es, ks)[i] != [] && Scored(Groups(es, ks)[i], s)
    ensures BestOf(es, s, ks)[i] == Winner(Groups(es, ks)[i], s)
  {
    ScoredGroups(es, s, ks);
    GroupsFacts(es, ks);
  }

  /** best with max_final / max_auc: one entry per group, untouched, the last
      member holding the group's highest score. */
  lemma BestOfMaximising(es: seq<Entry>, s: Score, ks: seq<Key>)
    requires Scored(es, s) && Maximising(s)
    ensures |BestOf(es, s, ks)| == |Groups(es, ks)|
    ensures forall i :: 0 <= i < |Groups(es, ks)| ==> (Scored(Groups(es, ks)[i], s) &&
      exists m: nat :: LastHighest(Groups(es, ks)[i], s, m) && BestOf(es, s, ks)[i] == Groups(es, ks)[i][m])
  {
    var gs := Groups(es, ks);
    forall i | 0 <= i < |gs|
      ensures Scored(gs[i], s) && exists m: nat :: LastHighest(gs[i], s, m) && BestOf(es, s, ks)[i] == gs[i][m]
    {
      BestOfAt(es, s, ks, i);
      WinnerMaximising(gs[i], s);
    }
  }

  /** best with min_final / min_auc: one entry per group, untouched, the first
      member holding the group's lowest score. */
  lemma BestOfMinimising(es: seq<Entry>, s: Score, ks: seq<Key>)
    requires Scored(es, s) && Minimising(s)
    ensures |BestOf(es, s, ks)| == |Groups(es, ks)|
    ensures forall i :: 0 <= i < |Groups(es, ks)| ==> (Scored(Groups(es, ks)[i], s) &&
      exists m: nat :: FirstLowest(Groups(es, ks)[i], s, m) && BestOf(es, s, ks)[i] == Groups(es, ks)[i][m])
  {
    var gs := Groups(es, ks);
    forall i | 0 <= i < |gs|
      ensures Scored(gs[i], s) && exists m: nat :: FirstLowest(gs[i], s, m) && BestOf(es, s, ks)[i] == gs[i][m]
    {
      BestOfAt(es, s, ks, i);
      WinnerMinimising(gs[i], s);
    }
  }

  /** Exactly one survivor per group: the survivors are entries of the input,
      pairwise in different groups, and every entry's group has one. */
  lemma BestOfOnePerGroup(es: seq<Entry>, s: Score, ks: seq<Key>)
    requires Scored(es, s) && (Maximising(s) || Minimising(s))
    ensures forall i :: 0 <= i < |BestOf(es, s, ks)| ==> BestOf(es, s, ks)[i] in es
    ensures forall i, j :: 0 <= i < j < |BestOf(es, s, ks)| ==>
      GroupKey(BestOf(es, s, ks)[i].params, ks) != GroupKey(BestOf(es, s, ks)[j].params, ks)
    ensures forall e :: e in es ==> exists i :: (0 <= i < |BestOf(es, s, ks)| &&
      GroupKey(BestOf(es, s, ks)[i].params, ks) == GroupKey(e.params, ks))
    ensures es == [] <==> BestOf(es, s, ks) == []
  {
    BestOfDistinct(es, s, ks);
    forall e | e in es ensures exists i :: (0 <= i < |BestOf(es, s, ks)| &&
      GroupKey(BestOf(es, s, ks)[i].params, ks) == GroupKey(e.params, ks))
    {
      var a :| 0 <= a < |es| && es[a] == e;
      BestOfCovers(es, s, ks, a);
    }
    if es != [] {
      BestOfCovers(es, s, ks, 0);
    }
  }

  lemma BestOfDistinct(es: seq<Entry>, s: Score, ks: seq<Key>)
    requires Scored(es, s) && (Maximising(s) || Minimising(s))
    ensures forall i :: 0 <= i < |BestOf(es, s, ks)| ==> BestOf(es, s, ks)[i] in es
    ensures forall i, j :: 0 <= i < j < |BestOf(es, s, ks)| ==>
      GroupKey(BestOf(es, s, ks)[i].params, ks) != GroupKey(BestOf(es, s, ks)[j].params, ks)
  {
    BestOfInGroups(es, s, ks);
    GroupsFacts(es, ks);
  }

  lemma BestOfCovers(es: seq<Entry>, s: Score, ks: seq<Key>, a: nat)
    requires Scored(es, s) && (Maximising(s) || Minimising(s)) && a < |es|
    ensures exists i :: (0 <= i < |BestOf(es, s, ks)| &&
      GroupKey(BestOf(es, s, ks)[i].params, ks) == GroupKey(es[a].params, ks))
  {
    var gs: seq<seq<Entry>> := Groups(es, ks);
    BestOfInGroups(es, s, ks);
    GroupsFacts(es, ks);
    GroupsCover(es, ks, a);
    var i :| 0 <= i < |gs| && es[a] in gs[i];
    assert GroupKey(BestOf(es, s, ks)[i].params, ks) == GroupKey(gs[i][0].params, ks);
  }

  /** The survivor of group `i` is one of its members. */
  lemma BestOfInGroups(es: seq<Entry>, s: Score, ks: seq<Key>)
    requires Scored(es, s) && (Maximising(s) || Minimising(s))
    ensures |BestOf(es, s, ks)| == |Groups(es, ks)|
    ensures forall i :: 0 <= i < |BestOf(es, s, ks)| ==> BestOf(es, s, ks)[i] in Groups(es, ks)[i]
  {
    var gs, r := Groups(es, ks), BestOf(es, s, ks);
    GroupsFacts(es, ks);
    ScoredGroups(es, s, ks);
    forall i | 0 <= i < |r| ensures r[i] in gs[i] {
      assert r[i] == Winner(gs[i], s);
      WinnerIsMember(gs[i], s);
    }
  }

  lemma WinnerIsMember(g: seq<Entry>, s: Score)
    requires g != [] && Scored(g, s) && (Maximising(s) || Minimising(s))
    ensures Winner(g, s) in g
  {
  }

  // ---- average ----

  function Xs(g: seq<Entry>): (r: seq<Column>)
    ensures |r| == |g| && forall m :: 0 <= m < |g| ==> r[m] == g[m].data.x
  {
    seq(|g|, m requires 0 <= m < |g| => g[m].data.x)
  }

  function Ys(g: seq<Entry>): (r: seq<Column>)
    ensures |r| == |g| && forall m :: 0 <= m < |g| ==> r[m] == g[m].data.y
  {
    seq(|g|, m requires 0 <= m < |g| => g[m].data.y)
  }

  /** The members' x columns share one shape, and so do their y columns:
      mathjs rejects ragged matrices. */
  predicate Averageable(g: seq<Entry>) {
    SameShape(Xs(g)) && SameShape(Ys(g))
  }

  /** One group collapsed to the element-wise mean of its members, named by
      the first member's parameters without the step's keys; with `withStd`
      also the element-wise population standard deviation of y. */
  function AverageGroup(g: seq<Entry>, ks: seq<Key>, withStd: bool, sqrt: real -> real): Entry
    requires Averageable(g)
  {
    var ys := Ys(g);
    Entry(Omit(g[0].params, ks),
      Data(MeanColumns(Xs(g)), MeanColumns(ys),
        if withStd then Some(MapColumn(VarianceColumns(ys), sqrt)) else None))
  }

  /** average: `None` when some group is ragged. */
  function AverageOf(es: seq<Entry>, ks: seq<Key>, withStd: bool, sqrt: real -> real): (r: Option<seq<Entry>>)
    ensures r.Some? <==> forall i :: 0 <= i < |Groups(es, ks)| ==> Averageable(Groups(es, ks)[i])
  {
    var gs := Groups(es, ks);
    if forall i :: 0 <= i < |gs| ==> Averageable(gs[i]) then
      Some(seq(|gs|, i requires 0 <= i < |gs| => AverageGroup(gs[i], ks, withStd, sqrt)))
    else None
  }

  /** What an averaged group holds: the first member's parameters minus the
      step's keys; per position the members' mean; a standard deviation
      exactly when one was asked for, the square root of the members'
      population variance at each position. */
  lemma AverageOfSpec(es: seq<Entry>, ks: seq<Key>, withStd: bool, sqrt: real -> real)
    requires AverageOf(es, ks, withStd, sqrt).Some?
    ensures |AverageOf(es, ks, withStd, sqrt).value| == |Groups(es, ks)|
    ensures forall i, kv :: 0 <= i < |Groups(es, ks)| ==>
      (kv in AverageOf(es, ks, withStd, sqrt).value[i].params <==>
        kv in Groups(es, ks)[i][0].params && kv.0 !in ks)
    ensures forall i :: 0 <= i < |Groups(es, ks)| ==>
      var g, e := Groups(es, ks)[i], AverageOf(es, ks, withStd, sqrt).value[i];
      g != [] && Averageable(g) &&
      e.params == Omit(g[0].params, ks) &&
      e.data.x == MeanColumns(Xs(g)) &&
      e.data.y == MeanColumns(Ys(g)) &&
      e.data.yStd == (if withStd then Some(MapColumn(VarianceColumns(Ys(g)), sqrt)) else None)
    ensures forall i :: 0 <= i < |Groups(es, ks)| ==>
      (AverageOf(es, ks, withStd, sqrt).value[i].data.yStd.Some? <==> withStd)
    ensures forall i, j ::
      (0 <= i < |Groups(es, ks)| && Ys(Groups(es, ks)[i])[0].Vector? && 0 <= j < |Ys(Groups(es, ks)[i])[0].vs|) ==>
      (AverageOf(es, ks, withStd, sqrt).value[i].data.y.vs[j] == Mean(Slice(Ys(Groups(es, ks)[i]), j)) &&
       (withStd ==>
          AverageOf(es, ks, withStd, sqrt).value[i].data.yStd.value.vs[j] ==
          sqrt(PopVariance(Slice(Ys(Groups(es, ks)[i]), j)))))
  {
    GroupsFacts(es, ks);
  }

  /** Members with one and the same y curve average to that curve, with a
      standard deviation of `sqrt(0)` everywhere. */
  lemma AverageOfIdentical(g: seq<Entry>, ks: seq<Key>, sqrt: real -> real)
    requires Averageable(g)
    requires forall m :: 0 <= m < |g| ==> g[m].data.y == g[0].data.y
    ensures AverageGroup(g, ks, true, sqrt).data.y == g[0].data.y
    ensures AverageGroup(g, ks, true, sqrt).data.yStd == Some(MapColumn(g[0].data.y, v => sqrt(0.0)))
  {
    var ys := Ys(g);
    ColumnsConstant(ys);
    var z := MapColumn(ys[0], v => 0.0);
    assert MapColumn(z, sqrt) == MapColumn(g[0].data.y, v => sqrt(0.0)) by {
      if z.Vector? {
        assert MapColumn(z, sqrt).vs == MapColumn(g[0].data.y, v => sqrt(0.0)).vs;
      }
    }
  }

  // ---- moving_average ----

  /** `data.y.map(...)`: `y` must be an array, and a window that is not at
      least one element long reads an empty range (mathjs throws on its mean). */
  predicate Smoothable(d: Data, w: int) {
    d.y.Vector? && (w >= 1 || d.y.vs == [])
  }

  /** moving_average: `None` when some entry throws. */
  function MovingAverageOf(es: seq<Entry>, w: int): (r: Option<seq<Entry>>)
    ensures r.Some? <==> forall i :: 0 <= i < |es| ==> Smoothable(es[i].data, w)
    ensures r.Some? ==> |r.value| == |es| && forall i :: 0 <= i < |es| ==>
      r.value[i].params == es[i].params && r.value[i].data.x == es[i].data.x &&
      r.value[i].data.yStd == es[i].data.yStd && r.value[i].data.y.Vector? &&
      |r.value[i].data.y.vs| == |es[i].data.y.vs|
    ensures r.Some? ==> forall i, k :: 0 <= i < |es| && 0 <= k < |es[i].data.y.vs| ==>
      w >= 1 && r.value[i].data.y.vs[k] == Mean(Window(es[i].data.y.vs, k, HalfWidth(w)))
  {
    if forall i :: 0 <= i < |es| ==> Smoothable(es[i].data, w) then
      Some(seq(|es|, i requires 0 <= i < |es| =>
        var d := es[i].data;
        Entry(es[i].params, d.(y := Vector(if d.y.vs == [] then [] else Smoothed(d.y.vs, w))))))
    else None
  }

  /** A window of one or two values changes nothing. */
  lemma MovingAverageOfNarrow(es: seq<Entry>, w: int)
    requires w == 1 || w == 2
    requires MovingAverageOf(es, w).Some?
    ensures MovingAverageOf(es, w).value == es
  {
    var r := MovingAverageOf(es, w).value;
    forall i | 0 <= i < |es| ensures r[i] == es[i] {
      MovingAverageNarrowIsIdentity(es[i].data.y.vs, w);
    }
  }

  /** Smoothed values stay within the range of the values they come from. */
  lemma MovingAverageOfInRange(es: seq<Entry>, w: int, lo: real, hi: real)
    requires MovingAverageOf(es, w).Some?
    requires forall i, k :: 0 <= i < |es| && 0 <= k < |es[i].data.y.vs| ==> lo <= es[i].data.y.vs[k] <= hi
    ensures forall i, k :: 0 <= i < |es| && 0 <= k < |es[i].data.y.vs| ==>
      lo <= MovingAverageOf(es, w).value[i].data.y.vs[k] <= hi
  {
    var r := MovingAverageOf(es, w).value;
    forall i | 0 <= i < |es| && es[i].data.y.vs != []
      ensures forall k :: 0 <= k < |es[i].data.y.vs| ==> lo <= r[i].data.y.vs[k] <= hi
    {
      MovingAverageWithinRange(es[i].data.y.vs, w, lo, hi);
    }
  }

  // ---- merge ----

  /** Each member contributes one point: its x and y are single numbers. */
  predicate OnePoint(e: Entry) {
    e.data.x.Scalar? && e.data.y.Scalar?
  }

  function PointsOf(g: seq<Entry>): (r: seq<Point>)
    requires forall m :: 0 <= m < |g| ==> OnePoint(g[m])
    ensures |r| == |g| && forall m :: 0 <= m < |g| ==> OnePoint(g[m]) && r[m] == (g[m].data.x.v, g[m].data.y.v)
  {
    seq(|g|, m requires 0 <= m < |g| => assert OnePoint(g[m]); (g[m].data.x.v, g[m].data.y.v))
  }

  /** The members' points as one curve, sorted by x; named by the first
      member's parameters without the step's keys. */
  function MergeGroup(g: seq<Entry>, ks: seq<Key>): Entry
    requires g != [] && forall m :: 0 <= m < |g| ==> OnePoint(g[m])
  {
    var pts := SortPoints(PointsOf(g));
    Entry(Omit(g[0].params, ks),
      Data(Vector(seq(|pts|, k requires 0 <= k < |pts| => pts[k].0)),
           Vector(seq(|pts|, k requires 0 <= k < |pts| => pts[k].1)), None))
  }

  /** merge: `None` when some entry is not a single point. */
  function MergeOf(es: seq<Entry>, ks: seq<Key>): (r: Option<seq<Entry>>)
    ensures r.Some? <==> forall e :: e in es ==> OnePoint(e)
    ensures r.Some? ==> |r.value| == |Groups(es, ks)|
  {
    if forall e :: e in es ==> OnePoint(e) then
      var gs := Groups(es, ks);
      GroupsFacts(es, ks);
      assert forall i, m :: 0 <= i < |gs| && 0 <= m < |gs[i]| ==> gs[i][m] in gs[i];
      Some(seq(|gs|, i requires 0 <= i < |gs| => MergeGroup(gs[i], ks)))
    else None
  }

  /** The curve read back as points. */
  function Curve(d: Data): seq<Point>
    requires d.x.Vector? && d.y.Vector? && |d.x.vs| == |d.y.vs|
  {
    seq(|d.x.vs|, k requires 0 <= k < |d.x.vs| => (d.x.vs[k], d.y.vs[k]))
  }

  /** A merged group is a curve holding exactly the members' points, sorted by
      x, with the members' order kept among equal x, and no deviation. */
  lemma MergeGroupSpec(g: seq<Entry>, ks: seq<Key>)
    requires g != [] && forall m :: 0 <= m < |g| ==> OnePoint(g[m])
    ensures var d := MergeGroup(g, ks).data;
      d.x.Vector? && d.y.Vector? && |d.x.vs| == |d.y.vs| == |g| && d.yStd.None? &&
      SortedByX(Curve(d)) &&
      multiset(Curve(d)) == multiset(PointsOf(g)) &&
      forall v :: WithX(Curve(d), v) == WithX(PointsOf(g), v)
    ensures MergeGroup(g, ks).params == Omit(g[0].params, ks)
    ensures forall kv :: kv in MergeGroup(g, ks).params <==> kv in g[0].params && kv.0 !in ks
  {
    var pts := SortPoints(PointsOf(g));
    SortPointsSorted(PointsOf(g));
    SortPointsPermutes(PointsOf(g));
    var d := MergeGroup(g, ks).data;
    assert |pts| == |PointsOf(g)| by {
      assert |multiset(pts)| == |multiset(PointsOf(g))|;
    }
    assert Curve(d) == pts;
    forall v ensures WithX(Curve(d), v) == WithX(PointsOf(g), v) {
      SortPointsStable(PointsOf(g), v);
    }
  }

  /** merge on the whole list: one entry per group, each the group's points
      as one curve sorted by x (members with equal x in their original
      order), named by the group's first member without the step's keys. */
  lemma MergeOfSpec(es: seq<Entry>, ks: seq<Key>)
    requires MergeOf(es, ks).Some?
    ensures |MergeOf(es, ks).value| == |Groups(es, ks)|
    ensures forall i :: 0 <= i < |Groups(es, ks)| ==>
      var g, e := Groups(es, ks)[i], MergeOf(es, ks).value[i];
      g != [] && (forall m :: 0 <= m < |g| ==> OnePoint(g[m])) &&
      e.data.x.Vector? && e.data.y.Vector? && |e.data.x.vs| == |e.data.y.vs| == |g| && e.data.yStd.None? &&
      SortedByX(Curve(e.data)) &&
      multiset(Curve(e.data)) == multiset(PointsOf(g)) &&
      (forall v :: WithX(Curve(e.data), v) == WithX(PointsOf(g), v)) &&
      e.params == Omit(g[0].params, ks) &&
      (forall kv :: kv in e.params <==> kv in g[0].params && kv.0 !in ks)
  {
    var gs := Groups(es, ks);
    GroupsFacts(es, ks);
    forall i | 0 <= i < |gs|
      ensures gs[i] != [] && (forall m :: 0 <= m < |gs[i]| ==> OnePoint(gs[i][m])) &&
        MergeOf(es, ks).value[i] == MergeGroup(gs[i], ks)
    {
      assert forall m :: 0 <= m < |gs[i]| ==> gs[i][m] in gs[i];
    }
    forall i | 0 <= i < |gs|
      ensures var g, e := gs[i], MergeOf(es, ks).value[i];
        var d := e.data;
        d.x.Vector? && d.y.Vector? && |d.x.vs| == |d.y.vs| == |g| && d.yStd.None? &&
        SortedByX(Curve(d)) &&
        multiset(Curve(d)) == multiset(PointsOf(g)) &&
        (forall v :: WithX(Curve(d), v) == WithX(PointsOf(g), v)) &&
        e.params == Omit(g[0].params, ks) &&
        (forall kv :: kv in e.params <==> kv in g[0].params && kv.0 !in ks)
    {
      MergeGroupSpec(gs[i], ks);
    }
  }

  // ---- filter ----

  /** `_.some(step_params, p => param[p[0]] == p[1])` over the first pair of
      each predicate object; reaching a predicate object without pairs reads
      `undefined[0]` and throws (`None`). */
  function AnyMatch(p: Params, preds: seq<Params>): Option<bool> {
    if preds == [] then Some(false)
    else if preds[0] == [] then None
    else if Lookup(p, preds[0][0].0) == Some(preds[0][0].1) then Some(true)
    else AnyMatch(p, preds[1..])
  }

  /** Reference: some predicate's first pair is held by `p`. */
  predicate Matches(p: Params, preds: seq<Params>)
    requires forall j :: 0 <= j < |preds| ==> preds[j] != []
  {
    exists j :: 0 <= j < |preds| && Lookup(p, preds[j][0].0) == Some(preds[j][0].1)
  }

  lemma {:induction false} AnyMatchIsMatches(p: Params, preds: seq<Params>)
    requires forall j :: 0 <= j < |preds| ==> preds[j] != []
    ensures AnyMatch(p, preds) == Some(Matches(p, preds))
  {
    if preds != [] {
      AnyMatchIsMatches(p, preds[1..]);
      if Matches(p, preds[1..]) {
        var j :| 0 <= j < |preds[1..]| && Lookup(p, preds[1..][j][0].0) == Some(preds[1..][j][0].1);
        assert Lookup(p, preds[j + 1][0].0) == Some(preds[j + 1][0].1);
      }
      if Matches(p, preds) && Lookup(p, preds[0][0].0) != Some(preds[0][0].1) {
        var j :| 0 <= j < |preds| && Lookup(p, preds[j][0].0) == Some(preds[j][0].1);
        assert Lookup(p, preds[1..][j - 1][0].0) == Some(preds[1..][j - 1][0].1);
      }
    }
  }

  /** filter: the entries some predicate matches, in order; `None` when the
      match throws for some entry. */
  function FilterOf(es: seq<Entry>, preds: seq<Params>): Option<seq<Entry>>
    decreases |es|
  {
    if es == [] then Some([])
    else
      var keep, rest := AnyMatch(es[0].params, preds), FilterOf(es[1..], preds);
      if keep.Some? && rest.Some? then Some((if keep.value then [es[0]] else []) + rest.value)
      else None
  }

  function Both(a: Option<seq<Entry>>, b: Option<seq<Entry>>): Option<seq<Entry>> {
    if a.Some? && b.Some? then Some(a.value + b.value) else None
  }

  /** Filtering works piece by piece: filtering a concatenation concatenates
      the filtered pieces, so the survivors keep their order. */
  lemma {:induction false} FilterOfAppend(a: seq<Entry>, b: seq<Entry>, preds: seq<Params>)
    ensures FilterOf(a + b, preds) == Both(FilterOf(a, preds), FilterOf(b, preds))
    decreases |a|
  {
    if a == [] {
      assert a + b == b;
      if FilterOf(b, preds).Some? {
        assert [] + FilterOf(b, preds).value == FilterOf(b, preds).value;
      }
    } else {
      assert (a + b)[0] == a[0];
      assert (a + b)[1..] == a[1..] + b;
      FilterOfAppend(a[1..], b, preds);
      var keep := AnyMatch(a[0].params, preds);
      var ra, rb, rab := FilterOf(a[1..], preds), FilterOf(b, preds), FilterOf(a[1..] + b, preds);
      var h := if keep.Some? && keep.value then [a[0]] else [];
      assert FilterOf(a + b, preds) == if keep.Some? && rab.Some? then Some(h + rab.value) else None;
      assert FilterOf(a, preds) == if keep.Some? && ra.Some? then Some(h + ra.value) else None;
      if keep.Some? && ra.Some? && rb.Some? {
        assert (h + ra.value) + rb.value == h + (ra.value + rb.value);
      }
    }
  }

  /** One entry survives exactly when a predicate matches it. */
  lemma FilterOfSingle(e: Entry, preds: seq<Params>)
    ensures FilterOf([e], preds) ==
      match AnyMatch(e.params, preds)
      case None => None
      case Some(keep) => Some(if keep then [e] else [])
  {
    assert [e][1..] == [];
    assert FilterOf([], preds) == Some([]);
    assert [e][0] == e;
    assert [e] + [] == [e];
    var none: seq<Entry> := [];
    assert none + [] == [];
  }

  /** With no throwing entry, the survivors are exactly the matching entries. */
  lemma {:induction false} FilterOfMembers(es: seq<Entry>, preds: seq<Params>)
    requires FilterOf(es, preds).Some?
    ensures forall e :: e in FilterOf(es, preds).value <==> e in es && AnyMatch(e.params, preds) == Some(true)
    decreases |es|
  {
    if es != [] {
      FilterOfMembers(es[1..], preds);
      assert es == [es[0]] + es[1..];
    }
  }

  /** Some entry throws exactly when filtering fails. */
  lemma {:induction false} FilterOfFails(es: seq<Entry>, preds: seq<Params>)
    ensures FilterOf(es, preds).None? <==> exists i :: 0 <= i < |es| && AnyMatch(es[i].params, preds).None?
    decreases |es|
  {
    if es != [] {
      FilterOfFails(es[1..], preds);
      if exists i :: 0 <= i < |es[1..]| && AnyMatch(es[1..][i].params, preds).None? {
        var i :| 0 <= i < |es[1..]| && AnyMatch(es[1..][i].params, preds).None?;
        assert AnyMatch(es[i + 1].params, preds).None?;
      }
      if exists i :: 0 <= i < |es| && AnyMatch(es[i].params, preds).None? {
        var i :| 0 <= i < |es| && AnyMatch(es[i].params, preds).None?;
        if i > 0 {
          assert AnyMatch(es[1..][i - 1].params, preds).None?;
        }
      }
    }
  }

  // ---- log_transform ----

  /** `data[axis]`. */
  function AxisOf(d: Data, axis: Axis): Column {
    match axis
    case XAxis => d.x
    case YAxis => d.y
  }

  /** log_transform: `math.log(1 + v)` on every element of the named axis.
      Only that axis changes, keeping its shape; parameters, the other axis
      and the deviation stay. */
  function LogTransformOf(es: seq<Entry>, axis: Axis, log: real -> real): (r: seq<Entry>)
    ensures |r| == |es|
    ensures forall i :: 0 <= i < |es| ==>
      r[i].params == es[i].params && r[i].data.yStd == es[i].data.yStd &&
      (axis == XAxis ==> r[i].data.y == es[i].data.y) &&
      (axis == YAxis ==> r[i].data.x == es[i].data.x) &&
      (AxisOf(r[i].data, axis).Scalar? <==> AxisOf(es[i].data, axis).Scalar?) &&
      |Elements(AxisOf(r[i].data, axis))| == |Elements(AxisOf(es[i].data, axis))|
    ensures forall i, k :: 0 <= i < |es| && 0 <= k < |Elements(AxisOf(es[i].data, axis))| ==>
      Elements(AxisOf(r[i].data, axis))[k] == log(1.0 + Elements(AxisOf(es[i].data, axis))[k])
  {
    seq(|es|, i requires 0 <= i < |es| =>
      var d := es[i].data;
      Entry(es[i].params,
        match axis
        case XAxis => d.(x := MapColumn(d.x, v => log(1.0 + v)))
        case YAxis => d.(y := MapColumn(d.y, v => log(1.0 + v))))
    )
  }

  // ---- subtract_min ----

  /** `1e-10`. */
  const Epsilon: real := 0.0000000001

  /** Every entry's y has a minimum (mathjs throws on an empty array). */
  predicate HasMinima(es: seq<Entry>) {
    forall e :: e in es ==> ColumnMin(e.data.y).Some?
  }

  /** `math.min(mins)`: the smallest y value over all entries. */
  function GlobalMin(es: seq<Entry>): real
    requires es != [] && HasMinima(es)
  {
    MinOf(seq(|es|, i requires 0 <= i < |es| => ColumnMin(es[i].data.y).value))
  }

  /** subtract_min: `None` when there is no entry or some y is empty. */
  function SubtractMinOf(es: seq<Entry>): (r: Option<seq<Entry>>)
    ensures r.Some? <==> es != [] && HasMinima(es)
  {
    if es != [] && HasMinima(es) then
      var c := GlobalMin(es) + Epsilon;
      Some(seq(|es|, i requires 0 <= i < |es| => ShiftY(es[i], c)))
    else None
  }

  /** One entry with `c` taken off every y value. */
  function ShiftY(e: Entry, c: real): Entry {
    Entry(e.params, e.data.(y := MapColumn(e.data.y, v => v - c)))
  }

  /** Only y changes, element by element, and its minimum drops by `c`. */
  lemma ShiftYSpec(e: Entry, c: real)
    ensures var r := ShiftY(e, c);
      r.params == e.params && r.data.x == e.data.x && r.data.yStd == e.data.yStd &&
      (r.data.y.Scalar? <==> e.data.y.Scalar?) &&
      |Elements(r.data.y)| == |Elements(e.data.y)| &&
      (forall k :: 0 <= k < |Elements(e.data.y)| ==> Elements(r.data.y)[k] == Elements(e.data.y)[k] - c) &&
      (ColumnMin(e.data.y).Some? ==> ColumnMin(r.data.y) == Some(ColumnMin(e.data.y).value - c))
  {
    if ColumnMin(e.data.y).Some? {
      ColumnMinShift(e.data.y, c);
    }
  }

  /** Shifting every value shifts the minimum. */
  lemma MinOfShift(s: seq<real>, t: seq<real>, d: real)
    requires |s| > 0 && |t| == |s|
    requires forall i :: 0 <= i < |s| ==> t[i] == s[i] - d
    ensures MinOf(t) == MinOf(s) - d
  {
    var i :| 0 <= i < |s| && s[i] == MinOf(s);
    var j :| 0 <= j < |t| && t[j] == MinOf(t);
    assert MinOf(t) <= t[i];
    assert MinOf(s) <= s[j];
  }

  lemma ColumnMinShift(c: Column, d: real)
    requires ColumnMin(c).Some?
    ensures ColumnMin(MapColumn(c, v => v - d)) == Some(ColumnMin(c).value - d)
  {
    var f := v => v - d;
    var c' := MapColumn(c, f);
    if c.Vector? {
      assert |c'.vs| == |c.vs| > 0;
      forall i | 0 <= i < |c.vs| ensures c'.vs[i] == c.vs[i] - d {
        assert c'.vs[i] == f(c.vs[i]);
      }
      MinOfShift(c.vs, c'.vs, d);
      assert ColumnMin(c') == Some(MinOf(c'.vs));
    } else {
      assert c'.v == f(c.v);
    }
  }

  /** Every y value drops by one and the same amount, the global minimum plus
      epsilon, so the new global minimum is exactly `-Epsilon`; parameters, x
      and the deviation stay. */
  lemma SubtractMinOfSpec(es: seq<Entry>)
    requires SubtractMinOf(es).Some?
    ensures var r := SubtractMinOf(es).value;
      |r| == |es| && r != [] && HasMinima(r) && GlobalMin(r) == -Epsilon &&
      forall i :: 0 <= i < |es| ==>
        r[i].params == es[i].params && r[i].data.x == es[i].data.x &&
        r[i].data.yStd == es[i].data.yStd &&
        (r[i].data.y.Scalar? <==> es[i].data.y.Scalar?) &&
        |Elements(r[i].data.y)| == |Elements(es[i].data.y)| &&
        forall k :: 0 <= k < |Elements(es[i].data.y)| ==>
          Elements(r[i].data.y)[k] == Elements(es[i].data.y)[k] - (GlobalMin(es) + Epsilon)
  {
    var r := SubtractMinOf(es).value;
    var c := GlobalMin(es) + Epsilon;
    var mins := seq(|es|, i requires 0 <= i < |es| => ColumnMin(es[i].data.y).value);
    forall i | 0 <= i < |es| ensures r[i] == ShiftY(es[i], c) && ColumnMin(r[i].data.y) == Some(mins[i] - c) {
      ShiftYSpec(es[i], c);
    }
    forall i | 0 <= i < |es| ensures r[i].params == es[i].params && r[i].data.x == es[i].data.x &&
        r[i].data.yStd == es[i].data.yStd &&
        (r[i].data.y.Scalar? <==> es[i].data.y.Scalar?) &&
        |Elements(r[i].data.y)| == |Elements(es[i].data.y)| &&
        forall k :: 0 <= k < |Elements(es[i].data.y)| ==>
          Elements(r[i].data.y)[k] == Elements(es[i].data.y)[k] - c {
      ShiftYSpec(es[i], c);
    }
    assert HasMinima(r);
    var mins' := seq(|r|, i requires 0 <= i < |r| => ColumnMin(r[i].data.y).value);
    MinOfShift(mins, mins', c);
  }
}
