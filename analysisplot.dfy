/** `AnalysisPlot.doPlot`: read one (parameters, data) entry per
    configuration, fold the analysis steps over the entries, and turn every
    surviving entry into a named trace; the user's layout is deep-defaulted
    onto the fixed defaults. */
module AnalysisPlot {
  import opened Wrappers
  import opened Parameters
  import opened Series
  import opened Documents
  import opened Labels
  import opened Steps

  /** The host's floating-point functions: `math.log`, `math.sqrt` and the
      number-to-text conversion used in series names. */
  datatype Numerics = Numerics(log: real -> real, sqrt: real -> real, numText: real -> string)

  /** What `params` and `datas` hold between two steps.
      - `Live`: the two aligned lists, as entries.
      - `Unset`: `_u.unzip([])` left both `undefined`.
      - `Failed(i)`: step `i` threw a TypeError or a mathjs error.
      - `Unmodelled(i)`: step `i` met an input whose result this model does not
        define: a ragged `average`, a `merge` of curves, a `*_final` score
        read past the end of an empty or scalar `y`. */
  datatype Stage = Live(entries: seq<Entry>) | Unset | Failed(step: nat) | Unmodelled(step: nat)

  predicate Stopped(st: Stage) {
    st.Failed? || st.Unmodelled?
  }

  /** `[params, datas] = _u.unzip(list)`. */
  function Unzipped(es: seq<Entry>): (r: Stage)
    ensures r.Unset? <==> es == []
    ensures r.Live? ==> r.entries == es
  {
    if es == [] then Unset else Live(es)
  }

  /** One step on live lists (the body of the `forEach` callback). */
  function OnEntries(es: seq<Entry>, step: Step, i: nat, num: Numerics): Stage {
    match step
    case Compare(ks) => Live(CompareOf(es, ks))
    case Drop(ks) => Live(DropOf(es, ks))
    case Best(score, ks) =>
      if score.OtherScore? then Unset
      else if Scored(es, score) then Unzipped(BestOf(es, score, ks))
      else if score.MaxAuc? || score.MinAuc? then Failed(i)
      else Unmodelled(i)
    case Average(ks, withStd) =>
      if es == [] then Failed(i)
      else (match AverageOf(es, ks, withStd, num.sqrt)
            case None => Unmodelled(i)
            case Some(r) => Live(r))
    case MovingAverage(w) =>
      (match MovingAverageOf(es, w)
       case None => Failed(i)
       case Some(r) => Live(r))
    case Merge(ks) =>
      if es == [] then Failed(i)
      else (match MergeOf(es, ks)
            case None => Unmodelled(i)
            case Some(r) => Live(r))
    case Filter(preds) =>
      (match FilterOf(es, preds)
       case None => Failed(i)
       case Some(r) => Unzipped(r))
    case LogTransform(axis) => Live(LogTransformOf(es, axis, num.log))
    case SubtractMin =>
      (match SubtractMinOf(es)
       case None => Failed(i)
       case Some(r) => Live(r))
    case OtherAction(_) => Live(es)
  }

  /** One step on undefined lists: the steps that call `.map` on `params` or
      `datas` throw; `best`, `filter` and unknown actions leave them undefined. */
  function OnUnset(step: Step, i: nat): Stage {
    match step
    case Best(_, _) => Unset
    case Filter(_) => Unset
    case OtherAction(_) => Unset
    case _ => Failed(i)
  }

  /** Step `i` applied to the state before it; a thrown error ends the fold. */
  function ApplyStep(st: Stage, step: Step, i: nat, num: Numerics): (r: Stage)
    ensures Stopped(st) ==> r == st
    ensures Stopped(r) && !Stopped(st) ==> r.step == i
  {
    match st
    case Live(es) => OnEntries(es, step, i, num)
    case Unset => OnUnset(step, i)
    case _ => st
  }

  /** Specification of the fold: the steps applied left to right; the loop
      in `RunSteps` is proved to compute it. */
  function Run(es: seq<Entry>, steps: seq<Step>, num: Numerics): (r: Stage)
    ensures Stopped(r) ==> r.step < |steps|
    decreases |steps|
  {
    if steps == [] then Live(es)
    else
      var n := |steps| - 1;
      ApplyStep(Run(es, steps[..n], num), steps[n], n, num)
  }

  /** The fold over one more step is that step applied to the fold so far. */
  lemma RunSnoc(es: seq<Entry>, steps: seq<Step>, i: nat, num: Numerics)
    requires i < |steps|
    ensures Run(es, steps[..i + 1], num) == ApplyStep(Run(es, steps[..i], num), steps[i], i, num)
  {
    assert steps[..i + 1][..i] == steps[..i];
  }

  /** Once a step has thrown, later steps change nothing. */
  lemma {:induction false} RunStopped(es: seq<Entry>, steps: seq<Step>, k: nat, num: Numerics)
    requires k <= |steps| && Stopped(Run(es, steps[..k], num))
    ensures Run(es, steps, num) == Run(es, steps[..k], num)
    decreases |steps| - k
  {
    if k < |steps| {
      var st := Run(es, steps[..k], num);
      assert steps[..k + 1][..k] == steps[..k];
      assert Run(es, steps[..k + 1], num) == st;
      RunStopped(es, steps, k + 1, num);
    } else {
      assert steps[..k] == steps;
    }
  }

  /** A failure names the step that threw: the steps before it ran without
      stopping, and it stopped on the state they left. */
  lemma {:induction false} RunFailureIsItsStep(es: seq<Entry>, steps: seq<Step>, num: Numerics)
    requires Stopped(Run(es, steps, num))
    ensures var i := Run(es, steps, num).step;
      i < |steps| && !Stopped(Run(es, steps[..i], num)) &&
      ApplyStep(Run(es, steps[..i], num), steps[i], i, num) == Run(es, steps, num)
    decreases |steps|
  {
    var n := |steps| - 1;
    var prev := Run(es, steps[..n], num);
    assert Run(es, steps, num) == ApplyStep(prev, steps[n], n, num);
    if Stopped(prev) {
      RunFailureIsItsStep(es, steps[..n], num);
      var i := prev.step;
      assert steps[..n][..i] == steps[..i];
      assert steps[..n][i] == steps[i];
    }
  }

  // ---- Reading the configurations (:40-46) ----

  /** A configuration document and its `local_config` parameters. */
  datatype Configuration = Configuration(localConfig: Params, record: Json)

  /** The numbers of a series: a single number or an array of numbers. */
  function ToColumn(j: Json): (r: Option<Column>)
    ensures r.Some? && r.value.Scalar? <==> j.Num?
    ensures r.Some? && r.value.Vector? <==> (j.Arr? && forall k :: 0 <= k < |j.items| ==> j.items[k].Num?)
    ensures r.Some? && r.value.Vector? ==> (|r.value.vs| == |j.items| &&
      forall k :: 0 <= k < |j.items| ==> r.value.vs[k] == j.items[k].n)
  {
    match j
    case Num(n) => Some(Scalar(n))
    case Arr(items) =>
      if forall k :: 0 <= k < |items| ==> items[k].Num? then
        Some(Vector(seq(|items|, k requires 0 <= k < |items| => items[k].n)))
      else None
    case _ => None
  }

  /** `_u.result(config, key, [])` read as numbers. */
  function SeriesAt(c: Configuration, path: seq<string>): Option<Column> {
    ToColumn(ResultOr(c.record, path, Arr([])))
  }

  predicate Readable(c: Configuration, xPath: seq<string>, yPath: seq<string>) {
    SeriesAt(c, xPath).Some? && SeriesAt(c, yPath).Some?
  }

  /** One entry per configuration, in order; `None` when some series is not
      numeric. */
  function Initial(configs: seq<Configuration>, xPath: seq<string>, yPath: seq<string>): (r: Option<seq<Entry>>)
    ensures r.Some? <==> forall i :: 0 <= i < |configs| ==> Readable(configs[i], xPath, yPath)
    ensures r.Some? ==> |r.value| == |configs| && forall i :: 0 <= i < |configs| ==>
      r.value[i].params == configs[i].localConfig &&
      Some(r.value[i].data.x) == SeriesAt(configs[i], xPath) &&
      Some(r.value[i].data.y) == SeriesAt(configs[i], yPath) &&
      r.value[i].data.yStd.None?
  {
    if forall i :: 0 <= i < |configs| ==> Readable(configs[i], xPath, yPath) then
      Some(seq(|configs|, i requires 0 <= i < |configs| =>
        Entry(configs[i].localConfig,
          Data(SeriesAt(configs[i], xPath).value, SeriesAt(configs[i], yPath).value, None))))
    else None
  }

  // ---- Traces (:147-162) ----

  /** A plot object: `name`, `x`, `y` and, when present, `error_y.array`. */
  datatype Trace = Trace(name: string, x: Column, y: Column, errorY: Option<Column>)

  /** `_u.zipWith(datas, params, ...)`: one trace per entry, in order. */
  function Render(es: seq<Entry>, numText: real -> string): (r: seq<Trace>)
    ensures |r| == |es|
    ensures forall i :: 0 <= i < |es| ==>
      r[i].name == Join(Pieces(es[i].params, numText)) &&
      (es[i].params == [] ==> r[i].name == "") &&
      r[i].x == es[i].data.x && r[i].y == es[i].data.y &&
      (r[i].errorY.Some? <==> es[i].data.yStd.Some?) &&
      (r[i].errorY.Some? ==> r[i].errorY.value == es[i].data.yStd.value)
  {
    var r := seq(|es|, i requires 0 <= i < |es| =>
      Trace(Label(es[i].params, numText), es[i].data.x, es[i].data.y, es[i].data.yStd));
    assert forall i :: 0 <= i < |es| ==> (r[i].name == Join(Pieces(es[i].params, numText)) &&
      (es[i].params == [] ==> r[i].name == "")) by {
      forall i | 0 <= i < |es|
        ensures r[i].name == Join(Pieces(es[i].params, numText)) && (es[i].params == [] ==> r[i].name == "")
      {
        LabelIsJoin(es[i].params, numText);
      }
    }
    r
  }

  // ---- doPlot ----

  /** `this.analysis.spec`: the key paths (split at their dots), the steps and
      the optional user layout. */
  datatype Analysis = Analysis(xData: seq<string>, yData: seq<string>, steps: seq<Step>, layout: Option<Json>)

  datatype Outcome =
    | Plotted(traces: seq<Trace>, layout: Json)
    | NotNumeric
    | Threw(step: nat)
    | OutsideModel(step: nat)

  /** Specification of `doPlot`, which the method `DoPlot` is proved to
      compute. */
  function PlotOf(configs: seq<Configuration>, spec: Analysis, num: Numerics, layoutDefault: Json): Outcome {
    match Initial(configs, spec.xData, spec.yData)
    case None => NotNumeric
    case Some(es) => Finish(Run(es, spec.steps, num), spec, num, layoutDefault)
  }

  /** After the fold: traces of the live entries (none when the lists are
      undefined, as `_u.zipWith` of undefined gives `[]`) and the layout. */
  function Finish(st: Stage, spec: Analysis, num: Numerics, layoutDefault: Json): Outcome {
    match st
    case Live(r) => Plotted(Render(r, num.numText), ResolveLayout(spec.layout, layoutDefault))
    case Unset => Plotted([], ResolveLayout(spec.layout, layoutDefault))
    case Failed(i) => Threw(i)
    case Unmodelled(i) => OutsideModel(i)
  }

  /** The loop of `doPlot`: reassigns the current lists step by step and
      leaves at the first step that throws. Its result is the fold `Run`. */
  method RunSteps(es: seq<Entry>, steps: seq<Step>, num: Numerics) returns (stage: Stage)
    ensures stage == Run(es, steps, num)
  {
    stage := Live(es);
    var i := 0;
    while i < |steps| && !Stopped(stage)
      invariant 0 <= i <= |steps|
      invariant stage == Run(es, steps[..i], num)
      decreases |steps| - i
    {
      RunSnoc(es, steps, i, num);
      stage := ApplyStep(stage, steps[i], i, num);
      i := i + 1;
    }
    if i < |steps| {
      RunStopped(es, steps, i, num);
    } else {
      assert steps[..i] == steps;
    }
  }

  /** `doPlot` as the source runs it: read the series, run the steps, then
      build the traces and the layout. Its result is `PlotOf`. */
  method DoPlot(configs: seq<Configuration>, spec: Analysis, num: Numerics, layoutDefault: Json)
    returns (out: Outcome)
    ensures out == PlotOf(configs, spec, num, layoutDefault)
  {
    var init := Initial(configs, spec.xData, spec.yData);
    if init.None? {
      return NotNumeric;
    }
    var stage := RunSteps(init.value, spec.steps, num);
    out := Finish(stage, spec, num, layoutDefault);
  }

  // ---- Properties of the whole plot ----

  predicate WithoutStd(es: seq<Entry>) {
    forall e :: e in es ==> e.data.yStd.None?
  }

  predicate AddsStd(step: Step) {
    step.Average? && step.withStd
  }

  /** Only `average` with `with_std` creates a deviation; every other step
      keeps entries without one. */
  lemma {:induction false} RunWithoutStd(es: seq<Entry>, steps: seq<Step>, num: Numerics)
    requires WithoutStd(es)
    requires forall k :: 0 <= k < |steps| ==> !AddsStd(steps[k])
    ensures Run(es, steps, num).Live? ==> WithoutStd(Run(es, steps, num).entries)
    decreases |steps|
  {
    if steps != [] {
      var n := |steps| - 1;
      RunWithoutStd(es, steps[..n], num);
      var st := Run(es, steps[..n], num);
      if st.Live? {
        StepWithoutStd(st.entries, steps[n], n, num);
      }
    }
  }

  /** `best` with a known score: an `*_auc` score throws exactly when some
      member's `y` is the empty array (`math.mean([])`); when every member
      has a score, the lists become the groups' best members. */
  lemma BestStepOutcome(es: seq<Entry>, score: Score, ks: seq<Key>, i: nat, num: Numerics)
    requires !score.OtherScore?
    ensures (score.MaxAuc? || score.MinAuc?) ==>
      (OnEntries(es, Best(score, ks), i, num) == Failed(i) <==>
        exists e :: e in es && e.data.y == Vector([]))
    ensures Scored(es, score) ==> OnEntries(es, Best(score, ks), i, num) == Unzipped(BestOf(es, score, ks))
  {
    if score.MaxAuc? || score.MinAuc? {
      AucUnscored(es, score);
    }
  }

  lemma StepWithoutStd(es: seq<Entry>, step: Step, i: nat, num: Numerics)
    requires WithoutStd(es) && !AddsStd(step)
    ensures OnEntries(es, step, i, num).Live? ==> WithoutStd(OnEntries(es, step, i, num).entries)
  {
    match step
    case Compare(ks) => AlignedWithoutStd(es, CompareOf(es, ks));
    case Drop(ks) => AlignedWithoutStd(es, DropOf(es, ks));
    case Best(score, ks) =>
      if !score.OtherScore? && Scored(es, score) {
        BestOfDistinct(es, score, ks);
      }
    case Average(ks, withStd) =>
    case MovingAverage(w) =>
      if MovingAverageOf(es, w).Some? {
        AlignedWithoutStd(es, MovingAverageOf(es, w).value);
      }
    case Merge(ks) =>
    case Filter(preds) =>
      if FilterOf(es, preds).Some? {
        FilterOfMembers(es, preds);
      }
    case LogTransform(axis) =>
      AlignedWithoutStd(es, LogTransformOf(es, axis, num.log));
    case SubtractMin =>
      if SubtractMinOf(es).Some? {
        SubtractMinOfSpec(es);
        AlignedWithoutStd(es, SubtractMinOf(es).value);
      }
    case OtherAction(_) =>
  }

  lemma AlignedWithoutStd(es: seq<Entry>, r: seq<Entry>)
    requires WithoutStd(es) && |r| == |es|
    requires forall k :: 0 <= k < |r| ==> r[k].data.yStd == es[k].data.yStd
    ensures WithoutStd(r)
  {
    forall e | e in r ensures e.data.yStd.None? {
      var k :| 0 <= k < |r| && r[k] == e;
      assert es[k] in es;
    }
  }

  /** Without an `average` step with `with_std`, no trace carries error bars. */
  lemma NoStdStepNoErrorBars(configs: seq<Configuration>, spec: Analysis, num: Numerics, layoutDefault: Json)
    requires forall k :: 0 <= k < |spec.steps| ==> !AddsStd(spec.steps[k])
    ensures PlotOf(configs, spec, num, layoutDefault).Plotted? ==>
      (forall t :: t in PlotOf(configs, spec, num, layoutDefault).traces ==> t.errorY.None?)
  {
    var init := Initial(configs, spec.xData, spec.yData);
    if init.Some? {
      RunWithoutStd(init.value, spec.steps, num);
      var st := Run(init.value, spec.steps, num);
      if st.Live? {
        var ts := Render(st.entries, num.numText);
        forall t | t in ts ensures t.errorY.None? {
          var k :| 0 <= k < |ts| && ts[k] == t;
          assert st.entries[k] in st.entries;
        }
      }
    }
  }

  /** When the last step is `average` with `with_std` and it succeeds, every
      trace carries error bars. */
  lemma AverageWithStdGivesErrorBars(configs: seq<Configuration>, spec: Analysis, num: Numerics, layoutDefault: Json)
    requires spec.steps != [] && AddsStd(spec.steps[|spec.steps| - 1])
    ensures PlotOf(configs, spec, num, layoutDefault).Plotted? ==>
      (forall t :: t in PlotOf(configs, spec, num, layoutDefault).traces ==> t.errorY.Some?)
  {
    var init := Initial(configs, spec.xData, spec.yData);
    if init.Some? {
      var n := |spec.steps| - 1;
      RunSnoc(init.value, spec.steps, n, num);
      assert spec.steps[..n + 1] == spec.steps;
      var st := Run(init.value, spec.steps, num);
      AverageStepGivesStd(Run(init.value, spec.steps[..n], num), spec.steps[n], n, num);
      if st.Live? {
        var ts := Render(st.entries, num.numText);
        forall t | t in ts ensures t.errorY.Some? {
          var k :| 0 <= k < |ts| && ts[k] == t;
          assert st.entries[k] in st.entries;
        }
      }
    }
  }

  /** An `average` with `with_std` that leaves live lists gives every entry a
      deviation. */
  lemma AverageStepGivesStd(st: Stage, step: Step, i: nat, num: Numerics)
    requires AddsStd(step)
    ensures ApplyStep(st, step, i, num).Live? ==>
      forall e :: e in ApplyStep(st, step, i, num).entries ==> e.data.yStd.Some?
  {
    if st.Live? && ApplyStep(st, step, i, num).Live? {
      var es := st.entries;
      var r := AverageOf(es, step.keys, true, num.sqrt).value;
      AverageOfSpec(es, step.keys, true, num.sqrt);
      forall e | e in r ensures e.data.yStd.Some? {
        var k :| 0 <= k < |r| && r[k] == e;
      }
    }
  }

  /** The layout of every drawn plot is the user's layout deep-defaulted onto
      the fixed defaults; with no user layout it is the defaults themselves. */
  lemma PlotLayout(configs: seq<Configuration>, spec: Analysis, num: Numerics, layoutDefault: Json)
    requires PlotOf(configs, spec, num, layoutDefault).Plotted?
    ensures PlotOf(configs, spec, num, layoutDefault).layout == ResolveLayout(spec.layout, layoutDefault)
    ensures spec.layout.None? && layoutDefault.Obj? ==> PlotOf(configs, spec, num, layoutDefault).layout == layoutDefault
  {
    if spec.layout.None? && layoutDefault.Obj? {
      NoUserLayout(layoutDefault);
    }
  }
}
