/** `AnalysisScatter.doPlot`: one point per configuration, labelled by its
    parameters after the `compare` and `drop` steps; every other step is
    ignored and the values read from the configurations are never changed. */
module AnalysisScatter {
  import opened Wrappers
  import opened Parameters
  import opened Documents
  import opened Labels
  import opened Steps
  import Plot = AnalysisPlot

  /** The scatter's analysis spec: key paths, steps and optional layout. */
  datatype ScatterSpec = ScatterSpec(xData: seq<string>, yData: seq<string>, steps: seq<Step>, layout: Option<Json>)

  /** The single plot object: `x`, `y` (`None` where the key path does not
      resolve) and the `text` descriptions. */
  datatype ScatterTrace = ScatterTrace(x: seq<Option<Json>>, y: seq<Option<Json>>, text: seq<string>)

  datatype Scatter = Scatter(traces: seq<ScatterTrace>, layout: Json)

  /** One step of the `forEach` on the parameter list. */
  function StepParams(ps: seq<Params>, step: Step): (r: seq<Params>)
    ensures |r| == |ps|
  {
    match step
    case Compare(ks) => seq(|ps|, i requires 0 <= i < |ps| => Pick(ps[i], ks))
    case Drop(ks) => seq(|ps|, i requires 0 <= i < |ps| => Omit(ps[i], ks))
    case _ => ps
  }

  /** Specification of the fold: the steps applied left to right; the loop
      in `DoScatter` is proved to compute it. */
  function ParamsAfter(ps: seq<Params>, steps: seq<Step>): (r: seq<Params>)
    ensures |r| == |ps|
    decreases |steps|
  {
    if steps == [] then ps
    else StepParams(ParamsAfter(ps, steps[..|steps| - 1]), steps[|steps| - 1])
  }

  /** A key survives a step when a `compare` lists it and a `drop` does not. */
  predicate KeptBy(k: Key, step: Step) {
    (step.Compare? ==> k in step.keys) && (step.Drop? ==> k !in step.keys)
  }

  /** The key survives every step of the list. */
  predicate KeptByAll(k: Key, steps: seq<Step>) {
    forall j :: 0 <= j < |steps| ==> KeptBy(k, steps[j])
  }

  lemma KeptByAllSplit(k: Key, steps: seq<Step>)
    requires steps != []
    ensures KeptByAll(k, steps) <==>
      KeptByAll(k, steps[..|steps| - 1]) && KeptBy(k, steps[|steps| - 1])
  {
    var n := |steps| - 1;
    assert forall j :: 0 <= j < n ==> steps[..n][j] == steps[j];
  }

  /** One step keeps a pair iff it keeps the pair's key. */
  lemma StepKeeps(ps: seq<Params>, step: Step, i: nat, kv: (Key, Value))
    requires i < |ps|
    ensures kv in StepParams(ps, step)[i] <==> kv in ps[i] && KeptBy(kv.0, step)
  {
    if step.Compare? {
      PickRestricts(ps[i], step.keys, kv);
    }
  }

  /** Reference: the parameters after the steps are the original pairs whose
      key every `compare` lists and no `drop` lists; values never change. */
  lemma {:induction false} ParamsAfterKeeps(ps: seq<Params>, steps: seq<Step>, i: nat, kv: (Key, Value))
    requires i < |ps|
    ensures kv in ParamsAfter(ps, steps)[i] <==> kv in ps[i] && KeptByAll(kv.0, steps)
    decreases |steps|
  {
    if steps != [] {
      var n := |steps| - 1;
      ParamsAfterKeeps(ps, steps[..n], i, kv);
      StepKeeps(ParamsAfter(ps, steps[..n]), steps[n], i, kv);
      KeptByAllSplit(kv.0, steps);
    }
  }

  predicate ChangesParams(step: Step) {
    step.Compare? || step.Drop?
  }

  /** The steps with every action other than compare and drop removed. */
  function CompareDropOnly(steps: seq<Step>): (r: seq<Step>)
    ensures forall j :: 0 <= j < |r| ==> ChangesParams(r[j])
    decreases |steps|
  {
    if steps == [] then []
    else
      var n := |steps| - 1;
      CompareDropOnly(steps[..n]) + (if ChangesParams(steps[n]) then [steps[n]] else [])
  }

  /** Only compare and drop matter: removing every other step gives the same
      parameters. */
  lemma {:induction false} OnlyCompareDropMatter(ps: seq<Params>, steps: seq<Step>)
    ensures ParamsAfter(ps, steps) == ParamsAfter(ps, CompareDropOnly(steps))
    decreases |steps|
  {
    if steps != [] {
      var n := |steps| - 1;
      OnlyCompareDropMatter(ps, steps[..n]);
      var pre := CompareDropOnly(steps[..n]);
      if ChangesParams(steps[n]) {
        var all := pre + [steps[n]];
        assert all[..|all| - 1] == pre && all[|all| - 1] == steps[n];
        assert CompareDropOnly(steps) == all;
      } else {
        assert CompareDropOnly(steps) == pre;
        assert StepParams(ParamsAfter(ps, steps[..n]), steps[n]) == ParamsAfter(ps, steps[..n]);
      }
    }
  }

  /** `_u.map(params, ...)`: the descriptions. */
  function Descriptions(ps: seq<Params>, numText: real -> string): (r: seq<string>)
    ensures |r| == |ps|
  {
    seq(|ps|, i requires 0 <= i < |ps| => Label(ps[i], numText))
  }

  /** Specification of the scatter's `doPlot`, which the method `DoScatter`
      is proved to compute. */
  function ScatterOf(configs: seq<Plot.Configuration>, spec: ScatterSpec, numText: real -> string, layoutDefault: Json): Scatter {
    var ps := seq(|configs|, i requires 0 <= i < |configs| => configs[i].localConfig);
    var xs := seq(|configs|, i requires 0 <= i < |configs| => Get(configs[i].record, spec.xData));
    var ys := seq(|configs|, i requires 0 <= i < |configs| => Get(configs[i].record, spec.yData));
    Scatter([ScatterTrace(xs, ys, Descriptions(ParamsAfter(ps, spec.steps), numText))],
      ResolveLayout(spec.layout, layoutDefault))
  }

  /** `doPlot` as the source runs it: a loop over the steps that reassigns the
      parameter list. Its result is `ScatterOf`. */
  method DoScatter(configs: seq<Plot.Configuration>, spec: ScatterSpec, numText: real -> string, layoutDefault: Json)
    returns (out: Scatter)
    ensures out == ScatterOf(configs, spec, numText, layoutDefault)
  {
    var xs := seq(|configs|, i requires 0 <= i < |configs| => Get(configs[i].record, spec.xData));
    var ys := seq(|configs|, i requires 0 <= i < |configs| => Get(configs[i].record, spec.yData));
    var ps0 := seq(|configs|, i requires 0 <= i < |configs| => configs[i].localConfig);
    var params := ps0;
    var steps := spec.steps;
    var i := 0;
    while i < |steps|
      invariant 0 <= i <= |steps|
      invariant params == ParamsAfter(ps0, steps[..i])
    {
      assert steps[..i + 1][..i] == steps[..i];
      params := StepParams(params, steps[i]);
      i := i + 1;
    }
    assert steps[..i] == steps;
    out := Scatter([ScatterTrace(xs, ys, Descriptions(params, numText))], ResolveLayout(spec.layout, layoutDefault));
  }

  /** Exactly one trace, whose x, y and text have one entry per configuration
      in configuration order: x and y are the values read from the
      configuration, untouched by the steps, and text is the ", "-joined
      `key:value` list of its parameters after the steps. */
  lemma ScatterTraceAligned(configs: seq<Plot.Configuration>, spec: ScatterSpec, numText: real -> string, layoutDefault: Json)
    ensures var s := ScatterOf(configs, spec, numText, layoutDefault);
      var ps := ParamsAfter(seq(|configs|, i requires 0 <= i < |configs| => configs[i].localConfig), spec.steps);
      |s.traces| == 1 &&
      |s.traces[0].x| == |s.traces[0].y| == |s.traces[0].text| == |configs| &&
      forall i :: 0 <= i < |configs| ==>
        s.traces[0].x[i] == Get(configs[i].record, spec.xData) &&
        s.traces[0].y[i] == Get(configs[i].record, spec.yData) &&
        s.traces[0].text[i] == Join(Pieces(ps[i], numText)) &&
        (ps[i] == [] ==> s.traces[0].text[i] == "")
    ensures ScatterOf(configs, spec, numText, layoutDefault).layout == ResolveLayout(spec.layout, layoutDefault)
  {
    var ps := ParamsAfter(seq(|configs|, i requires 0 <= i < |configs| => configs[i].localConfig), spec.steps);
    forall i | 0 <= i < |configs| ensures Label(ps[i], numText) == Join(Pieces(ps[i], numText)) &&
      (ps[i] == [] ==> Label(ps[i], numText) == "")
    {
      LabelIsJoin(ps[i], numText);
    }
  }
}
