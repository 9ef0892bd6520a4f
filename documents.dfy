/** JSON-like documents: the configuration records that key paths are
    resolved in, and the plot layouts merged with `_u.defaultsDeep`. */
module Documents {
  import opened Wrappers

  datatype Json =
    | Null
    | Bool(b: bool)
    | Num(n: real)
    | Str(s: string)
    | Arr(items: seq<Json>)
    | Obj(fields: seq<(string, Json)>)

  /** `obj[k]`: the value of the first field named `k`. */
  function Field(fs: seq<(string, Json)>, k: string): Option<Json> {
    if fs == [] then None
    else if fs[0].0 == k then Some(fs[0].1)
    else Field(fs[1..], k)
  }

  /** Resolve a key path (already split at its dots) through nested objects;
      `None` is JavaScript's `undefined`. */
  function Get(doc: Json, path: seq<string>): Option<Json>
    decreases |path|
  {
    if path == [] then Some(doc)
    else match doc
      case Obj(fs) =>
        (match Field(fs, path[0])
         case None => None
         case Some(v) => Get(v, path[1..]))
      case _ => None
  }

  /** `_u.result(doc, path, dflt)`: the value at the path, or the default when
      the path does not resolve. */
  function ResultOr(doc: Json, path: seq<string>, dflt: Json): (r: Json)
    ensures Get(doc, path).Some? ==> r == Get(doc, path).value
    ensures Get(doc, path).None? ==> r == dflt
  {
    match Get(doc, path)
    case Some(v) => v
    case None => dflt
  }

  /** `_u.defaultsDeep(user, dflt)`: values the user gave win; where both sides
      hold objects (or both arrays) the defaults are merged in underneath. */
  function DefaultsDeep(user: Json, dflt: Json): Json
    decreases user, 1
  {
    match user
    case Obj(uf) =>
      (match dflt
       case Obj(df) => Obj(MergeFields(uf, df, user) + MissingFields(df, Names(uf)))
       case _ => user)
    case Arr(ui) =>
      (match dflt
       case Arr(di) => Arr(MergeItems(ui, di, user))
       case _ => user)
    case _ => user
  }

  function Names(fs: seq<(string, Json)>): (r: seq<string>)
    ensures forall k :: k in r <==> Field(fs, k).Some?
  {
    if fs == [] then [] else [fs[0].0] + Names(fs[1..])
  }

  /** The user's fields in their order, each merged with the default field of
      the same name. */
  function MergeFields(uf: seq<(string, Json)>, df: seq<(string, Json)>, ghost parent: Json): seq<(string, Json)>
    requires forall i :: 0 <= i < |uf| ==> uf[i].1 < parent
    decreases parent, 0, |uf|
  {
    if uf == [] then []
    else
      var v := uf[0].1;
      var merged := match Field(df, uf[0].0) case Some(w) => DefaultsDeep(v, w) case None => v;
      [(uf[0].0, merged)] + MergeFields(uf[1..], df, parent)
  }

  /** The default fields whose names are not in `seen`, in their order. */
  function MissingFields(df: seq<(string, Json)>, seen: seq<string>): seq<(string, Json)> {
    if df == [] then []
    else if df[0].0 in seen then MissingFields(df[1..], seen)
    else [df[0]] + MissingFields(df[1..], seen)
  }

  /** Arrays merge position by position; the longer side supplies the tail. */
  function MergeItems(ui: seq<Json>, di: seq<Json>, ghost parent: Json): seq<Json>
    requires forall i :: 0 <= i < |ui| ==> ui[i] < parent
    decreases parent, 0, |ui|
  {
    if ui == [] then di
    else if di == [] then ui
    else [DefaultsDeep(ui[0], di[0])] + MergeItems(ui[1..], di[1..], parent)
  }

  /** `'layout' in spec ? spec.layout : {}`, then deep-defaulted. */
  function ResolveLayout(user: Option<Json>, dflt: Json): Json {
    DefaultsDeep(match user case Some(u) => u case None => Obj([]), dflt)
  }

  // ---- What the deep-default merge promises ----

  lemma {:induction false} MissingFromNothing(df: seq<(string, Json)>)
    ensures MissingFields(df, []) == df
  {
    if df != [] {
      MissingFromNothing(df[1..]);
    }
  }

  /** Without a user layout the defaults are used as they are. */
  lemma NoUserLayout(dflt: Json)
    requires dflt.Obj?
    ensures ResolveLayout(None, dflt) == dflt
  {
    MissingFromNothing(dflt.fields);
  }

  lemma {:induction false} FieldAppend(a: seq<(string, Json)>, b: seq<(string, Json)>, k: string)
    ensures Field(a + b, k) == if Field(a, k).Some? then Field(a, k) else Field(b, k)
  {
    if a == [] {
      assert a + b == b;
    } else {
      assert (a + b)[1..] == a[1..] + b;
      FieldAppend(a[1..], b, k);
    }
  }

  lemma {:induction false} FieldMergeFields(uf: seq<(string, Json)>, df: seq<(string, Json)>, parent: Json, k: string)
    requires forall i :: 0 <= i < |uf| ==> uf[i].1 < parent
    ensures Field(MergeFields(uf, df, parent), k) ==
      match Field(uf, k)
      case None => None
      case Some(v) => Some(match Field(df, k) case Some(w) => DefaultsDeep(v, w) case None => v)
  {
    if uf != [] {
      FieldMergeFields(uf[1..], df, parent, k);
    }
  }

  lemma {:induction false} FieldMissingFields(df: seq<(string, Json)>, seen: seq<string>, k: string)
    requires k !in seen
    ensures Field(MissingFields(df, seen), k) == Field(df, k)
  {
    if df != [] {
      FieldMissingFields(df[1..], seen, k);
    }
  }

  /** One level of the merge: a field the user has is the user's value (merged
      with the default's when both are containers); a field only the default
      has is copied from it. */
  lemma FieldOfMerged(uf: seq<(string, Json)>, df: seq<(string, Json)>, k: string)
    ensures Field(DefaultsDeep(Obj(uf), Obj(df)).fields, k) ==
      match Field(uf, k)
      case None => Field(df, k)
      case Some(v) => Some(match Field(df, k) case Some(w) => DefaultsDeep(v, w) case None => v)
  {
    var user := Obj(uf);
    FieldAppend(MergeFields(uf, df, user), MissingFields(df, Names(uf)), k);
    FieldMergeFields(uf, df, user, k);
    if Field(uf, k).None? {
      FieldMissingFields(df, Names(uf), k);
    }
  }

  predicate IsScalar(j: Json) {
    !j.Obj? && !j.Arr?
  }

  /** A scalar the user set, at any depth, survives the merge unchanged. */
  lemma {:induction false} UserScalarsWin(user: Json, dflt: Json, path: seq<string>)
    requires Get(user, path).Some? && IsScalar(Get(user, path).value)
    ensures Get(DefaultsDeep(user, dflt), path) == Get(user, path)
    decreases |path|
  {
    if path != [] && user.Obj? && dflt.Obj? {
      var v := Field(user.fields, path[0]).value;
      FieldOfMerged(user.fields, dflt.fields, path[0]);
      match Field(dflt.fields, path[0])
      case Some(w) => UserScalarsWin(v, w, path[1..]);
      case None =>
    }
  }

  /** The path leads through objects of the user's layout to a key it lacks. */
  predicate Absent(user: Json, path: seq<string>)
    decreases |path|
  {
    path != [] && user.Obj? &&
    match Field(user.fields, path[0])
    case None => true
    case Some(v) => Absent(v, path[1..])
  }

  lemma {:induction false} AbsentIsUndefined(user: Json, path: seq<string>)
    requires Absent(user, path)
    ensures Get(user, path).None?
    decreases |path|
  {
    match Field(user.fields, path[0])
    case None =>
    case Some(v) => AbsentIsUndefined(v, path[1..]);
  }

  /** Wherever the user's layout lacks a key, at any depth, the merged layout
      has exactly what the defaults have there. */
  lemma {:induction false} DefaultsFillAbsent(user: Json, dflt: Json, path: seq<string>)
    requires Absent(user, path)
    ensures Get(DefaultsDeep(user, dflt), path) == Get(dflt, path)
    decreases |path|
  {
    if dflt.Obj? {
      FieldOfMerged(user.fields, dflt.fields, path[0]);
      match Field(user.fields, path[0])
      case None =>
      case Some(v) =>
        match Field(dflt.fields, path[0])
        case Some(w) => DefaultsFillAbsent(v, w, path[1..]);
        case None => AbsentIsUndefined(v, path[1..]);
    } else {
      AbsentIsUndefined(user, path);
    }
  }
}
