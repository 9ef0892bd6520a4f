/** Series names: every remaining parameter as `key:value`, the pieces joined
    by ", " through the source's left `reduce`. */
module Labels {
  import opened Parameters

  /** JavaScript's string conversion of a value; numbers are formatted by the
      host (`numText`), which this model does not reimplement. */
  function ValueText(v: Value, numText: real -> string): string {
    match v
    case Num(n) => numText(n)
    case Str(s) => s
    case Flag(b) => if b then "true" else "false"
  }

  /** `p[0] + ':' + p[1]` for one pair. */
  function Piece(kv: (Key, Value), numText: real -> string): (r: string)
    ensures |r| > 0
  {
    kv.0 + ":" + ValueText(kv.1, numText)
  }

  function Pieces(p: Params, numText: real -> string): (r: seq<string>)
    ensures |r| == |p|
    ensures forall i :: 0 <= i < |p| ==> r[i] == Piece(p[i], numText)
  {
    if p == [] then [] else [Piece(p[0], numText)] + Pieces(p[1..], numText)
  }

  /** `.reduce((s, p) => s.length > 0 ? s + ', ' + p : p, acc)`. */
  function Reduce(acc: string, ps: seq<string>): string
    decreases |ps|
  {
    if ps == [] then acc
    else Reduce(if |acc| > 0 then acc + ", " + ps[0] else ps[0], ps[1..])
  }

  /** The series name the plot and the scatter description use. */
  function Label(p: Params, numText: real -> string): string {
    Reduce("", Pieces(p, numText))
  }

  /** Reference joiner: the pieces separated by ", ". */
  function Join(ps: seq<string>): string {
    if ps == [] then ""
    else if |ps| == 1 then ps[0]
    else ps[0] + ", " + Join(ps[1..])
  }

  lemma {:induction false} ReduceNonEmpty(acc: string, ps: seq<string>)
    requires |acc| > 0
    requires forall i :: 0 <= i < |ps| ==> |ps[i]| > 0
    ensures ps == [] ==> Reduce(acc, ps) == acc
    ensures ps != [] ==> Reduce(acc, ps) == acc + ", " + Join(ps)
    decreases |ps|
  {
    if ps != [] {
      ReduceNonEmpty(acc + ", " + ps[0], ps[1..]);
      if |ps| > 1 {
        assert Reduce(acc, ps) == (acc + ", " + ps[0]) + ", " + Join(ps[1..]);
      }
    }
  }

  /** Because every piece is non-empty, the reduce is exactly a ", "-join:
      the empty object gives "" and one pair gives its piece alone. */
  lemma {:induction false} LabelIsJoin(p: Params, numText: real -> string)
    ensures Label(p, numText) == Join(Pieces(p, numText))
    ensures p == [] ==> Label(p, numText) == ""
  {
    var ps := Pieces(p, numText);
    if ps != [] {
      ReduceNonEmpty(ps[0], ps[1..]);
    }
  }
}
