/** The render-scoped parameter accumulator: every `compile(v)` appends `v`
    and returns the marker that stands for it in the SQL text. */
module QueryParams {
  import opened Wrappers
  import opened Values
  import opened Decimal

  /** `?` (the default, `QMarkQueryParams`) or `$1, $2, ...` (`DollarQueryParams`). */
  datatype Style = QMark | Dollar

  datatype Params = Params(style: Style, values: seq<Value>)

  /** The SQL text of one rendered clause and the parameters after it. */
  datatype Rendered = Rendered(sql: string, params: Params)

  /** A fresh accumulator, as each render call creates. */
  function Fresh(style: Style): (p: Params)
    ensures p.style == style && |p.values| == 0
  {
    Params(style, [])
  }

  /** The marker for the value at (zero-based) position `index`. */
  function Marker(style: Style, index: nat): string {
    match style
    case QMark => "?"
    case Dollar => "$" + NatToString(index + 1)
  }

  /** The position a numbered marker designates, if it is one. */
  function MarkerPosition(m: string): (r: Option<nat>)
    ensures r.Some? ==> |m| > 1 && m[0] == '$'
  {
    if |m| > 0 && m[0] == '$' then
      match ParseNat(m[1..])
      case Some(n) => if n >= 1 then Some(n - 1) else None
      case None => None
    else None
  }

  /** A numbered marker designates exactly the position it was made for. */
  lemma {:induction false} MarkerPositionOfMarker(index: nat)
    ensures MarkerPosition(Marker(Dollar, index)) == Some(index)
  {
    var m := Marker(Dollar, index);
    assert m[1..] == NatToString(index + 1);
    ParseNatRoundTrip(index + 1);
  }

  /** `params.compile(v)`: binds `v` after every value already bound and
      returns a marker for it; nothing bound earlier changes. */
  function Compile(p: Params, v: Value): (r: (string, Params))
    ensures r.1.style == p.style
    ensures |r.1.values| == |p.values| + 1
    ensures r.1.values[..|p.values|] == p.values
    ensures r.1.values[|p.values|] == v
    ensures p.style == QMark ==> r.0 == "?"
    ensures p.style == Dollar ==> r.0 == Marker(Dollar, |p.values|)
    ensures p.style == Dollar ==> MarkerPosition(r.0) == Some(|p.values|)
  {
    MarkerPositionOfMarker(|p.values|);
    (Marker(p.style, |p.values|), Params(p.style, p.values + [v]))
  }

  /** One `compile` call per value, in order; the `k`-th marker is the one
      made for the `k`-th new position. */
  function CompileAll(p: Params, vs: seq<Value>): (r: (seq<string>, Params))
    ensures r.1.style == p.style
    ensures r.1.values == p.values + vs
    ensures |r.0| == |vs|
    ensures MarkersFrom(p.style, |p.values|, r.0)
    decreases |vs|
  {
    if |vs| == 0 then ([], p)
    else
      var first := Compile(p, vs[0]);
      var rest := CompileAll(first.1, vs[1..]);
      assert p.values + [vs[0]] + vs[1..] == p.values + vs;
      MarkersShift(p.style, |p.values|, first.0, rest.0);
      ([first.0] + rest.0, rest.1)
  }

  /** `ms` are the markers for consecutive positions starting at `base`. */
  predicate MarkersFrom(style: Style, base: nat, ms: seq<string>) {
    forall k :: 0 <= k < |ms| ==> ms[k] == Marker(style, base + k)
  }

  /** The marker for `base` followed by the markers from `base + 1` are the
      markers from `base`. */
  lemma {:induction false} MarkersShift(style: Style, base: nat, m: string, ms: seq<string>)
    requires style == QMark ==> m == "?"
    requires style == Dollar ==> m == Marker(Dollar, base)
    requires MarkersFrom(style, base + 1, ms)
    ensures MarkersFrom(style, base, [m] + ms)
  {
    forall k | 0 <= k < |ms| + 1 ensures ([m] + ms)[k] == Marker(style, base + k) {
      if k == 0 {
        assert ([m] + ms)[0] == m;
      } else {
        assert ([m] + ms)[k] == ms[k - 1] == Marker(style, base + 1 + (k - 1));
      }
    }
  }

  /** With numbered markers, the `k`-th marker emitted designates the position
      that holds the `k`-th value compiled. */
  lemma {:induction false} CompileAllMarkersDesignateValues(p: Params, vs: seq<Value>, k: nat)
    requires p.style == Dollar
    requires k < |vs|
    ensures MarkerPosition(CompileAll(p, vs).0[k]) == Some(|p.values| + k)
    ensures CompileAll(p, vs).1.values[|p.values| + k] == vs[k]
  {
    MarkerPositionOfMarker(|p.values| + k);
  }
}
