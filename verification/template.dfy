/** `check_template`: only a marker-prefixed f-string becomes a checked SQL
    template. The transformer rewrites an f-string whose text starts with the
    marker into its segments, with the marker removed; any other f-string is
    left alone and evaluates to an ordinary `str`, which the check refuses. */
module TemplateCheck {
  import opened Wrappers
  import opened Values

  /** One piece of an f-string: literal text, or a `{expression!conversion:spec}`
      placeholder carrying the value its expression evaluated to. */
  datatype Segment =
    | Lit(text: string)
    | Slot(value: Value, conversion: Option<char>, formatSpec: string)

  /** What reaches `check_template` at run time. */
  datatype Arg =
    | Plain(source: seq<Segment>)     // an untransformed f-string, already formatted to `str`
    | Template(parts: seq<Segment>)   // the segments of a transformed, prefixed f-string

  /** `RuntimeError('... prefixed f-string ...')`. */
  datatype Error = NotPrefixed

  datatype Checked = Checked(segments: seq<Segment>)

  /** The f-string's text starts with the marker. */
  predicate HasMarker(marker: string, fstring: seq<Segment>) {
    |fstring| > 0 && fstring[0].Lit? && marker <= fstring[0].text
  }

  /** `transform_fstrings`, for one f-string. */
  function Transform(marker: string, fstring: seq<Segment>): Arg {
    if HasMarker(marker, fstring) then
      Template([Lit(fstring[0].text[|marker|..])] + fstring[1..])
    else Plain(fstring)
  }

  /** `check_template`. */
  function CheckTemplate(arg: Arg): (r: Result<Checked, Error>)
    ensures r.Success? <==> arg.Template?
    ensures r.Success? ==> r.value.segments == arg.parts
  {
    match arg
    case Template(parts) => Success(Checked(parts))
    case Plain(_) => Failure(NotPrefixed)
  }

  /** The static text of a segment list: its literal pieces, concatenated. */
  function Text(segments: seq<Segment>): string
    decreases |segments|
  {
    if |segments| == 0 then ""
    else (if segments[0].Lit? then segments[0].text else "") + Text(segments[1..])
  }

  /** The placeholders of a segment list, in order. */
  function Slots(segments: seq<Segment>): (r: seq<Segment>)
    ensures forall i :: 0 <= i < |r| ==> r[i].Slot?
    decreases |segments|
  {
    if |segments| == 0 then []
    else (if segments[0].Slot? then [segments[0]] else []) + Slots(segments[1..])
  }

  /** A marker-prefixed f-string passes the check: its leading literal comes
      back with exactly the marker removed, followed by every other segment
      unchanged and in source order; so its static text loses exactly the
      marker and its placeholders all come back, in order, with their values.
      Any other f-string fails. */
  lemma {:induction false} CheckOfTransform(marker: string, fstring: seq<Segment>)
    ensures CheckTemplate(Transform(marker, fstring)).Success? <==> HasMarker(marker, fstring)
    ensures HasMarker(marker, fstring) ==>
              var out := CheckTemplate(Transform(marker, fstring)).value.segments;
              && |out| == |fstring|
              && out[0].Lit? && marker + out[0].text == fstring[0].text
              && out[1..] == fstring[1..]
              && marker + Text(out) == Text(fstring)
              && Slots(out) == Slots(fstring)
  {
  }

  /** `t(f'@SELECT {name}')` with `name = 'zoom'` gives the literal `SELECT `
      and then the placeholder holding `zoom`; `t(f'SELECT {name}')` fails. */
  lemma {:induction false} CheckExamples()
    ensures CheckTemplate(Transform("@", [Lit("@SELECT "), Slot(Str("zoom"), None, "")]))
            == Success(Checked([Lit("SELECT "), Slot(Str("zoom"), None, "")]))
    ensures CheckTemplate(Transform("@", [Lit("SELECT "), Slot(Str("zoom"), None, "")]))
            == Failure(NotPrefixed)
  {
    var marked := [Lit("@SELECT "), Slot(Str("zoom"), None, "")];
    assert "@SELECT "[..1] == "@";
    assert HasMarker("@", marked);
    assert "@SELECT "[1..] == "SELECT ";
    assert marked[1..] == [Slot(Str("zoom"), None, "")];
    assert Transform("@", marked) == Template([Lit("SELECT "), Slot(Str("zoom"), None, "")]);
    assert "SELECT "[0] != "@"[0];
    assert !HasMarker("@", [Lit("SELECT "), Slot(Str("zoom"), None, "")]);
  }
}
