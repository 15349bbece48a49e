/** The PostgreSQL dialect: membership is `field = ANY(array)`, with the whole
    collection bound as one array parameter. */
module Postgresql {
  import opened Wrappers
  import opened Values
  import opened QueryParams

  /** The base dialect's false constant, which PostgreSQL keeps. */
  const FALSE: string := "FALSE"

  /** `Dialect.IN` for PostgreSQL. It never fails. */
  function In(field: Field, values: seq<Value>, params: Params): (r: Rendered)
    ensures |values| == 0 ==> r == Rendered(FALSE, params)
    ensures |values| > 0 ==>
              && r.params.style == params.style
              && |r.params.values| == |params.values| + 1
              && r.params.values[..|params.values|] == params.values
              && r.params.values[|params.values|] == Array(values)
    ensures |values| > 0 && params.style == QMark ==> r.sql == SafeStr(field) + " = ANY(?)"
    ensures |values| > 0 && params.style == Dollar ==>
              && r.sql == SafeStr(field) + " = ANY(" + Marker(Dollar, |params.values|) + ")"
              && MarkerPosition(Marker(Dollar, |params.values|)) == Some(|params.values|)
  {
    if |values| == 0 then Rendered(FALSE, params)
    else
      var f := SafeStr(field);
      var (m, p) := Compile(params, Array(values));
      Rendered(f + " = ANY(" + m + ")", p)
  }

  /** However many values the collection holds, rendering binds one parameter. */
  lemma {:induction false} OneParameterWhateverTheSize(field: Field, values: seq<Value>, style: Style)
    requires |values| > 0
    ensures In(field, values, Fresh(style)).params.values == [Array(values)]
  {
  }

  /** `render(E.val.IN([]))`, `render(E.val.IN([1, 'boo']))` and the same with
      `DollarQueryParams()`. */
  lemma {:induction false} RenderExamples()
    ensures In(Field("val"), [], Fresh(QMark)) == Rendered("FALSE", Fresh(QMark))
    ensures In(Field("val"), [Num(1), Str("boo")], Fresh(QMark))
            == Rendered("val = ANY(?)", Params(QMark, [Array([Num(1), Str("boo")])]))
    ensures In(Field("val"), [Num(1), Str("boo")], Fresh(Dollar))
            == Rendered("val = ANY($1)", Params(Dollar, [Array([Num(1), Str("boo")])]))
  {
  }
}
