/** The two dialects side by side, behind the render entry point
    `render(field.IN(values), params)`, which starts from a fresh accumulator
    and returns the SQL text with the ordered bound values. */
module Dialects {
  import opened Wrappers
  import opened Values
  import opened QueryParams
  import opened Strings
  import Decimal
  import Sqlite
  import Postgresql

  datatype Dialect = PostgreSQL | SQLite

  function FalseConstant(d: Dialect): string {
    match d
    case PostgreSQL => Postgresql.FALSE
    case SQLite => Sqlite.FALSE
  }

  /** Renders one membership test; only the SQLite inlining path can fail. */
  function RenderIn(d: Dialect, field: Field, values: seq<Value>, style: Style)
    : (r: Result<(string, seq<Value>), Sqlite.Error>)
    ensures |values| == 0 ==> r == Success((FalseConstant(d), []))
    ensures d == PostgreSQL && |values| > 0 ==> r.Success? && r.value.1 == [Array(values)]
    ensures d == SQLite && 0 < |values| <= Sqlite.IN_MAX_VALUES ==> r.Success? && r.value.1 == values
    ensures d == SQLite && |values| > Sqlite.IN_MAX_VALUES && r.Success? ==> r.value.1 == []
    ensures r.Failure? ==> d == SQLite && |values| > Sqlite.IN_MAX_VALUES
    ensures d == PostgreSQL && |values| > 0 ==> r.value.0 == SafeStr(field) + " = ANY(" + Marker(style, 0) + ")"
    ensures d == SQLite && 0 < |values| <= Sqlite.IN_MAX_VALUES ==>
              r.value.0 == SafeStr(field) + " IN ("
                           + Join(", ", seq(|values|, k requires 0 <= k < |values| => Marker(style, k)))
                           + ")"
    ensures d == SQLite && |values| > Sqlite.IN_MAX_VALUES ==>
              (r.Success? <==> forall i :: 0 <= i < |values| ==> Sqlite.Inlinable(values[i]))
    ensures d == SQLite && |values| > Sqlite.IN_MAX_VALUES && r.Success? ==>
              r.value.0 == SafeStr(field) + " IN (" + Join(",", Sqlite.Escaped(values)) + ")"
  {
    match d
    case PostgreSQL =>
      var out := Postgresql.In(field, values, Fresh(style));
      Success((out.sql, out.params.values))
    case SQLite =>
      var p := Fresh(style);
      assert seq(|values|, k requires 0 <= k < |values| => Marker(p.style, |p.values| + k))
          == seq(|values|, k requires 0 <= k < |values| => Marker(style, k));
      var out :- Sqlite.In(field, values, p);
      Success((out.sql, out.params.values))
  }

  /** With SQLite, ten values are still bound one by one and eleven are
      inlined: the threshold is exclusive. */
  lemma {:induction false} SqliteThresholdIsExclusive()
    ensures var r := RenderIn(SQLite, Field("x"), seq(10, i => Num(i)), QMark);
            r.Success? && r.value.1 == seq(10, i => Num(i))
    ensures var r := RenderIn(SQLite, Field("x"), seq(11, i => Num(i)), QMark);
            r.Success? && r.value.1 == []
  {
  }

  /** Inlined strings are quoted with their quotes doubled; a value that is
      neither a string nor an integer fails the whole render. */
  lemma {:induction false} SqliteInliningExamples()
    ensures Sqlite.Escape(Str("it's")) == Success("'it''s'")
    ensures Sqlite.Escape(Num(-42)) == Success("-42")
    ensures Sqlite.Escape(Num(0)) == Success("0")
    ensures Sqlite.Escape(Other("None")) == Failure(Sqlite.InvalidType(Other("None")))
  {
    assert Decimal.NatToString(4) == "4";
    assert Decimal.NatToString(42) == "42";
    assert Decimal.IntToString(-42) == "-42";
    assert Sqlite.DoubleQuotes("s") == "s";
    assert Sqlite.DoubleQuotes("'s") == "''s";
    assert Sqlite.DoubleQuotes("t's") == "t''s";
    assert Sqlite.DoubleQuotes("it's") == "it''s";
    assert "'" + "it''s" + "'" == "'it''s'";
  }
}
