/** The SQLite dialect: short `IN` lists are bound value by value, long ones
    are inlined as escaped literals so that SQLite's parameter limit is never
    reached. */
module Sqlite {
  import opened Wrappers
  import opened Values
  import opened Decimal
  import opened Strings
  import opened QueryParams
  import opened SqlLiterals

  /** SQLite's false constant. */
  const FALSE: string := "0"

  /** The largest `IN` list that is still bound parameter by parameter. */
  const IN_MAX_VALUES: nat := 10

  /** `ValueError('Invalid type: ...')`, naming the value that cannot be inlined. */
  datatype Error = InvalidType(value: Value)

  /** `s.replace("'", "''")`. */
  function DoubleQuotes(s: string): string
    decreases |s|
  {
    if |s| == 0 then ""
    else if s[0] == '\'' then "''" + DoubleQuotes(s[1..])
    else [s[0]] + DoubleQuotes(s[1..])
  }

  /** Every quote in `t` is one of a doubled pair: none can end a literal. */
  predicate NoLoneQuote(t: string)
    decreases |t|
  {
    if |t| == 0 then true
    else if t[0] == '\'' then |t| >= 2 && t[1] == '\'' && NoLoneQuote(t[2..])
    else NoLoneQuote(t[1..])
  }

  lemma {:induction false} DoubleQuotesHasNoLoneQuote(s: string)
    ensures NoLoneQuote(DoubleQuotes(s))
    decreases |s|
  {
    if |s| > 0 {
      DoubleQuotesHasNoLoneQuote(s[1..]);
      var t := DoubleQuotes(s);
      if s[0] == '\'' {
        assert t[2..] == DoubleQuotes(s[1..]);
      } else {
        assert t[1..] == DoubleQuotes(s[1..]);
      }
    }
  }

  /** Un-doubling the escaped body recovers `s`, and the closing quote ends
      the literal exactly, leaving whatever follows untouched. */
  lemma {:induction false} ReadQuotedOfDoubleQuotes(s: string, rest: string)
    requires |rest| == 0 || rest[0] != '\''
    ensures ReadQuoted(DoubleQuotes(s) + "'" + rest) == Some((s, rest))
    decreases |s|
  {
    var t := DoubleQuotes(s) + "'" + rest;
    if |s| == 0 {
      assert t == "'" + rest;
      assert t[1..] == rest;
    } else {
      ReadQuotedOfDoubleQuotes(s[1..], rest);
      var u := DoubleQuotes(s[1..]) + "'" + rest;
      if s[0] == '\'' {
        assert t == "''" + u;
        assert t[2..] == u;
      } else {
        assert t == [s[0]] + u;
        assert t[1..] == u;
      }
      assert s == [s[0]] + s[1..];
    }
  }

  /** The types `sqlite_escape` accepts (floats are not modelled). */
  predicate Inlinable(v: Value) {
    v.Num? || v.Str?
  }

  /** `sqlite_escape`: a string becomes a quoted literal, an integer its decimal
      text; any other value is refused and nothing is produced. */
  function Escape(v: Value): (r: Result<string, Error>)
    ensures r.Success? <==> Inlinable(v)
    ensures r.Failure? ==> r.error == InvalidType(v)
    ensures v.Str? ==> |r.value| >= 2 && r.value[0] == '\'' && r.value[|r.value| - 1] == '\''
    ensures v.Str? ==> NoLoneQuote(r.value[1..|r.value| - 1])
    ensures v.Num? ==> r.value == IntToString(v.n)
    ensures v.Num? ==> ParseInt(r.value) == Some(v.n)
    ensures r.Success? ==> forall rest: string :: (|rest| == 0 || rest[0] == ',' || rest[0] == ')')
                                                 ==> ReadItem(r.value + rest) == Some((v, rest))
  {
    match v
    case Str(s) =>
      var e := "'" + DoubleQuotes(s) + "'";
      assert e[1..|e| - 1] == DoubleQuotes(s);
      DoubleQuotesHasNoLoneQuote(s);
      ReadItemOfQuoted(s);
      Success(e)
    case Num(i) =>
      ParseIntRoundTrip(i);
      ReadItemOfInt(i);
      Success(IntToString(i))
    case _ => Failure(InvalidType(v))
  }

  /** A quoted string literal, followed by the end of the text, a `,` or a
      `)`, reads back as the string. */
  lemma {:induction false} ReadItemOfQuoted(s: string)
    ensures forall rest: string :: (|rest| == 0 || rest[0] == ',' || rest[0] == ')')
                                   ==> ReadItem("'" + DoubleQuotes(s) + "'" + rest) == Some((Str(s), rest))
  {
    var e := "'" + DoubleQuotes(s) + "'";
    forall rest: string | |rest| == 0 || rest[0] == ',' || rest[0] == ')'
      ensures ReadItem(e + rest) == Some((Str(s), rest))
    {
      ReadQuotedOfDoubleQuotes(s, rest);
      assert (e + rest)[1..] == DoubleQuotes(s) + "'" + rest;
    }
  }

  /** An integer's decimal text, followed by the end of the text, a `,` or a
      `)`, reads back as the integer. */
  lemma {:induction false} ReadItemOfInt(i: int)
    ensures forall rest: string :: (|rest| == 0 || rest[0] == ',' || rest[0] == ')')
                                   ==> ReadItem(IntToString(i) + rest) == Some((Num(i), rest))
  {
    var e := IntToString(i);
    forall rest: string | |rest| == 0 || rest[0] == ',' || rest[0] == ')'
      ensures ReadItem(e + rest) == Some((Num(i), rest))
    {
      ReadNumberOfIntToString(i, rest);
      assert (e + rest)[0] == e[0];
    }
  }

  /** `sqlite_value_list`: the escaped values in order, joined by `,` with no
      space. It fails on the first value that cannot be inlined. */
  function ValueList(vs: seq<Value>): (r: Result<string, Error>)
    ensures r.Success? <==> forall i :: 0 <= i < |vs| ==> Inlinable(vs[i])
    ensures r.Failure? ==> exists i :: 0 <= i < |vs| && r.error == InvalidType(vs[i]) && !Inlinable(vs[i])
                                                   && forall j :: 0 <= j < i ==> Inlinable(vs[j])
    ensures r.Success? ==> r.value == Join(",", Escaped(vs))
    decreases |vs|
  {
    if |vs| == 0 then Success("")
    else
      match Escape(vs[0])
      case Failure(e) =>
        assert !Inlinable(vs[0]);
        Failure(e)
      case Success(head) =>
        if |vs| == 1 then Success(head)
        else
          match ValueList(vs[1..])
          case Failure(e) =>
            FirstInvalidOfTail(vs, e);
            Failure(e)
          case Success(tail) =>
            AllInlinableCons(vs);
            JoinEscapedCons(vs);
            Success(head + "," + tail)
  }

  /** Every value can be inlined when the first one and all of the rest can. */
  lemma {:induction false} AllInlinableCons(vs: seq<Value>)
    requires |vs| > 0 && Inlinable(vs[0])
    requires forall i :: 0 <= i < |vs[1..]| ==> Inlinable(vs[1..][i])
    ensures forall i :: 0 <= i < |vs| ==> Inlinable(vs[i])
  {
    forall i | 0 <= i < |vs| ensures Inlinable(vs[i]) {
      if i > 0 {
        assert vs[i] == vs[1..][i - 1];
      }
    }
  }

  /** The inlined list of two or more values is the first value's text, a
      comma, and the inlined list of the rest. */
  lemma {:induction false} JoinEscapedCons(vs: seq<Value>)
    requires |vs| > 1 && forall i :: 0 <= i < |vs| ==> Inlinable(vs[i])
    ensures Join(",", Escaped(vs)) == Escape(vs[0]).value + "," + Join(",", Escaped(vs[1..]))
  {
    assert Escaped(vs)[1..] == Escaped(vs[1..]);
  }

  /** `map(sqlite_escape, values)`, for values that can all be inlined. */
  function Escaped(vs: seq<Value>): (r: seq<string>)
    requires forall i :: 0 <= i < |vs| ==> Inlinable(vs[i])
    ensures |r| == |vs|
    ensures forall i :: 0 <= i < |vs| ==> Success(r[i]) == Escape(vs[i])
  {
    seq(|vs|, i requires 0 <= i < |vs| => Escape(vs[i]).value)
  }

  lemma {:induction false} FirstInvalidOfTail(vs: seq<Value>, e: Error)
    requires |vs| > 1 && Inlinable(vs[0])
    requires exists i :: 0 <= i < |vs[1..]| && e == InvalidType(vs[1..][i]) && !Inlinable(vs[1..][i])
                         && forall j :: 0 <= j < i ==> Inlinable(vs[1..][j])
    ensures exists i :: 0 <= i < |vs| && e == InvalidType(vs[i]) && !Inlinable(vs[i])
                        && forall j :: 0 <= j < i ==> Inlinable(vs[j])
  {
  }

  lemma {:induction false} ReadListCons(head: string, v: Value, tail: string, vs: seq<Value>)
    requires ReadItem(head + ("," + tail)) == Some((v, "," + tail))
    requires ReadList(tail) == Some(vs)
    ensures ReadList(head + "," + tail) == Some([v] + vs)
  {
    assert head + "," + tail == head + ("," + tail);
    assert ("," + tail)[1..] == tail;
  }

  /** Reading the inlined list back as the idealised reader does gives exactly the values,
      in order: no literal leaks into its neighbour. */
  lemma {:induction false} ReadListOfValueList(vs: seq<Value>)
    requires |vs| > 0
    requires forall i :: 0 <= i < |vs| ==> Inlinable(vs[i])
    ensures ReadList(ValueList(vs).value) == Some(vs)
    decreases |vs|
  {
    var head := Escape(vs[0]).value;
    if |vs| == 1 {
      assert ReadItem(head + "") == Some((vs[0], ""));
      assert head + "" == head;
      assert vs == [vs[0]];
    } else {
      var tail := ValueList(vs[1..]).value;
      assert ValueList(vs).value == head + "," + tail;
      assert ReadItem(head + ("," + tail)) == Some((vs[0], "," + tail));
      ReadListOfValueList(vs[1..]);
      ReadListCons(head, vs[0], tail, vs[1..]);
      assert vs == [vs[0]] + vs[1..];
    }
  }

  /** `Dialect.IN` for SQLite. */
  function In(field: Field, values: seq<Value>, params: Params): (r: Result<Rendered, Error>)
    ensures |values| == 0 ==> r == Success(Rendered(FALSE, params))
    ensures 0 < |values| <= IN_MAX_VALUES ==>
              && r.Success?
              && r.value.params.style == params.style
              && r.value.params.values == params.values + values
              && r.value.sql == SafeStr(field) + " IN ("
                                + Join(", ", seq(|values|, k requires 0 <= k < |values| => Marker(params.style, |params.values| + k)))
                                + ")"
    ensures |values| > IN_MAX_VALUES ==>
              && (r.Success? <==> forall i :: 0 <= i < |values| ==> Inlinable(values[i]))
              && (r.Success? ==> r.value.params == params)
              && (r.Success? ==> r.value.sql == SafeStr(field) + " IN (" + Join(",", Escaped(values)) + ")")
              && (r.Success? ==> ReadList(Join(",", Escaped(values))) == Some(values))
              && (r.Failure? ==> exists i :: 0 <= i < |values| && r.error == InvalidType(values[i]) && !Inlinable(values[i])
                                             && forall j :: 0 <= j < i ==> Inlinable(values[j]))
  {
    if |values| == 0 then Success(Rendered(FALSE, params))
    else
      var f := SafeStr(field);
      if |values| > IN_MAX_VALUES then
        var list :- ValueList(values);
        ReadListOfValueList(values);
        Success(Rendered(f + " IN (" + list + ")", params))
      else
        var (marks, p) := CompileAll(params, values);
        assert marks == seq(|values|, k requires 0 <= k < |values| => Marker(params.style, |params.values| + k));
        Success(Rendered(f + " IN (" + Join(", ", marks) + ")", p))
  }
}
