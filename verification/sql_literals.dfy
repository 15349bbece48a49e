/** An idealised reader of the SQLite literal syntax the SQLite dialect
    inlines: a quoted string (a doubled quote inside it stands for one quote),
    an optionally signed integer of unbounded size, and a comma-separated list
    of those. SQLite itself reads an integer literal outside the 64-bit range
    as a REAL; this reader does not. It is independent of the escaping it is
    used to check. */
module SqlLiterals {
  import opened Wrappers
  import opened Values
  import opened Decimal

  /** Reads the body of a quoted string whose opening quote has already been
      consumed; returns the text it denotes and what follows the closing quote. */
  function ReadQuoted(t: string): (r: Option<(string, string)>)
    ensures r.Some? ==> |r.value.1| < |t|
    decreases |t|
  {
    if |t| == 0 then None
    else if t[0] == '\'' then
      if |t| >= 2 && t[1] == '\'' then
        match ReadQuoted(t[2..])
        case None => None
        case Some((body, rest)) => Some(("'" + body, rest))
      else Some(("", t[1..]))
    else
      match ReadQuoted(t[1..])
      case None => None
      case Some((body, rest)) => Some(([t[0]] + body, rest))
  }

  /** The length of the longest run of digits `t` starts with. */
  function DigitRun(t: string): (n: nat)
    ensures n <= |t| && AllDigits(t[..n])
    ensures n < |t| ==> !IsDigit(t[n])
    decreases |t|
  {
    if |t| > 0 && IsDigit(t[0]) then
      var n := 1 + DigitRun(t[1..]);
      assert t[..n] == [t[0]] + t[1..][..n - 1];
      n
    else 0
  }

  /** Reads an unsigned integer numeral off the front of `t`. */
  function ReadUnsigned(t: string): (r: Option<(nat, string)>)
    ensures r.Some? ==> |r.value.1| < |t|
  {
    var n := DigitRun(t);
    if n == 0 then None else Some((DigitsValue(t[..n]), t[n..]))
  }

  /** Reads an optionally signed integer numeral off the front of `t`. */
  function ReadNumber(t: string): (r: Option<(int, string)>)
    ensures r.Some? ==> |r.value.1| < |t|
  {
    if |t| > 0 && t[0] == '-' then
      match ReadUnsigned(t[1..])
      case None => None
      case Some((n, rest)) => Some((-(n as int), rest))
    else
      match ReadUnsigned(t)
      case None => None
      case Some((n, rest)) => Some((n as int, rest))
  }

  /** Reads one literal: a quoted string or an integer. */
  function ReadItem(t: string): (r: Option<(Value, string)>)
    ensures r.Some? ==> |r.value.1| < |t|
  {
    if |t| > 0 && t[0] == '\'' then
      match ReadQuoted(t[1..])
      case None => None
      case Some((body, rest)) => Some((Str(body), rest))
    else
      match ReadNumber(t)
      case None => None
      case Some((i, rest)) => Some((Num(i), rest))
  }

  /** Reads a non-empty list of literals separated by single commas, to the end of `t`. */
  function ReadList(t: string): (r: Option<seq<Value>>)
    ensures r.Some? ==> |r.value| > 0
    decreases |t|
  {
    match ReadItem(t)
    case None => None
    case Some((v, rest)) =>
      if |rest| == 0 then Some([v])
      else if rest[0] == ',' then
        match ReadList(rest[1..])
        case None => None
        case Some(vs) => Some([v] + vs)
      else None
  }

  /** The digits of a numeral end where the next non-digit starts. */
  lemma {:induction false} DigitRunOfDigits(d: string, rest: string)
    requires AllDigits(d)
    requires |rest| == 0 || !IsDigit(rest[0])
    ensures DigitRun(d + rest) == |d|
    decreases |d|
  {
    if |d| > 0 {
      assert (d + rest)[1..] == d[1..] + rest;
      DigitRunOfDigits(d[1..], rest);
    }
  }

  lemma {:induction false} ReadUnsignedOfDigits(d: string, rest: string)
    requires |d| > 0 && AllDigits(d)
    requires |rest| == 0 || !IsDigit(rest[0])
    ensures ReadUnsigned(d + rest) == Some((DigitsValue(d), rest))
  {
    var t := d + rest;
    DigitRunOfDigits(d, rest);
    assert t[..|d|] == d;
    assert t[|d|..] == rest;
  }

  lemma {:induction false} ReadNumberOfNegative(n: nat, rest: string)
    requires n > 0
    requires |rest| == 0 || !IsDigit(rest[0])
    ensures ReadNumber("-" + NatToString(n) + rest) == Some((-(n as int), rest))
  {
    var t := "-" + NatToString(n) + rest;
    assert t[1..] == NatToString(n) + rest;
    ReadUnsignedOfDigits(NatToString(n), rest);
    DigitsValueOfNatToString(n);
  }

  /** An integer's decimal text, followed by anything but a digit, reads back as that integer. */
  lemma {:induction false} ReadNumberOfIntToString(i: int, rest: string)
    requires |rest| == 0 || !IsDigit(rest[0])
    ensures ReadNumber(IntToString(i) + rest) == Some((i, rest))
  {
    if i < 0 {
      ReadNumberOfNegative(-i, rest);
    } else {
      ReadUnsignedOfDigits(NatToString(i), rest);
      DigitsValueOfNatToString(i);
    }
  }
}
