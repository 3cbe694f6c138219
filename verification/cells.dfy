/**
 * Cell values of the enrollment table and the per-cell integer coercion the
 * dashboard applies to its integer columns (pandas' `to_numeric` with
 * `errors="coerce"` followed by `astype("Int64")`, restricted to decimal
 * integer text).
 */
module Cells {

  datatype Option<+T> = None | Some(value: T)

  /** One cell as the CSV reader hands it over: empty, already an integer, or text. */
  datatype Cell = Missing | Int(i: int) | Text(s: string)

  predicate IsDigit(c: char) {
    '0' <= c <= '9'
  }

  predicate AllDigits(s: string) {
    forall k :: 0 <= k < |s| ==> IsDigit(s[k])
  }

  /** A decimal integer literal: an optional sign followed by at least one digit. */
  predicate IsDecimal(s: string) {
    if |s| > 0 && (s[0] == '+' || s[0] == '-') then |s| > 1 && AllDigits(s[1..])
    else |s| > 0 && AllDigits(s)
  }

  function DigitValue(c: char): nat
    requires IsDigit(c)
  {
    c as int - '0' as int
  }

  /** The value of a string of digits, most significant digit first. */
  function DigitsValue(ds: string): nat
    requires AllDigits(ds)
  {
    if ds == [] then 0 else DigitsValue(ds[..|ds| - 1]) * 10 + DigitValue(ds[|ds| - 1])
  }

  /** Parses a decimal integer; anything that is not a decimal literal gives None. */
  function ParseInt(s: string): (r: Option<int>)
    ensures r.Some? <==> IsDecimal(s)
    ensures r.Some? && s[0] == '-' ==> r.value <= 0
    ensures r.Some? && s[0] != '-' ==> r.value >= 0
  {
    if |s| > 1 && s[0] == '-' && AllDigits(s[1..]) then Some(-(DigitsValue(s[1..]) as int))
    else if |s| > 1 && s[0] == '+' && AllDigits(s[1..]) then Some(DigitsValue(s[1..]))
    else if |s| > 0 && s[0] != '+' && s[0] != '-' && AllDigits(s) then Some(DigitsValue(s))
    else None
  }

  function DigitChar(d: nat): (c: char)
    requires d < 10
    ensures IsDigit(c) && DigitValue(c) == d
  {
    ('0' as int + d) as char
  }

  /** The decimal digits of a natural number, without leading zeros. */
  function NatText(n: nat): (r: string)
    ensures |r| > 0 && AllDigits(r)
    ensures |r| > 1 ==> r[0] != '0'
  {
    if n < 10 then [DigitChar(n)] else NatText(n / 10) + [DigitChar(n % 10)]
  }

  /** The text Python's `str` gives for an integer. */
  function DecimalText(n: int): string {
    if n < 0 then "-" + NatText(-n) else NatText(n)
  }

  lemma {:induction false} NatTextValue(n: nat)
    ensures DigitsValue(NatText(n)) == n
  {
    if n >= 10 {
      NatTextValue(n / 10);
      var t := NatText(n);
      assert t[..|t| - 1] == NatText(n / 10);
    }
  }

  /** Parsing the text of any integer gives that integer back. */
  lemma ParseDecimalText(n: int)
    ensures ParseInt(DecimalText(n)) == Some(n)
  {
    var t := DecimalText(n);
    if n < 0 {
      NatTextValue(-n);
      assert t[1..] == NatText(-n);
    } else {
      NatTextValue(n);
    }
  }

  lemma {:induction false} DigitsValueLeadingZero(t: string)
    requires AllDigits(t)
    ensures AllDigits(['0'] + t) && DigitsValue(['0'] + t) == DigitsValue(t)
    decreases |t|
  {
    var z := ['0'] + t;
    if t != [] {
      assert z[..|z| - 1] == ['0'] + t[..|t| - 1];
      assert z[|z| - 1] == t[|t| - 1];
      DigitsValueLeadingZero(t[..|t| - 1]);
    }
  }

  /** A leading zero does not change the value of unsigned digits. */
  lemma ParseLeadingZero(t: string)
    requires |t| > 0 && AllDigits(t)
    ensures ParseInt(['0'] + t) == ParseInt(t)
  {
    DigitsValueLeadingZero(t);
  }

  /** A '+' sign does not change the value. */
  lemma ParsePlus(t: string)
    requires |t| > 0 && AllDigits(t)
    ensures ParseInt(['+'] + t) == ParseInt(t)
  {
    assert (['+'] + t)[1..] == t;
  }

  /** A '-' sign negates the value of the digits after it (so "-0" parses to 0). */
  lemma ParseNegative(t: string)
    requires |t| > 0 && AllDigits(t)
    ensures ParseInt(['-'] + t) == Some(-ParseInt(t).value)
  {
    assert (['-'] + t)[1..] == t;
  }

  /**
   * One cell of an integer column after coercion: integers stay, text that
   * parses becomes its integer, anything else becomes missing. The row that
   * holds the cell is never dropped; only the cell changes.
   */
  function ToInt(c: Cell): (r: Cell)
    ensures r.Missing? || r.Int?
    ensures c.Int? ==> r == c
    ensures c.Missing? ==> r == Missing
    ensures c.Text? ==> (r.Int? <==> IsDecimal(c.s))
    ensures c.Text? && IsDecimal(c.s) ==> r == Int(ParseInt(c.s).value)
  {
    match c
    case Missing => Missing
    case Int(_) => c
    case Text(s) =>
      match ParseInt(s)
      case Some(v) => Int(v)
      case None => Missing
  }

  /** Text written by `str` on an integer coerces back to that integer. */
  lemma ToIntOfText(n: int)
    ensures ToInt(Text(DecimalText(n))) == Int(n)
  {
    ParseDecimalText(n);
  }

  /** Coercing a column a second time changes nothing. */
  lemma ToIntIdempotent(c: Cell)
    ensures ToInt(ToInt(c)) == ToInt(c)
  {
  }

  /** What a pandas sum that skips missing values adds for one cell. */
  function Contribution(c: Cell): int {
    if c.Int? then c.i else 0
  }
}
