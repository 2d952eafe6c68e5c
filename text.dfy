/** Decimal renderings of numbers as Python's `str()` produces them, and the
    conversion of a decimal string to an integer key that `int()` performs. */
module Text {
  import opened Results

  predicate IsDigit(c: char) {
    '0' <= c <= '9'
  }

  predicate AllDigits(s: string) {
    forall i :: 0 <= i < |s| ==> IsDigit(s[i])
  }

  function DigitChar(d: nat): (c: char)
    requires d < 10
    ensures IsDigit(c)
  {
    (d + '0' as int) as char
  }

  /** The value of a string of decimal digits, most significant first. */
  function DigitsValue(s: string): nat
    requires AllDigits(s)
  {
    if s == [] then 0 else DigitsValue(s[..|s| - 1]) * 10 + (s[|s| - 1] as int - '0' as int)
  }

  /** `str(n)` for a natural number: its shortest decimal digits. */
  function NatToString(n: nat): (r: string)
    ensures |r| >= 1 && AllDigits(r)
    ensures |r| > 1 ==> r[0] != '0'
  {
    if n < 10 then [DigitChar(n)] else NatToString(n / 10) + [DigitChar(n % 10)]
  }

  /** `str(i)` for an integer: a minus sign for negative values. */
  function IntToString(i: int): (r: string)
    ensures |r| >= 1
    ensures (i < 0) == (r[0] == '-')
  {
    if i < 0 then "-" + NatToString(-i) else NatToString(i)
  }

  /** `int(s)` as applied to a primary key given as text: an optional sign
      followed by decimal digits; anything else raises ValueError. */
  function ParseInt(s: string): (r: Option<int>)
    ensures r.Some? ==> exists k :: 0 <= k <= 1 && k < |s| && AllDigits(s[k..])
  {
    if |s| >= 2 && s[0] == '-' && AllDigits(s[1..]) then Some(-(DigitsValue(s[1..]) as int))
    else if |s| >= 2 && s[0] == '+' && AllDigits(s[1..]) then Some(DigitsValue(s[1..]))
    else if |s| >= 1 && AllDigits(s) then
      assert s[0..] == s;
      Some(DigitsValue(s))
    else None
  }

  lemma {:induction false} NatToStringValue(n: nat)
    ensures DigitsValue(NatToString(n)) == n
  {
    if n >= 10 {
      NatToStringValue(n / 10);
      var s := NatToString(n);
      assert s[..|s| - 1] == NatToString(n / 10);
    }
  }

  /** Reading back what `str` wrote gives the same integer. */
  lemma IntRoundTrip(i: int)
    ensures ParseInt(IntToString(i)) == Some(i)
  {
    var s := IntToString(i);
    if i < 0 {
      assert s[1..] == NatToString(-i);
      NatToStringValue(-i);
    } else {
      NatToStringValue(i);
    }
  }

  /** `str(b)` for a boolean. */
  function BoolToString(b: bool): (r: string)
    ensures r == "True" || r == "False"
    ensures b <==> r == "True"
  {
    if b then "True" else "False"
  }

  /** `str(d)` for a Decimal with two decimal places, given as a whole number
      of hundredths: sign, integer part, a point, exactly two digits. */
  function DecimalToString(cents: int): (r: string)
    ensures |r| >= 4 && r[|r| - 3] == '.' && AllDigits(r[|r| - 2..])
    ensures (cents < 0) == (r[0] == '-')
  {
    if cents < 0 then "-" + DecimalDigits(-cents) else DecimalDigits(cents)
  }

  /** The unsigned part of a decimal rendering. */
  function DecimalDigits(a: nat): (r: string)
    ensures |r| >= 4 && r[|r| - 3] == '.' && AllDigits(r[|r| - 2..]) && r[0] != '-'
  {
    NatToString(a / 100) + "." + [DigitChar(a % 100 / 10), DigitChar(a % 10)]
  }
}
