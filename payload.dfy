/** The body of a request as the CRM backend reads it: a dictionary from field
    names to JSON values, and the conversion of a value to a primary key that
    a lookup such as `get_object_or_404(Model, pk=value)` performs. */
module Payload {
  import opened Results
  import opened Text

  /** A JSON value as the request parser delivers it. A number with a
      fraction is `digits` times ten to the power minus `places`. */
  datatype Json =
    | JNull
    | JBool(b: bool)
    | JInt(i: int)
    | JDecimal(digits: int, places: nat)
    | JStr(s: string)
    | JArray(items: seq<Json>)
    | JObject(fields: map<string, Json>)

  function Pow10(n: nat): (p: nat)
    ensures p >= 1
  {
    if n == 0 then 1 else 10 * Pow10(n - 1)
  }

  /** `int(x)` of a number with a fraction: the fraction is dropped, rounding
      toward zero whatever the sign. */
  function Truncate(digits: int, places: nat): (t: int)
    ensures 0 <= digits ==> 0 <= t && t * Pow10(places) <= digits < (t + 1) * Pow10(places)
    ensures digits < 0 ==> t <= 0 && (t - 1) * Pow10(places) < digits <= t * Pow10(places)
  {
    var p := Pow10(places);
    if 0 <= digits then
      QuotientBounds(digits, p);
      digits / p
    else
      QuotientBounds(-digits, p);
      -((-digits) / p)
  }

  lemma QuotientBounds(a: int, p: nat)
    requires 0 <= a && p >= 1
    ensures 0 <= a / p
    ensures (a / p) * p <= a < (a / p + 1) * p
    ensures (-(a / p) - 1) * p < -a <= -(a / p) * p
  {
    var q, m := a / p, a % p;
    assert a == q * p + m && 0 <= m < p;
    assert (q + 1) * p == q * p + p;
    assert (-q - 1) * p == -(q * p) - p;
    assert -q * p == -(q * p);
  }

  /** `request.data`. */
  type Data = map<string, Json>

  /** `data[key]`: the value, or KeyError when the key is absent. */
  function Field(data: Data, key: string): (r: Result<Json>)
    ensures r.Ok? <==> key in data
    ensures r.Ok? ==> r.value == data[key]
    ensures r.Err? ==> r.error == KeyError(key)
  {
    if key in data then Ok(data[key]) else Err(KeyError(key))
  }

  /** The integer a value stands for as a primary key: an integer as is, a
      boolean as 1 or 0, a number with a fraction truncated toward zero, a
      string holding an optionally signed decimal integer as that integer; any
      other string is a ValueError, an array or object a TypeError. A null
      matches no row. */
  function PkOf(v: Json): (r: Result<Option<int>>)
    ensures v.JInt? ==> r == Ok(Some(v.i))
    ensures v.JNull? ==> r == Ok(None)
    ensures v.JBool? ==> r == Ok(Some(if v.b then 1 else 0))
    ensures v.JDecimal? ==> r == Ok(Some(Truncate(v.digits, v.places)))
    ensures v.JStr? ==> (r.Ok? <==> ParseInt(v.s).Some?)
    ensures v.JStr? && ParseInt(v.s).Some? ==> r == Ok(Some(ParseInt(v.s).value))
    ensures r == Err(ValueError) <==> v.JStr? && ParseInt(v.s).None?
    ensures r == Err(TypeError) <==> v.JArray? || v.JObject?
    ensures r.Ok? || r == Err(ValueError) || r == Err(TypeError)
  {
    match v
    case JNull => Ok(None)
    case JBool(b) => Ok(Some(if b then 1 else 0))
    case JInt(i) => Ok(Some(i))
    case JDecimal(digits, places) => Ok(Some(Truncate(digits, places)))
    case JStr(s) => (if ParseInt(s).Some? then Ok(Some(ParseInt(s).value)) else Err(ValueError))
    case JArray(_) => Err(TypeError)
    case JObject(_) => Err(TypeError)
  }

  /** `{"pk": 1.9}` names row 1 and `{"pk": -1.9}` row -1. */
  lemma FractionalIdsTruncate()
    ensures PkOf(JDecimal(19, 1)) == Ok(Some(1))
    ensures PkOf(JDecimal(-19, 1)) == Ok(Some(-1))
  {
    assert Pow10(1) == 10;
  }

  /** An id sent as the string the framework renders it with names the same
      row as the id itself. */
  lemma PkOfRenderedId(i: int)
    ensures PkOf(JStr(IntToString(i))) == PkOf(JInt(i))
  {
    IntRoundTrip(i);
  }
}
