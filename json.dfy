/**
  The parsed JSON body of a request, as the handlers of app.py receive it from
  `request.get_json()`: absent (no body, or the literal `null`) or an object.
  Numbers with a fractional part are not part of this model.
*/
module Json {
  import opened Wrappers

  datatype Value =
    | Null
    | Bool(b: bool)
    | Int(i: int)
    | Str(s: string)
    | Arr(elems: seq<Value>)
    | Obj(fields: map<string, Value>)

  type Object = map<string, Value>

  /** Python's truth value of the parsed body: `None` and `{}` are false. */
  predicate Truthy(body: Option<Object>): (b: bool)
    ensures b <==> body.Some? && exists key :: key in body.value
  {
    body.Some? && |body.value| > 0
  }

  /** Python's `str()` of a scalar value, as an f-string renders it. */
  function Render(v: Value): (r: string)
    requires v.Bool? || v.Int? || v.Str?
    ensures v.Bool? ==> (r == "True" <==> v.b) && (r == "False" <==> !v.b)
    ensures v.Int? ==> r == Decimal(v.i)
    ensures v.Str? ==> r == v.s
  {
    match v
    case Bool(b) => if b then "True" else "False"
    case Int(i) => Decimal(i)
    case Str(s) => s
  }

  /** Decimal rendering of an integer: an optional '-' and no leading zeros. */
  function Decimal(i: int): (r: string)
    ensures |r| >= 1
    ensures i >= 0 ==> (forall k :: 0 <= k < |r| ==> IsDigit(r[k])) && DigitsValue(r) == i
    ensures i < 0 ==> r[0] == '-' && (forall k :: 1 <= k < |r| ==> IsDigit(r[k]))
                      && DigitsValue(r[1..]) == -i
  {
    if i < 0 then
      var d := Digits(-i);
      DigitsRoundTrip(-i);
      assert ("-" + d)[1..] == d;
      "-" + d
    else
      DigitsRoundTrip(i);
      Digits(i)
  }

  function Digits(n: nat): (r: string)
    ensures |r| >= 1
    ensures forall k :: 0 <= k < |r| ==> IsDigit(r[k])
  {
    if n < 10 then [DigitChar(n)] else Digits(n / 10) + [DigitChar(n % 10)]
  }

  predicate IsDigit(c: char)
  {
    '0' <= c <= '9'
  }

  function DigitChar(d: nat): (c: char)
    requires d < 10
    ensures IsDigit(c)
  {
    ('0' as int + d) as char
  }

  function DigitValue(c: char): (d: nat)
    requires IsDigit(c)
    ensures d < 10
  {
    c as int - '0' as int
  }

  /** The value of a string of decimal digits, leading zeros allowed. */
  function DigitsValue(s: string): nat
    requires forall k :: 0 <= k < |s| ==> IsDigit(s[k])
  {
    if s == [] then 0 else DigitsValue(s[..|s| - 1]) * 10 + DigitValue(s[|s| - 1])
  }

  /** Reading back the digits written by `Digits` gives the number again. */
  lemma {:induction false} DigitsRoundTrip(n: nat)
    ensures DigitsValue(Digits(n)) == n
  {
    var r := Digits(n);
    if n >= 10 {
      DigitsRoundTrip(n / 10);
      assert r[..|r| - 1] == Digits(n / 10);
    }
  }
}
