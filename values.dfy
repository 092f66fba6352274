/** Inbound payloads after JSON.parse (or the raw text when parsing
    fails), and the two coercions the message handler applies to them:
    parseFloat for temperatures and the true/'true'/1 test for the
    activation flag. */
module Values {
  import opened Util
  import opened Codec

  /** A temperature: a finite number or NaN. Numbers are exact reals here;
      nothing in the model computes with them, they are only copied. */
  datatype Float = Finite(x: real) | NaN

  /** A parsed payload: an array of time blocks, a boolean, a number, a
      string, or anything else (null, an object). */
  datatype Value = Arr(blocks: seq<Block>) | Bool(b: bool) | Num(n: real) | Str(s: string) | Other

  /** Number of leading decimal digits of s. */
  function DigitRun(s: string): (n: nat)
    ensures n <= |s| && AllDigits(s[..n])
    ensures n < |s| ==> !IsDigit(s[n])
  {
    if s != [] && IsDigit(s[0]) then
      var n := 1 + DigitRun(s[1..]);
      assert forall i :: 0 < i < n ==> s[..n][i] == s[1..][..n - 1][i - 1];
      n
    else 0
  }

  function Pow10(n: nat): (r: nat)
    ensures r > 0
  {
    if n == 0 then 1 else 10 * Pow10(n - 1)
  }

  /** parseFloat of a text: an optional sign, then the longest prefix of the
      form digits[.digits] with at least one digit; NaN when there is none. */
  function ParseFloatText(s: string): (r: Float)
    ensures s == [] ==> r == NaN
    ensures s != [] && AllDigits(s) ==> r == Finite(DigitsValue(s) as real)
  {
    assert s != [] && AllDigits(s) ==> DigitRun(s) == |s| && IsDigit(s[0]) && s[..|s|] == s by {
      if s != [] && AllDigits(s) {
        DigitRunAll(s);
      }
    }
    var negative := s != [] && s[0] == '-';
    var t := if s != [] && (s[0] == '-' || s[0] == '+') then s[1..] else s;
    var n := DigitRun(t);
    var whole := DigitsValue(t[..n]);
    var rest := t[n..];
    var f := if rest != [] && rest[0] == '.' then DigitRun(rest[1..]) else 0;
    var fraction: real := if f == 0 then 0.0 else DigitsValue(rest[1..][..f]) as real / Pow10(f) as real;
    if n == 0 && f == 0 then NaN
    else
      var magnitude := whole as real + fraction;
      Finite(if negative then -magnitude else magnitude)
  }

  /** parseFloat(value) for a parsed payload. */
  function ParseFloat(v: Value): (r: Float)
    ensures v.Num? ==> r == Finite(v.n)
    ensures v.Arr? || v.Bool? || v.Other? ==> r == NaN
  {
    match v
    case Num(n) => Finite(n)
    case Str(s) => ParseFloatText(s)
    case _ => NaN
  }

  /** The Activated test: the value is the boolean true, the text "true"
      or the number 1, compared strictly; anything else reads as off. */
  function IsActivated(v: Value): (r: bool)
    ensures v.Bool? ==> r == v.b
    ensures v.Str? ==> (r <==> v.s == "true")
    ensures v.Num? ==> (r <==> v.n == 1.0)
    ensures v.Arr? || v.Other? ==> !r
  {
    v == Bool(true) || v == Str("true") || v == Num(1.0)
  }

  /** What a temperature becomes after JSON.stringify and JSON.parse: a
      number stays a number, NaN becomes null. */
  function FloatJson(f: Float): (v: Value)
    ensures f.Finite? ==> v == Num(f.x)
    ensures f.NaN? ==> v.Other?
  {
    match f
    case Finite(x) => Num(x)
    case NaN => Other
  }

  /** A published temperature is read back as the same temperature. */
  lemma ParseFloatJson(f: Float)
    ensures ParseFloat(FloatJson(f)) == f
  {
  }

  /** On an all-digit text the digit scan takes the whole text. */
  lemma {:induction false} DigitRunAll(s: string)
    requires AllDigits(s)
    ensures DigitRun(s) == |s|
    decreases |s|
  {
    if s != [] {
      DigitRunAll(s[1..]);
    }
  }
}
