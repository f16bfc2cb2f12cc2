/**
 * The JavaScript values the dehumidifier adapter handles: the primitive kinds
 * that travel in MIoT property records and command arguments. Floating point
 * numbers (and with them NaN and -0) are not modelled; numbers are integers.
 */
module JsValues {

  datatype Option<+T> = None | Some(value: T)

  datatype JsValue =
    | Undefined
    | Null
    | Bool(b: bool)
    | Int(i: int)
    | Str(s: string)

  /** ECMAScript ToBoolean on the kinds above. */
  predicate Truthy(v: JsValue) {
    match v
    case Undefined => false
    case Null => false
    case Bool(b) => b
    case Int(i) => i != 0
    case Str(s) => s != ""
  }

  /** The `!` operator: always a boolean, the negation of the operand's truthiness. */
  function Not(v: JsValue): (r: JsValue)
    ensures r.Bool? && (Truthy(r) <==> !Truthy(v))
  {
    Bool(!Truthy(v))
  }

  /** `!!v`, the coercion the change commands apply before writing a switch. */
  function NotNot(v: JsValue): (r: JsValue)
    ensures r.Bool?
    ensures Truthy(r) == Truthy(v)
  {
    Not(Not(v))
  }

  /** On a value that already is a boolean, `!!` changes nothing. */
  lemma NotNotKeepsBooleans(v: JsValue)
    requires v.Bool?
    ensures NotNot(v) == v
  {
  }

  // ---------------------------------------------------------------------------
  // String conversion, as a template literal `${v}` performs it for the
  // values above. Integers are printed in plain decimal, which is what
  // JavaScript does for magnitudes below 10^21.
  // ---------------------------------------------------------------------------

  predicate IsDigit(c: char) {
    '0' <= c <= '9'
  }

  predicate AllDigits(s: string) {
    forall k :: 0 <= k < |s| ==> IsDigit(s[k])
  }

  function DigitChar(d: nat): (c: char)
    requires d < 10
    ensures IsDigit(c)
  {
    ('0' as int + d) as char
  }

  function DigitValue(c: char): (d: nat)
    requires IsDigit(c)
    ensures d < 10
  {
    c as int - '0' as int
  }

  /** Decimal digits of a natural number, most significant first, no leading zero. */
  function DecimalString(n: nat): (s: string)
    ensures s != []
    ensures AllDigits(s)
    ensures n == 0 ==> s == "0"
    ensures n > 0 ==> s[0] != '0'
    decreases n
  {
    if n < 10 then [DigitChar(n)] else DecimalString(n / 10) + [DigitChar(n % 10)]
  }

  /** The number a string of decimal digits denotes. */
  function DecimalValue(s: string): (n: nat)
    requires AllDigits(s)
  {
    if s == [] then 0 else DecimalValue(s[..|s| - 1]) * 10 + DigitValue(s[|s| - 1])
  }

  /** Reading back the decimal digits of `n` gives `n`. */
  lemma {:induction false} DecimalRoundTrip(n: nat)
    ensures DecimalValue(DecimalString(n)) == n
    decreases n
  {
    var s := DecimalString(n);
    if n < 10 {
      assert s[..|s| - 1] == [];
    } else {
      assert s[..|s| - 1] == DecimalString(n / 10);
      DecimalRoundTrip(n / 10);
    }
  }

  /**
   * Number to string for an integer below 10^21 in magnitude, as JavaScript
   * prints it: a minus sign for a negative number, then the decimal digits of
   * the magnitude.
   */
  function NumberToString(i: int): (s: string)
    ensures i >= 0 ==> s != [] && AllDigits(s) && DecimalValue(s) == i
    ensures i == 0 ==> s == "0"
    ensures i > 0 ==> s[0] != '0'
    ensures i < 0 ==> |s| > 1 && s[0] == '-' && AllDigits(s[1..]) && DecimalValue(s[1..]) == -i
    ensures i < 0 ==> s[1] != '0'
  {
    if i < 0 then
      var s := "-" + DecimalString(-i);
      assert s[1..] == DecimalString(-i);
      DecimalRoundTrip(-i);
      s
    else
      DecimalRoundTrip(i);
      DecimalString(i)
  }

  /** Different integers print differently. */
  lemma NumberToStringInjective(a: int, b: int)
    requires NumberToString(a) == NumberToString(b)
    ensures a == b
  {
    var s := NumberToString(a);
    if a < 0 {
      assert !IsDigit(s[0]);
      assert b < 0;
    } else {
      assert s != [] && IsDigit(s[0]);
      assert b >= 0;
    }
  }

  /** ECMAScript ToString on the kinds above: what `${v}` yields. */
  function ToJsString(v: JsValue): (s: string)
    ensures v.Str? ==> s == v.s
    ensures v.Int? && v.i >= 0 ==> s != [] && AllDigits(s) && DecimalValue(s) == v.i
    ensures v.Int? && v.i == 0 ==> s == "0"
    ensures v.Int? && v.i > 0 ==> s[0] != '0'
    ensures v.Int? && v.i < 0 ==> |s| > 1 && s[0] == '-' && AllDigits(s[1..]) && DecimalValue(s[1..]) == -v.i
    ensures v.Int? && v.i < 0 ==> s[1] != '0'
  {
    match v
    case Undefined => "undefined"
    case Null => "null"
    case Bool(b) => if b then "true" else "false"
    case Int(i) => NumberToString(i)
    case Str(s) => s
  }
}
