/**
 * JavaScript values as they arrive in database rows, request bodies and d3 data,
 * and the two coercions the code leans on: truthiness (`a || b`, `if (!x)`) and
 * conversion to a string (`a + ': ' + b`, d3's string keys).
 */
module JsValues {

  datatype Option<T> = None | Some(value: T)

  /**
   * A value of the kinds a mariadb row or a JSON body carries. Numbers are the
   * integers the code handles (counts, years, identifiers); NaN and fractions
   * do not occur in the modelled paths.
   */
  datatype JsValue = Undefined | Null | Bool(b: bool) | Num(n: int) | Str(s: string)

  /** ToBoolean: undefined, null, false, 0 and "" are falsy, everything else truthy. */
  predicate Truthy(v: JsValue) {
    match v
    case Undefined => false
    case Null => false
    case Bool(b) => b
    case Num(n) => n != 0
    case Str(s) => s != ""
  }

  /** The `a || b` operator. */
  function Or(a: JsValue, b: JsValue): (r: JsValue)
    ensures Truthy(r) <==> Truthy(a) || Truthy(b)
    ensures r == a || r == b
    ensures Truthy(a) ==> r == a
  {
    if Truthy(a) then a else b
  }

  function Digit(d: nat): (c: char)
    requires d < 10
  {
    "0123456789"[d]
  }

  function DigitValue(c: char): nat {
    if '0' <= c <= '9' then (c as int - '0' as int) as nat else 0
  }

  predicate IsDigit(c: char) {
    '0' <= c <= '9'
  }

  /** Number.prototype.toString for a non-negative integer: its decimal digits. */
  function Decimal(n: nat): (s: string)
    ensures |s| >= 1
    ensures forall i | 0 <= i < |s| :: IsDigit(s[i])
    decreases n
  {
    if n < 10 then [Digit(n)] else Decimal(n / 10) + [Digit(n % 10)]
  }

  /** Reads a string of decimal digits back as the number it denotes. */
  function ParseDecimal(s: string): nat
    decreases |s|
  {
    if s == [] then 0 else 10 * ParseDecimal(s[..|s| - 1]) + DigitValue(s[|s| - 1])
  }

  lemma {:induction false} DecimalRoundTrip(n: nat)
    ensures ParseDecimal(Decimal(n)) == n
    decreases n
  {
    var s := Decimal(n);
    if n < 10 {
      assert s[..|s| - 1] == [];
    } else {
      DecimalRoundTrip(n / 10);
      assert s[..|s| - 1] == Decimal(n / 10);
      assert s[|s| - 1] == Digit(n % 10);
    }
  }

  /** The string form of a number, with a leading '-' for a negative one. */
  function NumberString(n: int): string {
    if n < 0 then "-" + Decimal(-n) else Decimal(n)
  }

  /** A negative number's string form is '-' and the digits of its magnitude. */
  lemma NegativeStringReadsBack(n: int)
    requires n < 0
    ensures var s := NumberString(n);
      |s| >= 2 && s[0] == '-' && (forall i | 1 <= i < |s| :: IsDigit(s[i])) && ParseDecimal(s[1..]) == -n
  {
    var d := Decimal(-n);
    var s := NumberString(n);
    DecimalRoundTrip(-n);
    assert s[1..] == d;
    forall i | 1 <= i < |s| ensures IsDigit(s[i]) {
      assert s[i] == d[i - 1];
    }
  }

  /**
   * ToString, as used by `+` on a string operand and by d3 to turn join keys into
   * strings. A number renders as its digits, after a '-' when negative, and the
   * digits read back as its magnitude.
   */
  function ToJsString(v: JsValue): (s: string)
    ensures v.Str? ==> s == v.s
    ensures v == Undefined ==> s == "undefined"
    ensures v == Null ==> s == "null"
    ensures v.Bool? ==> s == (if v.b then "true" else "false")
    ensures v.Num? && v.n >= 0 ==>
      |s| >= 1 && (forall i | 0 <= i < |s| :: IsDigit(s[i])) && ParseDecimal(s) == v.n
    ensures v.Num? && v.n < 0 ==>
      |s| >= 2 && s[0] == '-' && (forall i | 1 <= i < |s| :: IsDigit(s[i])) && ParseDecimal(s[1..]) == -v.n
  {
    match v
    case Undefined => "undefined"
    case Null => "null"
    case Bool(b) => if b then "true" else "false"
    case Num(n) =>
      if n < 0 then NegativeStringReadsBack(n); NumberString(n)
      else DecimalRoundTrip(n); NumberString(n)
    case Str(s) => s
  }

  /** Different numbers give different strings, so numeric identifiers give different join keys. */
  lemma NumberStringsDiffer(a: int, b: int)
    requires a != b
    ensures ToJsString(Num(a)) != ToJsString(Num(b))
  {
  }
}
