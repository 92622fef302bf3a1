/** The JSON values a request body field can hold, with the two JavaScript
    operations the handlers apply to them: the truthiness test `!x` and
    `x.toString()`. */
module JsValue {
  import opened Decimal

  /** A field of the parsed request body. `Undefined` is a missing field;
      numbers are integral (see README). */
  datatype Json = Undefined | Null | Bool(b: bool) | Num(n: int) | Str(s: string)

  /** JavaScript truthiness: `undefined`, `null`, `false`, `0` and `""` are falsy. */
  predicate Truthy(v: Json) {
    match v
    case Undefined => false
    case Null => false
    case Bool(b) => b
    case Num(n) => n != 0
    case Str(s) => s != []
  }

  /** `Number.prototype.toString()` of an integer: a minus sign for negative
      numbers followed by the decimal rendering of the magnitude. */
  function NumberToString(n: int): (s: string)
    ensures |s| >= 1 && (s[0] == '-' <==> n < 0)
    ensures n >= 0 ==> IsCanonical(s)
  {
    if n < 0 then "-" + NatToDecimal(-n) else NatToDecimal(n)
  }

  /** Different integers have different renderings. */
  lemma NumberToStringInjective(a: int, b: int)
    ensures NumberToString(a) == NumberToString(b) <==> a == b
  {
    if NumberToString(a) == NumberToString(b) {
      if a < 0 {
        assert NumberToString(a)[1..] == NatToDecimal(-a);
        assert NumberToString(b)[1..] == NatToDecimal(-b);
        NatToDecimalInjective(-a, -b);
      } else {
        NatToDecimalInjective(a, b);
      }
    }
  }

  /** `v.toString()`; on `undefined` and `null` it throws, so it is only
      defined for the truthy values the handlers apply it to. */
  function ToString(v: Json): (s: string)
    requires Truthy(v)
    ensures v.Str? ==> s == v.s
  {
    match v
    case Bool(_) => "true"
    case Num(n) => NumberToString(n)
    case Str(s) => s
  }

  /** A submitted value reads as the decimal rendering of a natural number
      exactly when it is that number or that number's canonical numeral:
      "0123456", "123456 " and `true` never read as 123456. */
  lemma StringFormMatchesNumber(v: Json, code: nat)
    requires Truthy(v)
    ensures ToString(v) == NatToDecimal(code) <==> v == Num(code) || v == Str(NatToDecimal(code))
  {
    var d := NatToDecimal(code);
    match v
    case Bool(_) =>
      assert !IsDigit(ToString(v)[0]);
      assert IsDigit(d[0]);
    case Num(n) =>
      NumberToStringInjective(n, code);
    case Str(s) =>
  }

  /** A submitted string reads as the rendering of `code` exactly when it is
      a canonical numeral whose value is `code`. */
  lemma StringSubmissionDenotes(s: string, code: nat)
    requires s != []
    ensures ToString(Str(s)) == NatToDecimal(code) <==> IsCanonical(s) && DecimalValue(s) == code
  {
    if IsCanonical(s) {
      NatToDecimalOfDecimalValue(s);
    }
    if s == NatToDecimal(code) {
      DecimalValueOfNatToDecimal(code);
    }
  }
}
