/**
 * The decoded JSON values the script receives from the segment provider and
 * from extension storage, with the two JavaScript coercions the script
 * applies to them: truthiness (`Boolean(v)`, `||`) and `Number(v)`.
 */
module JsonValue {
  import opened Wrappers
  import opened JsText

  datatype Json =
    | JNull
    | JBool(b: bool)
    | JNum(n: real)
    | JStr(s: string)
    | JArr(elems: seq<Json>)
    | JObj(fields: map<string, Json>)

  /** `Boolean(v)`: false exactly for null, false, 0 and the empty string. */
  predicate Truthy(v: Json)
  {
    match v
    case JNull => false
    case JBool(b) => b
    case JNum(n) => n != 0.0
    case JStr(s) => s != ""
    case JArr(_) => true
    case JObj(_) => true
  }

  // ---------------------------------------------------------------------
  // Number(string): decimal StringNumericLiteral of ECMAScript.

  predicate IsDigit(c: char) { '0' <= c <= '9' }

  function DigitValue(c: char): nat
    requires IsDigit(c)
  {
    (c as int - '0' as int) as nat
  }

  /** How many decimal digits `s` starts with. */
  function DigitRun(s: string): (k: nat)
    ensures k <= |s|
    ensures forall i :: 0 <= i < k ==> IsDigit(s[i])
    ensures k < |s| ==> !IsDigit(s[k])
  {
    if |s| > 0 && IsDigit(s[0]) then 1 + DigitRun(s[1..]) else 0
  }

  predicate AllDigits(s: string)
  {
    forall i :: 0 <= i < |s| ==> IsDigit(s[i])
  }

  /** The value of a run of decimal digits, most significant first. */
  function DigitsValue(ds: string): nat
    requires AllDigits(ds)
  {
    if |ds| == 0 then 0 else 10 * DigitsValue(ds[..|ds| - 1]) + DigitValue(ds[|ds| - 1])
  }

  function Pow10(e: nat): (p: nat)
    ensures p >= 1
  {
    if e == 0 then 1 else 10 * Pow10(e - 1)
  }

  /** `10` raised to a possibly negative exponent. */
  function Scale(e: int): (r: real)
    ensures r > 0.0
  {
    if e >= 0 then Pow10(e) as real else 1.0 / (Pow10(-e) as real)
  }

  /** An ExponentPart (`e`/`E`, optional sign, at least one digit) filling all of `s`, or the empty string. */
  function Exponent(s: string): Option<int>
  {
    if |s| == 0 then Some(0)
    else if s[0] != 'e' && s[0] != 'E' then None
    else
      var t := s[1..];
      var neg := |t| > 0 && t[0] == '-';
      var u := if |t| > 0 && (t[0] == '+' || t[0] == '-') then t[1..] else t;
      if |u| > 0 && AllDigits(u) then Some(if neg then -(DigitsValue(u) as int) else DigitsValue(u) as int)
      else None
  }

  /** A StrUnsignedDecimalLiteral without `Infinity`: digits, an optional fraction, an optional exponent. */
  function UnsignedDecimal(s: string): Option<real>
  {
    var m := DigitRun(s);
    var whole := s[..m];
    var rest := s[m..];
    if |rest| > 0 && rest[0] == '.' then
      var f := DigitRun(rest[1..]);
      var frac := rest[1..][..f];
      if m == 0 && f == 0 then None
      else match Exponent(rest[1..][f..])
        case None => None
        case Some(e) =>
          Some((DigitsValue(whole) as real + DigitsValue(frac) as real / Pow10(f) as real) * Scale(e))
    else if m == 0 then None
    else match Exponent(rest)
      case None => None
      case Some(e) => Some(DigitsValue(whole) as real * Scale(e))
  }

  /** `Number(s)` for a string; `None` stands for NaN. */
  function StringToNumber(s: string): Option<real>
  {
    var t := Trim(s);
    if |t| == 0 then Some(0.0)
    else if t[0] == '+' then UnsignedDecimal(t[1..])
    else if t[0] == '-' then
      match UnsignedDecimal(t[1..])
      case None => None
      case Some(v) => Some(-v)
    else UnsignedDecimal(t)
  }

  /**
   * `Number(v)` for a decoded JSON value; `None` stands for NaN. An array
   * converts through its `join(',')` string: the empty array gives 0, a
   * one-element array converts like its element's string form (null gives
   * "", booleans and objects give non-numeric words), and two or more
   * elements always leave a ',' in the string, which is not numeric. This
   * is the value when `NumberThrows(v)` is false.
   */
  function ToNumber(v: Json): Option<real>
  {
    match v
    case JNull => Some(0.0)
    case JBool(b) => Some(if b then 1.0 else 0.0)
    case JNum(n) => Some(n)
    case JStr(s) => StringToNumber(s)
    case JObj(_) => None
    case JArr(xs) =>
      if |xs| == 0 then Some(0.0)
      else if |xs| >= 2 then None
      else match xs[0]
        case JNull => Some(0.0)
        case JBool(_) => None
        case JObj(_) => None
        case _ => ToNumber(xs[0])
  }

  /**
   * `Number(v)` throws a TypeError. Converting an object to a primitive
   * tries its `valueOf` and `toString` methods; a decoded object inherits
   * both from `Object.prototype` unless it has a key of that name, and a
   * decoded value is never callable. An own `valueOf` key only makes the
   * inherited `toString` answer `"[object Object]"`, but an own `toString`
   * key leaves no method that gives a primitive. An array converts through
   * `join(',')`, which converts every element that is not null.
   */
  predicate NumberThrows(v: Json)
  {
    match v
    case JObj(fields) => "toString" in fields
    case JArr(xs) => exists i :: 0 <= i < |xs| && NumberThrows(xs[i])
    case _ => false
  }

  /** `Number(x) || 0` throws: `x` is present and its conversion throws. */
  predicate NumberOrZeroThrows(x: Option<Json>)
  {
    x.Some? && NumberThrows(x.value)
  }

  /**
   * `Number(x) || 0` where `x` may be `undefined` (`None`): NaN and 0 both
   * give 0. This is the value when `NumberOrZeroThrows(x)` is false.
   */
  function NumberOrZero(x: Option<Json>): real
  {
    if x.None? then 0.0
    else match ToNumber(x.value)
      case None => 0.0
      case Some(n) => n
  }

  // ---------------------------------------------------------------------
  // Decimal strings.

  function DigitChar(d: nat): (c: char)
    requires d < 10
    ensures IsDigit(c) && DigitValue(c) == d
  {
    ('0' as int + d) as char
  }

  /** The canonical decimal spelling of a natural number. */
  function NatToDecimal(n: nat): (s: string)
    ensures |s| > 0 && AllDigits(s)
  {
    if n < 10 then [DigitChar(n)] else NatToDecimal(n / 10) + [DigitChar(n % 10)]
  }

  lemma {:induction false} DecimalValue(n: nat)
    ensures DigitsValue(NatToDecimal(n)) == n
  {
    if n >= 10 {
      DecimalValue(n / 10);
      var s := NatToDecimal(n);
      assert s[..|s| - 1] == NatToDecimal(n / 10);
    }
  }

  lemma UnsignedDecimalOfDigits(s: string)
    requires |s| > 0 && AllDigits(s)
    ensures UnsignedDecimal(s) == Some(DigitsValue(s) as real)
  {
    var k := DigitRun(s);
    assert k == |s|;
    assert s[..k] == s;
    assert s[k..] == "";
    assert Exponent("") == Some(0);
    assert Scale(0) == 1.0;
  }

  /** `Number` reads back the decimal spelling of every natural number. */
  lemma NumberOfDecimal(n: nat)
    ensures StringToNumber(NatToDecimal(n)) == Some(n as real)
    ensures ToNumber(JStr(NatToDecimal(n))) == Some(n as real)
  {
    var s := NatToDecimal(n);
    assert IsDigit(s[0]) && IsDigit(s[|s| - 1]);
    TrimIdentity(s);
    assert s[0] != '+' && s[0] != '-';
    UnsignedDecimalOfDigits(s);
    DecimalValue(n);
  }

  /**
   * A JSON number converts to itself, alone or as the one element of an
   * array; absent values and objects without a `toString` key give 0. None
   * of these throw.
   */
  lemma NumberOrZeroOfNumbers(x: real)
    ensures NumberOrZero(Some(JNum(x))) == x
    ensures NumberOrZero(Some(JArr([JNum(x)]))) == x
    ensures NumberOrZero(None) == 0.0 && NumberOrZero(Some(JObj(map[]))) == 0.0
    ensures !NumberOrZeroThrows(Some(JNum(x))) && !NumberOrZeroThrows(Some(JArr([JNum(x)])))
    ensures !NumberOrZeroThrows(None) && !NumberOrZeroThrows(Some(JObj(map[])))
  {
    assert [JNum(x)][0] == JNum(x);
  }

  /**
   * An object with its own `toString` key makes `Number(x) || 0` throw,
   * alone or anywhere in an array; an object without one does not throw
   * and gives 0.
   */
  lemma OwnToStringThrows(fields: map<string, Json>, before: seq<Json>, after: seq<Json>)
    ensures NumberOrZeroThrows(Some(JObj(fields))) <==> "toString" in fields
    ensures "toString" in fields ==> NumberOrZeroThrows(Some(JArr(before + [JObj(fields)] + after)))
    ensures "toString" !in fields ==> NumberOrZero(Some(JObj(fields))) == 0.0
  {
    var xs := before + [JObj(fields)] + after;
    assert xs[|before|] == JObj(fields);
  }

  /** A string holding the decimal spelling of a number coerces to that number. */
  lemma NumberOrZeroOfDecimal(n: nat)
    ensures NumberOrZero(Some(JStr(NatToDecimal(n)))) == n as real
  {
    NumberOfDecimal(n);
  }
}
