/** PHP values as they appear in request input, rule declarations and order
    specifications, with the few PHP conversions the query translator relies on:
    `empty`, the string cast used by concatenation, and the array-key cast. */
module PhpValues {

  datatype Option<+T> = None | Some(value: T) {
    function GetOr(default: T): T {
      match this
      case Some(v) => v
      case None => default
    }
  }

  datatype Result<+R, +E> = Success(value: R) | Failure(error: E)

  /** A request parameter or a declared constant. Floats and objects are not
      modelled; an array keeps its elements in order and drops its keys. */
  datatype Value =
    | Null
    | Bool(b: bool)
    | Int(i: int)
    | Str(s: string)
    | Arr(items: seq<Value>)

  /** The input map: parameter name to value, read flat (no dot notation). */
  type Input = map<string, Value>

  /** PHP `empty($v)`: null, false, 0, "", "0" and the empty array. */
  predicate IsEmpty(v: Value) {
    match v
    case Null => true
    case Bool(b) => !b
    case Int(i) => i == 0
    case Str(s) => s == "" || s == "0"
    case Arr(items) => items == []
  }

  /** PHP truthiness, the negation of `empty`. */
  predicate Truthy(v: Value) {
    !IsEmpty(v)
  }

  /** `array_get($input, $key)` on a flat map: an absent key reads as null. */
  function Lookup(m: Input, key: string): (v: Value)
    ensures key !in m ==> v == Null
    ensures key in m ==> v == m[key]
  {
    if key in m then m[key] else Null
  }

  function DigitChar(d: nat): (c: char)
    requires d < 10
    ensures '0' <= c <= '9' && c as int - '0' as int == d
  {
    ('0' as int + d) as char
  }

  /** The number a string of decimal digits denotes. */
  function DigitsValue(s: string): nat
    requires forall k :: 0 <= k < |s| ==> '0' <= s[k] <= '9'
    decreases |s|
  {
    if s == [] then 0
    else DigitsValue(s[..|s| - 1]) * 10 + (s[|s| - 1] as int - '0' as int)
  }

  /** Decimal digits of a natural number, most significant first. */
  function NatDigits(n: nat): (s: string)
    decreases n
    ensures |s| >= 1
    ensures forall k :: 0 <= k < |s| ==> '0' <= s[k] <= '9'
    ensures DigitsValue(s) == n
  {
    if n < 10 then [DigitChar(n)]
    else
      var init := NatDigits(n / 10);
      var s := init + [DigitChar(n % 10)];
      assert s[..|s| - 1] == init;
      s
  }

  /** PHP's string form of an integer: an optional minus sign, then the
      digits of its magnitude. */
  function DecimalString(n: int): (r: string)
    ensures n >= 0 ==> (forall k :: 0 <= k < |r| ==> '0' <= r[k] <= '9') && DigitsValue(r) == n
    ensures n < 0 ==> |r| >= 2 && r[0] == '-'
                      && (forall k :: 1 <= k < |r| ==> '0' <= r[k] <= '9') && DigitsValue(r[1..]) == -n
  {
    if n < 0 then
      var digits := NatDigits(-n);
      assert ("-" + digits)[1..] == digits;
      "-" + digits
    else NatDigits(n)
  }

  /** PHP's string cast, as `'%' . $v . '%'` performs it; an array becomes the
      word "Array" (PHP also raises a notice, which is not modelled). */
  function ToPhpString(v: Value): string {
    match v
    case Null => ""
    case Bool(b) => if b then "1" else ""
    case Int(i) => DecimalString(i)
    case Str(s) => s
    case Arr(_) => "Array"
  }

  /** The key a value selects when it is used as an array offset
      (`$spec[$v]`); an array is not a valid offset. */
  function ArrayKey(v: Value): Option<string> {
    match v
    case Null => Some("")
    case Bool(b) => Some(if b then "1" else "0")
    case Int(i) => Some(DecimalString(i))
    case Str(s) => Some(s)
    case Arr(_) => None
  }
}
