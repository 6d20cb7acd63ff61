/**
 * The post-parse view of an evaluation service reply: JSON values as the
 * pages see them, JavaScript truthiness, `String(x)` coercion, the `x || d`
 * and destructuring-default idioms, and the rule that a string `reply` field
 * parses to an empty object.
 */
module Json {
  import opened Base

  /** A JSON value; a key missing from an object plays the role of `undefined`. */
  datatype Value =
    | Null
    | Bool(b: bool)
    | Num(n: int)
    | Str(s: string)
    | Arr(items: seq<Value>)
    | Obj(fields: map<string, Value>)

  type Object = map<string, Value>

  /** The outcome of one request to the evaluation service. */
  datatype Reply = Failed | Replied(body: Object)

  function Get(o: Object, key: string): Option<Value>
  {
    if key in o then Some(o[key]) else None
  }

  /** JavaScript truthiness of a present value: null, false, 0 and "" are falsy. */
  predicate Truthy(v: Value)
  {
    match v
    case Null => false
    case Bool(b) => b
    case Num(n) => n != 0
    case Str(s) => s != ""
    case _ => true
  }

  /** `o.key || d`: the field when it is present and truthy, otherwise d. */
  function Or(field: Option<Value>, d: Value): (v: Value)
    ensures field.Some? && Truthy(field.value) ==> v == field.value
    ensures field.None? || !Truthy(field.value) ==> v == d
    ensures Truthy(v) || v == d
    ensures Truthy(d) ==> Truthy(v)
  {
    if field.Some? && Truthy(field.value) then field.value else d
  }

  /** `const { key = d } = o`: the default applies only when the key is absent. */
  function WithDefault(field: Option<Value>, d: Value): (v: Value)
    ensures field.Some? ==> v == field.value
    ensures field.None? ==> v == d
  {
    if field.Some? then field.value else d
  }

  /**
   * The two default idioms differ exactly on a present falsy field that is
   * not itself the default: `||` replaces it, destructuring keeps it.
   */
  lemma OrAgreesWithDefault(field: Option<Value>, d: Value)
    ensures Or(field, d) == WithDefault(field, d) <==> field.None? || Truthy(field.value) || field.value == d
    ensures Or(field, d) != WithDefault(field, d) ==> !Truthy(WithDefault(field, d))
  {
  }

  function DigitChar(d: nat): char
    requires d < 10
  {
    ['0', '1', '2', '3', '4', '5', '6', '7', '8', '9'][d]
  }

  /** The decimal numeral of n, without leading zeros. */
  function NatToDecimal(n: nat): (s: string)
    ensures |s| > 0
    ensures IsDigits(s)
    ensures n > 0 ==> s[0] != '0'
    decreases n
  {
    if n < 10 then [DigitChar(n)] else NatToDecimal(n / 10) + [DigitChar(n % 10)]
  }

  function IntToDecimal(n: int): string
  {
    if n < 0 then "-" + NatToDecimal(-n) else NatToDecimal(n)
  }

  predicate IsDigits(s: string)
  {
    forall i :: 0 <= i < |s| ==> '0' <= s[i] <= '9'
  }

  /** A non-empty run of digits, optionally after a minus sign. */
  predicate IsNumeral(s: string)
  {
    || (|s| > 0 && IsDigits(s))
    || (|s| > 1 && s[0] == '-' && IsDigits(s[1..]))
  }

  /** The value of a digit string, read left to right. */
  function DecimalValue(s: string): nat
    requires IsDigits(s)
  {
    if |s| == 0 then 0 else DecimalValue(s[..|s| - 1]) * 10 + (s[|s| - 1] as int - '0' as int)
  }

  /** The integer a numeral denotes. */
  function NumeralValue(s: string): int
    requires IsNumeral(s)
  {
    if s[0] == '-' then 0 - DecimalValue(s[1..]) else DecimalValue(s)
  }

  lemma DigitCharValue(d: nat)
    requires d < 10
    ensures DigitChar(d) as int - '0' as int == d
  {
  }

  /** Reading back the numeral of n gives n. */
  lemma {:induction false} DecimalRoundTrip(n: nat)
    ensures DecimalValue(NatToDecimal(n)) == n
    decreases n
  {
    var s := NatToDecimal(n);
    if n < 10 {
      DigitCharValue(n);
      assert s[..0] == [];
    } else {
      var front := NatToDecimal(n / 10);
      assert s == front + [DigitChar(n % 10)];
      assert s[..|s| - 1] == front;
      DecimalRoundTrip(n / 10);
      DigitCharValue(n % 10);
    }
  }

  /**
   * `String(v)`; arrays join their elements with commas, writing null as "".
   * A number becomes a numeral that reads back as the same integer.
   */
  function ToString(v: Value): (text: string)
    ensures v.Str? ==> text == v.s
    ensures v.Null? ==> text == "null"
    ensures v.Bool? ==> (text == "true" <==> v.b) && (text == "false" <==> !v.b)
    ensures v.Num? ==> IsNumeral(text) && NumeralValue(text) == v.n
    ensures v.Num? && v.n != 0 ==> text[0] != '0'
    ensures v.Obj? ==> text == "[object Object]"
    decreases v
  {
    match v
    case Null => "null"
    case Bool(b) => if b then "true" else "false"
    case Num(n) =>
      var text := IntToDecimal(n);
      DecimalRoundTrip(if n < 0 then -n else n);
      assert n < 0 ==> text[1..] == NatToDecimal(-n);
      text
    case Str(s) => s
    case Arr(items) => JoinWithCommas(items, v)
    case Obj(_) => "[object Object]"
  }

  function JoinWithCommas(items: seq<Value>, ghost whole: Value): string
    requires forall i :: 0 <= i < |items| ==> items[i] < whole
    decreases whole, |items|
  {
    if |items| == 0 then ""
    else
      var last := items[|items| - 1];
      var text := if last.Null? then "" else ToString(last);
      if |items| == 1 then text else JoinWithCommas(items[..|items| - 1], whole) + "," + text
  }

  /**
   * The reply-unwrapping step: when `reply` is a string, `reply.content` is
   * undefined, so the text parsed is '{}' and every field is missing;
   * otherwise the response object itself is used.
   */
  function Unwrap(response: Object): (parsed: Object)
    ensures "reply" in response && response["reply"].Str? ==> parsed == map[]
    ensures !("reply" in response && response["reply"].Str?) ==> parsed == response
    ensures !("reply" in parsed && parsed["reply"].Str?)
    ensures forall k :: k in parsed ==> k in response && parsed[k] == response[k]
  {
    if "reply" in response && response["reply"].Str? then map[] else response
  }

  /** Unwrapping twice is unwrapping once. */
  lemma UnwrapIdempotent(response: Object)
    ensures Unwrap(Unwrap(response)) == Unwrap(response)
  {
  }

  /** Coercing a string is the identity. */
  lemma ToStringOfString(s: string)
    ensures ToString(Str(s)) == s
  {
  }
}
