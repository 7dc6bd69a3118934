/** JavaScript values as produced by `JSON.parse`, with the truthiness and string
    conversion rules the source relies on. */
module Json {
  import opened Wrappers

  /** A parsed JSON value. Numbers are integers in this model; JavaScript holds
      them exactly only up to MaxSafeInteger in magnitude. */
  datatype Json =
    | JNull
    | JBool(b: bool)
    | JNumber(n: int)
    | JString(s: string)
    | JArray(elems: seq<Json>)
    | JObject(fields: map<string, Json>)

  /** JavaScript truthiness: `null`, `false`, `0` and `""` are falsy; arrays and
      objects are always truthy, even when empty. */
  predicate Truthy(v: Json) {
    match v
    case JNull => false
    case JBool(b) => b
    case JNumber(n) => n != 0
    case JString(s) => s != ""
    case JArray(_) => true
    case JObject(_) => true
  }

  /** Truthiness of a property read that may yield `undefined` (None). */
  predicate TruthyOpt(o: Option<Json>) {
    o.Some? && Truthy(o.value)
  }

  /** Property access `v.key`: None stands for `undefined` and Failure for the
      TypeError thrown when `v` is `null`. Only objects carry properties here. */
  function Property(v: Json, key: string): (r: Result<Option<Json>, string>)
    ensures r.Failure? <==> v.JNull?
    ensures r.Failure? ==> r.error == "Cannot read properties of null (reading '" + key + "')"
    ensures r.Success? && r.value.Some? ==> v.JObject? && key in v.fields && r.value.value == v.fields[key]
  {
    match v
    case JNull => Failure("Cannot read properties of null (reading '" + key + "')")
    case JObject(m) => Success(if key in m then Some(m[key]) else None)
    case _ => Success(None)
  }

  /** Decimal digits of a natural number, most significant first. */
  function NatToDecimal(n: nat): (r: string)
    ensures |r| > 0
    ensures forall k :: 0 <= k < |r| ==> '0' <= r[k] <= '9'
    ensures n > 0 ==> r[0] != '0'
    ensures |r| > 1 ==> r[0] != '0'
  {
    var d := [('0' as int + n % 10) as char];
    if n < 10 then d else NatToDecimal(n / 10) + d
  }

  /** The value of a decimal string, the inverse of NatToDecimal. */
  function DecimalValue(s: string): int
  {
    if |s| == 0 then 0 else 10 * DecimalValue(s[..|s| - 1]) + (s[|s| - 1] as int - '0' as int)
  }

  lemma {:induction false} DecimalRoundTrip(n: nat)
    ensures DecimalValue(NatToDecimal(n)) == n
  {
    var d := [('0' as int + n % 10) as char];
    if n >= 10 {
      DecimalRoundTrip(n / 10);
      var r := NatToDecimal(n / 10) + d;
      assert r[..|r| - 1] == NatToDecimal(n / 10);
    }
  }

  /** The largest integer a JavaScript number holds exactly, 2^53 - 1. */
  const MaxSafeInteger: int := 0x1F_FFFF_FFFF_FFFF

  /** `String(v)`: the conversion `toString()` applies to a parsed value. A
      number prints as its exact decimal digits, which is what JavaScript prints
      for integers of magnitude at most MaxSafeInteger (beyond that it rounds,
      and from 1e21 on it uses exponent form). Arrays
      join their elements' conversions with "," (null elements become ""), plain
      objects give "[object Object]". */
  function ToJsString(v: Json): (r: string)
    ensures v.JString? ==> r == v.s
  {
    match v
    case JNull => "null"
    case JBool(b) => if b then "true" else "false"
    case JNumber(n) => if n < 0 then "-" + NatToDecimal(-n) else NatToDecimal(n)
    case JString(s) => s
    case JArray(elems) => JoinElements(elems)
    case JObject(_) => "[object Object]"
  }

  /** `Array.prototype.join(",")` over converted elements, null elements as "". */
  function JoinElements(elems: seq<Json>): (r: string)
    decreases elems
  {
    if |elems| == 0 then ""
    else
      var head := if elems[0].JNull? then "" else ToJsString(elems[0]);
      if |elems| == 1 then head else head + "," + JoinElements(elems[1..])
  }

  lemma {:induction false} NumberStringRoundTrip(n: int)
    ensures n >= 0 ==> DecimalValue(ToJsString(JNumber(n))) == n
    ensures n < 0 ==> ToJsString(JNumber(n))[0] == '-' && DecimalValue(ToJsString(JNumber(n))[1..]) == -n
  {
    if n >= 0 {
      DecimalRoundTrip(n);
    } else {
      DecimalRoundTrip(-n);
      assert ToJsString(JNumber(n))[1..] == NatToDecimal(-n);
    }
  }
}
