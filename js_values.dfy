/**
 * The untyped (`any`) values the frontend reads from the gateway: task results,
 * inquiry payloads, message contents and the session result record.
 * Numbers are integers here; floating point, NaN and prototype chains are not modelled.
 */
module JsValues {

  datatype JsValue =
    | JUndefined
    | JNull
    | JBool(b: bool)
    | JNum(n: int)
    | JStr(s: string)
    | JArr(items: seq<JsValue>)
    | JObj(fields: map<string, JsValue>)

  /** JavaScript truthiness: undefined, null, false, 0 and "" are falsy; every array and object is truthy. */
  predicate Truthy(v: JsValue) {
    match v
    case JUndefined => false
    case JNull => false
    case JBool(b) => b
    case JNum(n) => n != 0
    case JStr(s) => s != ""
    case JArr(_) => true
    case JObj(_) => true
  }

  /** `typeof v === 'object'`, which holds for null as well as arrays and objects. */
  predicate IsTypeofObject(v: JsValue) {
    v.JNull? || v.JArr? || v.JObj?
  }

  /** `a || b`: the left operand when it is truthy, otherwise the right one. */
  function Or(a: JsValue, b: JsValue): (r: JsValue)
    ensures Truthy(r) <==> Truthy(a) || Truthy(b)
    ensures Truthy(a) ==> r == a
  {
    if Truthy(a) then a else b
  }

  /** Property read `v.key` on a value that is not null: only plain objects carry the named fields used here. */
  function Get(v: JsValue, key: string): (r: JsValue)
    ensures r != JUndefined ==> v.JObj? && key in v.fields && r == v.fields[key]
  {
    match v
    case JObj(m) => if key in m then m[key] else JUndefined
    case _ => JUndefined
  }

  /** `Object.keys(v).length` for a non-null value: own fields, array indices or string indices. */
  function OwnKeyCount(v: JsValue): nat {
    match v
    case JObj(m) => |m|
    case JArr(items) => |items|
    case JStr(s) => |s|
    case _ => 0
  }

  /** The decimal digit for `d < 10`. */
  function DigitChar(d: nat): (c: char)
    requires d < 10
    ensures '0' <= c <= '9'
  {
    (('0' as int) + d) as char
  }

  /** Decimal digits of a natural number, most significant first. */
  function NatToDecimal(n: nat): (r: string)
    ensures |r| > 0 && (|r| == 1 <==> n < 10)
    ensures r[|r| - 1] == DigitChar(n % 10)
    ensures '0' <= r[0] <= '9'
    decreases n
  {
    if n < 10 then [DigitChar(n)] else NatToDecimal(n / 10) + [DigitChar(n % 10)]
  }

  /** `String(n)` / `n.toString()` for an integer. */
  function IntToString(n: int): (r: string)
    ensures |r| > 0
    ensures r[0] == '-' <==> n < 0
  {
    if n < 0 then "-" + NatToDecimal(-n) else NatToDecimal(n)
  }

  /** Distinct naturals have distinct decimal representations. */
  lemma {:induction false} NatToDecimalInjective(a: nat, b: nat)
    requires NatToDecimal(a) == NatToDecimal(b)
    ensures a == b
    decreases a
  {
    var da := NatToDecimal(a);
    assert DigitChar(a % 10) == DigitChar(b % 10);
    if a >= 10 {
      assert da == NatToDecimal(a / 10) + [DigitChar(a % 10)];
      assert NatToDecimal(b) == NatToDecimal(b / 10) + [DigitChar(b % 10)];
      assert NatToDecimal(a / 10) == da[..|da| - 1] == NatToDecimal(b / 10);
      NatToDecimalInjective(a / 10, b / 10);
    }
  }

  /** `String` is injective on integers, so an id can be recovered from its text. */
  lemma IntToStringInjective(a: int, b: int)
    requires IntToString(a) == IntToString(b)
    ensures a == b
  {
    if a < 0 {
      assert IntToString(a)[1..] == NatToDecimal(-a);
      assert IntToString(b)[1..] == NatToDecimal(-b);
      NatToDecimalInjective(-a, -b);
    } else {
      NatToDecimalInjective(a, b);
    }
  }

  /**
   * `String(v)`, also what a template literal `${v}` inserts: a string is itself,
   * a plain object is "[object Object]", an array joins its elements with ","
   * (null and undefined elements become "").
   */
  function ToJsString(v: JsValue): (r: string)
    ensures v.JStr? ==> r == v.s
    decreases v, if v.JArr? then |v.items| + 1 else 0
  {
    match v
    case JUndefined => "undefined"
    case JNull => "null"
    case JBool(b) => if b then "true" else "false"
    case JNum(n) => IntToString(n)
    case JStr(s) => s
    case JArr(items) => JoinItems(items, 0)
    case JObj(_) => "[object Object]"
  }

  /** `items.slice(i).join(",")`, the helper of ToJsString for arrays. */
  function JoinItems(items: seq<JsValue>, i: nat): string
    requires i <= |items|
    decreases JArr(items), |items| - i
  {
    if i == |items| then ""
    else
      var here := if items[i].JNull? || items[i].JUndefined? then "" else ToJsString(items[i]);
      if i + 1 == |items| then here else here + "," + JoinItems(items, i + 1)
  }
}
