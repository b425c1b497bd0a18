/**
 JSON-like values as the JavaScript code sees them: parsed request bodies,
 records read back from the JSON files, and the objects built by spreading.
 */
module Json {
  import opened Wrappers
  import Text

  /** A JavaScript value that can occur in a parsed JSON document or a request
      body. Numbers are integers in this model; fractions are not values. */
  datatype Value =
    | Undefined
    | Null
    | Bool(b: bool)
    | Num(n: int)
    | Str(s: string)
    | Arr(items: seq<Value>)
    | Obj(fields: map<string, Value>)

  /** A plain object; `{...a, ...b}` is the map union `a + b`. */
  type Object = map<string, Value>

  /** Property read `o.k`: a key that is not present reads as `undefined`. */
  function Get(o: Object, k: string): Value {
    if k in o then o[k] else Undefined
  }

  /** JavaScript truthiness, as used by `!x`, `x || y` and `if (x)`. */
  predicate Truthy(v: Value) {
    match v
    case Undefined => false
    case Null => false
    case Bool(b) => b
    case Num(n) => n != 0
    case Str(s) => s != ""
    case Arr(_) => true
    case Obj(_) => true
  }

  /** `v === undefined || v === null`. */
  predicate IsNullish(v: Value) {
    v.Undefined? || v.Null?
  }

  /** Strict equality `a === b`. Arrays and objects compare by reference, and
      values that come from separate parses never share a reference, so two
      of them are never strictly equal. */
  predicate StrictEquals(a: Value, b: Value) {
    !a.Arr? && !a.Obj? && a == b
  }

  /** `x || d`: the value itself when truthy, else the fallback. */
  function OrElse(x: Value, d: Value): Value {
    if Truthy(x) then x else d
  }

  /** `parseInt(v, 10)` (hexPrefix false) or `parseInt(v)` (hexPrefix true) on
      an arbitrary value, which JavaScript first converts to a string. None is NaN.
      `String(true)`, `"null"`, `"undefined"` and `"[object Object]"` hold no
      leading digits. An array is rendered as its elements joined by commas; a
      comma is neither a digit nor white space, so the digits parseInt reads all
      come from the first element (nullish elements render as ""). */
  function ParseIntValue(v: Value, hexPrefix: bool): Option<int> {
    match v
    case Num(n) => Text.ParseInt(Text.NumberToString(n), hexPrefix)
    case Str(s) => Text.ParseInt(s, hexPrefix)
    case Arr(xs) =>
      if |xs| == 0 || IsNullish(xs[0]) then None else ParseIntValue(xs[0], hexPrefix)
    case _ => None
  }

  /** A number is parsed back to itself below 10^21 in magnitude, and to its
      leading digit with its sign from there on, where String writes it in
      exponent form; so is an array whose first element is that number. */
  lemma ParseIntValueOfNumber(n: int, rest: seq<Value>, hexPrefix: bool)
    ensures ParseIntValue(Num(n), hexPrefix) == Some(Text.ReadBackNumber(n))
    ensures ParseIntValue(Arr([Num(n)] + rest), hexPrefix) == Some(Text.ReadBackNumber(n))
    ensures -Text.ExponentFrom < n < Text.ExponentFrom ==> ParseIntValue(Num(n), hexPrefix) == Some(n)
  {
    Text.ParseIntOfNumberToString(n, hexPrefix);
  }
}
