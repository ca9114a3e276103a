/**
 * The slice of JavaScript values the loader inspects: what `import()` hands back (a module
 * namespace object, or whatever a CommonJS file exported), with property reads,
 * `Object.values` and truthiness.
 */
module JsValues {
  import opened Wrappers
  import opened JsStrings

  datatype Value =
    | Undefined
    | Null
    | Bool(b: bool)
    | Num(n: int)
    /** A function object: whether its `prototype` is an object, and its `toString()` text. */
    | Fn(hasObjectPrototype: bool, source: string)
    | Str(s: string)
    | Arr(items: seq<Value>)
    /** A plain object, its own enumerable properties in enumeration order. */
    | Obj(props: seq<(string, Value)>)

  /** What a JavaScript operation can throw. */
  datatype Thrown =
    | TypeError(reason: string)
    | SystemError(code: string)
    | Raised(value: Value)

  predicate Nullish(v: Value) {
    v.Undefined? || v.Null?
  }

  /** JavaScript truthiness (`NaN` and `-0` are outside the model). */
  predicate Truthy(v: Value) {
    match v
    case Undefined => false
    case Null => false
    case Bool(b) => b
    case Num(n) => n != 0
    case Str(s) => s != ""
    case _ => true
  }

  /** The value of the first property named `key`, or `undefined`. */
  function Lookup(props: seq<(string, Value)>, key: string): (r: Value)
    ensures r != Undefined ==> exists i :: 0 <= i < |props| && props[i] == (key, r)
  {
    if |props| == 0 then Undefined
    else if props[0].0 == key then props[0].1
    else Lookup(props[1..], key)
  }

  /** `v[key]`: throws on `null`/`undefined`; functions, arrays and primitives carry no named data. */
  function Get(v: Value, key: string): (r: Result<Value, Thrown>)
    ensures r.Err? <==> Nullish(v)
    ensures r.Ok? && !v.Obj? ==> r.value == Undefined
  {
    match v
    case Undefined => Err(TypeError("cannot read properties of undefined"))
    case Null => Err(TypeError("cannot read properties of null"))
    case Obj(props) => Ok(Lookup(props, key))
    case _ => Ok(Undefined)
  }

  /** `Object.values(v)`: throws on `null`/`undefined`; a string yields its characters. */
  function Values(v: Value): (r: Result<seq<Value>, Thrown>)
    ensures r.Err? <==> Nullish(v)
    ensures v.Obj? ==> r == Ok(seq(|v.props|, i requires 0 <= i < |v.props| => v.props[i].1))
    ensures v.Arr? ==> r == Ok(v.items)
  {
    match v
    case Undefined => Err(TypeError("cannot convert undefined to object"))
    case Null => Err(TypeError("cannot convert null to object"))
    case Obj(props) => Ok(seq(|props|, i requires 0 <= i < |props| => props[i].1))
    case Arr(items) => Ok(items)
    case Str(s) => Ok(seq(|s|, i requires 0 <= i < |s| => Str([s[i]])))
    case _ => Ok([])
  }

  /** `xs[0]` on a JavaScript array: `undefined` when it is empty. */
  function First(xs: seq<Value>): Value {
    if |xs| == 0 then Undefined else xs[0]
  }

  /** `a || b`. */
  function Or(a: Value, b: Value): (r: Value)
    ensures Truthy(a) ==> r == a
    ensures !Truthy(a) ==> r == b
  {
    if Truthy(a) then a else b
  }

  /** The decimal digits of `n`. */
  function DecimalString(n: nat): (r: string)
    ensures |r| >= 1 && forall i :: 0 <= i < |r| ==> IsDigit(r[i])
  {
    var d := ['0' + (n % 10) as char];
    if n < 10 then d else DecimalString(n / 10) + d
  }

  /** `String(v)`, what a template literal `${v}` inserts. */
  function ToText(v: Value): (r: string)
    ensures v.Str? ==> r == v.s
    decreases v
  {
    match v
    case Undefined => "undefined"
    case Null => "null"
    case Bool(b) => if b then "true" else "false"
    case Num(n) => if n < 0 then "-" + DecimalString(-n) else DecimalString(n)
    case Fn(_, source) => source
    case Str(s) => s
    case Arr(items) => ItemsText(items)
    case Obj(_) => "[object Object]"
  }

  /** `items.join(",")`, where `null` and `undefined` give empty text. */
  function ItemsText(items: seq<Value>): string
    decreases items
  {
    if |items| == 0 then ""
    else
      var head := if Nullish(items[0]) then "" else ToText(items[0]);
      if |items| == 1 then head else head + "," + ItemsText(items[1..])
  }
}
