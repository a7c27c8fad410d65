/**
 * The slice of JavaScript (V8) semantics the binding relies on: the values a script can
 * pass in, the test `IsFunction`, and the integer conversions `Int32Value` and
 * `Uint32Value` that the binding applies to handler results and to call arguments.
 */
module JsValues {

  import opened Wrappers

  /** An octet. */
  newtype Byte = b: int | 0 <= b < 0x100

  /** The contents of a Node `Buffer`. */
  type Bytes = seq<Byte>

  const TWO_32: int := 0x1_0000_0000
  const TWO_31: int := 0x8000_0000

  predicate IsInt32(n: int) { -TWO_31 <= n < TWO_31 }

  /**
   * A JavaScript value. Numbers carry an integer; `props` of an object lists every property
   * reachable by a property read on it (its own and its prototypes'); a function is an
   * object that is callable.
   */
  datatype JsValue =
    | Undefined
    | Null
    | Boolean(b: bool)
    | Number(n: int)
    | Object(id: nat, props: map<string, JsValue>, callable: bool)

  predicate IsObject(v: JsValue) { v.Object? }

  predicate IsFunction(v: JsValue) { v.Object? && v.callable }

  /** ECMAScript ToUint32 on an integer: the residue modulo 2^32. */
  function ToUint32(n: int): (r: nat)
    ensures r < TWO_32
    ensures (n - r) % TWO_32 == 0
  {
    n % TWO_32
  }

  /** ECMAScript ToInt32 on an integer: the residue modulo 2^32 in [-2^31, 2^31). */
  function ToInt32(n: int): (r: int)
    ensures IsInt32(r)
    ensures (n - r) % TWO_32 == 0
  {
    var m := n % TWO_32;
    if m >= TWO_31 then m - TWO_32 else m
  }

  /** The number a value converts to, or None when it converts to NaN. */
  function ToIntegerOrNaN(v: JsValue): Option<int>
  {
    match v
    case Undefined => None
    case Null => Some(0)
    case Boolean(b) => Some(if b then 1 else 0)
    case Number(n) => Some(n)
    case Object(_, _, _) => None
  }

  /** `Value::Int32Value()`: NaN becomes 0, every other number goes through ToInt32. */
  function Int32Value(v: JsValue): (r: int)
    ensures IsInt32(r)
    ensures ToIntegerOrNaN(v).None? ==> r == 0
    ensures v.Number? ==> r == ToInt32(v.n)
  {
    match ToIntegerOrNaN(v)
    case None => 0
    case Some(n) => ToInt32(n)
  }

  /** `Value::Uint32Value()`: NaN becomes 0, every other number goes through ToUint32. */
  function Uint32Value(v: JsValue): (r: nat)
    ensures r < TWO_32
    ensures ToIntegerOrNaN(v).None? ==> r == 0
    ensures v.Number? ==> r == ToUint32(v.n)
  {
    match ToIntegerOrNaN(v)
    case None => 0
    case Some(n) => ToUint32(n)
  }
}
