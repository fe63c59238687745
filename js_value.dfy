/** The JavaScript values the force-directed view handles as node ids, node
    groups and link endpoints, and the `intern` helper that unwraps objects. */
module Js {

  /** A primitive JavaScript value. Numbers are modelled as reals, so NaN and
      the signed zeros are not represented. */
  datatype Scalar = Null | Undefined | Bool(b: bool) | Num(n: real) | Str(s: string)

  /** The primitives that have wrapper objects (`new Boolean(b)`,
      `new Number(n)`, `new String(s)`); `null` and `undefined` have none. */
  datatype Wrapped = WrappedBool(b: bool) | WrappedNum(n: real) | WrappedStr(s: string)

  /** The primitive a wrapper object holds, which its `valueOf()` returns. */
  function Unwrap(w: Wrapped): (p: Scalar)
    ensures !p.Null? && !p.Undefined?
  {
    match w
    case WrappedBool(b) => Bool(b)
    case WrappedNum(n) => Num(n)
    case WrappedStr(s) => Str(s)
  }

  /** A value as an accessor may return it: a primitive, a wrapper object
      around a primitive, or any other object, identified by a reference,
      whose `valueOf()` is the object itself. */
  datatype JsValue = Prim(p: Scalar) | Boxed(boxed: Wrapped) | Object(ref: nat)

  /** `typeof value === "object"` and `value !== null`. */
  predicate IsObject(v: JsValue)
  {
    !v.Prim?
  }

  /** `intern`: objects are replaced by their `valueOf()`, everything else
      is returned unchanged. */
  function Intern(v: JsValue): (r: JsValue)
    ensures !IsObject(v) ==> r == v
    ensures v.Boxed? ==> r == Prim(Unwrap(v.boxed))
    ensures v.Object? ==> r == v
    ensures !r.Boxed?
  {
    if IsObject(v) then
      match v
      case Boxed(w) => Prim(Unwrap(w))
      case _ => v
    else v
  }

  /** The value of a string-valued accessor such as `d => d.id`. */
  function StrValue(s: string): (r: JsValue)
    ensures Intern(r) == r && r.Prim? && r.p.Str? && r.p.s == s
  {
    Prim(Str(s))
  }
}
