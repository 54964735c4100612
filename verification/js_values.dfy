/** The JavaScript values that the merge utilities inspect. */
module JsValues {
  import opened Objects

  /** Numbers are modelled as reals; `NaN` is not represented. */
  datatype JsValue =
    | Undefined
    | Null
    | Bool(b: bool)
    | Num(n: real)
    | Str(s: string)
    | Arr(items: seq<JsValue>)
    | Obj(props: Entries<JsValue>)

  /** JavaScript truthiness. */
  predicate Truthy(v: JsValue) {
    match v
    case Undefined => false
    case Null => false
    case Bool(b) => b
    case Num(n) => n != 0.0
    case Str(s) => s != ""
    case Arr(_) => true
    case Obj(_) => true
  }

  /** `typeof v === "object"`, which also holds for `null` and arrays. */
  predicate TypeofObject(v: JsValue) {
    v.Null? || v.Arr? || v.Obj?
  }

  /** Every object inside `p`, at any depth, has each key once: the shape of
      any object a program can build. */
  predicate PropsWellFormed(p: Entries<JsValue>) {
    match p
    case Empty => true
    case Entry(k, v, rest) =>
      && k !in Keys(rest)
      && (v.Obj? ==> PropsWellFormed(v.props))
      && PropsWellFormed(rest)
  }
}

/** `Is.object` (src/utils/is.ts). */
module Is {
  import opened JsValues

  /** `item && typeof item === "object" && !Array.isArray(item)`.  The `&&`
      chain returns `item` itself when it is falsy, and a boolean otherwise. */
  function Object(item: JsValue): (r: JsValue)
    ensures Truthy(r) <==> item.Obj?
    ensures !Truthy(item) ==> r == item
    ensures item.Obj? ==> r == Bool(true)
    ensures item.Arr? || (item.Str? && item.s != "") || (item.Num? && item.n != 0.0) || item == Bool(true)
            ==> r == Bool(false)
  {
    if !Truthy(item) then item
    else Bool(TypeofObject(item) && !item.Arr?)
  }
}
