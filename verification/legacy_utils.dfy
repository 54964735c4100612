/** `isObject` and `mergeObjects` of the earlier version (src/utils.ts).

    `mergeObjects` writes into its target; the functions below return the
    target's final state.  Objects reach the target only through the
    `Object.assign(target, { [key]: {} })` branch, which stores a fresh `{}`,
    so no source is ever written to, provided the caller's target shares no
    object with the sources; shared objects are not modelled. */
module LegacyUtils {
  import opened Outcomes
  import opened Objects
  import opened JsValues
  import Is
  import Merge

  /** `value && typeof value === "object" && !Array.isArray(value)`: the
      falsy value itself, or a boolean. */
  function IsObject(value: JsValue): (r: JsValue)
    ensures Truthy(r) <==> value.Obj?
    ensures !Truthy(value) ==> r == value
    ensures Truthy(value) ==> r.Bool?
  {
    if !Truthy(value) then value
    else Bool(TypeofObject(value) && !value.Arr?)
  }

  /** The earlier `isObject` and the later `Is.object` are the same test. */
  lemma IsObjectAgrees(value: JsValue)
    ensures IsObject(value) == Is.Object(value)
  {
  }

  /** One turn of the `for (const key in source)` loop: an object value is
      merged into `target[key]`, which is first set to `{}` when it is falsy;
      any other value overwrites. */
  function AssignKey(target: Entries<JsValue>, key: string, value: JsValue): (r: Entries<JsValue>)
    decreases value, 1
    ensures forall j :: j != key ==> Get(r, j) == Get(target, j)
  {
    if Truthy(IsObject(value)) then
      var current := Get(target, key);
      var prepared := if current.None? || !Truthy(current.value) then Set(target, key, Obj(Empty)) else target;
      var slot := Get(prepared, key).value;
      if Truthy(IsObject(slot)) then Set(prepared, key, Obj(MergeProps(slot.props, value.props)))
      else prepared
    else
      Set(target, key, value)
  }

  /** The loop over every key of `source`, in order. */
  function MergeProps(target: Entries<JsValue>, source: Entries<JsValue>): Entries<JsValue>
    decreases source, 0
  {
    match source
    case Empty => target
    case Entry(k, v, rest) => MergeProps(AssignKey(target, k, v), rest)
  }

  /** `mergeObjects(target, ...sources)`: the sources are merged in turn; a
      source or target that is not an object is skipped. */
  function MergeObjects(target: JsValue, sources: seq<JsValue>): (r: JsValue)
    decreases |sources|
    ensures target.Obj? ==> r.Obj?
    ensures !target.Obj? ==> r == target
    ensures r == Merge.Deep(target, sources)
  {
    if |sources| == 0 then target
    else
      var source := sources[0];
      var next := if Truthy(IsObject(target)) && Truthy(IsObject(source))
                  then Obj(MergeProps(target.props, source.props))
                  else target;
      if target.Obj? && source.Obj? then
        MergePropsAgrees(target.props, source.props);
        MergeObjects(next, sources[1..])
      else
        MergeObjects(next, sources[1..])
  }

  /** Setting a key twice keeps the second value. */
  lemma {:induction false} SetTwice(e: Entries<JsValue>, k: string, a: JsValue, b: JsValue)
    ensures Set(Set(e, k, a), k, b) == Set(e, k, b)
    decreases e
  {
    match e
    case Empty =>
    case Entry(j, v, rest) =>
      if j != k {
        SetTwice(rest, k, a, b);
      }
  }

  /** The earlier merge loop is the later `Merge.deep` loop. */
  lemma {:induction false} MergePropsAgrees(target: Entries<JsValue>, source: Entries<JsValue>)
    ensures MergeProps(target, source) == Merge.MergeProps(target, source)
    decreases source, 1
  {
    match source
    case Empty =>
    case Entry(k, v, rest) =>
      AssignKeyAgrees(target, k, v);
      MergePropsAgrees(AssignKey(target, k, v), rest);
  }

  lemma {:induction false} AssignKeyAgrees(target: Entries<JsValue>, key: string, value: JsValue)
    ensures AssignKey(target, key, value) == Merge.MergeKey(target, key, value)
    decreases value, 2
  {
    if value.Obj? {
      var current := Get(target, key);
      if current.None? || !Truthy(current.value) {
        MergePropsAgrees(Empty, value.props);
        SetTwice(target, key, Obj(Empty), Obj(MergeProps(Empty, value.props)));
      } else if current.value.Obj? {
        MergePropsAgrees(current.value.props, value.props);
      }
    }
  }
}
