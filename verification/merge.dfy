/** `Merge.create`, `Merge.map`, `Merge.deep` and `Merge.shallow`
    (src/utils/merge.ts).

    `deep` mutates its target.  `Merge.create` always hands it a fresh `{}`
    and every nested object it stores there is another fresh `{}`, so no input
    is ever written to; the functions below return the target's final state.
    A caller of `deep` with a target of its own is taken to share no object
    between that target and the sources: shared objects are not modelled.
 */
module Merge {
  import opened Outcomes
  import opened Objects
  import opened JsValues
  import Is

  /** The test `Is.object(v)` used as a condition. */
  predicate IsObject(v: JsValue)
    ensures IsObject(v) <==> v.Obj?
  {
    Truthy(Is.Object(v))
  }

  /** One turn of the `for (const key in source)` loop of `deep`: an object
      value is merged into a fresh `{}` when the target's value is falsy, into
      the target's value when that is an object, and not at all when it is a
      truthy non-object; any other value simply overwrites. */
  function MergeKey(target: Entries<JsValue>, key: string, value: JsValue): (r: Entries<JsValue>)
    decreases value
    ensures forall j :: j != key ==> Get(r, j) == Get(target, j)
    ensures Keys(r) == if key in Keys(target) then Keys(target) else Keys(target) + [key]
    ensures !value.Obj? ==> Get(r, key) == Some(value)
    ensures value.Obj? && (Get(target, key).None? || !Truthy(Get(target, key).value))
            ==> Get(r, key) == Some(Obj(MergeProps(Empty, value.props)))
    ensures value.Obj? && Get(target, key).Some? && Get(target, key).value.Obj?
            ==> Get(r, key) == Some(Obj(MergeProps(Get(target, key).value.props, value.props)))
    ensures value.Obj? && Get(target, key).Some? && Truthy(Get(target, key).value) && !Get(target, key).value.Obj?
            ==> r == target
  {
    if IsObject(value) then
      var current := Get(target, key);
      if current.None? || !Truthy(current.value) then
        Set(target, key, Obj(MergeProps(Empty, value.props)))
      else if IsObject(current.value) then
        Set(target, key, Obj(MergeProps(current.value.props, value.props)))
      else
        target
    else
      Set(target, key, value)
  }

  /** The loop of `deep(target, source)` over all keys of `source`, in order. */
  function MergeProps(target: Entries<JsValue>, source: Entries<JsValue>): (r: Entries<JsValue>)
    decreases source
    ensures forall k :: k in Keys(r) <==> k in Keys(target) || k in Keys(source)
    ensures forall k :: k !in Keys(source) ==> Get(r, k) == Get(target, k)
  {
    match source
    case Empty => target
    case Entry(k, v, rest) => MergeProps(MergeKey(target, k, v), rest)
  }

  /** `deep(target, ...sources)`: each source is merged in turn, and one that
      is not an object (or a target that is not) is skipped. */
  function Deep(target: JsValue, sources: seq<JsValue>): (r: JsValue)
    decreases |sources|
    ensures target.Obj? ==> r.Obj?
    ensures !target.Obj? ==> r == target
  {
    if |sources| == 0 then target
    else
      var source := sources[0];
      var next := if IsObject(target) && IsObject(source) then Obj(MergeProps(target.props, source.props)) else target;
      Deep(next, sources[1..])
  }

  /** Some object among `sources` has the property `k`. */
  predicate SomeSourceHas(sources: seq<JsValue>, k: string)
    decreases |sources|
  {
    |sources| > 0 && ((sources[0].Obj? && k in Keys(sources[0].props)) || SomeSourceHas(sources[1..], k))
  }

  /** The state `shallow(target, ...sources)` (`Object.assign`) leaves
      `target` in.  Only object sources are copied; `null`, `undefined`,
      numbers and booleans contribute nothing, and the index properties of
      strings and arrays are not modelled. */
  function Shallow(target: Entries<JsValue>, sources: seq<JsValue>): (r: Entries<JsValue>)
    decreases |sources|
    ensures forall k :: k in Keys(r) <==> k in Keys(target) || SomeSourceHas(sources, k)
  {
    if |sources| == 0 then target
    else Shallow(if sources[0].Obj? then Assign(target, sources[0].props) else target, sources[1..])
  }

  /** A shallow merge lets a later object's top-level key overwrite an
      earlier one, whole values and all. */
  lemma ShallowLaterWins(x: Entries<JsValue>, y: Entries<JsValue>, k: string)
    requires DistinctKeys(x) && DistinctKeys(y)
    ensures Get(Shallow(Empty, [Obj(x), Obj(y)]), k) == if k in Keys(y) then Get(y, k) else Get(x, k)
  {
    assert Shallow(Empty, [Obj(x), Obj(y)]) == Shallow(Assign(Empty, x), [Obj(y)]);
    assert Shallow(Assign(Empty, x), [Obj(y)]) == Assign(Assign(Empty, x), y);
  }

  /** `Merge.create(list, { deep })`: throws unless `list` is an array of
      objects; a deep merge folds the list into a fresh `{}`, while a shallow
      one returns `undefined`, because `shallow` has no return statement. */
  function Create(list: JsValue, deep: bool): (r: Outcome<JsValue>)
    ensures r.Thrown? <==> !list.Arr? || exists i :: 0 <= i < |list.items| && !list.items[i].Obj?
    ensures r.Thrown? ==> r.error == UnsupportedMerge
    ensures r.Ok? && !deep ==> r.value == Undefined
    ensures r.Ok? && deep ==> r.value.Obj?
    ensures list == Arr([]) && deep ==> r == Ok(Obj(Empty))
  {
    if list.Arr? && forall i :: 0 <= i < |list.items| ==> IsObject(list.items[i]) then
      if deep then Ok(Deep(Obj(Empty), list.items)) else Ok(Undefined)
    else
      Thrown(UnsupportedMerge)
  }

  /** `Merge.map(list, fn, { deep })` is `create(list.map(fn), { deep })`. */
  function Map<T>(list: seq<T>, fn: T -> JsValue, deep: bool): (r: Outcome<JsValue>)
    ensures r.Thrown? <==> exists i :: 0 <= i < |list| && !fn(list[i]).Obj?
    ensures r.Ok? && deep ==> r.value == Deep(Obj(Empty), seq(|list|, i requires 0 <= i < |list| => fn(list[i])))
    ensures r.Ok? && !deep ==> r.value == Undefined
  {
    var mapped := seq(|list|, i requires 0 <= i < |list| => fn(list[i]));
    assert forall i :: 0 <= i < |list| ==> mapped[i] == fn(list[i]);
    Create(Arr(mapped), deep)
  }

  // ---------------------------------------------------------------------------
  // Properties of the deep merge

  /** After merging `s` into `t`, a key of `s` holds what merging `s`'s value
      alone into `t` would put there: keys are merged independently. */
  lemma {:induction false} MergePropsAt(t: Entries<JsValue>, s: Entries<JsValue>, k: string)
    requires DistinctKeys(s)
    requires k in Keys(s)
    ensures Get(MergeProps(t, s), k) == Get(MergeKey(t, k, Get(s, k).value), k)
    decreases s
  {
    match s
    case Entry(k', v, rest) =>
      var t' := MergeKey(t, k', v);
      if k' == k {
        assert k !in Keys(rest);
      } else {
        MergePropsAt(t', rest, k);
        assert Get(t', k) == Get(t, k);
      }
  }

  /** Merging an object whose keys are all new appends its entries unchanged;
      in particular the deep copy `deep({}, p)` equals `p`. */
  lemma {:induction false} MergeFresh(t: Entries<JsValue>, p: Entries<JsValue>)
    requires PropsWellFormed(p)
    requires forall k :: k in Keys(p) ==> k !in Keys(t)
    ensures MergeProps(t, p) == Concat(t, p)
    decreases p
  {
    match p
    case Empty =>
      ConcatEmpty(t);
    case Entry(k, v, rest) =>
      assert k !in Keys(t);
      if v.Obj? {
        MergeFresh(Empty, v.props);
      }
      var t' := MergeKey(t, k, v);
      assert t' == Set(t, k, v);
      SetFresh(t, k, v);
      MergeFresh(t', rest);
      ConcatAssociative(t, Entry(k, v, Empty), rest);
  }

  lemma CopyIsIdentity(p: Entries<JsValue>)
    requires PropsWellFormed(p)
    ensures MergeProps(Empty, p) == p
  {
    MergeFresh(Empty, p);
  }

  lemma {:induction false} SetKeepsWellFormed(t: Entries<JsValue>, k: string, v: JsValue)
    requires PropsWellFormed(t)
    requires v.Obj? ==> PropsWellFormed(v.props)
    ensures PropsWellFormed(Set(t, k, v))
  {
    match t
    case Empty =>
    case Entry(k', v', rest) =>
      if k' != k {
        SetKeepsWellFormed(rest, k, v);
      }
  }

  lemma {:induction false} WellFormedValueAt(t: Entries<JsValue>, k: string)
    requires PropsWellFormed(t)
    requires Get(t, k).Some? && Get(t, k).value.Obj?
    ensures PropsWellFormed(Get(t, k).value.props)
  {
    match t
    case Entry(k', v', rest) =>
      if k' != k {
        WellFormedValueAt(rest, k);
      }
  }

  /** Merging into a well-formed object yields a well-formed object, whatever
      the source. */
  lemma {:induction false} MergeKeepsWellFormed(t: Entries<JsValue>, s: Entries<JsValue>)
    requires PropsWellFormed(t)
    ensures PropsWellFormed(MergeProps(t, s))
    decreases s, 0
  {
    match s
    case Empty =>
    case Entry(k, v, rest) =>
      MergeKeyKeepsWellFormed(t, k, v);
      MergeKeepsWellFormed(MergeKey(t, k, v), rest);
  }

  lemma {:induction false} MergeKeyKeepsWellFormed(t: Entries<JsValue>, k: string, v: JsValue)
    requires PropsWellFormed(t)
    ensures PropsWellFormed(MergeKey(t, k, v))
    decreases v, 1
  {
    if v.Obj? {
      var current := Get(t, k);
      if current.None? || !Truthy(current.value) {
        MergeKeepsWellFormed(Empty, v.props);
        SetKeepsWellFormed(t, k, Obj(MergeProps(Empty, v.props)));
      } else if current.value.Obj? {
        WellFormedValueAt(t, k);
        MergeKeepsWellFormed(current.value.props, v.props);
        SetKeepsWellFormed(t, k, Obj(MergeProps(current.value.props, v.props)));
      }
    } else {
      SetKeepsWellFormed(t, k, v);
    }
  }

  /** The deep merge of two objects, key by key: object values are combined
      recursively, a later non-object value overwrites, a truthy non-object
      value already present blocks a later object, and an object arriving at
      a missing or falsy key is copied in unchanged. */
  lemma DeepMergePair(x: Entries<JsValue>, y: Entries<JsValue>, k: string)
    requires PropsWellFormed(x) && PropsWellFormed(y)
    ensures Create(Arr([Obj(x), Obj(y)]), true) == Ok(Obj(MergeProps(x, y)))
    ensures k !in Keys(y) ==> Get(MergeProps(x, y), k) == Get(x, k)
    ensures Get(y, k).Some? && !Get(y, k).value.Obj? ==> Get(MergeProps(x, y), k) == Get(y, k)
    ensures Get(y, k).Some? && Get(y, k).value.Obj? && Get(x, k).Some? && Get(x, k).value.Obj?
            ==> Get(MergeProps(x, y), k) == Some(Obj(MergeProps(Get(x, k).value.props, Get(y, k).value.props)))
    ensures Get(y, k).Some? && Get(y, k).value.Obj? && Get(x, k).Some? && Truthy(Get(x, k).value) && !Get(x, k).value.Obj?
            ==> Get(MergeProps(x, y), k) == Get(x, k)
    ensures Get(y, k).Some? && Get(y, k).value.Obj? && (Get(x, k).None? || !Truthy(Get(x, k).value))
            ==> Get(MergeProps(x, y), k) == Get(y, k)
  {
    CopyIsIdentity(x);
    assert Deep(Obj(Empty), [Obj(x), Obj(y)]) == Deep(Obj(x), [Obj(y)]);
    assert Deep(Obj(x), [Obj(y)]) == Deep(Obj(MergeProps(x, y)), []);
    if Get(y, k).Some? {
      assert PropsWellFormed(y) ==> DistinctKeys(y) by { WellFormedDistinct(y); }
      MergePropsAt(x, y, k);
      if Get(y, k).value.Obj? {
        WellFormedValueAt(y, k);
        CopyIsIdentity(Get(y, k).value.props);
      }
    }
  }

  lemma {:induction false} WellFormedDistinct(p: Entries<JsValue>)
    requires PropsWellFormed(p)
    ensures DistinctKeys(p)
  {
    match p
    case Empty =>
    case Entry(k, v, rest) =>
      WellFormedDistinct(rest);
  }

  /** `create([{a: {b: 1}}, {a: {c: 2}}], { deep: true })` is `{a: {b: 1, c: 2}}`;
      without `deep` it is `undefined`. */
  lemma NestedObjectsCombine()
    ensures Create(Arr([Obj(Entry("a", Obj(Entry("b", Num(1.0), Empty)), Empty)),
                        Obj(Entry("a", Obj(Entry("c", Num(2.0), Empty)), Empty))]), true)
            == Ok(Obj(Entry("a", Obj(Entry("b", Num(1.0), Entry("c", Num(2.0), Empty))), Empty)))
    ensures Create(Arr([Obj(Entry("a", Obj(Entry("b", Num(1.0), Empty)), Empty)),
                        Obj(Entry("a", Obj(Entry("c", Num(2.0), Empty)), Empty))]), false)
            == Ok(Undefined)
  {
    var x := Entry("a", Obj(Entry("b", Num(1.0), Empty)), Empty);
    var y := Entry("a", Obj(Entry("c", Num(2.0), Empty)), Empty);
    DeepMergePair(x, y, "a");
  }
}
