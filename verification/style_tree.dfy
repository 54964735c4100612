/** Style objects (`Tailwind.Types.Css`, src/tailwind.ts): each key maps either
    to a declaration value (a string) or to a nested style object.

    The pipes rebuild a style object by mapping every entry to a one-entry
    object and handing the list to `Merge.map(..., { deep: true })`; this
    module states that deep merge on style objects (`MergeRules`, `MergeAll`),
    proves it is `Merge.deep` on the corresponding JavaScript values, and
    proves what the rebuilding amounts to when no two new keys collide. */
module StyleTree {
  import opened Outcomes
  import opened Objects
  import opened JsValues
  import Merge

  datatype Value = Decl(text: string) | Block(rules: Entries<Value>)

  type Css = Entries<Value>

  /** JavaScript truthiness of a style value: only the empty string is falsy. */
  predicate Truthy(v: Value) {
    v.Block? || v.text != ""
  }

  /** Every style object inside `css`, at any depth, has each key once. */
  predicate WellFormed(css: Css) {
    match css
    case Empty => true
    case Entry(k, v, rest) =>
      && k !in Keys(rest)
      && (v.Block? ==> WellFormed(v.rules))
      && WellFormed(rest)
  }

  /** A well-formed style object has each top-level key once. */
  lemma {:induction false} WellFormedDistinctKeys(css: Css)
    requires WellFormed(css)
    ensures DistinctKeys(css)
  {
    match css
    case Empty =>
    case Entry(_, _, rest) => WellFormedDistinctKeys(rest);
  }

  // ---------------------------------------------------------------------------
  // Deep merge

  /** One property of `deep`'s loop (see `Merge.MergeKey`). */
  function MergeRule(target: Css, key: string, value: Value): (r: Css)
    decreases value
    ensures forall j :: j != key ==> Get(r, j) == Get(target, j)
    ensures Keys(r) == if key in Keys(target) then Keys(target) else Keys(target) + [key]
  {
    match value
    case Block(rules) =>
      var current := Get(target, key);
      if current.None? || !Truthy(current.value) then
        Set(target, key, Block(MergeRules(Empty, rules)))
      else if current.value.Block? then
        Set(target, key, Block(MergeRules(current.value.rules, rules)))
      else
        target
    case Decl(_) =>
      Set(target, key, value)
  }

  /** `deep(target, source)` for one style object `source`. */
  function MergeRules(target: Css, source: Css): (r: Css)
    decreases source
    ensures forall k :: k in Keys(r) <==> k in Keys(target) || k in Keys(source)
    ensures forall k :: k !in Keys(source) ==> Get(r, k) == Get(target, k)
  {
    match source
    case Empty => target
    case Entry(k, v, rest) => MergeRules(MergeRule(target, k, v), rest)
  }

  /** `deep(target, ...list)`. */
  function MergeFrom(target: Css, list: seq<Css>): Css
    decreases |list|
  {
    if |list| == 0 then target else MergeFrom(MergeRules(target, list[0]), list[1..])
  }

  /** `Merge.create(list, { deep: true })` for a list of style objects. */
  function MergeAll(list: seq<Css>): Css {
    MergeFrom(Empty, list)
  }

  // ---------------------------------------------------------------------------
  // The same objects as JavaScript values

  function ToJs(v: Value): (r: JsValue)
    decreases v
    ensures JsValues.Truthy(r) <==> Truthy(v)
    ensures r.Obj? <==> v.Block?
  {
    match v
    case Decl(t) => Str(t)
    case Block(rules) => Obj(ToJsRules(rules))
  }

  function ToJsRules(css: Css): (r: Entries<JsValue>)
    decreases css
    ensures Keys(r) == Keys(css)
  {
    match css
    case Empty => Empty
    case Entry(k, v, rest) => Entry(k, ToJs(v), ToJsRules(rest))
  }

  lemma {:induction false} ToJsGet(css: Css, k: string)
    ensures Get(ToJsRules(css), k) == if Get(css, k).Some? then Some(ToJs(Get(css, k).value)) else None
  {
    match css
    case Empty =>
    case Entry(k', v, rest) =>
      if k' != k {
        ToJsGet(rest, k);
      }
  }

  lemma {:induction false} ToJsSet(css: Css, k: string, v: Value)
    ensures ToJsRules(Set(css, k, v)) == Set(ToJsRules(css), k, ToJs(v))
  {
    match css
    case Empty =>
    case Entry(k', v', rest) =>
      if k' != k {
        ToJsSet(rest, k, v);
      }
  }

  lemma {:induction false} ToJsConcat(a: Css, b: Css)
    ensures ToJsRules(Concat(a, b)) == Concat(ToJsRules(a), ToJsRules(b))
  {
    match a
    case Empty =>
    case Entry(k, v, rest) =>
      ToJsConcat(rest, b);
  }

  /** Different style objects are different JavaScript objects. */
  lemma {:induction false} ToJsRulesInjective(a: Css, b: Css)
    requires ToJsRules(a) == ToJsRules(b)
    ensures a == b
    decreases a, 0
  {
    match a
    case Empty =>
    case Entry(k, v, rest) =>
      ToJsInjective(v, b.value);
      ToJsRulesInjective(rest, b.rest);
  }

  lemma {:induction false} ToJsInjective(v: Value, w: Value)
    requires ToJs(v) == ToJs(w)
    ensures v == w
    decreases v, 1
  {
    match v
    case Decl(_) =>
    case Block(rules) =>
      ToJsRulesInjective(rules, w.rules);
  }

  lemma {:induction false} ToJsWellFormed(css: Css)
    requires WellFormed(css)
    ensures PropsWellFormed(ToJsRules(css))
    decreases css
  {
    match css
    case Empty =>
    case Entry(k, v, rest) =>
      if v.Block? {
        ToJsWellFormed(v.rules);
      }
      ToJsWellFormed(rest);
  }

  /** `MergeRules` is `Merge.deep`'s loop on the corresponding JavaScript
      objects. */
  lemma {:induction false} MergeRulesIsDeep(t: Css, s: Css)
    ensures ToJsRules(MergeRules(t, s)) == Merge.MergeProps(ToJsRules(t), ToJsRules(s))
    decreases s, 0
  {
    match s
    case Empty =>
    case Entry(k, v, rest) =>
      MergeRuleIsMergeKey(t, k, v);
      MergeRulesIsDeep(MergeRule(t, k, v), rest);
  }

  lemma {:induction false} MergeRuleIsMergeKey(t: Css, k: string, v: Value)
    ensures ToJsRules(MergeRule(t, k, v)) == Merge.MergeKey(ToJsRules(t), k, ToJs(v))
    decreases v, 1
  {
    ToJsGet(t, k);
    match v
    case Decl(_) =>
      ToJsSet(t, k, v);
    case Block(rules) =>
      var current := Get(t, k);
      if current.None? || !Truthy(current.value) {
        MergeRulesIsDeep(Empty, rules);
        ToJsSet(t, k, Block(MergeRules(Empty, rules)));
      } else if current.value.Block? {
        MergeRulesIsDeep(current.value.rules, rules);
        ToJsSet(t, k, Block(MergeRules(current.value.rules, rules)));
      }
  }

  function ToJsList(list: seq<Css>): (r: seq<JsValue>)
    ensures |r| == |list|
    ensures forall i :: 0 <= i < |list| ==> r[i] == Obj(ToJsRules(list[i]))
  {
    if |list| == 0 then [] else [Obj(ToJsRules(list[0]))] + ToJsList(list[1..])
  }

  lemma {:induction false} MergeFromIsDeep(t: Css, list: seq<Css>)
    ensures Merge.Deep(Obj(ToJsRules(t)), ToJsList(list)) == Obj(ToJsRules(MergeFrom(t, list)))
    decreases |list|
  {
    if |list| > 0 {
      MergeRulesIsDeep(t, list[0]);
      assert ToJsList(list)[1..] == ToJsList(list[1..]);
      MergeFromIsDeep(MergeRules(t, list[0]), list[1..]);
    }
  }

  /** `MergeAll` is `Merge.create(list, { deep: true })`, which never throws on
      a list of style objects. */
  lemma MergeAllIsCreate(list: seq<Css>)
    ensures Merge.Create(Arr(ToJsList(list)), true) == Ok(Obj(ToJsRules(MergeAll(list))))
  {
    MergeFromIsDeep(Empty, list);
  }

  // ---------------------------------------------------------------------------
  // Merging objects whose keys are new

  /** Merging a well-formed object whose keys are all new appends it. */
  lemma MergeFresh(t: Css, p: Css)
    requires WellFormed(p)
    requires forall k :: k in Keys(p) ==> k !in Keys(t)
    ensures MergeRules(t, p) == Concat(t, p)
  {
    ToJsWellFormed(p);
    MergeRulesIsDeep(t, p);
    Merge.MergeFresh(ToJsRules(t), ToJsRules(p));
    ToJsConcat(t, p);
    ToJsRulesInjective(MergeRules(t, p), Concat(t, p));
  }

  /** `deep({}, p)` is a copy of `p`. */
  lemma CopyIsIdentity(p: Css)
    requires WellFormed(p)
    ensures MergeRules(Empty, p) == p
  {
    MergeFresh(Empty, p);
  }

  /** One-entry objects with pairwise different keys merge into the object
      made of their entries. */
  lemma {:induction false} MergeFromSingletons(t: Css, list: seq<Css>, whole: Css)
    requires IsSingletons(list, whole)
    requires WellFormed(whole)
    requires forall k :: k in Keys(whole) ==> k !in Keys(t)
    ensures MergeFrom(t, list) == Concat(t, whole)
    decreases |list|
  {
    if |list| == 0 {
      ConcatEmpty(t);
    } else {
      var head := Entry(whole.key, whole.value, Empty);
      MergeFresh(t, head);
      MergeFromSingletons(Concat(t, head), list[1..], whole.rest);
      ConcatAssociative(t, head, whole.rest);
    }
  }

  /** Whatever the keys, merging one-entry objects yields exactly their keys
      besides those already present. */
  lemma {:induction false} MergeFromSingletonsKeys(t: Css, list: seq<Css>, whole: Css)
    requires IsSingletons(list, whole)
    ensures forall k :: k in Keys(MergeFrom(t, list)) <==> k in Keys(t) || k in Keys(whole)
    decreases |list|
  {
    if |list| > 0 {
      MergeFromSingletonsKeys(MergeRules(t, list[0]), list[1..], whole.rest);
    }
  }

  /** `{ [keys[i]]: values[i] }` for each `i`: the one-entry objects a
      per-key `map` builds before merging them. */
  function Keyed(keys: seq<string>, values: seq<Css>): (r: seq<Css>)
    requires |keys| == |values|
    ensures |r| == |keys|
  {
    if |keys| == 0 then [] else [Entry(keys[0], Block(values[0]), Empty)] + Keyed(keys[1..], values[1..])
  }

  /** The object in which each key holds its value, in order. */
  function Table(keys: seq<string>, values: seq<Css>): (r: Css)
    requires |keys| == |values|
    ensures Keys(r) == keys
  {
    if |keys| == 0 then Empty else Entry(keys[0], Block(values[0]), Table(keys[1..], values[1..]))
  }

  lemma {:induction false} KeyedShape(keys: seq<string>, values: seq<Css>)
    requires |keys| == |values|
    ensures IsSingletons(Keyed(keys, values), Table(keys, values))
    decreases |keys|
  {
    if |keys| > 0 {
      KeyedShape(keys[1..], values[1..]);
      assert Keyed(keys, values)[1..] == Keyed(keys[1..], values[1..]);
    }
  }

  lemma {:induction false} TableWellFormed(keys: seq<string>, values: seq<Css>)
    requires |keys| == |values|
    requires NoDuplicates(keys)
    requires forall i :: 0 <= i < |values| ==> WellFormed(values[i])
    ensures WellFormed(Table(keys, values))
    decreases |keys|
  {
    if |keys| > 0 {
      NoDuplicatesTail(keys);
      assert forall i :: 0 <= i < |values[1..]| ==> values[1..][i] == values[i + 1];
      TableWellFormed(keys[1..], values[1..]);
    }
  }

  /** Each key of a table without repeated keys holds its own value. */
  lemma {:induction false} TableGet(keys: seq<string>, values: seq<Css>, i: nat)
    requires |keys| == |values|
    requires NoDuplicates(keys)
    requires i < |keys|
    ensures Get(Table(keys, values), keys[i]) == Some(Block(values[i]))
    decreases i
  {
    if i > 0 {
      assert keys[0] != keys[i];
      NoDuplicatesTail(keys);
      TableGet(keys[1..], values[1..], i - 1);
    }
  }

  lemma TableGetAll(keys: seq<string>, values: seq<Css>)
    requires |keys| == |values|
    ensures NoDuplicates(keys) ==> forall i :: 0 <= i < |keys| ==> Get(Table(keys, values), keys[i]) == Some(Block(values[i]))
  {
    if NoDuplicates(keys) {
      forall i | 0 <= i < |keys| ensures Get(Table(keys, values), keys[i]) == Some(Block(values[i])) {
        TableGet(keys, values, i);
      }
    }
  }

  /** Merging the one-entry objects gives exactly the keys; when no key
      repeats and every value is well formed, it gives the table itself. */
  lemma KeyedMerged(keys: seq<string>, values: seq<Css>)
    requires |keys| == |values|
    ensures forall k :: k in Keys(MergeAll(Keyed(keys, values))) <==> k in keys
    ensures NoDuplicates(keys) && (forall i :: 0 <= i < |values| ==> WellFormed(values[i]))
            ==> MergeAll(Keyed(keys, values)) == Table(keys, values)
  {
    KeyedShape(keys, values);
    MergeFromSingletonsKeys(Empty, Keyed(keys, values), Table(keys, values));
    if NoDuplicates(keys) && (forall i :: 0 <= i < |values| ==> WellFormed(values[i])) {
      TableWellFormed(keys, values);
      MergeFromSingletons(Empty, Keyed(keys, values), Table(keys, values));
    }
  }

  /** `list` holds the entries of `whole` as one-entry objects, in order. */
  predicate IsSingletons(list: seq<Css>, whole: Css)
    decreases |list|
  {
    if |list| == 0 then whole.Empty?
    else whole.Entry? && list[0] == Entry(whole.key, whole.value, Empty) && IsSingletons(list[1..], whole.rest)
  }

  // ---------------------------------------------------------------------------
  // Renaming the keys of nested objects (`withNestedTags`, `withNotProseClasses`,
  // `getCssWithNestedTags`)

  /** The key an entry gets: nested objects are renamed, declarations keep
      theirs. */
  function NewKey(k: string, v: Value, rename: string -> string): string {
    if v.Block? then rename(k) else k
  }

  /** `Object.entries(css).map(([k, v]) => ({ [newKey]: v }))`. */
  function RenamedSingletons(css: Css, rename: string -> string): (r: seq<Css>)
    decreases css
  {
    match css
    case Empty => []
    case Entry(k, v, rest) => [Entry(NewKey(k, v, rename), v, Empty)] + RenamedSingletons(rest, rename)
  }

  /** The pipe: merge the renamed one-entry objects deeply. */
  function RenameBlocks(css: Css, rename: string -> string): Css {
    MergeAll(RenamedSingletons(css, rename))
  }

  /** Reference definition: every entry renamed where it stands. */
  function RenameEach(css: Css, rename: string -> string): (r: Css)
    decreases css
    ensures |Keys(r)| == |Keys(css)|
  {
    match css
    case Empty => Empty
    case Entry(k, v, rest) => Entry(NewKey(k, v, rename), v, RenameEach(rest, rename))
  }

  lemma {:induction false} RenamedSingletonsShape(css: Css, rename: string -> string)
    ensures IsSingletons(RenamedSingletons(css, rename), RenameEach(css, rename))
  {
    match css
    case Empty =>
    case Entry(k, v, rest) =>
      RenamedSingletonsShape(rest, rename);
      assert RenamedSingletons(css, rename)[1..] == RenamedSingletons(rest, rename);
  }

  lemma {:induction false} RenameEachWellFormed(css: Css, rename: string -> string)
    requires WellFormed(css)
    requires DistinctKeys(RenameEach(css, rename))
    ensures WellFormed(RenameEach(css, rename))
  {
    match css
    case Empty =>
    case Entry(k, v, rest) =>
      RenameEachWellFormed(rest, rename);
  }

  /** When no two renamed keys coincide, rebuilding through the deep merge
      renames every entry in place and keeps the order. */
  lemma RenameBlocksInPlace(css: Css, rename: string -> string)
    requires WellFormed(css)
    requires DistinctKeys(RenameEach(css, rename))
    ensures RenameBlocks(css, rename) == RenameEach(css, rename)
  {
    RenamedSingletonsShape(css, rename);
    RenameEachWellFormed(css, rename);
    MergeFromSingletons(Empty, RenamedSingletons(css, rename), RenameEach(css, rename));
  }

  predicate BlockKey(css: Css, k: string) {
    Get(css, k).Some? && Get(css, k).value.Block?
  }

  predicate DeclKey(css: Css, k: string) {
    Get(css, k).Some? && Get(css, k).value.Decl?
  }

  /** Renamed keys stay distinct when the renaming is injective and never
      produces the key of a declaration. */
  lemma {:induction false} RenameEachDistinct(css: Css, rename: string -> string)
    requires DistinctKeys(css)
    requires forall a, b :: rename(a) == rename(b) ==> a == b
    requires forall b, d :: BlockKey(css, b) && DeclKey(css, d) ==> rename(b) != d
    ensures DistinctKeys(RenameEach(css, rename))
  {
    match css
    case Empty =>
    case Entry(k, v, rest) =>
      forall b, d | BlockKey(rest, b) && DeclKey(rest, d) ensures rename(b) != d {
        assert b != k && d != k;
        assert BlockKey(css, b) && DeclKey(css, d);
      }
      RenameEachDistinct(rest, rename);
      var nk := NewKey(k, v, rename);
      if nk in Keys(RenameEach(rest, rename)) {
        var j := RenameEachKeyOrigin(rest, rename, nk);
        assert j != k;
        if v.Block? && Get(rest, j).value.Decl? {
          assert BlockKey(css, k) && DeclKey(css, j);
        } else if v.Decl? && Get(rest, j).value.Block? {
          assert BlockKey(css, j) && DeclKey(css, k);
        }
      }
  }

  /** Every key of the renamed object comes from some entry. */
  lemma {:induction false} RenameEachKeyOrigin(css: Css, rename: string -> string, nk: string) returns (j: string)
    requires DistinctKeys(css)
    requires nk in Keys(RenameEach(css, rename))
    ensures Get(css, j).Some? && nk == NewKey(j, Get(css, j).value, rename)
  {
    match css
    case Entry(k, v, rest) =>
      if nk == NewKey(k, v, rename) {
        j := k;
      } else {
        j := RenameEachKeyOrigin(rest, rename, nk);
      }
  }

  // ---------------------------------------------------------------------------
  // Rewriting every declaration (`withCssVars`, `getCssWithVars`)

  /** The pipe: every declaration value is passed through `f`, every nested
      object is rewritten recursively, and the one-entry objects are merged
      deeply. */
  function MapDecls(css: Css, f: string -> string): Css
    decreases css, 1
  {
    MergeAll(MappedSingletons(css, f))
  }

  function MappedSingletons(css: Css, f: string -> string): seq<Css>
    decreases css, 0
  {
    match css
    case Empty => []
    case Entry(k, v, rest) =>
      var v' := if v.Block? then Block(MapDecls(v.rules, f)) else Decl(f(v.text));
      [Entry(k, v', Empty)] + MappedSingletons(rest, f)
  }

  /** Reference definition: the same tree with `f` applied to every
      declaration value. */
  function MapEach(css: Css, f: string -> string): (r: Css)
    decreases css
    ensures Keys(r) == Keys(css)
  {
    match css
    case Empty => Empty
    case Entry(k, v, rest) =>
      var v' := if v.Block? then Block(MapEach(v.rules, f)) else Decl(f(v.text));
      Entry(k, v', MapEach(rest, f))
  }

  lemma {:induction false} MapEachWellFormed(css: Css, f: string -> string)
    requires WellFormed(css)
    ensures WellFormed(MapEach(css, f))
    decreases css
  {
    match css
    case Empty =>
    case Entry(k, v, rest) =>
      if v.Block? {
        MapEachWellFormed(v.rules, f);
      }
      MapEachWellFormed(rest, f);
  }

  /** Rewriting a well-formed object keeps every key where it is and applies
      `f` to exactly the declaration values. */
  lemma {:induction false} MapDeclsInPlace(css: Css, f: string -> string)
    requires WellFormed(css)
    ensures MapDecls(css, f) == MapEach(css, f)
    decreases css, 1
  {
    MappedSingletonsShape(css, f);
    MapEachWellFormed(css, f);
    MergeFromSingletons(Empty, MappedSingletons(css, f), MapEach(css, f));
  }

  lemma {:induction false} MappedSingletonsShape(css: Css, f: string -> string)
    requires WellFormed(css)
    ensures IsSingletons(MappedSingletons(css, f), MapEach(css, f))
    decreases css, 0
  {
    match css
    case Empty =>
    case Entry(k, v, rest) =>
      if v.Block? {
        MapDeclsInPlace(v.rules, f);
      }
      MappedSingletonsShape(rest, f);
      assert MappedSingletons(css, f)[1..] == MappedSingletons(rest, f);
  }

  // ---------------------------------------------------------------------------
  // Every rebuilt object is well-formed

  lemma {:induction false} WellFormedFromJs(css: Css)
    requires PropsWellFormed(ToJsRules(css))
    ensures WellFormed(css)
    decreases css
  {
    match css
    case Empty =>
    case Entry(k, v, rest) =>
      assert ToJsRules(css) == Entry(k, ToJs(v), ToJsRules(rest));
      if v.Block? {
        assert ToJs(v) == Obj(ToJsRules(v.rules));
        WellFormedFromJs(v.rules);
      }
      WellFormedFromJs(rest);
  }

  lemma {:induction false} MergeFromWellFormed(t: Css, list: seq<Css>)
    requires WellFormed(t)
    ensures WellFormed(MergeFrom(t, list))
    decreases |list|
  {
    if |list| > 0 {
      ToJsWellFormed(t);
      MergeRulesIsDeep(t, list[0]);
      Merge.MergeKeepsWellFormed(ToJsRules(t), ToJsRules(list[0]));
      WellFormedFromJs(MergeRules(t, list[0]));
      MergeFromWellFormed(MergeRules(t, list[0]), list[1..]);
    }
  }

  /** The deep merge of any list of style objects, well-formed or not, has
      each key once at every depth. */
  lemma MergeAllWellFormed(list: seq<Css>)
    ensures WellFormed(MergeAll(list))
  {
    MergeFromWellFormed(Empty, list);
  }

  // ---------------------------------------------------------------------------
  // The rewrites depend only on what their functions return

  lemma {:induction false} RenamedSingletonsExtensional(css: Css, f: string -> string, g: string -> string)
    requires forall s :: f(s) == g(s)
    ensures RenamedSingletons(css, f) == RenamedSingletons(css, g)
    decreases css
  {
    match css
    case Empty =>
    case Entry(k, v, rest) =>
      assert NewKey(k, v, f) == NewKey(k, v, g);
      RenamedSingletonsExtensional(rest, f, g);
  }

  /** Two renamings that agree on every key rename a tree alike. */
  lemma RenameBlocksExtensional(css: Css, f: string -> string, g: string -> string)
    requires forall s :: f(s) == g(s)
    ensures RenameBlocks(css, f) == RenameBlocks(css, g)
  {
    RenamedSingletonsExtensional(css, f, g);
  }

  /** Two value rewriters that agree on every text rewrite a tree alike. */
  lemma {:induction false} MapDeclsExtensional(css: Css, f: string -> string, g: string -> string)
    requires forall s :: f(s) == g(s)
    ensures MapDecls(css, f) == MapDecls(css, g)
    decreases css, 1
  {
    MappedSingletonsExtensional(css, f, g);
  }

  lemma {:induction false} MappedSingletonsExtensional(css: Css, f: string -> string, g: string -> string)
    requires forall s :: f(s) == g(s)
    ensures MappedSingletons(css, f) == MappedSingletons(css, g)
    decreases css, 0
  {
    match css
    case Empty =>
    case Entry(k, v, rest) =>
      if v.Block? {
        MapDeclsExtensional(v.rules, f, g);
      }
      MappedSingletonsExtensional(rest, f, g);
  }
}
