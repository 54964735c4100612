/** JavaScript plain objects as ordered lists of own enumerable properties.

    A JavaScript object remembers the order in which its string keys were
    first assigned: `Object.entries` and `for ... in` visit them in that order,
    assigning to an existing key keeps its position, and assigning to a new key
    appends it.  `Entries` keeps exactly that information.  (Integer-like keys,
    which JavaScript enumerates first, are not distinguished.)  A read sees
    only own properties: a key that names a member of `Object.prototype`
    reads as missing.
 */
module Objects {
  import opened Outcomes

  datatype Entries<V> = Empty | Entry(key: string, value: V, rest: Entries<V>)

  /** The keys in enumeration order (`Object.keys`). */
  function Keys<V>(e: Entries<V>): seq<string> {
    match e
    case Empty => []
    case Entry(k, _, rest) => [k] + Keys(rest)
  }

  /** Property read `e[k]`; `None` stands for `undefined`. */
  function Get<V>(e: Entries<V>, k: string): (r: Option<V>)
    ensures r.Some? <==> k in Keys(e)
  {
    match e
    case Empty => None
    case Entry(k', v, rest) => if k' == k then Some(v) else Get(rest, k)
  }

  /** Property assignment `e[k] = v`: replaces the value in place when the key
      exists, appends a new entry otherwise. */
  function Set<V>(e: Entries<V>, k: string, v: V): (r: Entries<V>)
    ensures Get(r, k) == Some(v)
    ensures forall j :: j != k ==> Get(r, j) == Get(e, j)
    ensures Keys(r) == if k in Keys(e) then Keys(e) else Keys(e) + [k]
  {
    match e
    case Empty => Entry(k, v, Empty)
    case Entry(k', v', rest) => if k' == k then Entry(k, v, rest) else Entry(k', v', Set(rest, k, v))
  }

  /** Every key occurs once, as in every real JavaScript object. */
  predicate DistinctKeys<V>(e: Entries<V>) {
    match e
    case Empty => true
    case Entry(k, _, rest) => k !in Keys(rest) && DistinctKeys(rest)
  }

  predicate NoDuplicates(s: seq<string>) {
    forall i, j :: 0 <= i < j < |s| ==> s[i] != s[j]
  }

  lemma NoDuplicatesTail(s: seq<string>)
    requires NoDuplicates(s) && |s| > 0
    ensures NoDuplicates(s[1..]) && s[0] !in s[1..]
  {
    forall i, j | 0 <= i < j < |s[1..]| ensures s[1..][i] != s[1..][j] {
      assert s[1..][i] == s[i + 1] && s[1..][j] == s[j + 1];
    }
    forall i | 0 <= i < |s[1..]| ensures s[1..][i] != s[0] {
      assert s[1..][i] == s[i + 1];
    }
  }

  /** The entries of `a` followed by those of `b`. */
  function Concat<V>(a: Entries<V>, b: Entries<V>): (r: Entries<V>)
    ensures Keys(r) == Keys(a) + Keys(b)
  {
    match a
    case Empty => b
    case Entry(k, v, rest) => Entry(k, v, Concat(rest, b))
  }

  /** An object literal written out key by key. */
  function FromPairs<V>(ps: seq<(string, V)>): (r: Entries<V>)
    ensures Keys(r) == seq(|ps|, i requires 0 <= i < |ps| => ps[i].0)
  {
    if |ps| == 0 then Empty else Entry(ps[0].0, ps[0].1, FromPairs(ps[1..]))
  }

  /** `Object.assign(target, source)` for one object source: each property of
      `source` is assigned in turn, so a later value wins. */
  function Assign<V>(target: Entries<V>, source: Entries<V>): (r: Entries<V>)
    decreases source
    ensures DistinctKeys(source) ==>
              forall k :: Get(r, k) == if k in Keys(source) then Get(source, k) else Get(target, k)
    ensures forall k :: k in Keys(r) <==> k in Keys(target) || k in Keys(source)
  {
    match source
    case Empty => target
    case Entry(k, v, rest) => Assign(Set(target, k, v), rest)
  }

  lemma {:induction false} DistinctKeysNoDuplicates<V>(e: Entries<V>)
    ensures DistinctKeys(e) <==> NoDuplicates(Keys(e))
  {
    match e
    case Empty =>
    case Entry(k, v, rest) =>
      DistinctKeysNoDuplicates(rest);
      var ks := Keys(e);
      assert ks == [k] + Keys(rest);
      if NoDuplicates(ks) {
        assert forall i :: 0 <= i < |Keys(rest)| ==> Keys(rest)[i] == ks[i + 1];
        assert NoDuplicates(Keys(rest));
        forall i | 0 <= i < |Keys(rest)| ensures k != Keys(rest)[i] {
          assert ks[0] != ks[i + 1];
        }
        assert k !in Keys(rest);
      }
      if DistinctKeys(e) {
        forall i, j | 0 <= i < j < |ks| ensures ks[i] != ks[j] {
          assert ks[j] == Keys(rest)[j - 1];
          if i == 0 {
            assert ks[i] == k;
          } else {
            assert ks[i] == Keys(rest)[i - 1];
          }
        }
      }
  }

  /** Assigning the value a key already has changes nothing. */
  lemma {:induction false} SetUnchanged<V>(e: Entries<V>, k: string, v: V)
    requires Get(e, k) == Some(v)
    ensures Set(e, k, v) == e
  {
    match e
    case Empty =>
    case Entry(k', v', rest) =>
      if k' != k {
        SetUnchanged(rest, k, v);
      }
  }

  /** Assigning a new key appends one entry. */
  lemma {:induction false} SetFresh<V>(e: Entries<V>, k: string, v: V)
    requires k !in Keys(e)
    ensures Set(e, k, v) == Concat(e, Entry(k, v, Empty))
  {
    match e
    case Empty =>
    case Entry(k', v', rest) =>
      SetFresh(rest, k, v);
  }

  lemma {:induction false} SetKeepsDistinct<V>(e: Entries<V>, k: string, v: V)
    requires DistinctKeys(e)
    ensures DistinctKeys(Set(e, k, v))
  {
    match e
    case Empty =>
    case Entry(k', v', rest) =>
      if k' != k {
        SetKeepsDistinct(rest, k, v);
      }
  }

  lemma {:induction false} ConcatAssociative<V>(a: Entries<V>, b: Entries<V>, c: Entries<V>)
    ensures Concat(Concat(a, b), c) == Concat(a, Concat(b, c))
  {
    match a
    case Empty =>
    case Entry(k, v, rest) =>
      ConcatAssociative(rest, b, c);
  }

  lemma {:induction false} ConcatEmpty<V>(a: Entries<V>)
    ensures Concat(a, Empty) == a
  {
    match a
    case Empty =>
    case Entry(k, v, rest) =>
      ConcatEmpty(rest);
  }

  /** Reading a key of a literal returns the value written for it. */
  lemma {:induction false} FromPairsGet<V>(ps: seq<(string, V)>, i: nat)
    requires i < |ps|
    requires NoDuplicates(seq(|ps|, j requires 0 <= j < |ps| => ps[j].0))
    ensures Get(FromPairs(ps), ps[i].0) == Some(ps[i].1)
  {
    if i > 0 {
      var ks := seq(|ps|, j requires 0 <= j < |ps| => ps[j].0);
      var ks' := seq(|ps[1..]|, j requires 0 <= j < |ps[1..]| => ps[1..][j].0);
      assert forall j :: 0 <= j < |ks'| ==> ks'[j] == ks[j + 1];
      assert ps[0].0 != ps[i].0 by {
        assert ks[0] != ks[i];
      }
      FromPairsGet(ps[1..], i - 1);
    }
  }
}
