/** `Pipe.create` (src/utils/pipe.ts): left-to-right function composition
    in which a falsy slot (`None`) is skipped. */
module Pipe {
  import opened Outcomes

  function Create<T>(val: T, fns: seq<Option<T -> T>>): (r: T)
    decreases |fns|
    ensures |fns| == 0 ==> r == val
  {
    if |fns| == 0 then val
    else
      var curr := fns[0];
      Create(if curr.Some? then curr.value(val) else val, fns[1..])
  }

  /** Piping through `fs` and then `gs` is piping through `fs + gs`. */
  lemma {:induction false} CreateConcat<T>(val: T, fs: seq<Option<T -> T>>, gs: seq<Option<T -> T>>)
    ensures Create(val, fs + gs) == Create(Create(val, fs), gs)
    decreases |fs|
  {
    if |fs| > 0 {
      var next := if fs[0].Some? then fs[0].value(val) else val;
      assert (fs + gs)[0] == fs[0];
      assert (fs + gs)[1..] == fs[1..] + gs;
      CreateConcat(next, fs[1..], gs);
    } else {
      assert fs + gs == gs;
    }
  }

  /** Two functions are applied first to last: `create(v, f, g) == g(f(v))`. */
  lemma CreateTwo<T>(val: T, f: T -> T, g: T -> T)
    ensures Create(val, [Some(f), Some(g)]) == g(f(val))
  {
    assert [Some(f), Some(g)][1..] == [Some(g)];
  }

  /** A falsy slot anywhere in the list acts as the identity. */
  lemma SkipsEmptySlot<T>(val: T, fs: seq<Option<T -> T>>, gs: seq<Option<T -> T>>)
    ensures Create(val, fs + [None] + gs) == Create(val, fs + gs)
  {
    CreateConcat(val, fs + [None], gs);
    CreateConcat(val, fs, [None]);
    CreateConcat(val, fs, gs);
  }
}
