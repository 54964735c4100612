/** `String.prototype.split` and `Array.prototype.join` for a non-empty
    separator, and the substring test used by the regular expressions. */
module Strings {

  /** `p` occurs in `s` starting at index `i`. */
  predicate OccursAt(s: string, p: string, i: nat) {
    i + |p| <= |s| && s[i..i + |p|] == p
  }

  /** `s.includes(p)`. */
  predicate Contains(s: string, p: string) {
    exists i: nat :: i <= |s| && OccursAt(s, p, i)
  }

  /** `s.split(sep)`: cuts at every occurrence of `sep`, scanning left to right. */
  function Split(s: string, sep: string): (parts: seq<string>)
    requires |sep| > 0
    ensures |parts| >= 1
    decreases |s|
  {
    if |s| == 0 then [""]
    else if OccursAt(s, sep, 0) then [""] + Split(s[|sep|..], sep)
    else
      var r := Split(s[1..], sep);
      [[s[0]] + r[0]] + r[1..]
  }

  /** `parts.join(sep)`. */
  function Join(parts: seq<string>, sep: string): string
    decreases |parts|
  {
    if |parts| == 0 then ""
    else if |parts| == 1 then parts[0]
    else parts[0] + sep + Join(parts[1..], sep)
  }

  lemma JoinCons(x: string, xs: seq<string>, sep: string)
    ensures Join([x] + xs, sep) == if |xs| == 0 then x else x + sep + Join(xs, sep)
  {
    assert ([x] + xs)[1..] == xs;
  }

  /** Splitting and joining again gives back the original string. */
  lemma {:induction false} JoinSplit(s: string, sep: string)
    requires |sep| > 0
    ensures Join(Split(s, sep), sep) == s
    decreases |s|
  {
    if |s| == 0 {
    } else if OccursAt(s, sep, 0) {
      JoinSplit(s[|sep|..], sep);
      JoinAfterEmpty(Split(s[|sep|..], sep), sep);
      assert s == sep + s[|sep|..];
    } else {
      JoinSplit(s[1..], sep);
      JoinPrepend(s[0], Split(s[1..], sep), sep);
      assert s == [s[0]] + s[1..];
    }
  }

  /** An empty first part contributes only its separator. */
  lemma JoinAfterEmpty(parts: seq<string>, sep: string)
    requires |parts| >= 1
    ensures Join([""] + parts, sep) == sep + Join(parts, sep)
  {
    assert ([""] + parts)[1..] == parts;
  }

  /** A character put in front of the first part comes first in the join. */
  lemma JoinPrepend(c: char, parts: seq<string>, sep: string)
    requires |parts| >= 1
    ensures Join([[c] + parts[0]] + parts[1..], sep) == [c] + Join(parts, sep)
  {
    var rest := parts[1..];
    if |rest| > 0 {
      assert ([[c] + parts[0]] + rest)[1..] == rest;
      assert Join(parts, sep) == parts[0] + sep + Join(rest, sep);
    }
  }

  /** A string splits into a single part exactly when the separator does not
      occur in it, and that part is the string itself. */
  lemma {:induction false} SplitSingle(s: string, sep: string)
    requires |sep| > 0
    ensures !Contains(s, sep) <==> |Split(s, sep)| == 1
    ensures !Contains(s, sep) ==> Split(s, sep) == [s]
    decreases |s|
  {
    if |s| == 0 {
      assert !Contains(s, sep) by {
        forall i: nat ensures !OccursAt(s, sep, i) {}
      }
    } else if OccursAt(s, sep, 0) {
      assert Contains(s, sep);
    } else {
      SplitSingle(s[1..], sep);
      ContainsTail(s, sep);
      if !Contains(s, sep) {
        assert [s[0]] + s[1..] == s;
      }
    }
  }

  /** A separator occurs in a non-empty string when it starts it or occurs
      after its first character. */
  lemma ContainsTail(s: string, sep: string)
    requires |s| > 0
    ensures Contains(s, sep) <==> OccursAt(s, sep, 0) || Contains(s[1..], sep)
  {
    if Contains(s[1..], sep) {
      var i: nat :| i <= |s[1..]| && OccursAt(s[1..], sep, i);
      assert s[1..][i..i + |sep|] == s[i + 1..i + 1 + |sep|];
      assert OccursAt(s, sep, i + 1);
    }
    if Contains(s, sep) && !OccursAt(s, sep, 0) {
      var i: nat :| i <= |s| && OccursAt(s, sep, i);
      assert i > 0;
      assert s[1..][i - 1..i - 1 + |sep|] == s[i..i + |sep|];
      assert OccursAt(s[1..], sep, i - 1);
    }
  }
}

/** The selector rewriting of `Utils.createNestedCssSelector` (src/tailwind.ts)
    and `getNestedTag` (src/extract.ts): split a selector list on `", "`,
    prefix every selector with `"& "`, and join the list again. */
module Selectors {
  import opened Strings

  const Separator: string := ", "
  const ParentPrefix: string := "& "

  function Nest(selector: string): string {
    Join(Prefixed(Split(selector, Separator)), Separator)
  }

  /** The same rewriting stated character by character: every `", "` becomes
      `", & "`. */
  function InsertAfterSeparators(s: string): (r: string)
    decreases |s|
    ensures |s| > 0 ==> |r| > 0 && r[0] == s[0]
  {
    if |s| == 0 then ""
    else if OccursAt(s, Separator, 0) then ", & " + InsertAfterSeparators(s[2..])
    else [s[0]] + InsertAfterSeparators(s[1..])
  }

  /** `parts.map((s) => "& " + s)`. */
  function Prefixed(parts: seq<string>): (r: seq<string>)
    ensures |r| == |parts|
    ensures forall i :: 0 <= i < |parts| ==> r[i] == ParentPrefix + parts[i]
  {
    if |parts| == 0 then [] else [ParentPrefix + parts[0]] + Prefixed(parts[1..])
  }

  lemma PrefixedCons(x: string, xs: seq<string>)
    ensures Prefixed([x] + xs) == [ParentPrefix + x] + Prefixed(xs)
  {
    assert ([x] + xs)[1..] == xs;
  }

  /** `Nest(s)` is `"& "` followed by `s` with `", & "` in place of each `", "`. */
  lemma {:induction false} NestInsertsAfterSeparators(s: string)
    ensures Nest(s) == ParentPrefix + InsertAfterSeparators(s)
    decreases |s|
  {
    if |s| == 0 {
    } else if OccursAt(s, Separator, 0) {
      NestInsertsAfterSeparators(s[2..]);
      NestAtSeparator(s);
    } else {
      NestInsertsAfterSeparators(s[1..]);
      NestAtOther(s);
      assert Nest(s[1..])[2..] == InsertAfterSeparators(s[1..]);
      assert InsertAfterSeparators(s) == [s[0]] + InsertAfterSeparators(s[1..]);
    }
  }

  lemma NestAtSeparator(s: string)
    requires OccursAt(s, Separator, 0)
    requires Nest(s[2..]) == ParentPrefix + InsertAfterSeparators(s[2..])
    ensures Nest(s) == ParentPrefix + InsertAfterSeparators(s)
  {
    var rest := Split(s[2..], Separator);
    assert Split(s, Separator) == [""] + rest;
    PrefixedCons("", rest);
    JoinCons(ParentPrefix, Prefixed(rest), Separator);
  }

  lemma NestAtOther(s: string)
    requires |s| > 0 && !OccursAt(s, Separator, 0)
    ensures |Nest(s[1..])| >= 2
    ensures Nest(s) == ParentPrefix + ([s[0]] + Nest(s[1..])[2..])
  {
    var r := Split(s[1..], Separator);
    var rest := Join([r[0]] + Prefixed(r[1..]), Separator);
    NestTail(s[1..]);
    assert rest == Nest(s[1..])[2..];
    NestHead(s);
  }

  /** `Nest(s)` with its leading `"& "` removed, in terms of the parts. */
  lemma NestTail(s: string)
    ensures var r := Split(s, Separator);
            Nest(s) == ParentPrefix + Join([r[0]] + Prefixed(r[1..]), Separator)
  {
    var r := Split(s, Separator);
    assert r == [r[0]] + r[1..];
    PrefixedCons(r[0], r[1..]);
    JoinHead(ParentPrefix, r[0], Prefixed(r[1..]), Separator);
  }

  lemma NestHead(s: string)
    requires |s| > 0 && !OccursAt(s, Separator, 0)
    ensures var r := Split(s[1..], Separator);
            Nest(s) == ParentPrefix + [s[0]] + Join([r[0]] + Prefixed(r[1..]), Separator)
  {
    var r := Split(s[1..], Separator);
    assert Split(s, Separator) == [[s[0]] + r[0]] + r[1..];
    PrefixedCons([s[0]] + r[0], r[1..]);
    assert ParentPrefix + ([s[0]] + r[0]) == (ParentPrefix + [s[0]]) + r[0];
    JoinHead(ParentPrefix + [s[0]], r[0], Prefixed(r[1..]), Separator);
  }

  lemma JoinHead(a: string, b: string, xs: seq<string>, sep: string)
    ensures Join([a + b] + xs, sep) == a + Join([b] + xs, sep)
  {
    JoinCons(a + b, xs, sep);
    JoinCons(b, xs, sep);
  }

  /** Different strings are rewritten differently. */
  lemma {:induction false} InsertAfterSeparatorsInjective(s: string, t: string)
    requires InsertAfterSeparators(s) == InsertAfterSeparators(t)
    ensures s == t
    decreases |s|
  {
    var a := InsertAfterSeparators(s);
    if |s| == 0 {
    } else if OccursAt(s, Separator, 0) {
      assert a[1] == ' ' && |a| >= 4;
      if OccursAt(t, Separator, 0) {
        assert InsertAfterSeparators(s[2..]) == a[4..];
        assert InsertAfterSeparators(t[2..]) == a[4..];
        InsertAfterSeparatorsInjective(s[2..], t[2..]);
        assert s == s[..2] + s[2..] && t == t[..2] + t[2..];
      } else {
        SeparatorMismatch(t);
      }
    } else {
      if OccursAt(t, Separator, 0) {
        SeparatorMismatch(s);
      } else {
        assert |t| > 0;
        assert s[0] == t[0];
        assert InsertAfterSeparators(s[1..]) == a[1..];
        assert InsertAfterSeparators(t[1..]) == a[1..];
        InsertAfterSeparatorsInjective(s[1..], t[1..]);
        assert s == [s[0]] + s[1..] && t == [t[0]] + t[1..];
      }
    }
  }

  /** A string that does not start with `", "` is not rewritten into one that
      starts with `", "` followed by another character. */
  lemma SeparatorMismatch(t: string)
    requires !OccursAt(t, Separator, 0)
    ensures !(|InsertAfterSeparators(t)| >= 4 && InsertAfterSeparators(t)[1] == ' ' && InsertAfterSeparators(t)[0] == ',')
  {
    if |t| > 0 && t[0] == ',' {
      var b := InsertAfterSeparators(t);
      assert b == [t[0]] + InsertAfterSeparators(t[1..]);
      if |t| == 1 {
        assert |b| == 1;
      } else {
        assert t[1] != ' ' by {
          assert t[..2] != Separator;
        }
        assert b[1] == t[1];
      }
    }
  }

  /** Distinct selectors stay distinct after nesting. */
  lemma NestInjective(s: string, t: string)
    requires Nest(s) == Nest(t)
    ensures s == t
  {
    NestInsertsAfterSeparators(s);
    NestInsertsAfterSeparators(t);
    assert InsertAfterSeparators(s) == Nest(s)[2..];
    assert InsertAfterSeparators(t) == Nest(t)[2..];
    InsertAfterSeparatorsInjective(s, t);
  }

  /** A selector without `", "` is just prefixed with `"& "`. */
  lemma NestSingleSelector(s: string)
    requires !Contains(s, Separator)
    ensures Nest(s) == ParentPrefix + s
  {
    SplitSingle(s, Separator);
  }
}
