/** The regular expression `/var\(--tw-prose-(.*?)\)/g` that finds references
    to the typography plugin's CSS variables, and `String.prototype.replace`
    with it.

    A match starts with `var(--tw-prose-`; the lazy group `(.*?)` then takes
    the fewest characters that let a `)` follow, and `.` does not match a line
    terminator.  The match found by `exec` is the leftmost one.  `replace`
    with the global flag scans from the start and resumes after each match. */
module VarRefs {
  import opened Outcomes
  import opened Objects
  import opened Strings

  const Prefix: string := "var(--tw-prose-"

  /** The characters that `.` does not match. */
  predicate IsLineTerminator(c: char) {
    c == '\n' || c == '\r' || c == '\U{2028}' || c == '\U{2029}'
  }

  /** `.*` matches `s[p..q]`. */
  predicate DotsOnly(s: string, p: nat, q: nat)
    requires q <= |s|
  {
    forall t :: p <= t < q ==> !IsLineTerminator(s[t])
  }

  /** `(.*?)\)` tried at index `p`: the index of the closing `)`. */
  function CloseFrom(s: string, p: nat): (r: Option<nat>)
    decreases |s| - p
    ensures r.Some? ==> p <= r.value < |s| && s[r.value] == ')'
  {
    if p >= |s| then None
    else if s[p] == ')' then Some(p)
    else if IsLineTerminator(s[p]) then None
    else CloseFrom(s, p + 1)
  }

  /** `CloseFrom` finds the nearest `)` that `.*?` can reach, and only such a
      `)`: the lazy group takes the fewest characters. */
  lemma {:induction false} CloseFromLazy(s: string, p: nat)
    ensures var r := CloseFrom(s, p);
            && (r.Some? ==> DotsOnly(s, p, r.value) && forall t :: p <= t < r.value ==> s[t] != ')')
            && (r.None? ==> forall q :: p <= q < |s| && s[q] == ')' ==> !DotsOnly(s, p, q))
    decreases |s| - p
  {
    if p < |s| && s[p] != ')' && !IsLineTerminator(s[p]) {
      CloseFromLazy(s, p + 1);
    }
  }

  /** The regular expression matches at index `i`, with its `)` at the
      returned index. */
  function MatchAt(s: string, i: nat): (r: Option<nat>)
    ensures r.Some? ==> OccursAt(s, Prefix, i) && i + |Prefix| <= r.value < |s|
  {
    if OccursAt(s, Prefix, i) then CloseFrom(s, i + |Prefix|) else None
  }

  /** `exec` starting at index `from`: the leftmost match, as its start and
      the index of its `)`. */
  function FirstMatch(s: string, from: nat): (r: Option<(nat, nat)>)
    decreases |s| + 1 - from
    ensures r.Some? ==> from <= r.value.0 && MatchAt(s, r.value.0) == Some(r.value.1)
  {
    if from > |s| then None
    else if MatchAt(s, from).Some? then Some((from, MatchAt(s, from).value))
    else FirstMatch(s, from + 1)
  }

  /** The match `FirstMatch` finds is the leftmost one, and when it finds
      none there is none. */
  lemma {:induction false} FirstMatchLeftmost(s: string, from: nat)
    ensures var r := FirstMatch(s, from);
            && (r.Some? ==> forall k: nat :: from <= k < r.value.0 ==> MatchAt(s, k).None?)
            && (r.None? ==> forall k: nat :: from <= k ==> MatchAt(s, k).None?)
    decreases |s| + 1 - from
  {
    if from <= |s| && MatchAt(s, from).None? {
      FirstMatchLeftmost(s, from + 1);
    }
    if from > |s| {
      forall k: nat | from <= k ensures MatchAt(s, k).None? {}
    }
  }

  /** The text captured by `(.*?)`: the variable name after `--tw-prose-`. */
  function Name(s: string, m: (nat, nat)): string
    requires MatchAt(s, m.0) == Some(m.1)
  {
    s[m.0 + |Prefix|..m.1]
  }

  /** `s.replace(VAR_REGEX, repl)`: every match, left to right, replaced by
      `repl` (taken literally). */
  function ReplaceAll(s: string, repl: string): string {
    ReplaceFrom(s, 0, repl)
  }

  /** The scan of `replace` from index `p`: at a match, `repl` takes its
      place and the scan resumes after its `)`; elsewhere the character is
      kept. */
  function ReplaceFrom(s: string, p: nat, repl: string): string
    decreases |s| - p
  {
    if p >= |s| then ""
    else match MatchAt(s, p)
      case Some(j) => repl + ReplaceFrom(s, j + 1, repl)
      case None => [s[p]] + ReplaceFrom(s, p + 1, repl)
  }

  /** When no match starts at `from`, the search goes on at `from + 1`. */
  lemma FirstMatchSkip(s: string, from: nat)
    ensures MatchAt(s, from).None? ==> FirstMatch(s, from) == FirstMatch(s, from + 1)
    ensures FirstMatch(s, from).None? ==> MatchAt(s, from).None?
    ensures FirstMatch(s, from).Some? && FirstMatch(s, from).value.0 > from ==> MatchAt(s, from).None?
  {
  }

  /** A scan that meets no match keeps the rest of the string. */
  lemma {:induction false} ReplaceFromNoMatch(s: string, p: nat, repl: string)
    requires p <= |s| && FirstMatch(s, p).None?
    ensures ReplaceFrom(s, p, repl) == s[p..]
    decreases |s| - p
  {
    if p < |s| {
      FirstMatchSkip(s, p);
      ReplaceFromNoMatch(s, p + 1, repl);
      assert s[p..] == [s[p]] + s[p + 1..];
    }
  }

  /** A string without a match is left as it is. */
  lemma ReplaceAllNoMatch(s: string, repl: string)
    requires FirstMatch(s, 0).None?
    ensures ReplaceAll(s, repl) == s
  {
    ReplaceFromNoMatch(s, 0, repl);
  }

  /** A scan from `p` keeps the text up to the first match, puts `repl` in
      its place, and goes on after its `)`. */
  lemma {:induction false} ReplaceFromAtFirst(s: string, p: nat, repl: string, i: nat, j: nat)
    requires FirstMatch(s, p) == Some((i, j))
    ensures p <= i < j < |s|
    ensures ReplaceFrom(s, p, repl) == s[p..i] + repl + ReplaceFrom(s, j + 1, repl)
    decreases i - p
  {
    FirstMatchSkip(s, p);
    if i > p {
      ReplaceFromAtFirst(s, p + 1, repl, i, j);
      ReplaceFromKeeps(s, p, repl, i, ReplaceFrom(s, j + 1, repl));
    } else {
      ReplaceFromReplaces(s, p, repl, j);
    }
  }

  /** The scan keeps a character where no match starts. */
  lemma ReplaceFromKeeps(s: string, p: nat, repl: string, i: nat, rest: string)
    requires p < i <= |s| && MatchAt(s, p).None?
    requires ReplaceFrom(s, p + 1, repl) == s[p + 1..i] + repl + rest
    ensures ReplaceFrom(s, p, repl) == s[p..i] + repl + rest
  {
    var before := s[p + 1..i];
    assert ReplaceFrom(s, p, repl) == [s[p]] + (before + repl + rest);
    assert s[p..i] == [s[p]] + before;
    ConsAssociative(s[p], before, repl, rest);
  }

  /** The scan replaces a match that starts where it stands. */
  lemma ReplaceFromReplaces(s: string, p: nat, repl: string, j: nat)
    requires MatchAt(s, p) == Some(j)
    ensures ReplaceFrom(s, p, repl) == s[p..p] + repl + ReplaceFrom(s, j + 1, repl)
  {
    assert s[p..p] + repl == repl;
  }

  lemma ConsAssociative(c: char, a: string, b: string, d: string)
    ensures [c] + (a + b + d) == ([c] + a) + b + d
  {
  }

  /** Replacing every match is: keep the text before the first match, put
      `repl` in its place, and go on after its `)`. */
  lemma ReplaceAllAtFirst(s: string, repl: string, i: nat, j: nat)
    requires FirstMatch(s, 0) == Some((i, j))
    ensures i < j < |s|
    ensures ReplaceAll(s, repl) == s[..i] + repl + ReplaceFrom(s, j + 1, repl)
  {
    ReplaceFromAtFirst(s, 0, repl, i, j);
    assert s[0..i] == s[..i];
  }

  // ---------------------------------------------------------------------------
  // Substituting the variables of one variable table

  /** `vars[name]` used as a condition and as a replacement: present only when
      it is a non-empty string. */
  function Lookup(vars: Entries<string>, name: string): (r: Option<string>)
    ensures r.Some? <==> Get(vars, name).Some? && Get(vars, name).value != ""
    ensures r.Some? ==> Get(vars, name) == r
  {
    match Get(vars, name)
    case None => None
    case Some(x) => if x != "" then Some(x) else None
  }

  /** What replacing with the first reference's value produces: `value`
      unchanged when it holds no reference or the first reference's name has
      no truthy value; otherwise the text before the first reference, that
      value, and the rest with every further reference replaced by the same
      value. */
  ghost predicate SubstitutesFirst(value: string, vars: Entries<string>, r: string) {
    match FirstMatch(value, 0)
    case None => r == value
    case Some(m) =>
      match Lookup(vars, Name(value, m))
      case None => r == value
      case Some(x) => r == value[..m.0] + x + ReplaceFrom(value, m.1 + 1, x)
  }

  /** `const match = VAR_REGEX.exec(value); if (match && vars[match[1]])
      value = value.replace(VAR_REGEX, vars[match[1]])`, with the search
      starting at index 0. */
  function SubstituteFirst(value: string, vars: Entries<string>): (r: string)
    ensures SubstitutesFirst(value, vars, r)
  {
    match FirstMatch(value, 0)
    case None => value
    case Some(m) =>
      match Lookup(vars, Name(value, m))
      case None => value
      case Some(x) =>
        ReplaceAllAtFirst(value, x, m.0, m.1);
        ReplaceAll(value, x)
  }
}
