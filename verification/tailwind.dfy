/** `Tailwind.Constants` (src/tailwind.ts). */
module TailwindConstants {
  import opened Objects
  import opened Strings

  /** The configuration key of the default styles. */
  const DefaultKey: string := "DEFAULT"

  /** The sizes of the typography plugin, in their order. */
  const Sizes: seq<string> := ["sm", "base", "lg", "xl", "2xl"]

  /** What `VAR_DEC_REGEX` (`/--tw-prose-(.*?)/`) looks for: its lazy group
      may match nothing, so the expression matches exactly the keys that
      contain this text. */
  const VarDecMarker: string := "--tw-prose-"

  const DefaultNotProseClassName: string := "not-prose"

  /** The properties of `Tailwind.Types.Vars`: the names of the plugin's
      colour variables, each read through `var(--tw-prose-<name>)`. */
  const VarNames: seq<string> := [
    "body", "headings", "lead", "links", "bold", "counters", "bullets", "hr", "quotes",
    "quote-borders", "captions", "kbd", "kbd-shadows", "code", "pre-code", "pre-bg",
    "th-borders", "td-borders"
  ]

  /** The five sizes are distinct and none of them is the default key, so the
      configuration keys never clash. */
  lemma SizesDistinct()
    ensures |Sizes| == 5 && NoDuplicates(Sizes)
    ensures DefaultKey !in Sizes
  {
  }

  /** The eighteen variables are distinct. */
  lemma VarNamesDistinct()
    ensures |VarNames| == 18 && NoDuplicates(VarNames)
  {
  }

  /** `VAR_DEC_REGEX.test(key)`: the key declares one of the plugin's CSS
      variables. */
  predicate IsVarDec(key: string) {
    Contains(key, VarDecMarker)
  }
}

/** `Tailwind.Utils` (src/tailwind.ts). */
module TailwindUtils {
  import opened Outcomes
  import opened Objects
  import opened Strings
  import Selectors
  import opened VarRefs

  /** `createNestedCssSelector`: `"& "` in front of every selector of the list. */
  function CreateNestedCssSelector(cssSelector: string): (r: string)
    ensures r == Selectors.ParentPrefix + Selectors.InsertAfterSeparators(cssSelector)
    ensures !Contains(cssSelector, Selectors.Separator) ==> r == "& " + cssSelector
  {
    Selectors.NestInsertsAfterSeparators(cssSelector);
    if !Contains(cssSelector, Selectors.Separator) then
      Selectors.NestSingleSelector(cssSelector);
      Selectors.Nest(cssSelector)
    else
      Selectors.Nest(cssSelector)
  }

  /** `replaceCssVar(value, vars)`: every reference is replaced, but by the
      value of the FIRST reference's name, and only when that value is a
      non-empty string. */
  function ReplaceCssVar(value: string, vars: Entries<string>): (r: string)
    ensures SubstitutesFirst(value, vars, r)
    ensures FirstMatch(value, 0).None? ==> r == value
  {
    SubstituteFirst(value, vars)
  }

  /** Two different references in one value both become the first one's
      value. */
  lemma ReplaceCssVarUsesFirstValue()
    ensures ReplaceCssVar("var(--tw-prose-body) var(--tw-prose-links)",
                          Entry("body", "A", Entry("links", "B", Empty))) == "A A"
  {
    var s := "var(--tw-prose-body) var(--tw-prose-links)";
    ExampleFirstReference(s);
    ExampleSecondReference(s);
    var vars := Entry("body", "A", Entry("links", "B", Empty));
    assert Lookup(vars, "body") == Some("A");
    ReplaceAllAtFirst(s, "A", 0, 19);
    assert ReplaceAll(s, "A") == "A A";
  }

  lemma ExampleFirstReference(s: string)
    requires s == "var(--tw-prose-body) var(--tw-prose-links)"
    ensures FirstMatch(s, 0) == Some((0, 19)) && Name(s, (0, 19)) == "body"
  {
    assert s[0..15] == Prefix;
    assert CloseFrom(s, 15) == Some(19) by {
      assert CloseFrom(s, 19) == Some(19);
      assert CloseFrom(s, 18) == CloseFrom(s, 19);
      assert CloseFrom(s, 17) == CloseFrom(s, 18);
      assert CloseFrom(s, 16) == CloseFrom(s, 17);
    }
    assert MatchAt(s, 0) == Some(19);
    assert s[15..19] == "body";
  }

  /** After the first reference, the scan keeps the space and replaces the
      second reference. */
  lemma ExampleSecondReference(s: string)
    requires s == "var(--tw-prose-body) var(--tw-prose-links)"
    ensures ReplaceFrom(s, 20, "A") == " A"
  {
    assert |s| == 42;
    assert s[21..36] == Prefix;
    assert CloseFrom(s, 36) == Some(41) by {
      assert CloseFrom(s, 41) == Some(41);
      assert CloseFrom(s, 40) == CloseFrom(s, 41);
      assert CloseFrom(s, 39) == CloseFrom(s, 40);
      assert CloseFrom(s, 38) == CloseFrom(s, 39);
      assert CloseFrom(s, 37) == CloseFrom(s, 38);
    }
    assert MatchAt(s, 21) == Some(41);
    assert s[20..35] != Prefix by {
      assert s[20] != Prefix[0];
    }
    assert MatchAt(s, 20) == None;
    assert ReplaceFrom(s, 42, "A") == "";
    assert ReplaceFrom(s, 21, "A") == "A";
  }
}

/** `Tailwind.Pipes` (src/tailwind.ts): the style-object rewrites and the
    menu that selects them. */
module TailwindPipes {
  import opened Outcomes
  import opened Objects
  import opened Strings
  import opened StyleTree
  import Selectors
  import opened TailwindConstants
  import TailwindUtils
  import VarRefs

  /** `notProse`: `true`/`false`, or an object with an optional class name. */
  datatype NotProseOption = NotProseFlag(on: bool) | NotProseClass(className: Option<string>)

  /** `Pipes.Types.GetOptions`; `None` is an absent property. */
  datatype PipeOptions = PipeOptions(
    nestedTags: Option<bool>,
    vars: Option<Entries<string>>,
    varDecs: Option<bool>,
    notProse: Option<NotProseOption>)

  /** `{}`. */
  const NoPipeOptions: PipeOptions := PipeOptions(None, None, None, None)

  predicate IsTrue(b: Option<bool>) {
    b == Some(true)
  }

  /** `notProse` used as a condition: a flag is itself, an object is truthy. */
  predicate NotProseTruthy(n: Option<NotProseOption>) {
    n.Some? && (n.value.NotProseClass? || n.value.on)
  }

  // ---------------------------------------------------------------------------
  // withoutVarDecs

  /** `withoutVarDecs`: copy every top-level entry whose key is not a
      variable declaration into a new object. */
  function WithoutVarDecs(input: Css): (r: Css)
    ensures forall k :: k in Keys(r) <==> k in Keys(input) && !IsVarDec(k)
    ensures DistinctKeys(input) ==> r == Filter(input)
    ensures WellFormed(input) ==> WellFormed(r)
  {
    ConcatEmpty(Filter(input));
    if WellFormed(input) then
      WellFormedDistinctKeys(input);
      CopyKept(Empty, input);
      FilterWellFormed(input);
      CopyEntries(Empty, input)
    else if DistinctKeys(input) then
      CopyKept(Empty, input);
      CopyEntries(Empty, input)
    else
      CopyEntries(Empty, input)
  }

  /** The `forEach` loop: `result[k] = v` for every kept entry. */
  function CopyEntries(result: Css, rest: Css): (r: Css)
    decreases rest
    ensures forall k :: k in Keys(r) <==> k in Keys(result) || (k in Keys(rest) && !IsVarDec(k))
  {
    match rest
    case Empty => result
    case Entry(k, v, tail) => CopyEntries(if IsVarDec(k) then result else Set(result, k, v), tail)
  }

  /** Reference definition: the entries that are not variable declarations,
      in their order and with their values. */
  function Filter(css: Css): (r: Css)
    decreases css
    ensures forall k :: k in Keys(r) <==> k in Keys(css) && !IsVarDec(k)
    ensures DistinctKeys(css) ==> forall k :: Objects.Get(r, k) == if IsVarDec(k) then None else Objects.Get(css, k)
  {
    match css
    case Empty => Empty
    case Entry(k, v, rest) => if IsVarDec(k) then Filter(rest) else Entry(k, v, Filter(rest))
  }

  lemma {:induction false} CopyKept(result: Css, rest: Css)
    requires DistinctKeys(rest)
    requires forall k :: k in Keys(rest) ==> k !in Keys(result)
    ensures CopyEntries(result, rest) == Concat(result, Filter(rest))
    decreases rest
  {
    match rest
    case Empty =>
      ConcatEmpty(result);
    case Entry(k, v, tail) =>
      if IsVarDec(k) {
        CopyKept(result, tail);
      } else {
        SetFresh(result, k, v);
        CopyKept(Concat(result, Entry(k, v, Empty)), tail);
        ConcatAssociative(result, Entry(k, v, Empty), Filter(tail));
      }
  }

  lemma {:induction false} FilterWellFormed(css: Css)
    requires WellFormed(css)
    ensures WellFormed(Filter(css))
    decreases css
  {
    match css
    case Empty =>
    case Entry(k, v, rest) =>
      FilterWellFormed(rest);
  }

  // ---------------------------------------------------------------------------
  // withNestedTags

  /** `withNestedTags`: keys of nested objects become nested selectors;
      declarations and all values stay as they are, and nothing deeper is
      visited. */
  function WithNestedTags(input: Css): (r: Css)
    ensures WellFormed(r)
    ensures WellFormed(input) && DistinctKeys(RenameEach(input, Selectors.Nest))
            ==> r == RenameEach(input, Selectors.Nest)
  {
    MergeAllWellFormed(RenamedSingletons(input, Selectors.Nest));
    if WellFormed(input) && DistinctKeys(RenameEach(input, Selectors.Nest)) then
      RenameBlocksInPlace(input, Selectors.Nest);
      RenameBlocks(input, Selectors.Nest)
    else
      RenameBlocks(input, Selectors.Nest)
  }

  /** No renamed keys collide when no declaration is keyed by the nested form
      of a nested object's key. */
  lemma NestedTagsDistinct(input: Css)
    requires DistinctKeys(input)
    requires forall b, d :: BlockKey(input, b) && DeclKey(input, d) ==> Selectors.Nest(b) != d
    ensures DistinctKeys(RenameEach(input, Selectors.Nest))
  {
    forall a, b | Selectors.Nest(a) == Selectors.Nest(b) ensures a == b {
      Selectors.NestInjective(a, b);
    }
    RenameEachDistinct(input, Selectors.Nest);
  }

  // ---------------------------------------------------------------------------
  // withCssVars

  function VarRewriter(vars: Entries<string>): string -> string {
    v => TailwindUtils.ReplaceCssVar(v, vars)
  }

  /** `withCssVars`: keys stay, nested objects are rewritten recursively and
      every declaration goes through `replaceCssVar`. */
  function WithCssVars(input: Css, vars: Entries<string>): (r: Css)
    ensures WellFormed(r)
    ensures WellFormed(input) ==> r == MapEach(input, VarRewriter(vars))
    ensures WellFormed(input) ==> Keys(r) == Keys(input)
  {
    MergeAllWellFormed(MappedSingletons(input, VarRewriter(vars)));
    if WellFormed(input) then
      MapDeclsInPlace(input, VarRewriter(vars));
      MapDecls(input, VarRewriter(vars))
    else
      MapDecls(input, VarRewriter(vars))
  }

  /** Some declaration of `css`, at any depth, holds a reference
      `var(--tw-prose-<name>)`. */
  predicate HasReference(css: Css) {
    match css
    case Empty => false
    case Entry(_, v, rest) =>
      (if v.Block? then HasReference(v.rules) else VarRefs.FirstMatch(v.text, 0).Some?) || HasReference(rest)
  }

  /** `withCssVars(input, options)` where `options?.vars` may be absent.
      `replaceCssVar` then reads `vars[match[1]]` of `undefined`, which
      throws at the first declaration holding a reference; a tree without
      references comes back as it is. */
  function WithCssVarsOptional(input: Css, vars: Option<Entries<string>>): (r: Outcome<Css>)
    ensures r.Thrown? <==> vars.None? && HasReference(input)
    ensures vars.Some? ==> r == Ok(WithCssVars(input, vars.value))
    ensures r.Ok? && vars.None? && WellFormed(input) ==> r.value == input
  {
    if vars.Some? then Ok(WithCssVars(input, vars.value))
    else if HasReference(input) then Thrown(TypeError("Cannot read properties of undefined"))
    else
      if WellFormed(input) then
        RewriteWithoutReference(input, Empty);
        Ok(WithCssVars(input, Empty))
      else
        Ok(WithCssVars(input, Empty))
  }

  /** Rewriting a tree without references changes nothing, whatever the
      variables. */
  lemma {:induction false} RewriteWithoutReference(css: Css, vars: Entries<string>)
    requires !HasReference(css)
    ensures MapEach(css, VarRewriter(vars)) == css
    decreases css
  {
    match css
    case Empty =>
    case Entry(k, v, rest) =>
      if v.Block? {
        RewriteWithoutReference(v.rules, vars);
      }
      RewriteWithoutReference(rest, vars);
  }

  // ---------------------------------------------------------------------------
  // withNotProseClasses

  /** The selector that keeps a rule away from elements marked `not-prose`.
      The second attribute selector is the literal text `$className}`. */
  function NotProseSelector(key: string, className: string): string {
    ":where(" + key + "):not(:where([class~=\"" + className + "\"],[class~=\"$className}\"] *))"
  }

  function NotProseRenamer(className: string): string -> string {
    k => NotProseSelector(k, className)
  }

  lemma NotProseSelectorInjective(a: string, b: string, className: string)
    requires NotProseSelector(a, className) == NotProseSelector(b, className)
    ensures a == b
  {
    var s := NotProseSelector(a, className);
    assert |a| == |b|;
    assert a == s[7..7 + |a|];
    assert b == NotProseSelector(b, className)[7..7 + |b|];
  }

  /** `withNotProseClasses`: keys of nested objects are wrapped in the
      exclusion selector for `className ?? "not-prose"`. */
  function WithNotProseClasses(input: Css, className: Option<string>): (r: Css)
    ensures WellFormed(r)
    ensures var rename := NotProseRenamer(className.Otherwise(DefaultNotProseClassName));
            WellFormed(input) && DistinctKeys(RenameEach(input, rename)) ==> r == RenameEach(input, rename)
  {
    var rename := NotProseRenamer(className.Otherwise(DefaultNotProseClassName));
    MergeAllWellFormed(RenamedSingletons(input, rename));
    if WellFormed(input) && DistinctKeys(RenameEach(input, rename)) then
      RenameBlocksInPlace(input, rename);
      RenameBlocks(input, rename)
    else
      RenameBlocks(input, rename)
  }

  /** No renamed keys collide when no declaration is keyed by a wrapped
      selector. */
  lemma NotProseDistinct(input: Css, className: string)
    requires DistinctKeys(input)
    requires forall b, d :: BlockKey(input, b) && DeclKey(input, d) ==> NotProseSelector(b, className) != d
    ensures DistinctKeys(RenameEach(input, NotProseRenamer(className)))
  {
    var rename := NotProseRenamer(className);
    forall a, b | rename(a) == rename(b) ensures a == b {
      NotProseSelectorInjective(a, b, className);
    }
    RenameEachDistinct(input, rename);
  }

  // ---------------------------------------------------------------------------
  // Pipes.get

  /** The class name `withNotProseClasses` receives: an object option's
      `className`; `true` passes `false`, whose `className` is undefined. */
  function NotProseClassName(n: NotProseOption): Option<string> {
    if n.NotProseClass? then n.className else None
  }

  /** `Pipes.get(options)`: four slots in the order strip, not-prose, nest,
      vars; a disabled slot is falsy. */
  function Get(options: PipeOptions): (r: seq<Option<Css -> Css>>)
    ensures |r| == 4
    ensures r[0].Some? <==> !IsTrue(options.varDecs)
    ensures r[1].Some? <==> NotProseTruthy(options.notProse)
    ensures r[2].Some? <==> IsTrue(options.nestedTags)
    ensures r[3].Some? <==> options.vars.Some?
    ensures r[0].Some? ==> forall css :: r[0].value(css) == WithoutVarDecs(css)
    ensures r[1].Some? ==> forall css ::
              r[1].value(css) == WithNotProseClasses(css, NotProseClassName(options.notProse.value))
    ensures r[2].Some? ==> forall css :: r[2].value(css) == WithNestedTags(css)
    ensures r[3].Some? ==> forall css :: r[3].value(css) == WithCssVars(css, options.vars.value)
  {
    [
      if !IsTrue(options.varDecs) then Some(WithoutVarDecs) else None,
      if NotProseTruthy(options.notProse)
      then Some((css: Css) => WithNotProseClasses(css, NotProseClassName(options.notProse.value)))
      else None,
      if IsTrue(options.nestedTags) then Some(WithNestedTags) else None,
      if options.vars.Some? then Some((css: Css) => WithCssVars(css, options.vars.value)) else None
    ]
  }
}

/** `Tailwind` (src/tailwind.ts): style objects read from the typography
    plugin's configuration and transformed by the pipes.

    The configuration (`getConfig()`, a call into the plugin) is a parameter:
    it maps `"DEFAULT"` and each size to the list of style objects the plugin
    declares for it. */
module Tailwind {
  import opened Outcomes
  import opened Objects
  import opened StyleTree
  import opened TailwindConstants
  import opened TailwindPipes
  import Pipe

  type Config = map<string, seq<Css>>

  /** `Tailwind.Types.CssOptions`. */
  datatype CssOptions = CssOptions(pipes: Option<PipeOptions>)

  /** `Tailwind.Types.GetCssForSizesOptions`. */
  datatype SizesOptions = SizesOptions(css: Option<CssOptions>, sizes: Option<seq<string>>)

  /** `{ ...options?.css?.pipes }`. */
  function PipesOf(css: Option<CssOptions>): PipeOptions {
    if css.Some? && css.value.pipes.Some? then css.value.pipes.value else NoPipeOptions
  }

  /** Reference definition of the pipe: each enabled rewrite in turn, in the
      order strip, not-prose, nest, vars. */
  function Staged(css: Css, p: PipeOptions): Css {
    var stripped := if !IsTrue(p.varDecs) then WithoutVarDecs(css) else css;
    var guarded := if NotProseTruthy(p.notProse)
                   then WithNotProseClasses(stripped, NotProseClassName(p.notProse.value))
                   else stripped;
    var nested := if IsTrue(p.nestedTags) then WithNestedTags(guarded) else guarded;
    if p.vars.Some? then WithCssVars(nested, p.vars.value) else nested
  }

  /** `transformCss(css, { css: options })`: `Pipe.create` over the slots of
      `Pipes.get`, which is the staged rewrite; without options it only
      drops the variable declarations. */
  function TransformCss(css: Css, options: Option<CssOptions>): (r: Css)
    ensures r == Staged(css, PipesOf(options))
    ensures PipesOf(options) == NoPipeOptions ==> r == WithoutVarDecs(css)
    ensures WellFormed(css) ==> WellFormed(r)
  {
    var slots := TailwindPipes.Get(PipesOf(options));
    assert slots == slots[..1] + slots[1..2] + slots[2..3] + slots[3..];
    Pipe.CreateConcat(css, slots[..1], slots[1..]);
    Pipe.CreateConcat(Pipe.Create(css, slots[..1]), slots[1..2], slots[2..]);
    assert slots[1..][1..] == slots[2..];
    Pipe.CreateConcat(Pipe.Create(Pipe.Create(css, slots[..1]), slots[1..2]), slots[2..3], slots[3..]);
    assert slots[2..][1..] == slots[3..];
    Pipe.Create(css, slots)
  }

  /** The styles the configuration lists under `key`, merged deeply and
      transformed; reading a key the configuration lacks throws. */
  function CssAt(config: Config, key: string, options: Option<CssOptions>): (r: Outcome<Css>)
    ensures r.Thrown? <==> key !in config
    ensures r.Ok? ==> r.value == TransformCss(MergeAll(config[key]), options)
    ensures r.Ok? ==> WellFormed(r.value)
  {
    if key in config then
      MergeAllWellFormed(config[key]);
      Ok(TransformCss(MergeAll(config[key]), options))
    else
      Thrown(TypeError("Cannot read properties of undefined (reading 'css')"))
  }

  /** `getCssDefaults({ css: options })`. */
  function GetCssDefaults(config: Config, options: Option<CssOptions>): (r: Outcome<Css>)
    ensures r.Thrown? <==> DefaultKey !in config
    ensures r.Ok? ==> r.value == TransformCss(MergeAll(config[DefaultKey]), options)
    ensures r.Ok? ==> WellFormed(r.value)
  {
    CssAt(config, DefaultKey, options)
  }

  /** `getCssForSize(size, { css: options })`. */
  function GetCssForSize(config: Config, size: string, options: Option<CssOptions>): (r: Outcome<Css>)
    ensures r.Thrown? <==> size !in config
    ensures r.Ok? ==> r.value == TransformCss(MergeAll(config[size]), options)
    ensures r.Ok? ==> WellFormed(r.value)
  {
    CssAt(config, size, options)
  }

  /** The sizes `getCssForSizes` visits: `options?.sizes ?? SIZES`. */
  function SelectedSizes(options: Option<SizesOptions>): seq<string> {
    if options.Some? && options.value.sizes.Some? then options.value.sizes.value else Sizes
  }

  /** `getCssForSize(size, { css })` for each size in turn; the first size
      that throws stops the map. */
  function SizeValues(config: Config, sizes: seq<string>, css: Option<CssOptions>): (r: Outcome<seq<Css>>)
    decreases |sizes|
    ensures r.Thrown? <==> exists i :: 0 <= i < |sizes| && sizes[i] !in config
    ensures r.Ok? ==> |r.value| == |sizes|
    ensures r.Ok? ==> forall i :: 0 <= i < |sizes| ==>
              GetCssForSize(config, sizes[i], css) == Ok(r.value[i]) && WellFormed(r.value[i])
  {
    if |sizes| == 0 then Ok([])
    else
      var head :- GetCssForSize(config, sizes[0], css);
      var rest :- SizeValues(config, sizes[1..], css);
      assert forall i :: 1 <= i < |sizes| ==> sizes[i] == sizes[1..][i - 1];
      Ok([head] + rest)
  }

  /** `getCssForSizes(options)`: the selected sizes (all five by default),
      each keyed to `getCssForSize(size, { css })`.  It throws when called
      without options, because the callback reads `options.css`, and when a
      selected size is missing from the configuration. */
  function GetCssForSizes(config: Config, options: Option<SizesOptions>): (r: Outcome<Css>)
    ensures options.None? ==> r.Thrown?
    ensures options.Some? ==> (r.Thrown? <==> exists i :: 0 <= i < |SelectedSizes(options)| && SelectedSizes(options)[i] !in config)
    ensures r.Ok? ==> forall k :: k in Keys(r.value) <==> k in SelectedSizes(options)
  {
    var sizes := SelectedSizes(options);
    if options.None? then
      Thrown(TypeError("Cannot read properties of undefined (reading 'css')"))
    else
      var values :- SizeValues(config, sizes, options.value.css);
      KeyedMerged(sizes, values);
      Ok(MergeAll(Keyed(sizes, values)))
  }

  /** Asking for no sizes gives `{}`: an empty selection is not an error. */
  lemma GetCssForSizesNoSizes(config: Config, css: Option<CssOptions>)
    ensures GetCssForSizes(config, Some(SizesOptions(css, Some([])))) == Ok(Empty)
  {
    assert SizeValues(config, [], css) == Ok([]);
    assert MergeAll(Keyed([], [])) == Empty;
  }

  /** Without repeated sizes, the result lists the sizes in order, each
      holding `getCssForSize(size, { css })`. */
  lemma GetCssForSizesValues(config: Config, options: Option<SizesOptions>)
    requires GetCssForSizes(config, options).Ok?
    requires NoDuplicates(SelectedSizes(options))
    ensures options.Some?
    ensures var r := GetCssForSizes(config, options).value;
            && Keys(r) == SelectedSizes(options)
            && forall i :: 0 <= i < |SelectedSizes(options)| ==>
                 Objects.Get(r, SelectedSizes(options)[i])
                 == Some(Block(GetCssForSize(config, SelectedSizes(options)[i], options.value.css).value))
  {
    var sizes := SelectedSizes(options);
    var values := SizeValues(config, sizes, options.value.css).value;
    KeyedMerged(sizes, values);
    TableGetAll(sizes, values);
  }
}
