/** The style extraction of the earlier version (src/extract.ts).

    `join(list)` is the deep merge of a list of style objects (`MergeAll`),
    `joinMap(list, fn)` the deep merge of the mapped list, and `pipe` is
    `Pipe.create`.  The typography plugin's configuration is the parameter
    `config`, as in `Tailwind`. */
module Extract {
  import opened Outcomes
  import opened Objects
  import opened StyleTree
  import opened VarRefs
  import Selectors
  import Pipe
  import opened LegacyConstants
  import TailwindUtils
  import TP = TailwindPipes
  import Tailwind

  /** `TwGetCssOptions`. */
  datatype CssOptions = CssOptions(vars: Option<Entries<string>>)

  /** `TwGetCssForSizesOptions`: the sizes, and the options every size is
      extracted with. */
  datatype SizesOptions = SizesOptions(sizes: Option<seq<string>>, vars: Option<Entries<string>>)

  /** `options?.vars`. */
  function VarsOf(options: Option<CssOptions>): Option<Entries<string>> {
    if options.Some? then options.value.vars else None
  }

  /** `getNestedTag(tag)`: `"& "` in front of every selector of the list. */
  function GetNestedTag(tag: string): (r: string)
    ensures r == Selectors.ParentPrefix + Selectors.InsertAfterSeparators(tag)
  {
    Selectors.NestInsertsAfterSeparators(tag);
    Selectors.Nest(tag)
  }

  /** `getValueWithVar(value, vars)`: every reference is replaced by the
      value of the first reference's name, when that value is a non-empty
      string. */
  function GetValueWithVar(value: string, vars: Entries<string>): (r: string)
    ensures SubstitutesFirst(value, vars, r)
    ensures FirstMatch(value, 0).None? ==> r == value
  {
    SubstituteFirst(value, vars)
  }

  /** `getCssWithNestedTags(css)`: nested objects get nested selectors, and
      the one-entry objects are merged deeply. */
  function GetCssWithNestedTags(css: Css): (r: Css)
    ensures WellFormed(r)
    ensures WellFormed(css) && DistinctKeys(RenameEach(css, GetNestedTag))
            ==> r == RenameEach(css, GetNestedTag)
  {
    MergeAllWellFormed(RenamedSingletons(css, GetNestedTag));
    if WellFormed(css) && DistinctKeys(RenameEach(css, GetNestedTag)) then
      RenameBlocksInPlace(css, GetNestedTag);
      RenameBlocks(css, GetNestedTag)
    else
      RenameBlocks(css, GetNestedTag)
  }

  function ValueRewriter(vars: Entries<string>): string -> string {
    v => GetValueWithVar(v, vars)
  }

  /** `getCssWithVars(css, vars)`: keys stay, nested objects are rewritten
      recursively and every declaration goes through `getValueWithVar`. */
  function GetCssWithVars(css: Css, vars: Entries<string>): (r: Css)
    ensures WellFormed(r)
    ensures WellFormed(css) ==> r == MapEach(css, ValueRewriter(vars)) && Keys(r) == Keys(css)
  {
    MergeAllWellFormed(MappedSingletons(css, ValueRewriter(vars)));
    if WellFormed(css) then
      MapDeclsInPlace(css, ValueRewriter(vars));
      MapDecls(css, ValueRewriter(vars))
    else
      MapDecls(css, ValueRewriter(vars))
  }

  /** The pipe options of the later version that do what `getCss` does:
      nest, keep the variable declarations, substitute `vars`. */
  function LaterPipes(vars: Option<Entries<string>>): TP.PipeOptions {
    TP.PipeOptions(Some(true), vars, Some(true), None)
  }

  /** `getCss(css, options)`: nested selectors always, then the variables
      when `options.vars` is given.  The plugin's variable declarations are
      kept.  This is the later pipe with `nestedTags` and `varDecs` on. */
  function GetCss(css: Css, options: Option<CssOptions>): (r: Css)
    ensures WellFormed(r)
    ensures r == Tailwind.Staged(css, LaterPipes(VarsOf(options)))
  {
    var withVars := VarsStage(VarsOf(options));
    PipeStages(css, VarsOf(options));
    StagesAgree(css, VarsOf(options));
    Pipe.Create(css, [Some(GetCssWithNestedTags), withVars])
  }

  /** `options?.vars && ((css) => getCssWithVars(css, options?.vars))`. */
  function VarsStage(vars: Option<Entries<string>>): Option<Css -> Css> {
    if vars.Some? then Some(c => GetCssWithVars(c, vars.value)) else None
  }

  lemma PipeStages(css: Css, vars: Option<Entries<string>>)
    ensures Pipe.Create(css, [Some(GetCssWithNestedTags), VarsStage(vars)])
            == if vars.Some? then GetCssWithVars(GetCssWithNestedTags(css), vars.value) else GetCssWithNestedTags(css)
  {
    if vars.Some? {
      Pipe.CreateTwo(css, GetCssWithNestedTags, c => GetCssWithVars(c, vars.value));
    } else {
      Pipe.SkipsEmptySlot(css, [Some(GetCssWithNestedTags)], []);
      assert [Some(GetCssWithNestedTags)] + [None] + [] == [Some(GetCssWithNestedTags), VarsStage(vars)];
      assert Pipe.Create(css, [Some(GetCssWithNestedTags)]) == Pipe.Create(GetCssWithNestedTags(css), []);
    }
  }

  /** Each stage of `getCss` is the later pipe of the same purpose. */
  lemma StagesAgree(css: Css, vars: Option<Entries<string>>)
    ensures GetCssWithNestedTags(css) == TP.WithNestedTags(css)
    ensures vars.Some? ==>
              GetCssWithVars(GetCssWithNestedTags(css), vars.value)
              == TP.WithCssVars(TP.WithNestedTags(css), vars.value)
  {
    NestedTagsAgree(css);
    if vars.Some? {
      CssWithVarsAgree(TP.WithNestedTags(css), vars.value);
    }
  }

  /** `getCssWithNestedTags` is the later `withNestedTags` pipe. */
  lemma NestedTagsAgree(css: Css)
    ensures GetCssWithNestedTags(css) == TP.WithNestedTags(css)
  {
    RenameBlocksExtensional(css, GetNestedTag, Selectors.Nest);
  }

  /** `getCssWithVars` is the later `withCssVars` pipe. */
  lemma CssWithVarsAgree(css: Css, vars: Entries<string>)
    ensures GetCssWithVars(css, vars) == TP.WithCssVars(css, vars)
  {
    forall s ensures ValueRewriter(vars)(s) == TP.VarRewriter(vars)(s) {
      assert GetValueWithVar(s, vars) == TailwindUtils.ReplaceCssVar(s, vars);
    }
    MapDeclsExtensional(css, ValueRewriter(vars), TP.VarRewriter(vars));
  }

  /** `getNestedTag` is the later `createNestedCssSelector`, and
      `getValueWithVar` the later `replaceCssVar`. */
  lemma HelpersAgree(tag: string, value: string, vars: Entries<string>)
    ensures GetNestedTag(tag) == TailwindUtils.CreateNestedCssSelector(tag)
    ensures GetValueWithVar(value, vars) == TailwindUtils.ReplaceCssVar(value, vars)
  {
  }

  /** `getCss(join(config[key].css), options)`; reading a key the
      configuration lacks throws. */
  function CssAt(config: Tailwind.Config, key: string, options: Option<CssOptions>): (r: Outcome<Css>)
    ensures r.Thrown? <==> key !in config
    ensures r.Ok? ==> r.value == GetCss(MergeAll(config[key]), options) && WellFormed(r.value)
  {
    if key in config then Ok(GetCss(MergeAll(config[key]), options))
    else Thrown(TypeError("Cannot read properties of undefined (reading 'css')"))
  }

  /** `getCssDefaults(options)`: the later `getCssDefaults` with the pipes
      of `getCss`. */
  function GetCssDefaults(config: Tailwind.Config, options: Option<CssOptions>): (r: Outcome<Css>)
    ensures r.Thrown? <==> TwDefault !in config
    ensures r == Tailwind.GetCssDefaults(config, Some(Tailwind.CssOptions(Some(LaterPipes(VarsOf(options))))))
  {
    CssAt(config, TwDefault, options)
  }

  /** `getCssForSize(size, options)`: the later `getCssForSize` with the
      pipes of `getCss`. */
  function GetCssForSize(config: Tailwind.Config, size: string, options: Option<CssOptions>): (r: Outcome<Css>)
    ensures r.Thrown? <==> size !in config
    ensures r == Tailwind.GetCssForSize(config, size, Some(Tailwind.CssOptions(Some(LaterPipes(VarsOf(options))))))
  {
    CssAt(config, size, options)
  }

  /** The sizes `getCssForSizes` visits: `options?.sizes ?? TW_SIZES`. */
  function SelectedSizes(options: Option<SizesOptions>): seq<string> {
    if options.Some? && options.value.sizes.Some? then options.value.sizes.value else TwSizes
  }

  /** The options each size is extracted with: `options` itself, of which
      `getCss` reads only `vars`. */
  function SizeCssOptions(options: Option<SizesOptions>): Option<CssOptions> {
    if options.Some? then Some(CssOptions(options.value.vars)) else None
  }

  /** `getCssForSize(size, options)` for each size in turn; the first size
      that throws stops the map. */
  function SizeValues(config: Tailwind.Config, sizes: seq<string>, options: Option<CssOptions>): (r: Outcome<seq<Css>>)
    decreases |sizes|
    ensures r.Thrown? <==> exists i :: 0 <= i < |sizes| && sizes[i] !in config
    ensures r.Ok? ==> |r.value| == |sizes|
    ensures r.Ok? ==> forall i :: 0 <= i < |sizes| ==>
              GetCssForSize(config, sizes[i], options) == Ok(r.value[i]) && WellFormed(r.value[i])
  {
    if |sizes| == 0 then Ok([])
    else
      var head :- GetCssForSize(config, sizes[0], options);
      var rest :- SizeValues(config, sizes[1..], options);
      assert forall i :: 1 <= i < |sizes| ==> sizes[i] == sizes[1..][i - 1];
      Ok([head] + rest)
  }

  /** `getCssForSizes(options)`: the selected sizes (all five by default),
      each keyed to its styles.  Unlike the later version it accepts absent
      options; it throws only when a selected size is missing. */
  function GetCssForSizes(config: Tailwind.Config, options: Option<SizesOptions>): (r: Outcome<Css>)
    ensures r.Thrown? <==> exists i :: 0 <= i < |SelectedSizes(options)| && SelectedSizes(options)[i] !in config
    ensures r.Ok? ==> forall k :: k in Keys(r.value) <==> k in SelectedSizes(options)
  {
    var sizes := SelectedSizes(options);
    var values :- SizeValues(config, sizes, SizeCssOptions(options));
    KeyedMerged(sizes, values);
    Ok(MergeAll(Keyed(sizes, values)))
  }

  /** Without repeated sizes, the result lists the sizes in order, each
      holding `getCssForSize(size, options)`. */
  lemma GetCssForSizesValues(config: Tailwind.Config, options: Option<SizesOptions>)
    requires GetCssForSizes(config, options).Ok?
    requires NoDuplicates(SelectedSizes(options))
    ensures var r := GetCssForSizes(config, options).value;
            && Keys(r) == SelectedSizes(options)
            && forall i :: 0 <= i < |SelectedSizes(options)| ==>
                 Get(r, SelectedSizes(options)[i])
                 == Some(Block(GetCssForSize(config, SelectedSizes(options)[i], SizeCssOptions(options)).value))
  {
    var sizes := SelectedSizes(options);
    var values := SizeValues(config, sizes, SizeCssOptions(options)).value;
    KeyedMerged(sizes, values);
    TableGetAll(sizes, values);
  }

  /** With options, the earlier `getCssForSizes` is the later one given the
      pipes of `getCss`. */
  lemma GetCssForSizesAgrees(config: Tailwind.Config, o: SizesOptions)
    ensures GetCssForSizes(config, Some(o))
            == Tailwind.GetCssForSizes(config, Some(Tailwind.SizesOptions(Some(Tailwind.CssOptions(Some(LaterPipes(o.vars)))), o.sizes)))
  {
    var later := Some(Tailwind.SizesOptions(Some(Tailwind.CssOptions(Some(LaterPipes(o.vars)))), o.sizes));
    assert SelectedSizes(Some(o)) == Tailwind.SelectedSizes(later);
    SizeValuesAgree(config, SelectedSizes(Some(o)), Some(CssOptions(o.vars)));
  }

  lemma {:induction false} SizeValuesAgree(config: Tailwind.Config, sizes: seq<string>, options: Option<CssOptions>)
    ensures SizeValues(config, sizes, options)
            == Tailwind.SizeValues(config, sizes, Some(Tailwind.CssOptions(Some(LaterPipes(VarsOf(options))))))
    decreases |sizes|
  {
    if |sizes| > 0 {
      SizeValuesAgree(config, sizes[1..], options);
    }
  }

  /** Without options every size is extracted, where the later version
      throws. */
  lemma GetCssForSizesWithoutOptions(config: Tailwind.Config)
    requires forall i :: 0 <= i < |TwSizes| ==> TwSizes[i] in config
    ensures GetCssForSizes(config, None).Ok?
    ensures Keys(GetCssForSizes(config, None).value) == TwSizes
    ensures Tailwind.GetCssForSizes(config, None).Thrown?
  {
    TwVarNamesAgree();
    TailwindConstantsDistinct();
    GetCssForSizesValues(config, None);
  }

  lemma TailwindConstantsDistinct()
    ensures NoDuplicates(TwSizes)
  {
  }
}
