/** `Recipe` (src/recipe.ts): the PandaCSS recipe built from the typography
    plugin's styles, the CSS variable table that points the plugin's colours
    at semantic tokens, and the default semantic tokens themselves.

    The plugin's configuration is the parameter `config` (see `Tailwind`). */
module Recipe {
  import opened Outcomes
  import opened Objects
  import opened StyleTree
  import opened Panda
  import opened TailwindConstants
  import TP = TailwindPipes
  import opened Tailwind

  const DefaultName: string := "prose"
  const DefaultClassName: string := "prose"

  /** `Recipe.Types.Options`; `None` is an absent property. */
  datatype Options = Options(
    name: Option<string>,
    className: Option<string>,
    jsx: Option<seq<JsxMatcher>>,
    not: Option<TP.NotProseOption>,
    sizes: Option<seq<string>>)

  /** `Recipe.Types.TailwindOptions`. */
  datatype TailwindOptions = TailwindOptions(css: Option<CssOptions>, sizes: Option<seq<string>>)

  /** `options?.recipe?.<field>` for an optional recipe. */
  function NameOf(recipe: Option<Options>): Option<string> {
    if recipe.Some? then recipe.value.name else None
  }

  function ClassNameOf(recipe: Option<Options>): Option<string> {
    if recipe.Some? then recipe.value.className else None
  }

  function SizesOf(recipe: Option<Options>): Option<seq<string>> {
    if recipe.Some? then recipe.value.sizes else None
  }

  function NotOf(recipe: Option<Options>): Option<TP.NotProseOption> {
    if recipe.Some? then recipe.value.not else None
  }

  /** `options?.tailwind?.css`. */
  function CssOf(tailwind: Option<TailwindOptions>): Option<CssOptions> {
    if tailwind.Some? then tailwind.value.css else None
  }

  // ---------------------------------------------------------------------------
  // Names

  /** `deriveName({ recipe, default })`: the recipe's name, else `default`,
      else `"prose"`. */
  function DeriveName(recipe: Option<Options>, fallback: Option<string>): (r: string)
    ensures NameOf(recipe).Some? ==> r == NameOf(recipe).value
    ensures NameOf(recipe).None? && fallback.Some? ==> r == fallback.value
    ensures NameOf(recipe).None? && fallback.None? ==> r == "prose"
  {
    NameOf(recipe).OrElse(fallback).Otherwise(DefaultName)
  }

  /** `deriveClassName({ recipe, default })`: the recipe's class name, else
      `default`, else `"prose"`. */
  function DeriveClassName(recipe: Option<Options>, fallback: Option<string>): (r: string)
    ensures ClassNameOf(recipe).Some? ==> r == ClassNameOf(recipe).value
    ensures ClassNameOf(recipe).None? && fallback.Some? ==> r == fallback.value
    ensures ClassNameOf(recipe).None? && fallback.None? ==> r == "prose"
  {
    ClassNameOf(recipe).OrElse(fallback).Otherwise(DefaultClassName)
  }

  /** The derived name never looks at the class name, and the derived class
      name never looks at the name. */
  lemma DerivationsIndependent(o: Options, name: Option<string>, className: Option<string>, fallback: Option<string>)
    ensures DeriveName(Some(o.(className := className)), fallback) == DeriveName(Some(o), fallback)
    ensures DeriveClassName(Some(o.(name := name)), fallback) == DeriveClassName(Some(o), fallback)
  {
  }

  // ---------------------------------------------------------------------------
  // The CSS variable table

  /** For each variable of `Tailwind.Types.Vars`, the semantic token path it
      is pointed at, dash-separated as in the CSS variable name. */
  const VarSlots: seq<(string, string)> := [
    ("body", "body"), ("headings", "heading"), ("lead", "lead"), ("links", "link"),
    ("bold", "bold"), ("counters", "counter"), ("bullets", "bullet"), ("hr", "hr-border"),
    ("quotes", "quote"), ("quote-borders", "quote-border"), ("captions", "caption"),
    ("kbd", "kbd"), ("kbd-shadows", "kbd-shadow"), ("code", "code"), ("pre-code", "pre-code"),
    ("pre-bg", "pre-bg"), ("th-borders", "th-border"), ("td-borders", "td-border")
  ]

  /** The CSS variable PandaCSS emits for colour token `<prefix>.<slot>`. */
  function ColorVar(prefix: string, slot: string): string {
    "var(--colors-" + prefix + "-" + slot + ")"
  }

  /** The variable table written out entry by entry. */
  function VarTable(prefix: string, slots: seq<(string, string)>): Entries<string> {
    if |slots| == 0 then Empty
    else Entry(slots[0].0, ColorVar(prefix, slots[0].1), VarTable(prefix, slots[1..]))
  }

  /** The table has one key per slot, in slot order, and the first slot of
      each name decides that name's variable. */
  lemma {:induction false} VarTableEntries(prefix: string, slots: seq<(string, string)>)
    ensures Keys(VarTable(prefix, slots)) == seq(|slots|, i requires 0 <= i < |slots| => slots[i].0)
    ensures forall i :: 0 <= i < |slots| && (forall j :: 0 <= j < i ==> slots[j].0 != slots[i].0)
              ==> Get(VarTable(prefix, slots), slots[i].0) == Some(ColorVar(prefix, slots[i].1))
    decreases |slots|
  {
    if |slots| > 0 {
      VarTableEntries(prefix, slots[1..]);
      assert forall i :: 1 <= i < |slots| ==> slots[1..][i - 1] == slots[i];
    }
  }

  lemma VarSlotsShape()
    ensures seq(|VarSlots|, i requires 0 <= i < |VarSlots| => VarSlots[i].0) == VarNames
    ensures forall i, j :: 0 <= j < i < |VarSlots| ==> VarSlots[j].0 != VarSlots[i].0
  {
  }

  /** `getTailwindVars({ recipe, prefix })`. */
  function GetTailwindVars(recipe: Option<Options>, prefix: Option<string>): Entries<string> {
    VarTable(prefix.Otherwise(DeriveName(recipe, None)), VarSlots)
  }

  /** The table returned by `getTailwindVars` has exactly the eighteen
      variables of `Tailwind.Types.Vars`, each once, and each points at the
      colour token of its slot under `prefix ?? deriveName({ recipe })`. */
  lemma GetTailwindVarsTable(recipe: Option<Options>, prefix: Option<string>)
    ensures var r := GetTailwindVars(recipe, prefix);
            && Keys(r) == VarNames && |Keys(r)| == 18 && DistinctKeys(r)
            && forall i :: 0 <= i < |VarSlots| ==>
                 Get(r, VarSlots[i].0) == Some(ColorVar(prefix.Otherwise(DeriveName(recipe, None)), VarSlots[i].1))
  {
    var r := GetTailwindVars(recipe, prefix);
    VarTableEntries(prefix.Otherwise(DeriveName(recipe, None)), VarSlots);
    VarSlotsShape();
    VarNamesDistinct();
    DistinctKeysNoDuplicates(r);
  }

  // ---------------------------------------------------------------------------
  // Options handed to the plugin layer

  /** `getTailwindOptions({ recipe, tailwind })`: only `vars` and `notProse`
      are set; `recipe.not` wins over the plugin option.  (An object option
      is copied to `{ className }`, which is the whole of it here.) */
  function GetTailwindOptions(recipe: Option<Options>, tailwind: Option<TailwindOptions>): (r: TailwindOptions)
    ensures r.sizes == SizesOf(recipe)
    ensures r.css.Some? && r.css.value.pipes.Some?
    ensures var p := r.css.value.pipes.value;
            && p.nestedTags.None? && p.varDecs.None?
            && p.vars == Some(GetTailwindVars(recipe, None))
            && (NotOf(recipe).Some? ==> p.notProse == NotOf(recipe))
            && (NotOf(recipe).None? ==> p.notProse == PipesOf(CssOf(tailwind)).notProse)
  {
    var notProse := NotOf(recipe).OrElse(PipesOf(CssOf(tailwind)).notProse);
    TailwindOptions(
      Some(CssOptions(Some(TP.PipeOptions(None, Some(GetTailwindVars(recipe, None)), None, notProse)))),
      SizesOf(recipe))
  }

  // ---------------------------------------------------------------------------
  // Styles

  /** `getBaseStyles({ tailwind })`: the plugin's default styles transformed
      with `tailwind.css`. */
  function GetBaseStyles(config: Config, tailwind: Option<TailwindOptions>): (r: Outcome<Css>)
    ensures r.Thrown? <==> DefaultKey !in config
    ensures r.Ok? ==> r.value == TransformCss(MergeAll(config[DefaultKey]), CssOf(tailwind))
  {
    GetCssDefaults(config, CssOf(tailwind))
  }

  /** `getSizeStyles({ recipe, tailwind })`: the styles of `recipe.sizes`
      (all five by default) keyed by size.  An options object is always
      passed on, so only a size missing from the configuration throws. */
  function GetSizeStyles(config: Config, recipe: Option<Options>, tailwind: Option<TailwindOptions>): (r: Outcome<Css>)
    ensures var sizes := SizesOf(recipe).Otherwise(Sizes);
            r.Thrown? <==> exists i :: 0 <= i < |sizes| && sizes[i] !in config
    ensures r.Ok? ==> forall k :: k in Keys(r.value) <==> k in SizesOf(recipe).Otherwise(Sizes)
  {
    var options := Some(SizesOptions(CssOf(tailwind), SizesOf(recipe)));
    assert SelectedSizes(options) == SizesOf(recipe).Otherwise(Sizes);
    GetCssForSizes(config, options)
  }

  /** Without `recipe.sizes`, the size styles list the five sizes in order,
      each transformed with `tailwind.css`. */
  lemma GetSizeStylesDefault(config: Config, recipe: Option<Options>, tailwind: Option<TailwindOptions>)
    requires SizesOf(recipe).None? && GetSizeStyles(config, recipe, tailwind).Ok?
    ensures var r := GetSizeStyles(config, recipe, tailwind).value;
            && Keys(r) == Sizes
            && forall i :: 0 <= i < |Sizes| ==>
                 Sizes[i] in config && Get(r, Sizes[i]) == Some(Block(TransformCss(MergeAll(config[Sizes[i]]), CssOf(tailwind))))
  {
    var options := Some(SizesOptions(CssOf(tailwind), SizesOf(recipe)));
    assert SelectedSizes(options) == Sizes;
    assert GetSizeStyles(config, recipe, tailwind) == GetCssForSizes(config, options);
    SizesDistinct();
    GetCssForSizesValues(config, options);
    forall i | 0 <= i < |Sizes|
      ensures Sizes[i] in config
    {
      assert !(Sizes[i] !in config);
    }
  }

  /** The pipe options every recipe uses. */
  function RecipePipes(options: Option<Options>): TP.PipeOptions {
    TP.PipeOptions(None, Some(GetTailwindVars(options, None)), None, NotOf(options))
  }

  /** `create(options)`: the recipe configuration.  The size variants are
      fetched without the recipe options, so `options.sizes` has no effect
      (see `CreateSizeVariants`). */
  function Create(config: Config, options: Option<Options>): (r: Outcome<RecipeConfig>)
    ensures r.Ok? ==> DefaultKey in config
    ensures r.Ok? ==> r.value.className == ClassNameOf(options).Otherwise("prose")
    ensures r.Ok? ==> r.value.jsx == (if options.Some? then options.value.jsx else None)
    ensures r.Ok? ==> r.value.defaultSize == "base"
    ensures r.Ok? ==> r.value.base == TransformCss(MergeAll(config[DefaultKey]), Some(CssOptions(Some(RecipePipes(options)))))
  {
    var tailwind := GetTailwindOptions(options, None);
    RecipeTailwindCss(options);
    var base :- GetBaseStyles(config, Some(tailwind));
    var sizes :- GetSizeStyles(config, None, Some(tailwind));
    Ok(RecipeConfig(
      DeriveClassName(options, None),
      if options.Some? then options.value.jsx else None,
      "base",
      base,
      sizes))
  }

  /** What `create` is made of: it throws exactly when fetching the base or
      the size styles throws, and its size variants are the size styles. */
  lemma CreateParts(config: Config, options: Option<Options>)
    ensures var tailwind := Some(GetTailwindOptions(options, None));
            var sizes := GetSizeStyles(config, None, tailwind);
            && (Create(config, options).Thrown? <==> GetBaseStyles(config, tailwind).Thrown? || sizes.Thrown?)
            && (Create(config, options).Ok? ==> sizes.Ok? && Create(config, options).value.sizeVariants == sizes.value)
  {
  }

  /** The recipe cannot be built when the configuration lacks the default
      styles or one of the five sizes, whichever sizes the options select. */
  lemma CreateThrows(config: Config, options: Option<Options>)
    ensures Create(config, options).Thrown? <==> DefaultKey !in config || exists i :: 0 <= i < |Sizes| && Sizes[i] !in config
  {
    CreateParts(config, options);
  }

  lemma RecipeTailwindCss(options: Option<Options>)
    ensures CssOf(Some(GetTailwindOptions(options, None))) == Some(CssOptions(Some(RecipePipes(options))))
  {
  }

  /** The size variants hold all five sizes, whatever `options.sizes` says,
      each transformed like the base styles. */
  lemma CreateSizeVariants(config: Config, options: Option<Options>)
    requires Create(config, options).Ok?
    ensures var variants := Create(config, options).value.sizeVariants;
            && Keys(variants) == Sizes
            && forall i :: 0 <= i < |Sizes| ==>
                 Sizes[i] in config
                 && Get(variants, Sizes[i])
                    == Some(Block(TransformCss(MergeAll(config[Sizes[i]]), Some(CssOptions(Some(RecipePipes(options)))))))
  {
    CreateParts(config, options);
    RecipeTailwindCss(options);
    GetSizeStylesDefault(config, None, Some(GetTailwindOptions(options, None)));
  }

  /** The recipe's styles are the plugin's with the variable declarations
      dropped, the not-prose guard applied when `options.not` asks for it, and
      the colour variables substituted; selectors are never nested. */
  lemma CreateStages(config: Config, options: Option<Options>)
    requires Create(config, options).Ok?
    ensures var stripped := TP.WithoutVarDecs(MergeAll(config[DefaultKey]));
            var guarded := if TP.NotProseTruthy(NotOf(options))
                           then TP.WithNotProseClasses(stripped, TP.NotProseClassName(NotOf(options).value))
                           else stripped;
            Create(config, options).value.base == TP.WithCssVars(guarded, GetTailwindVars(options, None))
  {
  }

  /** Changing `options.sizes` changes nothing in the recipe. */
  lemma CreateIgnoresSizes(config: Config, o: Options, sizes: Option<seq<string>>)
    ensures Create(config, Some(o.(sizes := sizes))) == Create(config, Some(o))
  {
    assert GetTailwindVars(Some(o.(sizes := sizes)), None) == GetTailwindVars(Some(o), None);
  }

  // ---------------------------------------------------------------------------
  // Semantic tokens and the recipe record

  /** The default colour tokens, slot by slot; the palette is `slate`. */
  const TokenSlots: seq<(string, SlotValue)> := [
    ("body", Shade("700")), ("heading", Shade("900")), ("lead", Shade("600")), ("link", Shade("900")),
    ("bold", Shade("900")), ("counter", Shade("500")), ("bullet", Shade("300")), ("hr", Shade("200")),
    ("quote", Shade("900")), ("quoteBorder", Shade("200")), ("caption", Shade("500")), ("kbd", Shade("900")),
    ("kbdShadow", Fixed("0 0 0")), ("code", Shade("900")), ("preCode", Shade("200")), ("preBg", Shade("800")),
    ("thBorder", Shade("300")), ("tdBorder", Shade("200"))
  ]

  const Palette: string := "slate"

  lemma TokenSlotsShape()
    ensures |TokenSlots| == 18
    ensures forall i, j :: 0 <= j < i < |TokenSlots| ==> TokenSlots[j].0 != TokenSlots[i].0
    ensures TokenSlots[12] == ("kbdShadow", Fixed("0 0 0"))
    ensures forall i :: 0 <= i < |TokenSlots| ==> (TokenSlots[i].1.Fixed? <==> TokenSlots[i].0 == "kbdShadow")
    ensures TokenSlots[7].0 == "hr" && forall i :: 0 <= i < |TokenSlots| ==> TokenSlots[i].0 != "hrBorder"
  {
  }

  /** The default colour group: eighteen distinct slots, each holding its
      token; `kbdShadow` is the fixed text `0 0 0` and every other slot is a
      reference to a shade of the palette. */
  lemma DefaultGroup(palette: string)
    ensures var group := TokenGroup(palette, TokenSlots);
            && |Keys(group)| == 18 && DistinctKeys(group)
            && (forall i :: 0 <= i < |TokenSlots| ==>
                  Get(group, TokenSlots[i].0) == Some(Token(TokenValue(palette, TokenSlots[i].1))))
            && Get(group, "kbdShadow") == Some(Token("0 0 0"))
            && (forall i :: 0 <= i < |TokenSlots| && TokenSlots[i].1.Shade? ==>
                  Get(group, TokenSlots[i].0) == Some(Token("{colors." + palette + "." + TokenSlots[i].1.shade + "}")))
            && Get(group, "hr").Some? && Get(group, "hrBorder").None?
  {
    TokenSlotsShape();
    DefaultGroupDistinct(palette);
    DefaultGroupFixed(palette);
  }

  lemma DefaultGroupDistinct(palette: string)
    ensures |Keys(TokenGroup(palette, TokenSlots))| == 18 && DistinctKeys(TokenGroup(palette, TokenSlots))
  {
    var group := TokenGroup(palette, TokenSlots);
    TokenSlotsShape();
    var names := seq(|TokenSlots|, i requires 0 <= i < |TokenSlots| => TokenSlots[i].0);
    assert NoDuplicates(Keys(group)) by {
      forall i, j | 0 <= i < j < |names| ensures names[i] != names[j] {
        assert names[i] == TokenSlots[i].0 && names[j] == TokenSlots[j].0;
      }
    }
    DistinctKeysNoDuplicates(group);
  }

  lemma DefaultGroupFixed(palette: string)
    ensures Get(TokenGroup(palette, TokenSlots), "kbdShadow") == Some(Token("0 0 0"))
    ensures Get(TokenGroup(palette, TokenSlots), "hr").Some?
    ensures Get(TokenGroup(palette, TokenSlots), "hrBorder").None?
  {
    var group := TokenGroup(palette, TokenSlots);
    TokenSlotsShape();
    assert Get(group, TokenSlots[12].0) == Some(Token(TokenValue(palette, TokenSlots[12].1)));
    assert Get(group, TokenSlots[7].0).Some?;
    assert "hrBorder" !in Keys(group);
  }

  /** `createDefaultSemanticTokens({ recipe, prefix })`: one colour group,
      named `prefix ?? deriveName({ recipe })`, holding the default slots in
      the `slate` palette. */
  function CreateDefaultSemanticTokens(recipe: Option<Options>, prefix: Option<string>): (r: SemanticTokens)
    ensures Keys(r.colors) == [prefix.Otherwise(DeriveName(recipe, None))]
    ensures Get(r.colors, prefix.Otherwise(DeriveName(recipe, None))) == Some(TokenGroup("slate", TokenSlots))
  {
    SemanticTokens(Entry(prefix.Otherwise(DeriveName(recipe, None)), TokenGroup(Palette, TokenSlots), Empty))
  }

  /** Without an explicit prefix the variables and the tokens agree on the
      group name: the group segment of each variable is the key of the token
      group.  Whether the slot segment names a token of that group is not
      stated here; for `hr` it does not (`VarSlotsMissHr`). */
  lemma VarsFollowTokens(recipe: Option<Options>)
    ensures var group := Keys(CreateDefaultSemanticTokens(recipe, None).colors)[0];
            forall i :: 0 <= i < |VarSlots| ==>
              Get(GetTailwindVars(recipe, None), VarSlots[i].0) == Some(ColorVar(group, VarSlots[i].1))
  {
    GetTailwindVarsTable(recipe, None);
  }

  /** The variable `hr` points at `<group>-hr-border`, while the token slot of
      that colour is called `hr`: no `hrBorder` token exists. */
  lemma HrVariableNamesMissingSlot(recipe: Option<Options>)
    ensures Get(GetTailwindVars(recipe, None), "hr") == Some(ColorVar(DeriveName(recipe, None), "hr-border"))
    ensures var group := Get(CreateDefaultSemanticTokens(recipe, None).colors, DeriveName(recipe, None)).value;
            Get(group, "hr").Some? && Get(group, "hrBorder").None?
  {
    HrVariable(recipe);
    DefaultGroupFixed(Palette);
  }

  lemma HrVariable(recipe: Option<Options>)
    ensures Get(GetTailwindVars(recipe, None), "hr") == Some(ColorVar(DeriveName(recipe, None), "hr-border"))
  {
    GetTailwindVarsTable(recipe, None);
    assert VarSlots[7] == ("hr", "hr-border");
  }

  /** A token name as the variable table spells it: every capital letter
      becomes `-` and its lower case, so `quoteBorder` is `quote-border`. */
  function DashCase(name: string): string
    decreases |name|
  {
    if |name| == 0 then ""
    else
      var c := name[0];
      (if 'A' <= c <= 'Z' then ['-', (c as int + 32) as char] else [c]) + DashCase(name[1..])
  }

  /** Different token names without `-` have different dash-cases. */
  lemma {:induction false} DashCaseInjective(s: string, t: string)
    requires '-' !in s && '-' !in t
    requires DashCase(s) == DashCase(t)
    ensures s == t
    decreases |s|
  {
    if |s| > 0 && |t| > 0 {
      var hs := if 'A' <= s[0] <= 'Z' then ['-', (s[0] as int + 32) as char] else [s[0]];
      var ht := if 'A' <= t[0] <= 'Z' then ['-', (t[0] as int + 32) as char] else [t[0]];
      assert s[0] in s && t[0] in t;
      assert DashCase(s) == hs + DashCase(s[1..]) && DashCase(t) == ht + DashCase(t[1..]);
      assert hs[0] == DashCase(s)[0] == DashCase(t)[0] == ht[0];
      assert |hs| == |ht|;
      assert DashCase(s[1..]) == DashCase(s)[|hs|..] == DashCase(t)[|ht|..] == DashCase(t[1..]);
      assert forall c :: c in s[1..] ==> c in s;
      assert forall c :: c in t[1..] ==> c in t;
      DashCaseInjective(s[1..], t[1..]);
      assert s == [s[0]] + s[1..] && t == [t[0]] + t[1..];
    }
  }

  lemma DashCaseHrBorder()
    ensures DashCase("hrBorder") == "hr-border"
  {
    assert "hrBorder" == "hr" + ['B'] + "order";
    assert "hr-border" == "hr" + ['-', 'b'] + "order";
    DashCaseOneCapital("hr", 'B', "order");
  }

  /** A capital between two plain names becomes `-` and its lower case. */
  lemma DashCaseOneCapital(a: string, c: char, b: string)
    requires forall i :: 0 <= i < |a| ==> !('A' <= a[i] <= 'Z')
    requires forall i :: 0 <= i < |b| ==> !('A' <= b[i] <= 'Z')
    requires 'A' <= c <= 'Z'
    ensures DashCase(a + [c] + b) == a + ['-', (c as int + 32) as char] + b
  {
    var low := ['-', (c as int + 32) as char];
    assert DashCase([c]) == low by {
      assert [c][1..] == [];
    }
    DashCasePlain(a);
    DashCasePlain(b);
    DashCaseAppend(a, [c]);
    assert DashCase(a + [c]) == a + low;
    DashCaseAppend(a + [c], b);
  }

  lemma {:induction false} DashCaseAppend(a: string, b: string)
    ensures DashCase(a + b) == DashCase(a) + DashCase(b)
    decreases |a|
  {
    if |a| > 0 {
      assert (a + b)[1..] == a[1..] + b;
      DashCaseAppend(a[1..], b);
    } else {
      assert a + b == b;
    }
  }

  /** A name without capitals is its own dash-case. */
  lemma {:induction false} DashCasePlain(s: string)
    requires forall i :: 0 <= i < |s| ==> !('A' <= s[i] <= 'Z')
    ensures DashCase(s) == s
    decreases |s|
  {
    if |s| > 0 {
      DashCasePlain(s[1..]);
      assert s == [s[0]] + s[1..];
    }
  }

  /** No token slot name holds a `-`, and none is `hrBorder`. */
  lemma TokenSlotNamesPlain()
    ensures forall i :: 0 <= i < |TokenSlots| ==> '-' !in TokenSlots[i].0 && TokenSlots[i].0 != "hrBorder"
  {
  }

  lemma HrSlots()
    ensures VarSlots[7] == ("hr", "hr-border") && TokenSlots[7].0 == "hr"
  {
  }

  /** The `hr` variable points at `hr-border`, which is the dash-case of no
      token slot of the group: the variable names a token that does not
      exist. */
  lemma VarSlotsMissHr()
    ensures VarSlots[7] == ("hr", "hr-border") && TokenSlots[7].0 == "hr"
    ensures forall i :: 0 <= i < |TokenSlots| && i != 7 ==> DashCase(TokenSlots[i].0) == VarSlots[i].1
    ensures forall i :: 0 <= i < |TokenSlots| ==> DashCase(TokenSlots[i].0) != "hr-border"
  {
    CorrectedSlotsMatchVars();
    HrSlots();
    TokenSlotNamesPlain();
    DashCaseHrBorder();
    forall i | 0 <= i < |TokenSlots| ensures DashCase(TokenSlots[i].0) != "hr-border" {
      if DashCase(TokenSlots[i].0) == DashCase("hrBorder") {
        DashCaseInjective(TokenSlots[i].0, "hrBorder");
      }
    }
  }

  /** The token slots with the `hr` slot called `hrBorder`, the name the
      earlier version gives it. */
  const CorrectedTokenSlots: seq<(string, SlotValue)> := TokenSlots[7 := ("hrBorder", TokenSlots[7].1)]

  /** With the slot renamed, every variable points at the dash-case of the
      slot in its place, so each variable spells a slot of the group; the
      renamed slot holds shade 200 as before and every other slot is
      unchanged. */
  lemma CorrectedSlotsMatchVars()
    ensures |CorrectedTokenSlots| == |TokenSlots| == |VarSlots|
    ensures forall i :: 0 <= i < |VarSlots| ==> DashCase(CorrectedTokenSlots[i].0) == VarSlots[i].1
    ensures CorrectedTokenSlots[7].1 == Shade("200")
    ensures forall i :: 0 <= i < |TokenSlots| && i != 7 ==> CorrectedTokenSlots[i] == TokenSlots[i]
  {
    forall i | 0 <= i < |VarSlots| ensures DashCase(CorrectedTokenSlots[i].0) == VarSlots[i].1 {
      SlotSpelled(i);
    }
  }

  /** The slot at index `i` of the corrected group, spelled in dash-case. */
  lemma SlotSpelled(i: nat)
    requires i < |VarSlots|
    ensures DashCase(CorrectedTokenSlots[i].0) == VarSlots[i].1
  {
    if i in {7, 9, 12, 14, 15, 16, 17} {
      CapitalSlotSpelled(i);
    } else {
      PlainSlot(i);
      DashCasePlain(CorrectedTokenSlots[i].0);
    }
  }

  /** The slots whose names hold a capital letter. */
  lemma CapitalSlotSpelled(i: nat)
    requires i in {7, 9, 12, 14, 15, 16, 17}
    ensures DashCase(CorrectedTokenSlots[i].0) == VarSlots[i].1
  {
    if i == 7 {
      DashCaseHrBorder();
    } else if i == 9 {
      DashCaseSpelled("quote", 'B', "order", CorrectedTokenSlots[i].0, VarSlots[i].1);
    } else if i == 12 {
      DashCaseSpelled("kbd", 'S', "hadow", CorrectedTokenSlots[i].0, VarSlots[i].1);
    } else if i == 14 {
      DashCaseSpelled("pre", 'C', "ode", CorrectedTokenSlots[i].0, VarSlots[i].1);
    } else if i == 15 {
      DashCaseSpelled("pre", 'B', "g", CorrectedTokenSlots[i].0, VarSlots[i].1);
    } else if i == 16 {
      DashCaseSpelled("th", 'B', "order", CorrectedTokenSlots[i].0, VarSlots[i].1);
    } else {
      DashCaseSpelled("td", 'B', "order", CorrectedTokenSlots[i].0, VarSlots[i].1);
    }
  }

  /** The other slots have names without capitals, spelled as they are. */
  lemma PlainSlot(i: nat)
    requires i < |VarSlots| && i !in {7, 9, 12, 14, 15, 16, 17}
    ensures CorrectedTokenSlots[i].0 == VarSlots[i].1
    ensures forall k :: 0 <= k < |CorrectedTokenSlots[i].0| ==> !('A' <= CorrectedTokenSlots[i].0[k] <= 'Z')
  {
  }

  /** `DashCaseOneCapital` for a name and its spelling given whole. */
  lemma DashCaseSpelled(a: string, c: char, b: string, name: string, spelled: string)
    requires forall i :: 0 <= i < |a| ==> !('A' <= a[i] <= 'Z')
    requires forall i :: 0 <= i < |b| ==> !('A' <= b[i] <= 'Z')
    requires 'A' <= c <= 'Z'
    requires name == a + [c] + b && spelled == a + ['-', (c as int + 32) as char] + b
    ensures DashCase(name) == spelled
  {
    DashCaseOneCapital(a, c, b);
  }

  /** `getRecord(options)`: one entry, keyed `options.className ?? "prose"`
      (the name is not consulted), holding `create(options)`; reading
      `options.className` throws when the options are absent. */
  function GetRecord(config: Config, options: Option<Options>): (r: Outcome<Entries<RecipeConfig>>)
    ensures options.None? ==> r.Thrown?
    ensures options.Some? ==> (r.Thrown? <==> Create(config, options).Thrown?)
    ensures r.Ok? ==> Keys(r.value) == [ClassNameOf(options).Otherwise("prose")]
    ensures r.Ok? ==> Get(r.value, ClassNameOf(options).Otherwise("prose")) == Some(Create(config, options).value)
  {
    if options.None? then
      Thrown(TypeError("Cannot read properties of undefined (reading 'className')"))
    else
      var recipe :- Create(config, options);
      Ok(Entry(DeriveName(None, options.value.className), recipe, Empty))
  }
}
