/** `Preset` (src/preset.ts): the PandaCSS preset that registers the recipe
    and its default colour tokens under `theme.extend`. */
module Preset {
  import opened Outcomes
  import opened Objects
  import opened Panda
  import opened TailwindConstants
  import opened Tailwind
  import Recipe

  /** `Preset.Types.Options`. */
  datatype PresetOptions = PresetOptions(recipe: Option<Recipe.Options>)

  /** `options?.recipe`. */
  function RecipeOf(options: Option<PresetOptions>): Option<Recipe.Options> {
    if options.Some? then options.value.recipe else None
  }

  /** `create(options)`: the record of the recipe and the default semantic
      tokens, both for `options?.recipe`.  The record is built first, so its
      exception is the preset's. */
  function Create(config: Config, options: Option<PresetOptions>): (r: Outcome<Panda.Preset>)
    ensures r.Thrown? <==> RecipeOf(options).None? || Recipe.Create(config, RecipeOf(options)).Thrown?
    ensures r.Ok? ==> Recipe.GetRecord(config, RecipeOf(options)) == Ok(r.value.theme.extend.recipes)
    ensures r.Ok? ==> r.value.theme.extend.semanticTokens == Recipe.CreateDefaultSemanticTokens(RecipeOf(options), None)
  {
    var recipe := RecipeOf(options);
    var recipes :- Recipe.GetRecord(config, recipe);
    Ok(Panda.Preset(Theme(Extend(recipes, Recipe.CreateDefaultSemanticTokens(recipe, None)))))
  }

  /** The recipe is registered under its class name while its colour tokens
      are grouped under its name: the two agree only when the recipe's name
      and class name do. */
  lemma CreateKeys(config: Config, options: Option<PresetOptions>)
    requires Create(config, options).Ok?
    ensures var extend := Create(config, options).value.theme.extend;
            var recipe := RecipeOf(options);
            && Keys(extend.recipes) == [Recipe.ClassNameOf(recipe).Otherwise("prose")]
            && Keys(extend.semanticTokens.colors) == [Recipe.NameOf(recipe).Otherwise("prose")]
            && Get(extend.recipes, Recipe.ClassNameOf(recipe).Otherwise("prose")) == Some(Recipe.Create(config, recipe).value)
  {
  }

  /** A custom name alone moves the colour tokens but not the recipe, whose
      variables then point at the renamed group. */
  lemma CreateNameOnly(config: Config, o: Recipe.Options, name: string)
    requires o.name == Some(name) && o.className.None? && name != "prose"
    requires Create(config, Some(PresetOptions(Some(o)))).Ok?
    ensures var extend := Create(config, Some(PresetOptions(Some(o)))).value.theme.extend;
            && Keys(extend.recipes) == ["prose"]
            && Keys(extend.semanticTokens.colors) == [name]
  {
    CreateKeys(config, Some(PresetOptions(Some(o))));
  }

  /** Without recipe options the preset cannot be built: the record reads
      `className` from `undefined`. */
  lemma CreateWithoutRecipeThrows(config: Config, options: Option<PresetOptions>)
    requires RecipeOf(options).None?
    ensures Create(config, options).Thrown?
    ensures Create(config, options).error.TypeError?
  {
  }

  // ---------------------------------------------------------------------------
  // The preset as its optional parameters promise

  /** `getRecord` reading `options?.className`: absent options give the
      default recipe under `prose`. */
  function GetRecordOptional(config: Config, recipe: Option<Recipe.Options>): (r: Outcome<Entries<RecipeConfig>>)
    ensures r.Thrown? <==> Recipe.Create(config, recipe).Thrown?
    ensures r.Ok? ==> Keys(r.value) == [Recipe.ClassNameOf(recipe).Otherwise("prose")]
    ensures r.Ok? ==> Get(r.value, Recipe.ClassNameOf(recipe).Otherwise("prose")) == Some(Recipe.Create(config, recipe).value)
  {
    var created :- Recipe.Create(config, recipe);
    Ok(Entry(Recipe.DeriveName(None, Recipe.ClassNameOf(recipe)), created, Empty))
  }

  /** For present options the corrected record is the original one. */
  lemma GetRecordOptionalAgrees(config: Config, recipe: Recipe.Options)
    ensures GetRecordOptional(config, Some(recipe)) == Recipe.GetRecord(config, Some(recipe))
  {
  }

  /** `create(options)` with the record built by `GetRecordOptional`. */
  function CreateOptional(config: Config, options: Option<PresetOptions>): (r: Outcome<Panda.Preset>)
    ensures r.Thrown? <==> Recipe.Create(config, RecipeOf(options)).Thrown?
    ensures r.Ok? ==> Keys(r.value.theme.extend.recipes) == [Recipe.ClassNameOf(RecipeOf(options)).Otherwise("prose")]
    ensures r.Ok? ==> r.value.theme.extend.semanticTokens == Recipe.CreateDefaultSemanticTokens(RecipeOf(options), None)
  {
    var recipe := RecipeOf(options);
    var recipes :- GetRecordOptional(config, recipe);
    Ok(Panda.Preset(Theme(Extend(recipes, Recipe.CreateDefaultSemanticTokens(recipe, None)))))
  }

  /** Without options the corrected preset holds the `prose` recipe and the
      `prose` colour group, whenever the configuration has every style. */
  lemma CreateOptionalWithoutOptions(config: Config)
    requires DefaultKey in config && forall i :: 0 <= i < |Sizes| ==> Sizes[i] in config
    ensures CreateOptional(config, None).Ok?
    ensures var extend := CreateOptional(config, None).value.theme.extend;
            && Keys(extend.recipes) == ["prose"]
            && Keys(extend.semanticTokens.colors) == ["prose"]
  {
    Recipe.CreateThrows(config, None);
  }

  /** Whenever the original builds a preset, the corrected one builds the
      same preset. */
  lemma CreateOptionalAgrees(config: Config, options: Option<PresetOptions>)
    requires Create(config, options).Ok?
    ensures CreateOptional(config, options) == Create(config, options)
  {
    GetRecordOptionalAgrees(config, RecipeOf(options).value);
  }
}
