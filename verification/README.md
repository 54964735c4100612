# pandacss-preset-typography in Dafny

This project models the core of `pandacss-preset-typography`, a PandaCSS
preset. The preset takes the style objects of the Tailwind CSS typography
plugin and rewrites them in four ways:

- it drops the plugin's `--tw-prose-*` variable declarations;
- it guards rules against `not-prose` elements;
- it nests selectors under `&`;
- it points the plugin's colour variables at PandaCSS semantic tokens.

It then packages the result as a PandaCSS recipe, with a default set of
colour tokens.

Three historical versions of the code live side by side in the repository.
Each is modelled in its own modules, and lemmas relate them where they
should agree:

- the namespaced version (`src/tailwind.ts`, `src/recipe.ts`,
  `src/preset.ts`, `src/utils/*`):
  - `Is`, `Merge`, `Pipe`, `StyleTree`;
  - `TailwindConstants`, `TailwindUtils`, `TailwindPipes`, `Tailwind`;
  - `Recipe`, `Preset`;
- the function-style version (`src/extract.ts`, `src/constants.ts`,
  `src/semantic-tokens.ts`, `src/utils.ts`): `Extract`, `LegacyConstants`,
  `LegacyTokens`, `LegacyUtils`;
- the oldest version (`src/prose/colors.ts`): `ProseColors`.

Shared building blocks:

- `Outcomes`: `Option` for a property that may be `undefined`, and `Outcome`
  for a call that returns or throws. Thrown errors propagate with `:-`.
- `Objects`: JavaScript plain objects as ordered entry lists, which keep
  insertion order and in-place replacement. Only an object's own keys are
  seen; see "## Left out" for inherited properties.
- `JsValues`: the values `Is.object` and the merges inspect.
- `Strings` and `Selectors`: `split`/`join` and the `", "` selector rewriting.
- `VarRefs`: the regular expression `/var\(--tw-prose-(.*?)\)/g`, with
  `exec` and a global `replace`.
- `Panda`: the records that `defineRecipe`, `defineSemanticTokens` and
  `definePreset` return unchanged.

The typography plugin's configuration (`getConfig()` / `getRawConfig()`)
is a parameter `config: map<string, seq<Css>>`. Reading a key it lacks
throws a `TypeError`, as the source's `config[size].css` does.

A few behaviours of the code are easy to misread; the model follows the
code:

- The second attribute selector of the not-prose guard is the literal text
  `$className}`.
- `replaceCssVar` and `getValueWithVar` replace every reference with the
  value of the first one (`TailwindUtils.ReplaceCssVarUsesFirstValue`).
- `getCssForSizes` with an empty size list returns `{}`
  (`Tailwind.GetCssForSizesNoSizes`). Without an options object it throws.
- `Recipe.create`:
  - its class name does not fall back to the recipe name;
  - its default size is always `base`;
  - it ignores `options.sizes` (`Recipe.CreateIgnoresSizes`).
- `Merge.create` without `deep` returns `undefined`.

The `hr` variable of the later recipe names a token that does not exist;
see "## Findings".

## Model

| member | source | states |
|---|---|---|
| Is.Object | src/utils/is.ts:9-11 | the result is truthy exactly for plain objects. A falsy item comes back itself (null, undefined, `""`, 0, false). Arrays, non-empty strings, non-zero numbers and `true` give `false`. Every object, `{}` included, gives `true` |
| Merge.MergeKey | src/utils/merge.ts:41-48 | one turn of `deep`'s key loop. Other keys are untouched. A non-object value overwrites. An object goes into a fresh `{}` when the target's value is falsy, or is merged into the target's object. A truthy non-object already there blocks it |
| Merge.MergeProps | src/utils/merge.ts:40-49 | the merged object has exactly the keys of target and source; keys the source lacks keep the target's value |
| Merge.Deep | src/utils/merge.ts:35-52 | an object target stays an object; a non-object target is returned as it is |
| Merge.Shallow | src/utils/merge.ts:60-62 | after `Object.assign`, the target has its own keys plus those of every object source |
| Merge.ShallowLaterWins | src/utils/merge.ts:60-62 | of two objects assigned in turn, the later one's value wins at each of its keys; other keys keep the earlier value |
| Merge.Create | src/utils/merge.ts:12-15 | throws "Unsupported merge" exactly when the list is not an array or holds a non-object. Otherwise a deep merge gives an object (`{}` for `[]`) and a shallow one gives `undefined` |
| Merge.Map | src/utils/merge.ts:24-26 | `map(list, fn)` throws exactly when some `fn(x)` is not an object; otherwise it is the deep merge of the mapped list, or `undefined` when shallow |
| Merge.MergePropsAt | src/utils/merge.ts:41-48 | keys of the source merge independently: each ends as merging its value alone would leave it |
| Merge.MergeFresh | src/utils/merge.ts:43-44 | merging an object whose keys are all new appends its entries unchanged |
| Merge.CopyIsIdentity | src/utils/merge.ts:43-44 | deep-merging a well-formed object into a fresh `{}` copies it exactly |
| Merge.MergeKeepsWellFormed | src/utils/merge.ts:41-48 | merging into an object whose keys are each present once keeps that true at every depth |
| Merge.DeepMergePair | src/utils/merge.ts:40-48 | deep `create([x, y])` is `x` merged with `y`, key by key. Nested objects combine, and a later non-object overwrites. An earlier truthy non-object blocks a later object. An object arriving at a missing or falsy key is copied in |
| Merge.NestedObjectsCombine | src/utils/merge.ts:12-15 | `create([{a:{b:1}}, {a:{c:2}}], {deep:true})` is `{a:{b:1,c:2}}`; without `deep` it is `undefined` |
| Pipe.Create | src/utils/pipe.ts:9-13 | with no functions the value comes back unchanged |
| Pipe.CreateConcat | src/utils/pipe.ts:9-13 | piping through `fs` then `gs` is piping through `fs + gs` |
| Pipe.CreateTwo | src/utils/pipe.ts:11-12 | `create(v, f, g) == g(f(v))`: functions apply left to right |
| Pipe.SkipsEmptySlot | src/utils/pipe.ts:12 | a falsy slot anywhere in the list acts as the identity |
| StyleTree.MergeRule | src/utils/merge.ts:41-48 | one key of the deep merge on style objects: other keys are untouched, and a new key is appended |
| StyleTree.MergeRules | src/utils/merge.ts:40-49 | the merged style object has exactly the keys of both; keys the source lacks keep the target's value |
| StyleTree.MergeRulesIsDeep | src/utils/merge.ts:40-49 | merging style objects is `Merge.deep`'s loop on the same objects seen as JavaScript values |
| StyleTree.MergeFromIsDeep | src/utils/merge.ts:35-52 | folding a list of style objects is `Merge.deep` over the same list |
| StyleTree.MergeAllIsCreate | src/utils/merge.ts:12-15 | merging a list of style objects is `Merge.create(list, {deep: true})`, which never throws on style objects |
| StyleTree.MergeAllWellFormed | src/utils/merge.ts:35-52 | the deep merge of any list of style objects has each key once at every depth |
| StyleTree.MergeFromSingletons | src/utils/merge.ts:41-48 | merging one-entry objects with pairwise different new keys rebuilds the object they came from |
| StyleTree.KeyedMerged | src/tailwind.ts:83-89 | merging `{[key]: value}` for each key gives exactly the keys. Without repeated keys each holds its value, in order |
| StyleTree.RenameBlocksInPlace | src/tailwind.ts:110-118 | when no two renamed keys coincide, rebuilding through `Object.entries` and the deep merge renames each nested object's key where it stands. Declarations and all values are untouched |
| StyleTree.RenameEachDistinct | src/tailwind.ts:110-118 | renamed keys stay distinct under an injective renaming, unless a renamed key equals a declaration's key |
| StyleTree.RenameEachKeyOrigin | src/tailwind.ts:110-118 | every key of the renamed object comes from one entry of the input |
| StyleTree.MapDeclsInPlace | src/tailwind.ts:129-137 | rewriting every declaration through the deep merge keeps each key where it is, recurses into nested objects and changes only leaf strings |
| Strings.JoinSplit | src/tailwind.ts:236-239 | `s.split(sep).join(sep) == s` |
| Strings.SplitSingle | src/tailwind.ts:237 | a string splits into one part exactly when it does not contain the separator, and that part is the string |
| Selectors.NestInsertsAfterSeparators | src/tailwind.ts:235-240 | splitting on `", "`, prefixing `"& "` and rejoining is `"& "` in front, then `", & "` in place of each `", "` |
| Selectors.NestInjective | src/tailwind.ts:235-240 | different selectors give different nested selectors |
| Selectors.NestSingleSelector | src/tailwind.ts:235-240 | a selector without `", "` becomes `"& " + selector` |
| TailwindConstants.SizesDistinct | src/tailwind.ts:11-17 | the five sizes are `sm, base, lg, xl, 2xl`, distinct, and none is `DEFAULT` |
| TailwindConstants.VarNamesDistinct | src/tailwind.ts:283-302 | the eighteen colour variables are distinct |
| TailwindUtils.CreateNestedCssSelector | src/tailwind.ts:235-240 | `"& "` in front and after every `", "`; a key without `", "` becomes `"& " + key` |
| VarRefs.CloseFrom | src/tailwind.ts:23 | a found `)` lies at or after the start of the lazy group |
| VarRefs.CloseFromLazy | src/tailwind.ts:23 | the lazy `(.*?)` stops at the nearest `)` with no line terminator before it, and finds nothing when there is none |
| VarRefs.MatchAt | src/tailwind.ts:23 | a match at `i` starts with `var(--tw-prose-` and ends at a `)` after it |
| VarRefs.FirstMatch | src/tailwind.ts:252 | `exec` returns a match at or after its start index |
| VarRefs.FirstMatchLeftmost | src/tailwind.ts:252 | the match `exec` returns is the leftmost one, and when there is none no index matches |
| VarRefs.ReplaceFromNoMatch | src/tailwind.ts:254 | a global `replace` that meets no match keeps the rest of the string |
| VarRefs.ReplaceAllNoMatch | src/tailwind.ts:254 | a string without a reference is left unchanged |
| VarRefs.ReplaceFromAtFirst | src/tailwind.ts:254 | the scan keeps the text before the first match, puts the replacement in place of that match and goes on after it |
| VarRefs.ReplaceAllAtFirst | src/tailwind.ts:254 | a global replace is: the text before the first reference, the replacement, then the rest replaced the same way |
| VarRefs.Lookup | src/tailwind.ts:254 | `vars[name]` is used exactly when it is a non-empty string |
| VarRefs.SubstituteFirst | src/tailwind.ts:251-257 | with no reference, or a falsy value for the first reference's name, the value comes back unchanged. Otherwise every reference is replaced by that value |
| TailwindUtils.ReplaceCssVar | src/tailwind.ts:251-257 | as `SubstituteFirst`: every reference becomes the value of the first reference's name |
| TailwindUtils.ReplaceCssVarUsesFirstValue | src/tailwind.ts:251-257 | `"var(--tw-prose-body) var(--tw-prose-links)"` with `{body: "A", links: "B"}` becomes `"A A"` |
| TailwindUtils.ExampleFirstReference | src/tailwind.ts:252 | `exec` on that string finds `var(--tw-prose-body)` at index 0 and captures `body` |
| TailwindUtils.ExampleSecondReference | src/tailwind.ts:254 | after the first reference the scan keeps the space and replaces the second reference |
| TailwindPipes.WithoutVarDecs | src/tailwind.ts:146-156 | keeps exactly the top-level keys not containing `--tw-prose-`, in order and with their values; nested keys are untouched |
| TailwindPipes.Filter | src/tailwind.ts:146-156 | reference definition: the kept keys are those without `--tw-prose-`, each with its value |
| TailwindPipes.CopyKept | src/tailwind.ts:149-153 | the `forEach` copy into a fresh `{}` is the filtered object |
| TailwindPipes.WithNestedTags | src/tailwind.ts:110-118 | the result is well-formed. When no renamed keys collide, only the keys of nested objects change, to their nested selector; there is no recursion |
| TailwindPipes.NestedTagsDistinct | src/tailwind.ts:110-118 | renamed keys collide only when a declaration is keyed by the nested form of a nested object's key |
| TailwindPipes.WithCssVars | src/tailwind.ts:129-137 | with `options.vars` given: keys never change; nested objects are rewritten recursively and every leaf string goes through `replaceCssVar` |
| TailwindPipes.WithCssVarsOptional | src/tailwind.ts:129-137 | with `options?.vars` possibly absent: it throws a `TypeError` exactly when `vars` is absent and some declaration at any depth holds a `var(--tw-prose-…)` reference (`vars[match[1]]` of `undefined`, line 254). With `vars` given it is `withCssVars`, and without `vars` a tree with no reference comes back unchanged |
| TailwindPipes.RewriteWithoutReference | src/tailwind.ts:251-257 | a tree with no reference is left unchanged by the rewrite, whatever the variables |
| TailwindPipes.NotProseSelectorInjective | src/tailwind.ts:177 | different keys get different `:where(k):not(...)` selectors |
| TailwindPipes.WithNotProseClasses | src/tailwind.ts:168-181 | each nested object's key `k` becomes `:where(k):not(:where([class~="C"],[class~="$className}"] *))`. Here C is `className ?? "not-prose"`; declarations keep their keys |
| TailwindPipes.NotProseDistinct | src/tailwind.ts:168-181 | wrapped keys collide only when a declaration is keyed by a wrapped selector |
| TailwindPipes.Get | src/tailwind.ts:191-199 | four slots, in the order strip, not-prose, nest, vars. Strip is present unless `varDecs` is true, and each other slot only when its option is truthy. Each present slot is its rewrite |
| Tailwind.TransformCss | src/tailwind.ts:99-101 | piping through `Pipes.get` is the staged rewrite. Without options it only drops the variable declarations, and it keeps the objects well-formed |
| Tailwind.CssAt | src/tailwind.ts:52 | throws exactly when the configuration lacks the key; otherwise the merged, transformed styles of that key |
| Tailwind.GetCssDefaults | src/tailwind.ts:51-53 | throws exactly without a `DEFAULT` entry; otherwise the merged `DEFAULT` styles, transformed |
| Tailwind.GetCssForSize | src/tailwind.ts:66-68 | throws exactly when the size is missing; otherwise that size's merged styles, transformed |
| Tailwind.SizeValues | src/tailwind.ts:83-89 | throws exactly when some selected size is missing; otherwise one `getCssForSize` result per size |
| Tailwind.GetCssForSizes | src/tailwind.ts:82-90 | throws without options (it reads `options.css`) or when a selected size is missing. Otherwise its keys are exactly the selected sizes, all five by default |
| Tailwind.GetCssForSizesValues | src/tailwind.ts:82-90 | without repeated sizes, the result lists the sizes in order, each holding `getCssForSize(size, {css})` |
| Tailwind.GetCssForSizesNoSizes | src/tailwind.ts:82-90 | an empty size list gives `{}` |
| Recipe.DeriveName | src/recipe.ts:238-240 | `recipe.name ?? default ?? "prose"` |
| Recipe.DeriveClassName | src/recipe.ts:226-228 | `recipe.className ?? default ?? "prose"` |
| Recipe.DerivationsIndependent | src/recipe.ts:226-240 | the name never depends on the class name, nor the class name on the name |
| Recipe.VarTableEntries | src/recipe.ts:195-215 | the variable table has one key per slot, in order, each pointing at `var(--colors-<prefix>-<slot>)` |
| Recipe.GetTailwindVarsTable | src/recipe.ts:193-216 | the table `Recipe.GetTailwindVars` returns has exactly the eighteen variables, each once. Each is `var(--colors-<prefix>-<slot>)`, with prefix `prefix ?? deriveName({recipe})` |
| Recipe.GetTailwindOptions | src/recipe.ts:164-181 | only `vars` and `notProse` are set, never `nestedTags` or `varDecs`. `recipe.not` wins over the plugin option, and `sizes` is `recipe.sizes` |
| Recipe.GetBaseStyles | src/recipe.ts:53-58 | throws exactly without `DEFAULT`; otherwise the default styles transformed with `tailwind.css` |
| Recipe.GetSizeStyles | src/recipe.ts:70-75 | throws exactly when a selected size is missing (an options object is always passed on); the keys are `recipe.sizes`, all five by default |
| Recipe.GetSizeStylesDefault | src/recipe.ts:70-75 | without `recipe.sizes` the keys are the five sizes in order, each holding its transformed styles |
| Recipe.Create | src/recipe.ts:27-41 | the class name is `options.className ?? "prose"` (no fallback to the name), and `jsx` is copied. The default size is always `base`, and the base styles are the default styles transformed with the recipe's pipes |
| Recipe.CreateParts | src/recipe.ts:27-41 | `create` throws exactly when the base or the size styles throw; its size variants are the size styles |
| Recipe.CreateThrows | src/recipe.ts:27-41 | `create` throws exactly when the configuration lacks `DEFAULT` or one of the five sizes |
| Recipe.RecipeTailwindCss | src/recipe.ts:28 | the plugin options `create` derives carry the recipe's pipes |
| Recipe.CreateSizeVariants | src/recipe.ts:38 | the size variants hold all five sizes in order, whatever `options.sizes` says, each transformed like the base styles |
| Recipe.CreateStages | src/recipe.ts:28-36 | the base styles drop the declarations, apply the not-prose guard when `options.not` asks for it and substitute the variables. Selectors are never nested |
| Recipe.CreateIgnoresSizes | src/recipe.ts:28-38 | changing `options.sizes` changes nothing in the recipe |
| Recipe.TokenSlotsShape | src/recipe.ts:97-153 | eighteen distinct slots. Only `kbdShadow` is fixed (`0 0 0`), and the horizontal-rule slot is called `hr`, not `hrBorder` |
| Recipe.DefaultGroup | src/recipe.ts:97-153 | the group has eighteen distinct slots, `kbdShadow` is `0 0 0`, and every other slot is `{colors.<palette>.<shade>}` |
| Recipe.DefaultGroupFixed | src/recipe.ts:119-136 | `kbdShadow` is `0 0 0`; an `hr` slot exists and no `hrBorder` slot does |
| Recipe.CreateDefaultSemanticTokens | src/recipe.ts:92-155 | one colour group, keyed `prefix ?? deriveName({recipe})`, holding the default slots in the `slate` palette |
| Recipe.VarsFollowTokens | src/recipe.ts:194 | without an explicit prefix, every variable is `var(--colors-<group>-<slot>)` with `<group>` the key of the token group the semantic tokens define (line 97); whether `<slot>` names a token of that group is not stated, and for `hr` it does not (`Recipe.VarSlotsMissHr`) |
| Recipe.HrVariable | src/recipe.ts:204 | the `hr` variable is `var(--colors-<name>-hr-border)` |
| Recipe.HrVariableNamesMissingSlot | src/recipe.ts:204 | the `hr` variable points at `hr-border`, while the token group has an `hr` slot (line 119) and no `hrBorder` slot |
| Recipe.VarSlotsMissHr | src/recipe.ts:196-215 | seventeen of the eighteen variables spell, in dash-case, the token slot in the same place (`quote-border` at line 206 for `quoteBorder` at line 125). The `hr` variable spells `hr-border` (line 204), which is the dash-case of no slot of the token group, whose slot there is `hr` (line 119) |
| Recipe.CorrectedSlotsMatchVars | src/recipe.ts:98-151 | with the `hr` slot called `hrBorder`, every one of the eighteen variables spells, in dash-case, the slot in its place, so each variable names a token of the group. The renamed slot keeps shade 200, and every other slot is unchanged |
| Recipe.GetRecord | src/recipe.ts:249-253 | throws when the options are absent. Otherwise it has one key, `options.className ?? "prose"` (the name is ignored), holding `create(options)`, and throws exactly when `create` does |
| Preset.Create | src/preset.ts:13-22 | throws exactly when the recipe options are absent or `create` throws. `recipes` is `getRecord(options.recipe)`, and `semanticTokens` is `createDefaultSemanticTokens({recipe})` |
| Preset.CreateKeys | src/preset.ts:17-18 | the recipe is keyed by its class name, while the token group is keyed by its name |
| Preset.CreateNameOnly | src/preset.ts:17-18 | a custom name alone moves the tokens but leaves the recipe under `prose` |
| Preset.CreateWithoutRecipeThrows | src/preset.ts:17 | without `options.recipe` the preset throws a `TypeError` from `getRecord` |
| Preset.GetRecordOptional | src/preset.ts:17 | reading `options?.className`, the record throws exactly when `create` does and is keyed `className ?? "prose"` |
| Preset.GetRecordOptionalAgrees | src/recipe.ts:249-253 | for present options the corrected record is the original one |
| Preset.CreateOptional | src/preset.ts:13-22 | the corrected preset throws exactly when `create` does. Its recipe key is `className ?? "prose"`, and its tokens are those of the original |
| Preset.CreateOptionalWithoutOptions | src/preset.ts:13-22 | without options the corrected preset holds the `prose` recipe and the `prose` token group, whenever the configuration has every style |
| Preset.CreateOptionalAgrees | src/preset.ts:13-22 | whenever the original builds a preset, the corrected one builds the same preset |
| LegacyUtils.IsObject | src/utils.ts:7-9 | truthy exactly for plain objects; a falsy value comes back itself, otherwise a boolean |
| LegacyUtils.IsObjectAgrees | src/utils.ts:7-9 | the earlier `isObject` is the later `Is.object` |
| LegacyUtils.AssignKey | src/utils.ts:23-30 | one turn of the key loop leaves every other key unchanged |
| LegacyUtils.MergeObjects | src/utils.ts:19-33 | with no sources the target comes back. A non-object target stays as it is, and an object target stays an object. The whole is the later `Merge.deep` |
| LegacyUtils.MergePropsAgrees | src/utils.ts:23-30 | the earlier merge loop is the later `deep` loop |
| LegacyUtils.AssignKeyAgrees | src/utils.ts:24-29 | one key is merged as the later `deep` merges it: objects recursively, non-objects overwrite, a truthy non-object blocks |
| LegacyConstants.NamedVarsEntries | src/constants.ts:16-35 | the written-out table has the names as keys, in order, each pointing at `var(--prose-<name>)` |
| LegacyConstants.DefaultTwVarsEntries | src/constants.ts:16-35 | `DEFAULT_TW_VARS` has the eighteen variables, each once, each `k` mapped to `var(--prose-k)` |
| LegacyConstants.TwVarNamesAgree | src/constants.ts:40-45 | the earlier variables, `TW_DEFAULT` and `TW_SIZES` equal the later constants, and `DEFAULT` is not a size |
| Extract.GetNestedTag | src/extract.ts:97-102 | `"& "` in front and after every `", "` |
| Extract.GetValueWithVar | src/extract.ts:111-117 | unchanged without a reference or with a falsy value; otherwise every reference becomes the first one's value |
| Extract.GetCssWithNestedTags | src/extract.ts:74-76 | well-formed, and when no renamed keys collide only the top-level object keys are renamed |
| Extract.GetCssWithVars | src/extract.ts:85-89 | keys stay where they are; nested objects are rewritten recursively |
| Extract.GetCss | src/extract.ts:52-54 | always nests tags, substitutes only when `vars` is given and never strips declarations. This is the later pipe with `nestedTags` and `varDecs` on |
| Extract.PipeStages | src/extract.ts:53 | the pipe is nesting, then substitution when `vars` is given; the second slot, `Extract.VarsStage`, is empty without `vars` |
| Extract.StagesAgree | src/extract.ts:52-54 | each stage of `getCss` is the later pipe of the same purpose |
| Extract.NestedTagsAgree | src/extract.ts:74-76 | `getCssWithNestedTags` is the later `withNestedTags` |
| Extract.CssWithVarsAgree | src/extract.ts:85-89 | `getCssWithVars` is the later `withCssVars` |
| Extract.HelpersAgree | src/extract.ts:97-117 | `getNestedTag` is `createNestedCssSelector` and `getValueWithVar` is `replaceCssVar` |
| Extract.CssAt | src/extract.ts:41-43 | throws exactly when the key is missing; otherwise `getCss` of the merged styles |
| Extract.GetCssDefaults | src/extract.ts:30-32 | throws exactly without `DEFAULT`; equals the later `getCssDefaults` with the pipes of `getCss` |
| Extract.GetCssForSize | src/extract.ts:41-43 | throws exactly when the size is missing; equals the later `getCssForSize` with the pipes of `getCss` |
| Extract.SizeValues | src/extract.ts:63-65 | throws exactly when a selected size is missing; otherwise one result per size |
| Extract.GetCssForSizes | src/extract.ts:62-66 | throws exactly when a selected size is missing; the keys are `options.sizes`, or `TW_SIZES` by default |
| Extract.GetCssForSizesValues | src/extract.ts:62-66 | without repeated sizes each size, in order, holds `getCssForSize(size, options)` |
| Extract.GetCssForSizesAgrees | src/extract.ts:62-66 | with options, the earlier `getCssForSizes` is the later one given the pipes of `getCss` |
| Extract.SizeValuesAgree | src/extract.ts:63-65 | size by size, the earlier extraction is the later one |
| Extract.GetCssForSizesWithoutOptions | src/extract.ts:62-66 | without options all five sizes are extracted in order, where the later version throws |
| LegacyTokens.CreateDefaultSemanticTokens | src/semantic-tokens.ts:5-71 | one colour group, keyed `prefix ?? "prose"`, holding the slots in the palette `colorPalette ?? "slate"` |
| LegacyTokens.SlotsRenameHr | src/semantic-tokens.ts:34 | the earlier slots are the later ones with `hr` called `hrBorder`, which are the corrected later slots `Recipe.CorrectedTokenSlots` |
| LegacyTokens.GroupKeys | src/semantic-tokens.ts:12-67 | the group under the prefix has the eighteen slots, in order, each once; there is no `hr` slot |
| LegacyTokens.HrNotASlot | src/semantic-tokens.ts:34 | there is no `hr` slot |
| LegacyTokens.GroupValues | src/semantic-tokens.ts:13-52 | `kbdShadow` is `0 0 0` whatever the palette. `hrBorder` is `{colors.<palette>.200}` and `body` is `{colors.<palette>.700}` |
| LegacyTokens.SlotToken | src/semantic-tokens.ts:13-67 | every slot holds its token: a reference to the palette's shade, or the fixed text |
| ProseColors.DefaultPairsShape | src/prose/colors.ts:6-23 | the defaults name the first sixteen colours of the option type, in order |
| ProseColors.DefaultColorsShape | src/prose/colors.ts:6-23 | sixteen distinct defaults, with no `kbd` and no `kbdShadowRgb` |
| ProseColors.DefaultColorsDistinct | src/prose/colors.ts:6-23 | the default colours are each named once |
| ProseColors.MergeWithDefaultColors | src/prose/colors.ts:31-38 | the keys are the defaults' plus the argument's. A supplied colour takes the argument's value and the rest keep their default. `undefined` gives the defaults |
| ProseColors.SpreadDefaults | src/prose/colors.ts:35 | spreading the defaults into `{}` copies them |
| ProseColors.AssignFresh | src/prose/colors.ts:35-36 | assigning an object whose keys are all new appends its entries |
| ProseColors.MergeKeepsDefaults | src/prose/colors.ts:34-37 | a colour left out keeps its default; a colour without a default exists only when supplied |
| ProseColors.KbdOnlyWhenSupplied | src/prose/colors.ts:6-37 | `kbd` and `kbdShadowRgb` are set only by the user |
| ProseColors.MergeUndefinedOverrides | src/prose/colors.ts:36 | a colour set to `undefined` replaces its default with `undefined` |

## Left out

- `getConfig` (src/tailwind.ts:38-40) and `getRawConfig` (src/extract.ts:20-22) call into `@tailwindcss/typography`. Their result is the parameter `config`.
- `defineRecipe`, `defineSemanticTokens` and `definePreset` from `@pandacss/dev` return their argument, so they are plain constructors. Only the record fields the preset sets are represented.
- `join`, `joinMap` and `pipe`, which src/extract.ts imports, are not part of this model. They are taken as the deep merge of a list, the deep merge of the mapped list, and `Pipe.create`.
- `round`, `rem` and `em` in src/prose/utils.ts format floating-point numbers, and src/prose/recipe.ts is a static table built from them. Both are left out.
- src/prose/tw/css.ts and src/prose/tw/utils.ts are not part of this model. They rely on regular expressions, helpers and a style file defined elsewhere, and they mutate their input in place.
- The `lastIndex` of the shared `/g` regular expression is left out. `exec` always starts at index 0, so the state an unmapped first match leaves for the next call is not modelled.
- `$` patterns in replacement strings are not interpreted: values are taken to contain no `$`.
- Integer-like keys, which JavaScript enumerates before all others, are ordered like any other key.
- Numbers are reals; `NaN` is not represented.
- Functions, symbols and class instances are not `JsValue`s.
- `jsx` regular expressions are kept as their source text.
- The types-only and wiring files are left out: src/types.ts, src/prose/types.ts, src/index.ts and src/prose/constants.ts. So are demo/panda.config.ts, debug/panda.config.ts and tsup.config.ts.
- `Merge.Shallow`: the index properties that `Object.assign` copies from strings and arrays are not modelled, and `Merge.Shallow` says nothing about them. The target is taken to be an object, as at every call in src/utils/merge.ts (lines 13, 43 and 46). `shallow(null)` and `shallow(undefined)`, which throw a `TypeError`, and a primitive target, which `Object.assign` wraps in an object, are not modelled.
- `TailwindPipes.WithNestedTags`, `TailwindPipes.WithNotProseClasses` and `Extract.GetCssWithNestedTags`: when two renamed keys collide, only well-formedness is stated, not which value wins.
- `TailwindPipes.WithCssVars`, `TailwindPipes.WithoutVarDecs` and `Extract.GetCssWithVars`: for an input with a repeated key, which no JavaScript object has, only the result's keys or well-formedness are stated.
- `Tailwind.GetCssForSizesValues`, `Extract.GetCssForSizesValues`: the value of each size is stated only for a size list without repeats; with repeats only the keys are stated.
- `Objects.Get`, `Merge.MergeKey`, `LegacyUtils.AssignKey` and `VarRefs.Lookup`: keys and variable names that are `Object.prototype` members (`toString`, `constructor`, `valueOf`, `__proto__`, ...) are treated as ordinary missing keys. In JavaScript `target[key]` and `vars[name]` find the inherited member. So a deep merge of `{toString: {a: 1}}` skips that key, and `replaceCssVar` calls the inherited function as the replacer. Functions are not values of this model.
- `Merge.Deep` and `LegacyUtils.MergeObjects`: the caller's target is taken to share no object with the sources. When it does, writing into a nested object of the target also changes the source that holds it, and later sources copy the changed object; the model copies the original.
- `Strings.Split`: defined for a non-empty separator only, the one the source uses being `", "`.

## Findings

| source | as written | input that shows it | evidently intended | confidence | as-written member | corrected member |
|---|---|---|---|---|---|---|
| src/preset.ts:17 | `create(options?)` passes `options?.recipe` to `Recipe.getRecord`, which reads `options.className` without `?.` | `Preset.create()` or `Preset.create({})`: reading `className` of `undefined` throws a `TypeError` | without recipe options, the preset holds the default `prose` recipe, as the optional parameter and the `?.` everywhere else suggest | not executed; high | Preset.CreateWithoutRecipeThrows | Preset.CreateOptional |
| src/recipe.ts:204 | the `hr` variable is `var(--colors-${prefix}-hr-border)`, but the token slot of that colour is called `hr` (line 119) | `Preset.create({ recipe: {} })`: the `hr` variable is `var(--colors-prose-hr-border)`, while the semantic tokens define `prose.hr` and no slot spelled `hr-border`, so the plugin's `hr` colour refers to a variable no token defines | the slot is `hrBorder`, as in the earlier src/semantic-tokens.ts:34, so every variable spells a slot of the group | not executed; medium | Recipe.VarSlotsMissHr | Recipe.CorrectedSlotsMatchVars |
