/** The records of `@pandacss/dev` that the preset fills in.

    `defineRecipe`, `defineSemanticTokens` and `definePreset` return their
    argument unchanged, so each is a plain datatype constructor here.  Only
    the fields the preset sets are represented. */
module Panda {
  import opened Outcomes
  import opened Objects
  import opened StyleTree

  /** A semantic token, `{ value }`. */
  datatype Token = Token(value: string)

  /** `SemanticTokens` with its `colors` group: group name, then slot name. */
  datatype SemanticTokens = SemanticTokens(colors: Entries<Entries<Token>>)

  /** An element of a recipe's `jsx` list: a component name or a regular
      expression (kept as its source text). */
  datatype JsxMatcher = JsxName(name: string) | JsxPattern(source: string)

  /** `RecipeConfig` as `Recipe.create` fills it: `defaultVariants.size` is
      `defaultSize` and `variants.size` is `sizeVariants`. */
  datatype RecipeConfig = RecipeConfig(
    className: string,
    jsx: Option<seq<JsxMatcher>>,
    defaultSize: string,
    base: Css,
    sizeVariants: Css)

  /** `theme.extend` of a preset: the only part the preset populates. */
  datatype Extend = Extend(recipes: Entries<RecipeConfig>, semanticTokens: SemanticTokens)

  datatype Theme = Theme(extend: Extend)

  datatype Preset = Preset(theme: Theme)

  /** What a token slot holds: a shade of the colour palette, written as the
      token reference `{colors.<palette>.<shade>}`, or a fixed text. */
  datatype SlotValue = Shade(shade: string) | Fixed(text: string)

  function TokenValue(palette: string, v: SlotValue): string {
    match v
    case Shade(shade) => "{colors." + palette + "." + shade + "}"
    case Fixed(text) => text
  }

  /** The token group written out slot by slot for one palette. */
  function TokenGroup(palette: string, slots: seq<(string, SlotValue)>): (r: Entries<Token>)
    ensures Keys(r) == seq(|slots|, i requires 0 <= i < |slots| => slots[i].0)
    ensures forall i :: 0 <= i < |slots| && (forall j :: 0 <= j < i ==> slots[j].0 != slots[i].0)
              ==> Get(r, slots[i].0) == Some(Token(TokenValue(palette, slots[i].1)))
  {
    if |slots| == 0 then Empty
    else
      var rest := TokenGroup(palette, slots[1..]);
      assert forall i :: 1 <= i < |slots| ==> slots[1..][i - 1] == slots[i];
      Entry(slots[0].0, Token(TokenValue(palette, slots[0].1)), rest)
  }
}
