/** `createDefaultSemanticTokens` of the earlier version
    (src/semantic-tokens.ts): the colour palette is an option. */
module LegacyTokens {
  import opened Outcomes
  import opened Objects
  import opened Panda
  import opened LegacyConstants
  import Recipe

  /** `DefaultSemanticTokensOptions`. */
  datatype TokensOptions = TokensOptions(colorPalette: Option<string>, prefix: Option<string>)

  /** The slots of the colour group, in their order; the border under
      horizontal rules is `hrBorder` here. */
  const Slots: seq<(string, SlotValue)> := [
    ("body", Shade("700")), ("heading", Shade("900")), ("lead", Shade("600")), ("link", Shade("900")),
    ("bold", Shade("900")), ("counter", Shade("500")), ("bullet", Shade("300")), ("hrBorder", Shade("200")),
    ("quote", Shade("900")), ("quoteBorder", Shade("200")), ("caption", Shade("500")), ("kbd", Shade("900")),
    ("kbdShadow", Fixed("0 0 0")), ("code", Shade("900")), ("preCode", Shade("200")), ("preBg", Shade("800")),
    ("thBorder", Shade("300")), ("tdBorder", Shade("200"))
  ]

  function PaletteOf(options: Option<TokensOptions>): string {
    if options.Some? && options.value.colorPalette.Some? then options.value.colorPalette.value else "slate"
  }

  function PrefixOf(options: Option<TokensOptions>): string {
    if options.Some? && options.value.prefix.Some? then options.value.prefix.value else DefaultRecipeName
  }

  /** `createDefaultSemanticTokens(options)`: one colour group, named
      `options?.prefix ?? "prose"`, whose slots refer to shades of
      `options?.colorPalette ?? "slate"`. */
  function CreateDefaultSemanticTokens(options: Option<TokensOptions>): (r: SemanticTokens)
    ensures Keys(r.colors) == [PrefixOf(options)]
    ensures Get(r.colors, PrefixOf(options)) == Some(TokenGroup(PaletteOf(options), Slots))
  {
    SemanticTokens(Entry(PrefixOf(options), TokenGroup(PaletteOf(options), Slots), Empty))
  }

  /** The earlier slots are the later ones with `hr` called `hrBorder`:
      the corrected slots of the later version, whose `hr` variable they
      match. */
  lemma SlotsRenameHr()
    ensures Slots == Recipe.CorrectedTokenSlots
    ensures Slots == Recipe.TokenSlots[7 := ("hrBorder", Recipe.TokenSlots[7].1)]
  {
  }

  /** The group the tokens hold under the prefix has the eighteen slots, in
      order and each once; there is no `hr` slot. */
  lemma GroupKeys(options: Option<TokensOptions>)
    ensures var group := TokenGroup(PaletteOf(options), Slots);
            && Get(CreateDefaultSemanticTokens(options).colors, PrefixOf(options)) == Some(group)
            && Keys(group) == seq(|Slots|, i requires 0 <= i < |Slots| => Slots[i].0)
            && |Keys(group)| == 18
            && Get(group, "hr").None?
  {
    SlotNames();
    HrNotASlot(PaletteOf(options));
  }

  lemma HrNotASlot(palette: string)
    ensures "hr" !in Keys(TokenGroup(palette, Slots))
  {
    var keys := Keys(TokenGroup(palette, Slots));
    SlotNames();
    forall i | 0 <= i < |keys| ensures keys[i] != "hr" {
      assert keys[i] == Slots[i].0;
    }
  }

  /** Every slot of the group holds its token: a reference to the chosen
      palette, except `kbdShadow`, which is the fixed text `0 0 0`. */
  lemma GroupValues(options: Option<TokensOptions>)
    ensures var palette := PaletteOf(options);
            var group := TokenGroup(palette, Slots);
            && Get(group, "kbdShadow") == Some(Token("0 0 0"))
            && Get(group, "hrBorder") == Some(Token("{colors." + palette + ".200}"))
            && Get(group, "body") == Some(Token("{colors." + palette + ".700}"))
  {
    var palette := PaletteOf(options);
    SlotToken(palette, 12, "kbdShadow", Fixed("0 0 0"));
    SlotToken(palette, 7, "hrBorder", Shade("200"));
    SlotToken(palette, 0, "body", Shade("700"));
    ShadeText(palette);
  }

  /** The two shade references written out. */
  lemma ShadeText(palette: string)
    ensures TokenValue(palette, Shade("200")) == "{colors." + palette + ".200}"
    ensures TokenValue(palette, Shade("700")) == "{colors." + palette + ".700}"
  {
    var head := "{colors." + palette;
    assert head + "." + "200" + "}" == head + ("." + "200" + "}");
    assert head + "." + "700" + "}" == head + ("." + "700" + "}");
  }

  /** The slot at index `i` holds its token. */
  lemma SlotToken(palette: string, i: nat, name: string, v: SlotValue)
    requires i < |Slots| && Slots[i] == (name, v)
    ensures Get(TokenGroup(palette, Slots), name) == Some(Token(TokenValue(palette, v)))
  {
    SlotsShape();
  }

  lemma SlotsShape()
    ensures forall i, j :: 0 <= j < i < |Slots| ==> Slots[j].0 != Slots[i].0
  {
  }

  lemma SlotNames()
    ensures |Slots| == 18
    ensures forall i :: 0 <= i < |Slots| ==> Slots[i].0 != "hr"
  {
  }
}
