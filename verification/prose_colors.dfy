/** The default colours of the earlier prose recipe and their merge with the
    colours a user supplies (src/prose/colors.ts).

    A colour option is `Partial<ProseRecipeColorsOption>`: a property may be
    absent or set to `undefined`, which `None` stands for. */
module ProseColors {
  import opened Outcomes
  import opened Objects

  type Colors = Entries<Option<string>>

  /** `DEFAULT_PROSE_RECIPE_COLORS`, property by property: sixteen colours;
      `kbd` and `kbdShadowRgb`, which the option type also lists, have no
      default. */
  const DefaultPairs: seq<(string, Option<string>)> := [
    ("body", Some("slate.700")), ("lead", Some("slate.600")), ("link", Some("slate.900")),
    ("counter", Some("slate.500")), ("bullet", Some("slate.300")), ("hrBorder", Some("slate.200")),
    ("quote", Some("slate.900")), ("quoteBorder", Some("slate.200")), ("heading", Some("slate.900")),
    ("caption", Some("slate.500")), ("bold", Some("slate.900")), ("code", Some("slate.900")),
    ("preCode", Some("slate.200")), ("preBackground", Some("slate.800")), ("thBorder", Some("slate.300")),
    ("tdBorder", Some("slate.200"))
  ]

  const DefaultColors: Colors := FromPairs(DefaultPairs)

  /** The colour names of the option type, in its order. */
  const ColorNames: seq<string> := [
    "body", "lead", "link", "counter", "bullet", "hrBorder", "quote", "quoteBorder", "heading",
    "caption", "bold", "code", "preCode", "preBackground", "thBorder", "tdBorder", "kbd", "kbdShadowRgb"
  ]

  lemma DefaultPairsShape()
    ensures seq(|DefaultPairs|, i requires 0 <= i < |DefaultPairs| => DefaultPairs[i].0) == ColorNames[..16]
  {
  }

  lemma ColorNamesDistinct()
    ensures NoDuplicates(ColorNames)
  {
  }

  /** The defaults name every colour of the option type but the last two,
      each once. */
  lemma DefaultColorsShape()
    ensures Keys(DefaultColors) == ColorNames[..16]
    ensures DistinctKeys(DefaultColors)
    ensures "kbd" !in Keys(DefaultColors) && "kbdShadowRgb" !in Keys(DefaultColors)
  {
    DefaultColorsDistinct();
    KbdNotDefault();
  }

  lemma KbdNotDefault()
    ensures "kbd" !in ColorNames[..16] && "kbdShadowRgb" !in ColorNames[..16]
  {
  }

  lemma DefaultColorsDistinct()
    ensures Keys(DefaultColors) == ColorNames[..16]
    ensures DistinctKeys(DefaultColors)
  {
    DefaultPairsShape();
    ColorNamesDistinct();
    assert NoDuplicates(Keys(DefaultColors));
    DistinctKeysNoDuplicates(DefaultColors);
  }

  /** `mergeWithDefaultColors(colors)`: `{ ...DEFAULT_PROSE_RECIPE_COLORS,
      ...colors }`.  The defaults spread into `{}` are the defaults
      themselves (`SpreadDefaults`), and spreading `undefined` adds
      nothing. */
  function MergeWithDefaultColors(colors: Option<Colors>): (r: Colors)
    ensures forall k :: k in Keys(r) <==> k in Keys(DefaultColors) || (colors.Some? && k in Keys(colors.value))
    ensures colors.Some? && DistinctKeys(colors.value) ==>
              forall k :: Get(r, k) == if k in Keys(colors.value) then Get(colors.value, k) else Get(DefaultColors, k)
    ensures colors.None? ==> r == DefaultColors
  {
    Assign(DefaultColors, colors.Otherwise(Empty))
  }

  /** `{ ...DEFAULT_PROSE_RECIPE_COLORS }` is a copy of the defaults. */
  lemma SpreadDefaults()
    ensures Assign(Empty, DefaultColors) == DefaultColors
  {
    DefaultColorsDistinct();
    AssignFresh(Empty, DefaultColors);
  }

  /** Assigning an object with distinct keys, none of which the target has,
      appends its entries. */
  lemma {:induction false} AssignFresh<V>(target: Entries<V>, source: Entries<V>)
    requires DistinctKeys(source)
    requires forall k :: k in Keys(source) ==> k !in Keys(target)
    ensures Assign(target, source) == Concat(target, source)
    decreases source
  {
    match source
    case Empty =>
      ConcatEmpty(target);
    case Entry(k, v, rest) =>
      SetFresh(target, k, v);
      AssignFresh(Concat(target, Entry(k, v, Empty)), rest);
      ConcatAssociative(target, Entry(k, v, Empty), rest);
  }

  /** The colours a user leaves out keep their defaults, and a colour
      without a default exists only when supplied. */
  lemma MergeKeepsDefaults(colors: Colors, k: string)
    requires DistinctKeys(colors)
    ensures k !in Keys(colors) ==> Get(MergeWithDefaultColors(Some(colors)), k) == Get(DefaultColors, k)
    ensures k !in Keys(DefaultColors) ==> (Get(MergeWithDefaultColors(Some(colors)), k).Some? <==> k in Keys(colors))
  {
  }

  /** `kbd` and `kbdShadowRgb` are set only by the user. */
  lemma KbdOnlyWhenSupplied(colors: Colors, k: string)
    requires DistinctKeys(colors)
    requires k == "kbd" || k == "kbdShadowRgb"
    ensures Get(MergeWithDefaultColors(Some(colors)), k).Some? <==> k in Keys(colors)
  {
    DefaultColorsShape();
    MergeKeepsDefaults(colors, k);
  }

  /** A colour set to `undefined` replaces its default with `undefined`. */
  lemma MergeUndefinedOverrides()
    ensures Get(MergeWithDefaultColors(Some(Entry("body", None, Empty))), "body") == Some(None)
    ensures Get(DefaultColors, "body") == Some(Some("slate.700"))
  {
  }
}
