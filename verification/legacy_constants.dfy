/** The constants of the earlier, function-based version of the preset
    (src/constants.ts). */
module LegacyConstants {
  import opened Outcomes
  import opened Objects
  import TailwindConstants

  const DefaultRecipeName: string := "prose"

  const DefaultRecipeClassName: string := "prose"

  /** The properties of `DEFAULT_TW_VARS`, in their order. */
  const TwVarNames: seq<string> := [
    "body", "headings", "lead", "links", "bold", "counters", "bullets", "hr", "quotes",
    "quote-borders", "captions", "kbd", "kbd-shadows", "code", "pre-code", "pre-bg",
    "th-borders", "td-borders"
  ]

  /** The value `DEFAULT_TW_VARS` gives the variable `name`. */
  function TwVar(name: string): string {
    "var(--prose-" + name + ")"
  }

  /** An object mapping each of `names` to its `var(--prose-<name>)`. */
  function NamedVars(names: seq<string>): Entries<string> {
    if |names| == 0 then Empty else Entry(names[0], TwVar(names[0]), NamedVars(names[1..]))
  }

  /** `DEFAULT_TW_VARS`. */
  const DefaultTwVars: Entries<string> := NamedVars(TwVarNames)

  /** `TW_DEFAULT`. */
  const TwDefault: string := "DEFAULT"

  /** `TW_SIZES`. */
  const TwSizes: seq<string> := ["sm", "base", "lg", "xl", "2xl"]

  lemma {:induction false} NamedVarsEntries(names: seq<string>)
    ensures Keys(NamedVars(names)) == names
    ensures forall k :: k in names ==> Get(NamedVars(names), k) == Some(TwVar(k))
    decreases |names|
  {
    if |names| > 0 {
      NamedVarsEntries(names[1..]);
      assert names == [names[0]] + names[1..];
    }
  }

  /** `DEFAULT_TW_VARS` has the eighteen variables, each once, and points
      each variable `k` at `var(--prose-k)`. */
  lemma DefaultTwVarsEntries()
    ensures Keys(DefaultTwVars) == TwVarNames && |Keys(DefaultTwVars)| == 18
    ensures DistinctKeys(DefaultTwVars)
    ensures forall k :: k in TwVarNames ==> Get(DefaultTwVars, k) == Some("var(--prose-" + k + ")")
  {
    NamedVarsEntries(TwVarNames);
    TwVarNamesAgree();
    TailwindConstants.VarNamesDistinct();
    DistinctKeysNoDuplicates(DefaultTwVars);
  }

  /** The earlier constants name the same configuration keys and the same
      variables as the later `Tailwind.Constants`. */
  lemma TwVarNamesAgree()
    ensures TwVarNames == TailwindConstants.VarNames
    ensures TwDefault == TailwindConstants.DefaultKey
    ensures TwSizes == TailwindConstants.Sizes
    ensures TwDefault !in TwSizes
  {
  }
}
