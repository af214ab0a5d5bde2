/**
 * Theme utilities of the quiz (lib/theme.ts).
 *
 * A theme configuration is stored as a JSON object of string values. It is
 * modelled as a map from field name to value; the object spread
 * `{ ...DEFAULT_THEME, ...dbConfig }` is the right-biased map union `+`.
 */
module Theme {

  /** The thirteen fields of a ThemeConfig (lib/types.ts). */
  const ThemeFields: set<string> := {
    "primaryColor", "backgroundColor", "cardColor", "buttonColor",
    "buttonTextColor", "buttonRadius", "correctColor", "wrongColor",
    "fontFamily", "titleFontSize", "questionFontSize", "progressBarColor",
    "shadowColor"
  }

  /** DEFAULT_THEME: the value used for every field the stored config lacks. */
  const DefaultTheme: map<string, string> := map[
    "primaryColor" := "#FF6B9D",
    "backgroundColor" := "#FFF5E4",
    "cardColor" := "#FFFFFF",
    "buttonColor" := "#FF6B9D",
    "buttonTextColor" := "#FFFFFF",
    "buttonRadius" := "12px",
    "correctColor" := "#2ECC71",
    "wrongColor" := "#E74C3C",
    "fontFamily" := "\"Noto Sans Thai\", \"Sarabun\", sans-serif",
    "titleFontSize" := "1.5rem",
    "questionFontSize" := "1.1rem",
    "progressBarColor" := "#FF6B9D",
    "shadowColor" := "rgba(255, 107, 157, 0.2)"
  ]

  /** A complete ThemeConfig: every one of the thirteen fields is present. */
  predicate IsThemeConfig(theme: map<string, string>) {
    ThemeFields <= theme.Keys
  }

  /** mergeTheme: overlay the stored configuration on the defaults. */
  function MergeTheme(dbConfig: map<string, string>): (theme: map<string, string>)
    ensures IsThemeConfig(theme)
    ensures theme.Keys == ThemeFields + dbConfig.Keys
    ensures forall k :: k in dbConfig ==> theme[k] == dbConfig[k]
    ensures forall k :: k in ThemeFields && k !in dbConfig ==> theme[k] == DefaultTheme[k]
  {
    DefaultTheme + dbConfig
  }

  /** An empty stored configuration yields exactly the defaults. */
  lemma MergeEmptyIsDefault()
    ensures MergeTheme(map[]) == DefaultTheme
  {
  }

  /** Merging a complete configuration changes nothing. */
  lemma MergeCompleteIsIdentity(theme: map<string, string>)
    requires IsThemeConfig(theme)
    ensures MergeTheme(theme) == theme
  {
  }

  /** Merging twice is the same as merging once. */
  lemma MergeIdempotent(dbConfig: map<string, string>)
    ensures MergeTheme(MergeTheme(dbConfig)) == MergeTheme(dbConfig)
  {
    MergeCompleteIsIdentity(MergeTheme(dbConfig));
  }

  /** The CSS custom properties and the theme field each one carries, in source order. */
  const CssVarFields: seq<(string, string)> := [
    ("--qr-primary", "primaryColor"),
    ("--qr-bg", "backgroundColor"),
    ("--qr-card", "cardColor"),
    ("--qr-btn", "buttonColor"),
    ("--qr-btn-text", "buttonTextColor"),
    ("--qr-btn-radius", "buttonRadius"),
    ("--qr-correct", "correctColor"),
    ("--qr-wrong", "wrongColor"),
    ("--qr-font", "fontFamily"),
    ("--qr-title-size", "titleFontSize"),
    ("--qr-q-size", "questionFontSize"),
    ("--qr-progress", "progressBarColor"),
    ("--qr-shadow", "shadowColor")
  ]

  /** The names of the CSS custom properties. */
  const CssVarNames: set<string> := set i | 0 <= i < |CssVarFields| :: CssVarFields[i].0

  /** The thirteen property names are pairwise distinct and all carry the `--qr-` prefix. */
  lemma CssVarNamesDistinct()
    ensures |CssVarFields| == 13
    ensures forall i, j :: 0 <= i < j < |CssVarFields| ==> CssVarFields[i].0 != CssVarFields[j].0
    ensures forall i :: 0 <= i < |CssVarFields| ==> CssVarFields[i].0 in CssVarNames && CssVarFields[i].1 in ThemeFields
    ensures forall i :: 0 <= i < |CssVarFields| ==> |CssVarFields[i].0| > 5 && CssVarFields[i].0[..5] == "--qr-"
  {
  }

  /** The fields renamed as the table says: each property name maps to its field's value. */
  function Rename(theme: map<string, string>, fields: seq<(string, string)>): (vars: map<string, string>)
    requires forall i :: 0 <= i < |fields| ==> fields[i].1 in theme
    ensures vars.Keys == set i | 0 <= i < |fields| :: fields[i].0
  {
    if fields == [] then map[]
    else
      var init := fields[..|fields| - 1];
      var vars := Rename(theme, init)[fields[|fields| - 1].0 := theme[fields[|fields| - 1].1]];
      assert (set i | 0 <= i < |fields| :: fields[i].0) == (set i | 0 <= i < |init| :: init[i].0) + {fields[|fields| - 1].0} by {
        forall i | 0 <= i < |init| ensures init[i].0 == fields[i].0 { }
      }
      vars
  }

  /** With distinct property names, every property carries the value of its own field. */
  lemma {:induction false} RenameCarries(theme: map<string, string>, fields: seq<(string, string)>)
    requires forall i :: 0 <= i < |fields| ==> fields[i].1 in theme
    requires forall i, j :: 0 <= i < j < |fields| ==> fields[i].0 != fields[j].0
    ensures forall i :: 0 <= i < |fields| ==> Rename(theme, fields)[fields[i].0] == theme[fields[i].1]
  {
    if fields != [] {
      var init := fields[..|fields| - 1];
      RenameCarries(theme, init);
      forall i | 0 <= i < |fields| ensures Rename(theme, fields)[fields[i].0] == theme[fields[i].1] {
        if i < |init| {
          assert init[i] == fields[i];
        }
      }
    }
  }

  /** themeToCssVars: a fixed renaming of the thirteen theme fields. */
  function ThemeToCssVars(theme: map<string, string>): (vars: map<string, string>)
    requires IsThemeConfig(theme)
    ensures vars.Keys == CssVarNames
    ensures forall i :: 0 <= i < |CssVarFields| ==> vars[CssVarFields[i].0] == theme[CssVarFields[i].1]
  {
    CssVarNamesDistinct();
    RenameCarries(theme, CssVarFields);
    Rename(theme, CssVarFields)
  }
}
