/** The swatch colour shown for each language, with a fallback for languages not in the table. */
module Colors {

  const DefaultColor: string := "#8b5cf6"

  /** The `languageColors` record: 26 languages and the `default` entry. */
  const LanguageColors: map<string, string> := map[
    "JavaScript" := "#f1e05a",
    "TypeScript" := "#2b7489",
    "Python" := "#3572A5",
    "Java" := "#b07219",
    "C++" := "#f34b7d",
    "C" := "#555555",
    "C#" := "#239120",
    "PHP" := "#4F5D95",
    "Ruby" := "#701516",
    "Go" := "#00ADD8",
    "Rust" := "#dea584",
    "Swift" := "#ffac45",
    "Kotlin" := "#F18E33",
    "Dart" := "#00B4AB",
    "HTML" := "#e34c26",
    "CSS" := "#563d7c",
    "SCSS" := "#c6538c",
    "Vue" := "#4FC08D",
    "React" := "#61DAFB",
    "Angular" := "#DD0031",
    "Shell" := "#89e051",
    "PowerShell" := "#012456",
    "Dockerfile" := "#384d54",
    "JSON" := "#292929",
    "YAML" := "#cb171e",
    "Markdown" := "#083fa1",
    "default" := DefaultColor
  ]

  predicate IsHexDigit(c: char) {
    '0' <= c <= '9' || 'a' <= c <= 'f' || 'A' <= c <= 'F'
  }

  /** A CSS colour of the form `#rrggbb`. */
  predicate IsHexColor(s: string) {
    && |s| == 7 && s[0] == '#'
    && IsHexDigit(s[1]) && IsHexDigit(s[2]) && IsHexDigit(s[3])
    && IsHexDigit(s[4]) && IsHexDigit(s[5]) && IsHexDigit(s[6])
  }

  /** `getLanguageColor`: the table's entry, or the `default` entry when the entry is missing or empty. */
  function GetLanguageColor(language: string): (color: string)
    ensures color in LanguageColors.Values
  {
    if language in LanguageColors && LanguageColors[language] != "" then LanguageColors[language]
    else LanguageColors["default"]
  }

  /** Every colour in the table is a `#rrggbb` string, so none is empty. */
  lemma TableColorsWellFormed()
    ensures forall l :: l in LanguageColors ==> IsHexColor(LanguageColors[l])
  {
    var listed := {"#f1e05a", "#2b7489", "#3572A5", "#b07219", "#f34b7d", "#555555", "#239120", "#4F5D95", "#701516", "#00ADD8", "#dea584", "#ffac45", "#F18E33", "#00B4AB", "#e34c26", "#563d7c", "#c6538c", "#4FC08D", "#61DAFB", "#DD0031", "#89e051", "#012456", "#384d54", "#292929", "#cb171e", "#083fa1", DefaultColor};
    assert forall l :: l in LanguageColors ==> LanguageColors[l] in listed;
  }

  /**
   * A listed language gets its own colour, any other name gets `#8b5cf6`; the
   * `||` fallback never replaces a listed colour, since none is empty.
   */
  lemma GetLanguageColorSpec(language: string)
    ensures language in LanguageColors ==> GetLanguageColor(language) == LanguageColors[language]
    ensures language !in LanguageColors ==> GetLanguageColor(language) == "#8b5cf6"
    ensures IsHexColor(GetLanguageColor(language))
  {
    TableColorsWellFormed();
  }
}
