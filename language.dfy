/**
  The colour of a card's language tag (`getLanguageColor`): a fixed table from
  language name to a hex colour, with grey for every other value.
 */
module LanguageColors {
  import opened RepoModel

  const DefaultColor: string := "#858585"

  /** The colour table, keyed by the language name exactly as the API spells it. */
  const Palette: map<string, string> := map[
    "JavaScript" := "#f1e05a",
    "TypeScript" := "#2b7489",
    "Python" := "#3572A5",
    "Java" := "#b07219",
    "HTML" := "#e34c26",
    "CSS" := "#563d7c",
    "C++" := "#f34b7d",
    "C" := "#555555",
    "Go" := "#00ADD8",
    "Ruby" := "#701516",
    "PHP" := "#4F5D95",
    "Swift" := "#ffac45",
    "Kotlin" := "#F18E33",
    "Rust" := "#dea584",
    "Shell" := "#89e051",
    "Vue" := "#41b883",
    "React" := "#61dafb",
    "Jupyter Notebook" := "#DA5B0B"
  ]

  predicate IsHexDigit(c: char) {
    '0' <= c <= '9' || 'a' <= c <= 'f' || 'A' <= c <= 'F'
  }

  /** A CSS colour of the form `#rrggbb`. */
  predicate IsHexColor(c: string) {
    |c| == 7 && c[0] == '#' && forall k :: 1 <= k < 7 ==> IsHexDigit(c[k])
  }

  /** `colors[language]`: the table entry, if the language is one of its keys. */
  function Lookup(language: Option<string>): Option<string> {
    if language.Some? && language.value in Palette then Some(Palette[language.value]) else None
  }

  /**
    `colors[language] || '#858585'`: the colour listed for a known language, and
    grey for any other name, for the empty string and for a missing language.
    The result is always a well-formed hex colour, and it is grey exactly when
    the language is not in the table.
   */
  function LanguageColor(language: Option<string>): (c: string)
    ensures IsHexColor(c)
    ensures language.Some? && language.value in Palette ==> c == Palette[language.value]
    ensures c == DefaultColor <==> !(language.Some? && language.value in Palette)
  {
    var listed := Lookup(language);
    if Present(listed) then listed.value else DefaultColor
  }

  /** Lookup is by exact name: case matters, and an unknown or missing language is grey. */
  lemma LanguageColorExamples()
    ensures LanguageColor(Some("Python")) == "#3572A5"
    ensures LanguageColor(Some("Jupyter Notebook")) == "#DA5B0B"
    ensures LanguageColor(Some("python")) == DefaultColor
    ensures LanguageColor(Some("")) == DefaultColor
    ensures LanguageColor(None) == DefaultColor
  {
  }
}
