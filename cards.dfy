/**
  What one project card shows (`createProjectCard`), as data rather than markup.
 */
module ProjectCards {
  import opened RepoModel
  import opened LanguageColors
  import opened DisplayName

  const NoDescription: string := "No description available"

  /** The coloured language tag: the language's name on its table colour. */
  datatype LanguageTag = LanguageTag(language: string, color: string)

  /**
    The content of a card. `updated` is the instant the footer formats as a date;
    the formatting itself is not modelled.
   */
  datatype Card = Card(
    title: string,
    forkBadge: bool,
    description: string,
    languageTag: Option<LanguageTag>,
    stars: nat,
    forks: nat,
    updated: int)

  /**
    `repo.description || 'No description available'`: the description when it is
    set and non-empty, the placeholder otherwise. Never empty.
   */
  function ShownDescription(description: Option<string>): (r: string)
    ensures r != ""
    ensures Present(description) ==> r == description.value
    ensures !Present(description) ==> r == NoDescription
  {
    if Present(description) then description.value else NoDescription
  }

  /**
    The card for one repository. The title is the prettified name; the fork badge
    is there exactly when the repository is a fork; the placeholder stands in for
    a missing or empty description; the language tag is there exactly when a
    non-empty language is set, and then names that language on its colour
    from the table (grey for unknown languages); stars and forks are the
    repository's own counts.
   */
  function CreateProjectCard(repo: Repo): (c: Card)
    ensures c.title == PrettyName(repo.name) && |c.title| == |repo.name|
    ensures c.forkBadge <==> repo.fork
    ensures c.description != ""
    ensures Present(repo.description) ==> c.description == repo.description.value
    ensures !Present(repo.description) ==> c.description == NoDescription
    ensures c.languageTag.Some? <==> Present(repo.language)
    ensures c.languageTag.Some? ==>
      && c.languageTag.value.language == repo.language.value
      && c.languageTag.value.color == LanguageColor(repo.language)
      && IsHexColor(c.languageTag.value.color)
    ensures c.stars == repo.stars && c.forks == repo.forks && c.updated == repo.updated
  {
    var languageColor := LanguageColor(repo.language);
    Card(
      PrettyName(repo.name),
      repo.fork,
      ShownDescription(repo.description),
      if Present(repo.language) then Some(LanguageTag(repo.language.value, languageColor)) else None,
      repo.stars,
      repo.forks,
      repo.updated)
  }

  /** The cards for a list of repositories, in the same order. */
  function CardsOf(repos: seq<Repo>): seq<Card> {
    seq(|repos|, i requires 0 <= i < |repos| => CreateProjectCard(repos[i]))
  }

  /** Cards for a concatenation are the cards of the parts, one after the other. */
  lemma CardsOfConcat(a: seq<Repo>, b: seq<Repo>)
    ensures CardsOf(a + b) == CardsOf(a) + CardsOf(b)
  {
  }
}
