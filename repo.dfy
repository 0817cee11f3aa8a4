/**
  The repository record the listing API returns, reduced to the fields that the
  projects section of the page reads.
 */
module RepoModel {

  /** A JSON field that may be `null` or absent. */
  datatype Option<T> = None | Some(value: T)

  /**
    One repository. `stars` is `stargazers_count`, `forks` is `forks_count`, and
    `updated` is the instant that `new Date(updated_at)` denotes, as a number of
    milliseconds, so that subtracting two of them is what subtracting two dates does.
   */
  datatype Repo = Repo(
    name: string,
    description: Option<string>,
    fork: bool,
    language: Option<string>,
    stars: nat,
    forks: nat,
    updated: int)

  /** JavaScript truthiness of a string field that may be null: null and "" are falsy. */
  predicate Present(field: Option<string>) {
    field.Some? && field.value != ""
  }
}
