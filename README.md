# Portfolio GitHub project list, modelled in Dafny

This project models the part of the portfolio site's `scripts/github.js` that decides
what the "GitHub projects" section shows. It covers these steps:

- the repository list comes back from the listing API, or the request fails;
- the list is sorted by stars, and by most recent update within equal stars;
- three totals are computed: repositories, stars and forks;
- one card is built per repository, with a prettified title, a description
  placeholder, a fork badge and a coloured language tag;
- the first twelve cards are shown, and a "Show More (n more)" button appends the rest.

Modules, one per concern, in dependency order:

| file | module | what it holds |
|---|---|---|
| `repo.dfy` | `RepoModel` | the `Repo` record, `Option`, JavaScript truthiness of a nullable string (`Present`) |
| `ranking.dfy` | `Ranking` | the sort comparator, the specification `Rank` (stable insertion sort), the in-place array sort |
| `stats.dfy` | `RepoStats` | `calculateStats` as two left folds, as `reduce` computes them |
| `language.dfy` | `LanguageColors` | the 18-entry colour table and its grey default |
| `names.dfy` | `DisplayName` | the title rewrite `replace(/-/g, ' ').replace(/\b\w/g, upper)` over ASCII `\w` |
| `cards.dfy` | `ProjectCards` | the content of one card, with its fallbacks |
| `display.dfy` | `GitHubProjects` | fetch outcome, pagination, and a `ProjectsView` class for the container, the counters and the Show More buttons |

A repository's `updated` field is the instant `new Date(updated_at)` denotes, as an integer.
Subtracting two of them is what the comparator's date subtraction does.

The sort is modelled as the array method `SortRepos`, which reorders an `array<Repo>` in place
by adjacent swaps. It is proved equal to the function `Rank`. `Rank` is proved to be ordered
(`Ranked`) and to be a permutation of its input. `Rank` is proved stable (`RankIsStable`):
repositories with equal stars and equal update times keep their input order, as
`Array.prototype.sort` does since ES2019.

The section is modelled as the class `ProjectsView`, because the source mutates the page in
`forEach` loops. Each "Show More" button is kept with the list its click handler captured.
Displaying again inserts a new button after the container but never removes an earlier one,
as in the source.

## Model

| member | source | states |
|---|---|---|
| `Ranking.Compare` | scripts/github.js:23-30 | the comparator is negative exactly when `a` has more stars, or equal stars and a later update; it is zero exactly when both keys tie |
| `Ranking.CompareIsConsistent` | scripts/github.js:23-30 | the comparator is antisymmetric in sign, and "may stand before" is total and transitive, which is what `sort` needs from a comparator |
| `Ranking.RankedOrder` | scripts/github.js:23-29 | in a sorted list, star counts never increase from first to last; among equal star counts, update times never increase (for every pair, not only neighbours) |
| `Ranking.Insert` | scripts/github.js:23-30 | one insertion step adds exactly one element |
| `Ranking.Rank` | scripts/github.js:23-32 | sorting keeps the length |
| `Ranking.InsertPermutes` | scripts/github.js:23-30 | an insertion step adds `x` and keeps every other element: the multiset grows by exactly `x` |
| `Ranking.InsertKeepsRanked` | scripts/github.js:23-30 | inserting into a sorted list keeps it sorted |
| `Ranking.RankPermutes` | scripts/github.js:23-32 | the sorted list is a permutation of the input: same multiset of repositories |
| `Ranking.RankIsRanked` | scripts/github.js:23-30 | the sorted list is ordered by the comparator |
| `Ranking.InsertStable` | scripts/github.js:23-30 | an insertion step keeps the relative order of the repositories of any one (stars, updated) key, exactly as appending `x` would |
| `Ranking.RankIsStable` | scripts/github.js:23-32 | the sort is stable: for every (stars, updated) key, the repositories with that key appear in the sorted list in the order they had in the input |
| `Ranking.InsertSplits` | scripts/github.js:23-30 | if `x` may stand behind `t[j-1]` (or `j` is 0) and every element from `j` on sorts strictly after `x`, then insertion puts `x` exactly at position `j` and keeps the rest in order |
| `Ranking.InsertInPlace` | scripts/github.js:23-30 | the in-place pass of adjacent swaps leaves `a[..i+1]` equal, element by element, to `Insert` of the old prefix and the old `a[i]`, and leaves every element after `i` unchanged |
| `Ranking.SortRepos` | scripts/github.js:23-30 | `repos.sort(...)` leaves the array equal to `Rank` of its old contents, so it is ordered and a permutation of the old contents |
| `RepoStats.CalculateStats` | scripts/github.js:140-149 | `totalRepos` is the list's length; the empty list gives all zeros |
| `RepoStats.StatsOfSingleton` | scripts/github.js:140-148 | a one-repository list has one repository, that repository's stars and that repository's forks as its totals |
| `RepoStats.SumsOfConcat` | scripts/github.js:141-142 | the star and fork folds distribute over concatenation |
| `RepoStats.StatsOfConcat` | scripts/github.js:140-148 | the stats of a concatenation are the field-wise sums of the parts' stats |
| `RepoStats.StatsBoundEach` | scripts/github.js:141-142 | each repository's stars and forks are at most the totals |
| `RepoStats.StatsOfInsert` | scripts/github.js:140-148 | inserting a repository changes the stats as appending it would |
| `RepoStats.StatsOfRank` | scripts/github.js:184 | the stats of the sorted list equal the stats of the list as the API returned it |
| `LanguageColors.LanguageColor` | scripts/github.js:114-137 | a table key gets its listed colour; any other value, the empty string and a missing language get `#858585`; the result is grey exactly when the language is not a key, and it is always a `#rrggbb` hex colour |
| `LanguageColors.LanguageColorExamples` | scripts/github.js:115-136 | sample lookups: "Python" is `#3572A5`, lookup is case-sensitive, and a missing language is grey |
| `DisplayName.ToUpper` | scripts/github.js:93 | upper-casing keeps a word character a word character and leaves no lower-case letter; only `a` to `z` change, each to its own capital (`a` to `A`, …, `z` to `Z`) |
| `DisplayName.DashesToSpaces` | scripts/github.js:93 | `replace(/-/g, ' ')` keeps the length; every hyphen becomes a space and every other character stays |
| `DisplayName.CapitalizeFrom` | scripts/github.js:93 | the left-to-right scan for `\b\w` upper-cases exactly the characters that start a word, given whether the previous character was a word character |
| `DisplayName.Capitalize` | scripts/github.js:93 | `replace(/\b\w/g, upper)` upper-cases exactly the word characters at index 0 or after a non-word character, and keeps everything else |
| `DisplayName.PrettyName` | scripts/github.js:93 | the title has the name's length and no hyphen; hyphens become spaces; a character is upper-cased exactly when it starts a word of the name; all others are unchanged |
| `DisplayName.PrettyNameIdempotent` | scripts/github.js:93 | prettifying a prettified name changes nothing |
| `ProjectCards.ShownDescription` | scripts/github.js:96 | the description if it is set and non-empty, otherwise "No description available"; never empty |
| `ProjectCards.CreateProjectCard` | scripts/github.js:83-100 | title = prettified name; fork badge iff `fork`; placeholder for a missing or empty description; language tag iff a non-empty language is set, naming it on the colour `LanguageColor` gives that language (always a hex colour); the card carries the repository's own stars and forks |
| `ProjectCards.CardsOfConcat` | scripts/github.js:195-197 | the cards of a concatenation are the cards of the parts, in order |
| `GitHubProjects.FetchGitHubRepos` | scripts/github.js:6-37 | a delivered list comes back as `Rank` of it, a permutation of it, in order; a network error, a non-ok status or an unreadable body gives `[]` |
| `GitHubProjects.InitialPage` | scripts/github.js:193 | `slice(0, 12)` is a prefix of length min(12, n) |
| `GitHubProjects.Remaining` | scripts/github.js:213 | `slice(12)` has n − 12 elements, or none when n ≤ 12 |
| `GitHubProjects.MoreCount` | scripts/github.js:208-211 | a Show More button exists iff n > 12; its label count is positive and is n − 12, the number of repositories the first page leaves out |
| `GitHubProjects.PagesReassemble` | scripts/github.js:193-213 | the first page followed by the rest is the whole list, in order |
| `GitHubProjects.ProjectsView.Display` | scripts/github.js:173-231 | an empty list shows only the error message; otherwise the counters get the list's totals, the container holds the cards of the first twelve in order, and a list longer than twelve adds a button that captures it |
| `GitHubProjects.ProjectsView.ClickShowMore` | scripts/github.js:212-228 | a click appends the cards of `slice(12)` of the captured list, in order, and removes that button; nothing else changes |
| `GitHubProjects.ProjectsView.AppendCards` | scripts/github.js:195-225 | the two `forEach` loops append one card per repository to the container, in order, and change nothing else |
| `GitHubProjects.ProjectsView.DisplayGitHubProjects` | scripts/github.js:169-231 | a failed fetch and an empty listing take the same error path; otherwise the first twelve cards of the sorted list are shown, and the totals are those of the list as returned |
| `GitHubProjects.LoadAndShowAll` | scripts/github.js:169-231 | after a page load and a click on Show More (when shown), the cards are exactly those of the whole sorted list, in order, and the counters show the list's totals; failure or an empty list gives only the error message |

## Left out

- `scripts/main.js` is not part of this model. It holds DOM event wiring, timers, random particles and confetti, a form submission and floating-point scroll arithmetic.
- The network requests in `fetchGitHubRepos` and `updateFeaturedProjects` are I/O. The request's outcome is a parameter (`Response`). `updateFeaturedProjects` only writes fetched values into existing cards and is not modelled.
- Logging is not modelled. The `console.error` calls in the failure paths of `fetchGitHubRepos` and `updateFeaturedProjects` write only to the console and change nothing on the page.
- `animateNumber` counts up on a timer in floating point. The model keeps only the value each counter settles on (`ProjectsView.stats`).
- `toLocaleDateString` formatting depends on a locale library. A card keeps the timestamp it would format (`Card.updated`).
- Date parsing is not modelled. `updated_at` is an integer timestamp, so an invalid date (`NaN`) is not represented.
- JavaScript numbers are modelled as unbounded integers, with no floating-point rounding of the comparator's differences.
- The card markup, CSS classes, the link to `html_url`, the card fade-in delays, and the refresh button's spinner are DOM only. A refresh is a second call of `ProjectsView.DisplayGitHubProjects`.
- The colour table is a finite map with a default. JavaScript prototype keys of `colors[language]`, such as `"constructor"`, are not modelled.
- The card title's regular expressions are modelled for the ASCII `\w` class only. Without the `u` flag every non-ASCII character is a non-word character, and `toUpperCase` is applied only to matched `\w` characters, so only `a` to `z` change.
