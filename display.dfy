/**
  Loading and showing the project list: `fetchGitHubRepos` (a failed request
  gives the empty list) and `displayGitHubProjects` (error message, totals, the
  first twelve cards and a "Show More" button for the rest).
 */
module GitHubProjects {
  import opened RepoModel
  import opened Ranking
  import opened RepoStats
  import opened ProjectCards

  /** How many cards the first display shows. */
  const PageSize: nat := 12

  /**
    What the listing request produced: no response at all, or a response with
    its `ok` flag and its body, which is `None` when it is not a list of
    repositories (`response.json()` or `sort` would throw).
   */
  datatype Response = NetworkError | Response(ok: bool, body: Option<seq<Repo>>)

  /** The request returned a list: none of the three failure paths was taken. */
  predicate Delivered(response: Response) {
    response.Response? && response.ok && response.body.Some?
  }

  /**
    `fetchGitHubRepos`: the listed repositories sorted by the comparator, or the
    empty list when the request failed in any way.
   */
  method FetchGitHubRepos(response: Response) returns (repos: seq<Repo>)
    ensures Delivered(response) ==> repos == Rank(response.body.value)
    ensures Delivered(response) ==> multiset(repos) == multiset(response.body.value)
    ensures !Delivered(response) ==> repos == []
    ensures Ranked(repos)
  {
    if !Delivered(response) {
      return [];
    }
    var listed := response.body.value;
    var a := new Repo[|listed|](i requires 0 <= i < |listed| => listed[i]);
    assert a[..] == listed;
    SortRepos(a);
    repos := a[..];
  }

  /** `repos.slice(0, 12)`: the first twelve repositories, or all of them when there are fewer. */
  function InitialPage(repos: seq<Repo>): (page: seq<Repo>)
    ensures |page| == if |repos| < PageSize then |repos| else PageSize
    ensures page <= repos
  {
    if |repos| <= PageSize then repos else repos[..PageSize]
  }

  /** `repos.slice(12)`: what is left after the first twelve, empty when there is nothing left. */
  function Remaining(repos: seq<Repo>): (rest: seq<Repo>)
    ensures |rest| == if |repos| < PageSize then 0 else |repos| - PageSize
  {
    if |repos| <= PageSize then [] else repos[PageSize..]
  }

  /**
    The count in the "Show More (n more)" label: there is a button exactly when
    there are more than twelve repositories, and its count is the number of
    repositories the first display leaves out.
   */
  function MoreCount(repos: seq<Repo>): (more: Option<nat>)
    ensures more.Some? <==> |repos| > PageSize
    ensures more.Some? ==> more.value > 0 && |InitialPage(repos)| + more.value == |repos|
    ensures more.Some? ==> more.value == |Remaining(repos)|
  {
    if |repos| > PageSize then Some(|repos| - PageSize) else None
  }

  /** The first page followed by the rest is the whole list, in order. */
  lemma PagesReassemble(repos: seq<Repo>)
    ensures InitialPage(repos) + Remaining(repos) == repos
  {
  }

  /**
    The projects section of the page: the cards in the container, whether the
    container holds the error message, the totals the three counters settle on,
    and the "Show More" buttons after the container, each with the list its
    click handler captured (the newest button first).
   */
  class ProjectsView {
    var cards: seq<Card>
    var errorShown: bool
    var stats: Option<Stats>
    var buttons: seq<seq<Repo>>

    /** A button exists only for a list with more than a page of repositories. */
    ghost predicate Valid()
      reads this
    {
      forall k :: 0 <= k < |buttons| ==> |buttons[k]| > PageSize
    }

    /** The page before anything is loaded. */
    constructor ()
      ensures Valid()
      ensures cards == [] && !errorShown && stats == None && buttons == []
    {
      cards, errorShown, stats, buttons := [], false, None, [];
    }

    /**
      `displayGitHubProjects` once the list is known. An empty list puts the
      error message in the container and touches nothing else. Otherwise the
      counters get the list's totals, the container is cleared and receives one
      card for each of the first twelve repositories, in order, and a list longer
      than twelve adds a "Show More" button right after the container. A button
      left by an earlier display stays where it is.
     */
    method Display(repos: seq<Repo>)
      requires Valid()
      modifies this
      ensures Valid()
      ensures repos == [] ==>
        errorShown && cards == [] && stats == old(stats) && buttons == old(buttons)
      ensures repos != [] ==>
        && !errorShown
        && stats == Some(CalculateStats(repos))
        && cards == CardsOf(InitialPage(repos))
        && buttons == if MoreCount(repos).Some? then [repos] + old(buttons) else old(buttons)
    {
      if |repos| == 0 {
        cards, errorShown := [], true;
        return;
      }
      stats := Some(CalculateStats(repos));
      cards, errorShown := [], false;
      AppendCards(InitialPage(repos));
      if |repos| > PageSize {
        buttons := [repos] + buttons;
      }
    }

    /**
      A click on the `k`-th "Show More" button: one card for each repository
      after the first twelve of the list that button captured is appended to the
      container, in order, and the button is removed.
     */
    method ClickShowMore(k: nat)
      requires Valid() && k < |buttons|
      modifies this
      ensures Valid()
      ensures cards == old(cards) + CardsOf(Remaining(old(buttons)[k]))
      ensures buttons == old(buttons)[..k] + old(buttons)[k + 1..]
      ensures errorShown == old(errorShown) && stats == old(stats)
    {
      var remainingRepos := buttons[k][PageSize..];
      AppendCards(remainingRepos);
      buttons := buttons[..k] + buttons[k + 1..];
    }

    /**
      The `forEach` loops that build one card per repository and append it to
      the container, in order; nothing but the cards changes.
     */
    method AppendCards(repos: seq<Repo>)
      modifies this
      ensures cards == old(cards) + CardsOf(repos)
      ensures errorShown == old(errorShown) && stats == old(stats) && buttons == old(buttons)
    {
      var index := 0;
      while index < |repos|
        invariant 0 <= index <= |repos|
        invariant cards == old(cards) + CardsOf(repos[..index])
        invariant errorShown == old(errorShown) && stats == old(stats) && buttons == old(buttons)
      {
        CardsOfConcat(repos[..index], [repos[index]]);
        assert repos[..index + 1] == repos[..index] + [repos[index]];
        cards := cards + [CreateProjectCard(repos[index])];
        index := index + 1;
      }
      assert repos[..index] == repos;
    }

    /**
      `displayGitHubProjects` as a whole: fetch and sort the list, then display
      it. A failed request and an empty listing both show the error message and
      leave counters and buttons as they were; otherwise the first twelve cards
      of the sorted list are shown and the totals are those of the list as the
      API returned it.
     */
    method DisplayGitHubProjects(response: Response)
      requires Valid()
      modifies this
      ensures Valid()
      ensures !Delivered(response) || response.body.value == [] ==>
        errorShown && cards == [] && stats == old(stats) && buttons == old(buttons)
      ensures Delivered(response) && response.body.value != [] ==>
        && !errorShown
        && stats == Some(CalculateStats(response.body.value))
        && cards == CardsOf(InitialPage(Rank(response.body.value)))
        && buttons == if |response.body.value| > PageSize then [Rank(response.body.value)] + old(buttons) else old(buttons)
    {
      var repos := FetchGitHubRepos(response);
      if Delivered(response) {
        StatsOfRank(response.body.value);
      }
      Display(repos);
    }
  }

  /**
    A page load: fetch, display, and a click on the "Show More" button when
    there is one. A failed request and an empty listing both leave only the
    error message. Otherwise the counters show the totals of the list as
    listed, and the container ends up with one card per repository in exactly
    the sorted order.
   */
  method LoadAndShowAll(response: Response) returns (shown: seq<Card>, error: bool, totals: Option<Stats>)
    ensures error <==> !Delivered(response) || response.body.value == []
    ensures error ==> shown == [] && totals == None
    ensures !error ==> shown == CardsOf(Rank(response.body.value))
    ensures !error ==> totals == Some(CalculateStats(response.body.value))
  {
    var view := new ProjectsView();
    view.DisplayGitHubProjects(response);
    if |view.buttons| > 0 {
      ghost var repos := Rank(response.body.value);
      view.ClickShowMore(0);
      PagesReassemble(repos);
      CardsOfConcat(InitialPage(repos), Remaining(repos));
    } else if !view.errorShown {
      assert InitialPage(Rank(response.body.value)) == Rank(response.body.value);
    }
    shown, error, totals := view.cards, view.errorShown, view.stats;
  }
}
