/**
  The three totals shown above the project list (`calculateStats`).
 */
module RepoStats {
  import opened RepoModel
  import opened Ranking

  datatype Stats = Stats(totalRepos: nat, totalStars: nat, totalForks: nat)

  /** Adds two sets of totals field by field. */
  function Plus(x: Stats, y: Stats): Stats {
    Stats(x.totalRepos + y.totalRepos, x.totalStars + y.totalStars, x.totalForks + y.totalForks)
  }

  /** `repos.reduce((sum, repo) => sum + repo.stargazers_count, 0)`: a fold from the left. */
  function SumStars(repos: seq<Repo>): nat {
    if repos == [] then 0 else SumStars(repos[..|repos| - 1]) + repos[|repos| - 1].stars
  }

  /** `repos.reduce((sum, repo) => sum + repo.forks_count, 0)`. */
  function SumForks(repos: seq<Repo>): nat {
    if repos == [] then 0 else SumForks(repos[..|repos| - 1]) + repos[|repos| - 1].forks
  }

  /**
    The totals of a list: how many repositories, and their stars and forks added up.
    A list with no repositories has all three totals zero.
   */
  function CalculateStats(repos: seq<Repo>): (st: Stats)
    ensures st.totalRepos == |repos|
    ensures repos == [] ==> st == Stats(0, 0, 0)
  {
    Stats(|repos|, SumStars(repos), SumForks(repos))
  }

  /** A single repository contributes exactly its own counts. */
  lemma StatsOfSingleton(r: Repo)
    ensures CalculateStats([r]) == Stats(1, r.stars, r.forks)
  {
    assert [r][..0] == [];
    assert SumStars([r]) == SumStars([]) + r.stars;
    assert SumForks([r]) == SumForks([]) + r.forks;
  }

  /** Both folds distribute over concatenation. */
  lemma {:induction false} SumsOfConcat(a: seq<Repo>, b: seq<Repo>)
    ensures SumStars(a + b) == SumStars(a) + SumStars(b)
    ensures SumForks(a + b) == SumForks(a) + SumForks(b)
    decreases |b|
  {
    if b == [] {
      assert a + b == a;
    } else {
      var init := b[..|b| - 1];
      SumsOfConcat(a, init);
      assert (a + b)[..|a + b| - 1] == a + init;
    }
  }

  /** The totals of a concatenation are the sums of the parts' totals. */
  lemma StatsOfConcat(a: seq<Repo>, b: seq<Repo>)
    ensures CalculateStats(a + b) == Plus(CalculateStats(a), CalculateStats(b))
  {
    SumsOfConcat(a, b);
  }

  /** Each repository's stars are part of the star total, and likewise its forks. */
  lemma {:induction false} StatsBoundEach(repos: seq<Repo>, i: nat)
    requires i < |repos|
    ensures repos[i].stars <= CalculateStats(repos).totalStars
    ensures repos[i].forks <= CalculateStats(repos).totalForks
  {
    StatsOfConcat(repos[..i], repos[i..]);
    StatsOfConcat([repos[i]], repos[i + 1..]);
    assert repos[i..] == [repos[i]] + repos[i + 1..];
    assert repos == repos[..i] + repos[i..];
  }

  /** Inserting a repository into a list changes the totals as appending it would. */
  lemma {:induction false} StatsOfInsert(t: seq<Repo>, x: Repo)
    ensures CalculateStats(Insert(t, x)) == CalculateStats(t + [x])
    decreases |t|
  {
    if t != [] && Compare(t[|t| - 1], x) > 0 {
      var init, last := t[..|t| - 1], t[|t| - 1];
      StatsOfInsert(init, x);
      StatsOfConcat(Insert(init, x), [last]);
      StatsOfConcat(init + [x], [last]);
      StatsOfConcat(init, [x]);
      StatsOfConcat(init, [last]);
      StatsOfConcat(t, [x]);
      assert t == init + [last];
    }
  }

  /**
    Sorting does not change the totals: `calculateStats` of the ranked list
    equals the totals of the list as the API returned it.
   */
  lemma {:induction false} StatsOfRank(repos: seq<Repo>)
    ensures CalculateStats(Rank(repos)) == CalculateStats(repos)
  {
    if repos != [] {
      var init, last := repos[..|repos| - 1], repos[|repos| - 1];
      StatsOfRank(init);
      StatsOfInsert(Rank(init), last);
      StatsOfConcat(Rank(init), [last]);
      StatsOfConcat(init, [last]);
      assert repos == init + [last];
    }
  }
}
