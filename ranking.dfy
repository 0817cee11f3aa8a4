/**
  The order in which repositories are listed: the comparator that
  `fetchGitHubRepos` hands to `Array.prototype.sort`, the stable insertion sort
  `Rank` that specifies the result, and the in-place sort of an array of records.
 */
module Ranking {
  import opened RepoModel

  /**
    The comparator: more stars first, and among equal star counts the more
    recently updated first. Negative means `a` goes before `b`.
   */
  function Compare(a: Repo, b: Repo): (r: int)
    ensures r < 0 <==> a.stars > b.stars || (a.stars == b.stars && a.updated > b.updated)
    ensures r == 0 <==> a.stars == b.stars && a.updated == b.updated
  {
    if b.stars != a.stars then b.stars - a.stars else b.updated - a.updated
  }

  /** `a` may stand before `b` in a sorted list: the comparator does not put `b` first. */
  predicate Precedes(a: Repo, b: Repo) {
    Compare(a, b) <= 0
  }

  /** Every repository may stand before its successor. */
  predicate Ranked(s: seq<Repo>) {
    forall i :: 0 <= i < |s| - 1 ==> Precedes(s[i], s[i + 1])
  }

  /**
    The comparator is consistent, as `sort` requires of it: swapping the
    arguments flips the sign, and "may stand before" is a total preorder.
   */
  lemma CompareIsConsistent(a: Repo, b: Repo, c: Repo)
    ensures Compare(a, b) < 0 <==> Compare(b, a) > 0
    ensures Compare(a, b) == 0 <==> Compare(b, a) == 0
    ensures Precedes(a, b) || Precedes(b, a)
    ensures Precedes(a, b) && Precedes(b, c) ==> Precedes(a, c)
  {
  }

  /**
    In a ranked list, star counts never increase from first to last, and within
    equal star counts the update times never increase.
   */
  lemma {:induction false} RankedOrder(s: seq<Repo>)
    requires Ranked(s)
    ensures forall i, j :: 0 <= i < j < |s| ==> s[i].stars >= s[j].stars
    ensures forall i, j :: 0 <= i < j < |s| && s[i].stars == s[j].stars ==> s[i].updated >= s[j].updated
  {
    if |s| > 1 {
      RankedOrder(s[1..]);
      forall i, j | 0 <= i < j < |s|
        ensures Precedes(s[i], s[j])
      {
        if i > 0 {
          assert s[i] == s[1..][i - 1] && s[j] == s[1..][j - 1];
        } else if j > 1 {
          assert s[1] == s[1..][0] && s[j] == s[1..][j - 1];
          CompareIsConsistent(s[0], s[1], s[j]);
        }
      }
    }
  }

  /**
    One step of insertion sort: `x` moves left past every element at the end of
    `t` that the comparator puts strictly after it, and stops behind the first one
    it does not, so that elements the comparator ties keep their order.
   */
  function Insert(t: seq<Repo>, x: Repo): (r: seq<Repo>)
    ensures |r| == |t| + 1
    decreases |t|
  {
    if t == [] then [x]
    else if Compare(t[|t| - 1], x) > 0 then Insert(t[..|t| - 1], x) + [t[|t| - 1]]
    else t + [x]
  }

  /** The list `sort` leaves behind: each element in turn inserted into the sorted prefix. */
  function Rank(s: seq<Repo>): (r: seq<Repo>)
    ensures |r| == |s|
  {
    if s == [] then [] else Insert(Rank(s[..|s| - 1]), s[|s| - 1])
  }

  /** Inserting adds `x` and keeps every element of `t`: nothing is dropped or duplicated. */
  lemma {:induction false} InsertPermutes(t: seq<Repo>, x: Repo)
    ensures multiset(Insert(t, x)) == multiset(t) + multiset{x}
    decreases |t|
  {
    if t != [] && Compare(t[|t| - 1], x) > 0 {
      InsertPermutes(t[..|t| - 1], x);
      assert t == t[..|t| - 1] + [t[|t| - 1]];
    }
  }

  /** Inserting into a ranked list gives a ranked list. */
  lemma {:induction false} InsertKeepsRanked(t: seq<Repo>, x: Repo)
    requires Ranked(t)
    ensures Ranked(Insert(t, x))
    ensures Insert(t, x)[|t|] == x || (t != [] && Insert(t, x)[|t|] == t[|t| - 1])
    decreases |t|
  {
    if t != [] && Compare(t[|t| - 1], x) > 0 {
      var init := t[..|t| - 1];
      assert Ranked(init);
      InsertKeepsRanked(init, x);
      var u := Insert(init, x);
      assert Precedes(u[|u| - 1], t[|t| - 1]) by {
        if u[|u| - 1] != x {
          assert |t| >= 2 && u[|u| - 1] == t[|t| - 2];
        }
      }
    }
  }

  /** Sorting rearranges: the result holds the same repositories, each as often. */
  lemma {:induction false} RankPermutes(s: seq<Repo>)
    ensures multiset(Rank(s)) == multiset(s)
  {
    if s != [] {
      RankPermutes(s[..|s| - 1]);
      InsertPermutes(Rank(s[..|s| - 1]), s[|s| - 1]);
      assert s == s[..|s| - 1] + [s[|s| - 1]];
    }
  }

  /** Sorting orders: the result is ranked. */
  lemma {:induction false} RankIsRanked(s: seq<Repo>)
    ensures Ranked(Rank(s))
  {
    if s != [] {
      RankIsRanked(s[..|s| - 1]);
      InsertKeepsRanked(Rank(s[..|s| - 1]), s[|s| - 1]);
    }
  }

  /** `[y]` when `y` has the sort key (`stars`, `updated`), and nothing otherwise. */
  function Keyed(y: Repo, stars: nat, updated: int): seq<Repo> {
    if y.stars == stars && y.updated == updated then [y] else []
  }

  /** The repositories of `s` whose sort key is (`stars`, `updated`), in their order in `s`. */
  function WithKey(s: seq<Repo>, stars: nat, updated: int): seq<Repo> {
    if s == [] then [] else WithKey(s[..|s| - 1], stars, updated) + Keyed(s[|s| - 1], stars, updated)
  }

  /** Appending one repository appends it to the selection exactly when it has the key. */
  lemma WithKeySnoc(u: seq<Repo>, y: Repo, stars: nat, updated: int)
    ensures WithKey(u + [y], stars, updated) == WithKey(u, stars, updated) + Keyed(y, stars, updated)
  {
    assert (u + [y])[..|u|] == u;
  }

  /** An insertion step keeps the order among repositories of one key, as appending would. */
  lemma {:induction false} InsertStable(t: seq<Repo>, x: Repo, stars: nat, updated: int)
    ensures WithKey(Insert(t, x), stars, updated) == WithKey(t + [x], stars, updated)
    decreases |t|
  {
    if t != [] && Compare(t[|t| - 1], x) > 0 {
      var init, last := t[..|t| - 1], t[|t| - 1];
      var u := Insert(init, x);
      assert t == init + [last];
      calc {
        WithKey(Insert(t, x), stars, updated);
        WithKey(u + [last], stars, updated);
        { WithKeySnoc(u, last, stars, updated); }
        WithKey(u, stars, updated) + Keyed(last, stars, updated);
        { InsertStable(init, x, stars, updated); WithKeySnoc(init, x, stars, updated); }
        WithKey(init, stars, updated) + Keyed(x, stars, updated) + Keyed(last, stars, updated);
        // `last` and `x` differ in key, so at most one of them is selected
        { assert Keyed(x, stars, updated) == [] || Keyed(last, stars, updated) == []; }
        WithKey(init, stars, updated) + Keyed(last, stars, updated) + Keyed(x, stars, updated);
        { WithKeySnoc(init, last, stars, updated); }
        WithKey(t, stars, updated) + Keyed(x, stars, updated);
        { WithKeySnoc(t, x, stars, updated); }
        WithKey(t + [x], stars, updated);
      }
    } else {
      WithKeySnoc(t, x, stars, updated);
    }
  }

  /**
    Sorting is stable: the repositories that the comparator ties (equal stars and
    equal update time) appear in the sorted list in the order they had in the input.
   */
  lemma {:induction false} RankIsStable(s: seq<Repo>, stars: nat, updated: int)
    ensures WithKey(Rank(s), stars, updated) == WithKey(s, stars, updated)
  {
    if s != [] {
      var init, last := s[..|s| - 1], s[|s| - 1];
      var r := Rank(init);
      assert s == init + [last];
      calc {
        WithKey(Rank(s), stars, updated);
        WithKey(Insert(r, last), stars, updated);
        { InsertStable(r, last, stars, updated); }
        WithKey(r + [last], stars, updated);
        { WithKeySnoc(r, last, stars, updated); }
        WithKey(r, stars, updated) + Keyed(last, stars, updated);
        { RankIsStable(init, stars, updated); }
        WithKey(init, stars, updated) + Keyed(last, stars, updated);
        { WithKeySnoc(init, last, stars, updated); }
        WithKey(s, stars, updated);
      }
    }
  }

  /**
    Where insertion stops: if `x` may stand behind `t[j - 1]` (or `j` is the
    front) and every element from `j` on sorts strictly after `x`, then
    `Insert` puts `x` at position `j`.
   */
  lemma {:induction false} InsertSplits(t: seq<Repo>, j: nat, x: Repo)
    requires j <= |t|
    requires j == 0 || Compare(t[j - 1], x) <= 0
    requires forall k :: j <= k < |t| ==> Compare(t[k], x) > 0
    ensures Insert(t, x) == t[..j] + [x] + t[j..]
    decreases |t|
  {
    if j < |t| {
      var init, last := t[..|t| - 1], t[|t| - 1];
      assert Insert(t, x) == Insert(init, x) + [last];
      assert forall k :: j <= k < |init| ==> init[k] == t[k];
      InsertSplits(init, j, x);
      calc {
        Insert(t, x);
        init[..j] + [x] + init[j..] + [last];
        { assert init[..j] == t[..j]; }
        t[..j] + [x] + (init[j..] + [last]);
        { assert init[j..] + [last] == t[j..]; }
        t[..j] + [x] + t[j..];
      }
    } else {
      assert t[..j] == t;
    }
  }

  /** Where each element of `t` ends up once `x` is spliced in at position `j`. */
  lemma SpliceAt(t: seq<Repo>, j: nat, x: Repo)
    requires j <= |t|
    ensures |t[..j] + [x] + t[j..]| == |t| + 1
    ensures forall k :: 0 <= k <= |t| ==>
      (t[..j] + [x] + t[j..])[k] == if k < j then t[k] else if k == j then x else t[k - 1]
  {
  }

  /** Exchanges the neighbours at `p - 1` and `p` and leaves every other element alone. */
  method SwapWithPrevious(a: array<Repo>, p: nat)
    requires 0 < p < a.Length
    modifies a
    ensures a[p - 1] == old(a[p]) && a[p] == old(a[p - 1])
    ensures forall k :: 0 <= k < a.Length && k != p - 1 && k != p ==> a[k] == old(a[k])
  {
    a[p - 1], a[p] := a[p], a[p - 1];
  }

  /**
    The inner pass of the in-place sort: the element at `i` moves left past the
    sorted prefix `a[..i]` by adjacent swaps, exactly as `Insert` describes, and
    the elements after `i` stay where they are.
   */
  method InsertInPlace(a: array<Repo>, i: nat)
    requires i < a.Length
    modifies a
    ensures forall k :: 0 <= k <= i ==> a[k] == Insert(old(a[..i]), old(a[i]))[k]
    ensures forall k :: i < k < a.Length ==> a[k] == old(a[k])
  {
    ghost var sorted := a[..i];
    ghost var x := a[i];
    var j := i;
    while j > 0 && Compare(a[j - 1], a[j]) > 0
      invariant 0 <= j <= i
      invariant a[j] == x
      invariant forall k :: 0 <= k < j ==> a[k] == sorted[k]
      invariant forall k :: j < k <= i ==> a[k] == sorted[k - 1]
      invariant forall k :: i < k < a.Length ==> a[k] == old(a[k])
      invariant forall k :: j <= k < i ==> Compare(sorted[k], x) > 0
    {
      SwapWithPrevious(a, j);
      j := j - 1;
    }
    InsertSplits(sorted, j, x);
    SpliceAt(sorted, j, x);
  }

  /** `repos.sort(comparator)`: reorders the array in place, by insertion. */
  method SortRepos(a: array<Repo>)
    modifies a
    ensures a[..] == Rank(old(a[..]))
    ensures Ranked(a[..])
    ensures multiset(a[..]) == multiset(old(a[..]))
  {
    ghost var input := a[..];
    var i := 0;
    while i < a.Length
      invariant 0 <= i <= a.Length
      invariant a[..i] == Rank(input[..i])
      invariant forall k :: i <= k < a.Length ==> a[k] == input[k]
    {
      InsertInPlace(a, i);
      assert input[..i + 1][..i] == input[..i];
      assert a[..i + 1] == Rank(input[..i + 1]);
      i := i + 1;
    }
    assert a[..] == a[..a.Length];
    assert input == input[..a.Length];
    RankIsRanked(input);
    RankPermutes(input);
  }
}
