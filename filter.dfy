/** The `filteredArticles` derivation: a stable filter over the catalog that
    keeps a record when the search term, lower-cased, occurs in its
    lower-cased title or authors, and the difficulty filter is "All" or
    names the record's difficulty. */
module ArticleFilter {
  import opened Text
  import opened Articles

  /** The filter value that accepts every difficulty. */
  const AllDifficulties: string := "All"

  /** `matchesSearch`: case-insensitive substring test on title or authors. */
  predicate MatchesSearch(a: Article, term: string)
    ensures MatchesSearch(a, term) ==> |term| <= |a.title| || |term| <= |a.authors|
  {
    Contains(ToLower(a.title), ToLower(term)) || Contains(ToLower(a.authors), ToLower(term))
  }

  /** `matchesDifficulty`: the filter is "All" or equals the difficulty's name. */
  predicate MatchesDifficulty(a: Article, filter: string)
    ensures MatchesDifficulty(a, filter) && filter != AllDifficulties
            ==> filter in {"Beginner", "Intermediate", "Advanced"}
  {
    filter == AllDifficulties || DifficultyName(a.difficulty) == filter
  }

  /** The filter callback: both tests must hold. */
  predicate Matches(a: Article, term: string, filter: string)
    ensures Matches(a, term, filter) ==> |term| <= |a.title| || |term| <= |a.authors|
    ensures Matches(a, term, filter) && filter != AllDifficulties ==> filter == DifficultyName(a.difficulty)
  {
    MatchesSearch(a, term) && MatchesDifficulty(a, filter)
  }

  /** `articles.filter(...)`: the records that match, in catalog order. */
  function Filter(articles: seq<Article>, term: string, filter: string): (r: seq<Article>)
    ensures |r| <= |articles|
    decreases |articles|
  {
    if articles == [] then []
    else
      var rest := Filter(articles[1..], term, filter);
      if Matches(articles[0], term, filter) then [articles[0]] + rest else rest
  }

  /** What the filter makes of a single record: the record itself when it
      matches, nothing otherwise. */
  function Keep(a: Article, term: string, filter: string): seq<Article> {
    if Matches(a, term, filter) then [a] else []
  }

  /** A one-record catalog is filtered to `Keep` of that record. */
  lemma FilterSingle(a: Article, term: string, filter: string)
    ensures Filter([a], term, filter) == Keep(a, term, filter)
  {
    assert [a][1..] == [];
  }

  /** Each record is judged on its own: filtering a concatenation is the
      concatenation of the filtered parts. */
  lemma {:induction false} FilterAppend(s: seq<Article>, t: seq<Article>, term: string, filter: string)
    ensures Filter(s + t, term, filter) == Filter(s, term, filter) + Filter(t, term, filter)
    decreases |s|
  {
    if s == [] {
      assert s + t == t;
    } else {
      FilterAppend(s[1..], t, term, filter);
      assert (s + t)[0] == s[0];
      assert (s + t)[1..] == s[1..] + t;
      assert Filter(s + t, term, filter)
          == (if Matches(s[0], term, filter) then [s[0]] else []) + Filter(s[1..] + t, term, filter);
    }
  }

  /** Soundness and completeness: a record is shown exactly when it is in
      the catalog and passes both tests. */
  lemma {:induction false} FilterMembers(articles: seq<Article>, term: string, filter: string)
    ensures forall a :: a in Filter(articles, term, filter) <==> a in articles && Matches(a, term, filter)
    decreases |articles|
  {
    if articles != [] {
      FilterMembers(articles[1..], term, filter);
      assert articles == [articles[0]] + articles[1..];
    }
  }

  /** `r` can be obtained from `s` by deleting elements, keeping the order. */
  predicate IsSubsequence(r: seq<Article>, s: seq<Article>)
    decreases |s|
  {
    if r == [] then true
    else if s == [] then false
    else (r[0] == s[0] && IsSubsequence(r[1..], s[1..])) || IsSubsequence(r, s[1..])
  }

  /** The filter only deletes records: it never reorders or duplicates them. */
  lemma {:induction false} FilterIsSubsequence(articles: seq<Article>, term: string, filter: string)
    ensures IsSubsequence(Filter(articles, term, filter), articles)
    decreases |articles|
  {
    if articles != [] {
      FilterIsSubsequence(articles[1..], term, filter);
    }
  }

  /** Two positions of a subsequence come from two positions of the
      original sequence in the same order. */
  lemma {:induction false} SubsequenceOrder(r: seq<Article>, s: seq<Article>, i: int, j: int)
    requires IsSubsequence(r, s)
    requires 0 <= i < j < |r|
    ensures exists p, q :: 0 <= p < q < |s| && s[p] == r[i] && s[q] == r[j]
    decreases |s|
  {
    if r[0] == s[0] && IsSubsequence(r[1..], s[1..]) {
      if i == 0 {
        SubsequenceHas(r[1..], s[1..], j - 1);
        var q :| 0 <= q < |s[1..]| && s[1..][q] == r[1..][j - 1];
        assert s[0] == r[i] && s[q + 1] == r[j];
      } else {
        SubsequenceOrder(r[1..], s[1..], i - 1, j - 1);
        var p, q :| 0 <= p < q < |s[1..]| && s[1..][p] == r[1..][i - 1] && s[1..][q] == r[1..][j - 1];
        assert s[p + 1] == r[i] && s[q + 1] == r[j];
      }
    } else {
      SubsequenceOrder(r, s[1..], i, j);
      var p, q :| 0 <= p < q < |s[1..]| && s[1..][p] == r[i] && s[1..][q] == r[j];
      assert s[p + 1] == r[i] && s[q + 1] == r[j];
    }
  }

  /** Every element of a subsequence is an element of the original. */
  lemma {:induction false} SubsequenceHas(r: seq<Article>, s: seq<Article>, i: int)
    requires IsSubsequence(r, s)
    requires 0 <= i < |r|
    ensures exists q :: 0 <= q < |s| && s[q] == r[i]
    decreases |s|
  {
    if r[0] == s[0] && IsSubsequence(r[1..], s[1..]) {
      if i == 0 {
        assert s[0] == r[i];
      } else {
        SubsequenceHas(r[1..], s[1..], i - 1);
        var q :| 0 <= q < |s[1..]| && s[1..][q] == r[1..][i - 1];
        assert s[q + 1] == r[i];
      }
    } else {
      SubsequenceHas(r, s[1..], i);
      var q :| 0 <= q < |s[1..]| && s[1..][q] == r[i];
      assert s[q + 1] == r[i];
    }
  }

  /** Order preservation: if record A is shown before record B, then A comes
      before B in the catalog. */
  lemma FilterPreservesOrder(articles: seq<Article>, term: string, filter: string, i: int, j: int)
    requires 0 <= i < j < |Filter(articles, term, filter)|
    ensures exists p, q :: 0 <= p < q < |articles|
                           && articles[p] == Filter(articles, term, filter)[i]
                           && articles[q] == Filter(articles, term, filter)[j]
  {
    FilterIsSubsequence(articles, term, filter);
    SubsequenceOrder(Filter(articles, term, filter), articles, i, j);
  }

  /** Filtering a catalog with unique identifiers shows each identifier at
      most once. */
  lemma FilterKeepsIdsUnique(articles: seq<Article>, term: string, filter: string)
    requires UniqueIds(articles)
    ensures UniqueIds(Filter(articles, term, filter))
  {
    var r := Filter(articles, term, filter);
    forall i, j | 0 <= i < j < |r|
      ensures r[i].id != r[j].id
    {
      FilterPreservesOrder(articles, term, filter, i, j);
    }
  }

  /** In a catalog with unique identifiers, two listed records keep their
      catalog order in the list. */
  lemma CatalogOrderCarries(articles: seq<Article>, term: string, filter: string, p: int, q: int)
    requires UniqueIds(articles)
    requires 0 <= p < q < |articles|
    requires Matches(articles[p], term, filter) && Matches(articles[q], term, filter)
    ensures exists i, j :: 0 <= i < j < |Filter(articles, term, filter)|
                           && Filter(articles, term, filter)[i] == articles[p]
                           && Filter(articles, term, filter)[j] == articles[q]
  {
    var r := Filter(articles, term, filter);
    FilterMembers(articles, term, filter);
    assert articles[p] in r && articles[q] in r;
    var i :| 0 <= i < |r| && r[i] == articles[p];
    var j :| 0 <= j < |r| && r[j] == articles[q];
    assert articles[p].id != articles[q].id;
    if j < i {
      FilterPreservesOrder(articles, term, filter, j, i);
    }
    assert i < j;
  }

  /** With the initial state (empty search, "All") every record is shown,
      in catalog order. */
  lemma {:induction false} FilterInitialShowsAll(articles: seq<Article>)
    ensures Filter(articles, "", AllDifficulties) == articles
    decreases |articles|
  {
    if articles != [] {
      ContainsEmpty(ToLower(articles[0].title));
      assert ToLower("") == "";
      FilterInitialShowsAll(articles[1..]);
      assert articles == [articles[0]] + articles[1..];
    }
  }

  /** The result depends on the search term only through its lower-cased form. */
  lemma {:induction false} FilterDependsOnLowerCase(articles: seq<Article>, t1: string, t2: string, filter: string)
    requires ToLower(t1) == ToLower(t2)
    ensures Filter(articles, t1, filter) == Filter(articles, t2, filter)
    decreases |articles|
  {
    if articles != [] {
      FilterDependsOnLowerCase(articles[1..], t1, t2, filter);
    }
  }

  /** Upper-casing the search term does not change the result. */
  lemma FilterIgnoresCase(articles: seq<Article>, term: string, filter: string)
    ensures Filter(articles, ToUpper(term), filter) == Filter(articles, term, filter)
    ensures Filter(articles, ToLower(term), filter) == Filter(articles, term, filter)
  {
    ToLowerOfUpper(term);
    FilterDependsOnLowerCase(articles, ToUpper(term), term, filter);
    ToLowerIdempotent(term);
    FilterDependsOnLowerCase(articles, ToLower(term), term, filter);
  }

  /** The two tests are independent: filtering by search with "All" and then
      by difficulty with an empty search gives the combined result. */
  lemma {:induction false} FilterComposes(articles: seq<Article>, term: string, filter: string)
    ensures Filter(Filter(articles, term, AllDifficulties), "", filter) == Filter(articles, term, filter)
    decreases |articles|
  {
    if articles != [] {
      FilterComposes(articles[1..], term, filter);
      ContainsEmpty(ToLower(articles[0].title));
      assert ToLower("") == "";
      var rest := Filter(articles[1..], term, AllDifficulties);
      if MatchesSearch(articles[0], term) {
        assert Filter([articles[0]] + rest, "", filter)
            == (if MatchesDifficulty(articles[0], filter) then [articles[0]] else []) + Filter(rest, "", filter) by {
          assert ([articles[0]] + rest)[1..] == rest;
        }
      }
    }
  }

  /** Filtering an already filtered list again changes nothing. */
  lemma {:induction false} FilterIdempotent(articles: seq<Article>, term: string, filter: string)
    ensures Filter(Filter(articles, term, filter), term, filter) == Filter(articles, term, filter)
    decreases |articles|
  {
    if articles != [] {
      FilterIdempotent(articles[1..], term, filter);
      var rest := Filter(articles[1..], term, filter);
      if Matches(articles[0], term, filter) {
        assert ([articles[0]] + rest)[1..] == rest;
      }
    }
  }

  /** A filter value other than "All" keeps only records of the difficulty it
      names, and every such record that matches the search. */
  lemma FilterByDifficulty(articles: seq<Article>, term: string, d: Difficulty)
    ensures forall a :: a in Filter(articles, term, DifficultyName(d)) <==>
                        a in articles && a.difficulty == d && MatchesSearch(a, term)
  {
    FilterMembers(articles, term, DifficultyName(d));
    forall e: Difficulty {
      DifficultyNameInjective(d, e);
    }
  }

  /** A filter value that is neither "All" nor a difficulty name shows nothing. */
  lemma FilterUnknownDifficultyIsEmpty(articles: seq<Article>, term: string, filter: string)
    requires filter != AllDifficulties
    requires forall d: Difficulty :: DifficultyName(d) != filter
    ensures Filter(articles, term, filter) == []
  {
    FilterMembers(articles, term, filter);
  }
}
