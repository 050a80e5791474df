/** Concrete searches over the sample catalog. */
module SampleScenarios {
  import opened Text
  import opened Articles
  import opened ArticleFilter
  import opened SampleCertificates

  /** The filter over the sample catalog, one record at a time. */
  lemma FilterSampleArticles(term: string, filter: string)
    ensures Filter(SampleArticles, term, filter)
         == Keep(Article1, term, filter) + Keep(Article2, term, filter) + Keep(Article3, term, filter)
          + Keep(Article4, term, filter) + Keep(Article5, term, filter)
  {
    FilterSingle(Article1, term, filter);
    FilterSingle(Article2, term, filter);
    FilterSingle(Article3, term, filter);
    FilterSingle(Article4, term, filter);
    FilterSingle(Article5, term, filter);
    assert SampleArticles == [Article1] + [Article2] + [Article3] + [Article4] + [Article5];
    FilterAppend([Article1] + [Article2] + [Article3] + [Article4], [Article5], term, filter);
    FilterAppend([Article1] + [Article2] + [Article3], [Article4], term, filter);
    FilterAppend([Article1] + [Article2], [Article3], term, filter);
    FilterAppend([Article1], [Article2], term, filter);
  }

  /** With an empty search every record passes the search test. */
  lemma EmptySearchMatchesAll(x: Article)
    ensures MatchesSearch(x, "")
  {
    assert ToLower("") == "";
    ContainsEmpty(ToLower(x.title));
  }

  /** An empty search with a difficulty filter shows exactly the records of
      that difficulty, in catalog order. */
  lemma EmptySearchByDifficulty(d: Difficulty)
    ensures Filter(SampleArticles, "", DifficultyName(d))
         == match d
            case Beginner => [Article3, Article5]
            case Intermediate => [Article1]
            case Advanced => [Article2, Article4]
  {
    EmptySearchMatchesAll(Article1);
    EmptySearchMatchesAll(Article2);
    EmptySearchMatchesAll(Article3);
    EmptySearchMatchesAll(Article4);
    EmptySearchMatchesAll(Article5);
    FilterSampleArticles("", DifficultyName(d));
  }

  /** The "Advanced" filter with an empty search shows records 2 and 4. */
  lemma AdvancedShowsArticles2And4()
    ensures Filter(SampleArticles, "", "Advanced") == [Article2, Article4]
  {
    EmptySearchByDifficulty(Advanced);
  }

  /** "climate" occurs in record 2's title and in no other record. */
  lemma ClimateMatchesOnlyArticle2()
    ensures MatchesSearch(Article2, "climate")
    ensures !MatchesSearch(Article1, "climate") && !MatchesSearch(Article3, "climate")
    ensures !MatchesSearch(Article4, "climate") && !MatchesSearch(Article5, "climate")
  {
    var needle := ToLower("climate");
    assert needle == "climate";
    assert StartsWith(ToLower(Article2.title), needle);
    OccursContains(needle, ['c'], 0);
    OccursContains(needle, ['e'], 6);
    OccursContains(needle, ['c', 'l'], 0);
    Article1TitleLacks();
    Article1AuthorsLacks();
    NotContainsLowerPair(Article1.title, needle, {('c', 'l'), ('s', 'm')}, 'c', 'l');
    NotContainsLowerChar(Article1.authors, needle, {'c', 'z'}, 'c');
    Article3TitleLacks();
    Article3AuthorsLacks();
    NotContainsLowerPair(Article3.title, needle, {('c', 'l'), ('s', 'm')}, 'c', 'l');
    NotContainsLowerChar(Article3.authors, needle, {'c'}, 'c');
    Article4TitleLacks();
    Article4AuthorsLacks();
    NotContainsLowerChar(Article4.title, needle, {'e', 'z'}, 'e');
    NotContainsLowerChar(Article4.authors, needle, {'c', 's'}, 'c');
    Article5TitleLacks();
    Article5AuthorsLacks();
    NotContainsLowerPair(Article5.title, needle, {('c', 'l')}, 'c', 'l');
    NotContainsLowerChar(Article5.authors, needle, {'c', 'h', 'z'}, 'c');
  }

  /** Searching "climate" shows exactly record 2, when the difficulty filter
      admits it. */
  lemma SearchClimate(filter: string)
    ensures Filter(SampleArticles, "climate", filter)
         == if MatchesDifficulty(Article2, filter) then [Article2] else []
  {
    ClimateMatchesOnlyArticle2();
    FilterSampleArticles("climate", filter);
  }

  /** A term that lower-cases to "smith" occurs in record 1's authors and in
      no other record. */
  lemma SmithMatchesOnlyArticle1(term: string)
    requires ToLower(term) == "smith"
    ensures MatchesSearch(Article1, term)
    ensures !MatchesSearch(Article2, term) && !MatchesSearch(Article3, term)
    ensures !MatchesSearch(Article4, term) && !MatchesSearch(Article5, term)
  {
    var needle := ToLower(term);
    assert StartsWith(ToLower(Article1.authors), needle);
    OccursContains(needle, ['s'], 0);
    OccursContains(needle, ['t'], 3);
    OccursContains(needle, ['h'], 4);
    OccursContains(needle, ['s', 'm'], 0);
    Article2TitleLacks();
    Article2AuthorsLacks();
    NotContainsLowerPair(Article2.title, needle, {('s', 'm')}, 's', 'm');
    NotContainsLowerChar(Article2.authors, needle, {'t', 'z'}, 't');
    Article3TitleLacks();
    Article3AuthorsLacks();
    NotContainsLowerPair(Article3.title, needle, {('c', 'l'), ('s', 'm')}, 's', 'm');
    NotContainsLowerPair(Article3.authors, needle, {('s', 'm'), ('z', 'z')}, 's', 'm');
    Article4TitleLacks();
    Article4AuthorsLacks();
    NotContainsLowerPair(Article4.title, needle, {('s', 'm')}, 's', 'm');
    NotContainsLowerChar(Article4.authors, needle, {'c', 's'}, 's');
    Article5TitleLacks();
    Article5AuthorsLacks();
    NotContainsLowerChar(Article5.title, needle, {'h', 'z'}, 'h');
    NotContainsLowerChar(Article5.authors, needle, {'c', 'h', 'z'}, 'h');
  }

  /** "SMITH" and "smith" both show exactly record 1, when the difficulty
      filter admits it. */
  lemma SearchSmithAnyCase(filter: string)
    ensures Filter(SampleArticles, "SMITH", filter)
         == Filter(SampleArticles, "smith", filter)
         == if MatchesDifficulty(Article1, filter) then [Article1] else []
  {
    assert ToLower("SMITH") == "smith";
    assert ToLower("smith") == "smith";
    SmithMatchesOnlyArticle1("SMITH");
    SmithMatchesOnlyArticle1("smith");
    FilterSampleArticles("SMITH", filter);
    FilterSampleArticles("smith", filter);
  }

  /** No record's title or authors has "zz" once lower-cased, so no term
      containing it matches any record. */
  lemma NoRecordMatchesZz(term: string)
    requires Contains(ToLower(term), "zz")
    ensures !MatchesSearch(Article1, term) && !MatchesSearch(Article2, term)
    ensures !MatchesSearch(Article3, term) && !MatchesSearch(Article4, term)
    ensures !MatchesSearch(Article5, term)
  {
    var needle := ToLower(term);
    OccursContains("zz", ['z'], 0);
    ContainsTransitive(needle, "zz", ['z']);
    assert "zz" == ['z', 'z'];
    Article1TitleLacks();
    Article1AuthorsLacks();
    NotContainsLowerChar(Article1.title, needle, {'z'}, 'z');
    NotContainsLowerChar(Article1.authors, needle, {'c', 'z'}, 'z');
    Article2TitleLacks();
    Article2AuthorsLacks();
    NotContainsLowerChar(Article2.title, needle, {'z'}, 'z');
    NotContainsLowerChar(Article2.authors, needle, {'t', 'z'}, 'z');
    Article3TitleLacks();
    Article3AuthorsLacks();
    NotContainsLowerChar(Article3.title, needle, {'z'}, 'z');
    NotContainsLowerPair(Article3.authors, needle, {('s', 'm'), ('z', 'z')}, 'z', 'z');
    Article4TitleLacks();
    Article4AuthorsLacks();
    NotContainsLowerChar(Article4.title, needle, {'e', 'z'}, 'z');
    NotContainsLowerPair(Article4.authors, needle, {('z', 'z')}, 'z', 'z');
    Article5TitleLacks();
    Article5AuthorsLacks();
    NotContainsLowerChar(Article5.title, needle, {'h', 'z'}, 'z');
    NotContainsLowerChar(Article5.authors, needle, {'c', 'h', 'z'}, 'z');
  }

  /** A search containing "zz" shows nothing, whatever the difficulty filter. */
  lemma SearchWithZzShowsNothing(term: string, filter: string)
    requires Contains(ToLower(term), "zz")
    ensures Filter(SampleArticles, term, filter) == []
  {
    NoRecordMatchesZz(term);
    FilterSampleArticles(term, filter);
  }

  /** "zzz" and "zzz-no-match" show nothing under every filter. */
  lemma SearchZzzShowsNothing(filter: string)
    ensures Filter(SampleArticles, "zzz", filter) == []
    ensures Filter(SampleArticles, "zzz-no-match", filter) == []
  {
    assert ToLower("zzz") == "zzz";
    OccursContains("zzz", "zz", 0);
    SearchWithZzShowsNothing("zzz", filter);
    assert ToLower("zzz-no-match") == "zzz-no-match";
    OccursContains("zzz-no-match", "zz", 0);
    SearchWithZzShowsNothing("zzz-no-match", filter);
  }
}
