/** The article record and the fixed sample catalog the browser shows. */
module Articles {

  /** The closed set of reading levels an article is tagged with. */
  datatype Difficulty = Beginner | Intermediate | Advanced

  /** The string a difficulty is written as, which the filter compares
      against the selected filter value. */
  function DifficultyName(d: Difficulty): (r: string)
    ensures r != "All" && |r| > 0
  {
    match d
    case Beginner => "Beginner"
    case Intermediate => "Intermediate"
    case Advanced => "Advanced"
  }

  /** Distinct difficulties are written differently, so a filter value names
      at most one difficulty. */
  lemma DifficultyNameInjective(d: Difficulty, e: Difficulty)
    ensures DifficultyName(d) == DifficultyName(e) ==> d == e
  {
    if d != e {
      assert DifficultyName(d)[0] != DifficultyName(e)[0] || |DifficultyName(d)| != |DifficultyName(e)|;
    }
  }

  /** An article summary. Only the fields that the search and the selection
      look at are kept; the display-only text fields are not modelled. */
  datatype Article = Article(id: int, title: string, authors: string, difficulty: Difficulty)

  /** No two records of `catalog` share an identifier. */
  predicate UniqueIds(catalog: seq<Article>) {
    forall i, j :: 0 <= i < j < |catalog| ==> catalog[i].id != catalog[j].id
  }

  // Each title and author list is written as short literals joined with `+`;
  // the value is the same string, and the verifier can then inspect it one
  // short piece at a time.
  const Article1 := Article(1, "The Impact of " + "Machine Learning" + " on Healthcare" + " Diagnostics",
                            "Smith, J., " + "Johnson, A., " + "& Brown, R.", Intermediate)
  const Article2 := Article(2, "Climate Change " + "Effects on " + "Marine " + "Biodiversity",
                            "Garcia, M., " + "Lee, S., " + "& Chen, W.", Advanced)
  const Article3 := Article(3, "Social Media " + "Usage and " + "Mental Health " + "in Adolescents",
                            "Thompson, K., " + "& Rodriguez" + ", L.", Beginner)
  const Article4 := Article(4, "Quantum " + "Computing " + "Applications " + "in Cryptography",
                            "Zhang, Q., " + "Mueller, H., " + "& Patel, N.", Advanced)
  const Article5 := Article(5, "Urban Green " + "Spaces and " + "Community " + "Well-being",
                            "Anderson, P., " + "& Williams, T.", Beginner)

  /** The catalog, in display order. */
  const SampleArticles: seq<Article> := [Article1, Article2, Article3, Article4, Article5]

  /** The sample catalog has five records with pairwise distinct identifiers. */
  lemma SampleCatalogWellFormed()
    ensures |SampleArticles| == 5 && UniqueIds(SampleArticles)
    ensures forall i :: 0 <= i < |SampleArticles| ==> SampleArticles[i].id == i + 1
  {
  }
}
