/** The `Home` page's state: the selected article, the search term and the
    difficulty filter, the list derived from them, and the three handlers
    that change them. */
module ArticleBrowser {
  import opened Text
  import opened Articles
  import opened ArticleFilter
  import opened SampleScenarios

  /** `Article | null`. */
  datatype Option<T> = None | Some(value: T)

  class Home {
    var selectedArticle: Option<Article>
    var searchTerm: string
    var difficultyFilter: string

    /** The selection, if any, is a record of the catalog. */
    ghost predicate Valid()
      reads this
    {
      selectedArticle.Some? ==> selectedArticle.value in SampleArticles
    }

    /** `filteredArticles`, recomputed from the current search term and
        difficulty filter. */
    function FilteredArticles(): (r: seq<Article>)
      reads this
      ensures |r| <= |SampleArticles|
      ensures forall a :: a in r <==> a in SampleArticles && Matches(a, searchTerm, difficultyFilter)
    {
      FilterMembers(SampleArticles, searchTerm, difficultyFilter);
      Filter(SampleArticles, searchTerm, difficultyFilter)
    }

    /** The list item for `a` is highlighted: its identifier is the
        selected article's. */
    predicate IsHighlighted(a: Article)
      reads this
      ensures Valid() && a in SampleArticles ==> (IsHighlighted(a) <==> selectedArticle == Some(a))
    {
      SampleCatalogWellFormed();
      selectedArticle.Some? && selectedArticle.value.id == a.id
    }

    /** The initial state: nothing selected, an empty search and "All", so
        the whole catalog is listed. */
    constructor ()
      ensures Valid()
      ensures selectedArticle == None && searchTerm == "" && difficultyFilter == AllDifficulties
      ensures FilteredArticles() == SampleArticles
    {
      selectedArticle := None;
      searchTerm := "";
      difficultyFilter := AllDifficulties;
      FilterInitialShowsAll(SampleArticles);
    }

    /** Typing in the search box: only the search term changes. */
    method SetSearchTerm(value: string)
      requires Valid()
      modifies this`searchTerm
      ensures Valid()
      ensures searchTerm == value
      ensures selectedArticle == old(selectedArticle) && difficultyFilter == old(difficultyFilter)
      ensures FilteredArticles() == Filter(SampleArticles, value, old(difficultyFilter))
    {
      searchTerm := value;
    }

    /** Choosing a difficulty: only the filter changes. */
    method SetDifficultyFilter(value: string)
      requires Valid()
      modifies this`difficultyFilter
      ensures Valid()
      ensures difficultyFilter == value
      ensures selectedArticle == old(selectedArticle) && searchTerm == old(searchTerm)
      ensures FilteredArticles() == Filter(SampleArticles, old(searchTerm), value)
    {
      difficultyFilter := value;
    }

    /** Clicking a listed article: only the selection changes, and the
        clicked article becomes the highlighted one. */
    method SelectArticle(article: Article)
      requires Valid()
      requires article in FilteredArticles()
      modifies this`selectedArticle
      ensures Valid()
      ensures selectedArticle == Some(article)
      ensures searchTerm == old(searchTerm) && difficultyFilter == old(difficultyFilter)
      ensures FilteredArticles() == old(FilteredArticles())
      ensures IsHighlighted(article)
    {
      selectedArticle := Some(article);
    }
  }

  /** In every state at most one listed article is highlighted. */
  lemma AtMostOneHighlighted(h: Home, i: int, j: int)
    requires 0 <= i < j < |h.FilteredArticles()|
    ensures !(h.IsHighlighted(h.FilteredArticles()[i]) && h.IsHighlighted(h.FilteredArticles()[j]))
  {
    SampleCatalogWellFormed();
    FilterKeepsIdsUnique(SampleArticles, h.searchTerm, h.difficultyFilter);
  }

  /** Selecting record 1 and then searching "climate": the selection is
      kept although record 1 is no longer listed. */
  method SelectionSurvivesSearch() returns (selected: Option<Article>, listed: seq<Article>)
    ensures selected == Some(Article1)
    ensures listed == [Article2] && Article1 !in listed
  {
    var home := new Home();
    home.SelectArticle(Article1);
    home.SetSearchTerm("climate");
    SearchClimate(AllDifficulties);
    selected := home.selectedArticle;
    listed := home.FilteredArticles();
  }
}
