# Research Article Explainer: article browser model

The page `app/page.tsx` lists a small, fixed catalog of research article
summaries. The reader can narrow the list by typing a search term and by
choosing a difficulty level ("All", "Beginner", "Intermediate",
"Advanced"). Clicking a listed article selects it for the detail view and
highlights it in the list.

This project models that view-model in Dafny:

- `text.dfy`, module `Text`: the two string operations the filter uses.
  `ToLower` is `String.prototype.toLowerCase`, restricted to ASCII.
  `Contains` is `String.prototype.includes`, checked against a
  position-based reference definition (`OccursAt`). The module also holds
  small certificates (`LacksLower`) that let the verifier show, piece by
  piece, that a string cannot contain a term.
- `articles.dfy`, module `Articles`: the `Article` record, the three
  difficulty levels, and the five-record `sampleArticles` catalog.
- `filter.dfy`, module `ArticleFilter`: the `filteredArticles` callback
  (`MatchesSearch`, `MatchesDifficulty`, `Matches`) and the stable filter
  `Filter`. It also proves soundness, completeness, order preservation,
  case-insensitivity and the difficulty filter's meaning.
- `certificates.dfy`, module `SampleCertificates`: the letters and letter
  pairs that each catalog title and author list does not have, once
  lower-cased.
- `scenarios.dfy`, module `SampleScenarios`: the exact result of concrete
  searches over the sample catalog.
- `browser.dfy`, module `ArticleBrowser`: the `Home` component as a class.
  It holds the three `useState` slots as fields, derives the listed
  articles, and has the three handlers as methods that each change exactly
  one field.

Selection stores the clicked record itself (`setSelectedArticle(article)`,
app/page.tsx:162), not its identifier; the highlight compares identifiers
(app/page.tsx:164).

## Model

| member | source | states |
|---|---|---|
| Articles.DifficultyName | app/page.tsx:15 | a difficulty's name is never the "All" filter value and is non-empty |
| Articles.DifficultyNameInjective | app/page.tsx:15 | distinct difficulties have distinct names, so one filter value names at most one difficulty |
| Articles.SampleCatalogWellFormed | app/page.tsx:18-99 | the catalog has five records, with identifiers 1 to 5 in order, all distinct |
| Text.LowerChar | app/page.tsx:107-108 | `A`..`Z` map to `a`..`z` (code point plus 32); every other character is unchanged; the result is never an upper-case letter |
| Text.UpperChar | app/page.tsx:107-108 | upper-casing a character does not change its lower-case form |
| Text.ToLower | app/page.tsx:107-108 | the length is kept and each character is lower-cased in place |
| Text.ToLowerIdempotent | app/page.tsx:107-108 | lower-casing twice equals lower-casing once |
| Text.ToLowerOfUpper | app/page.tsx:107-108 | a string and its upper-case form have the same lower-case form |
| Text.Contains | app/page.tsx:107-108 | `includes`: a needle that is included is no longer than the string; `ContainsIff` proves it equal to occurrence at some position |
| Text.ContainsIff | app/page.tsx:107-108 | `includes` holds exactly when the needle occurs at some position (both directions) |
| Text.OccursContains | app/page.tsx:107-108 | an occurrence at a known position is a containment |
| Text.ContainsEmpty | app/page.tsx:107 | every string includes the empty string, so an empty search matches every record |
| Text.ContainsTransitive | app/page.tsx:107-108 | a piece of a piece of a string is a piece of that string |
| Text.CharOccurs | app/page.tsx:107-108 | a string containing a needle contains each of the needle's characters |
| Text.PairOccurs | app/page.tsx:107-108 | a string containing a needle contains each adjacent pair of the needle |
| Text.LacksLowerAppend | app/page.tsx:107-108 | a concatenation lacks the letters and pairs both parts lack, when the seam pair is not one of them |
| Text.NotContainsLowerChar | app/page.tsx:107-108 | a lower-cased string lacking one of the needle's letters does not include the needle |
| Text.NotContainsLowerPair | app/page.tsx:107-108 | a lower-cased string lacking one of the needle's adjacent pairs does not include the needle |
| ArticleFilter.MatchesSearch | app/page.tsx:107-108 | `matchesSearch`: a matching term is no longer than the title or the authors; `FilterIgnoresCase` and the scenarios state its case-insensitivity |
| ArticleFilter.MatchesDifficulty | app/page.tsx:109 | `matchesDifficulty`: a filter other than "All" admits a record only if it is "Beginner", "Intermediate" or "Advanced"; `FilterByDifficulty` states which records it admits |
| ArticleFilter.Matches | app/page.tsx:110 | the callback's `&&`: a kept record fits the term and, unless the filter is "All", has the filter's difficulty; `FilterMembers` ties it to the list |
| ArticleFilter.Filter | app/page.tsx:106-111 | the filtered list is never longer than the catalog |
| ArticleFilter.FilterSingle | app/page.tsx:106-111 | a one-record catalog keeps its record exactly when the record matches |
| ArticleFilter.FilterAppend | app/page.tsx:106-111 | each record is judged on its own: filtering a concatenation concatenates the filtered parts |
| ArticleFilter.FilterMembers | app/page.tsx:106-111 | soundness and completeness: a record is listed exactly when it is in the catalog, its lower-cased title or authors include the lower-cased term, and the filter is "All" or its difficulty's name |
| ArticleFilter.FilterIsSubsequence | app/page.tsx:106 | the list is a subsequence of the catalog |
| ArticleFilter.SubsequenceOrder | app/page.tsx:106 | two positions of a subsequence come from two positions of the original, in the same order |
| ArticleFilter.SubsequenceHas | app/page.tsx:106 | every element of a subsequence occurs in the original |
| ArticleFilter.FilterPreservesOrder | app/page.tsx:106 | a record listed before another comes before it in the catalog |
| ArticleFilter.FilterKeepsIdsUnique | app/page.tsx:106 | a catalog with unique identifiers is filtered to a list with unique identifiers |
| ArticleFilter.CatalogOrderCarries | app/page.tsx:106 | in a catalog with unique identifiers, two matching records appear in the list in their catalog order |
| ArticleFilter.FilterInitialShowsAll | app/page.tsx:103-104 | the initial empty search with "All" lists the whole catalog, in order |
| ArticleFilter.FilterDependsOnLowerCase | app/page.tsx:107-108 | two terms with the same lower-case form give the same list |
| ArticleFilter.FilterIgnoresCase | app/page.tsx:107-108 | upper-casing or lower-casing the term leaves the list unchanged |
| ArticleFilter.FilterComposes | app/page.tsx:109-110 | the two tests are independent: searching with "All" and then filtering the result by difficulty with an empty search equals applying both at once |
| ArticleFilter.FilterIdempotent | app/page.tsx:106-111 | filtering a filtered list again changes nothing |
| ArticleFilter.FilterByDifficulty | app/page.tsx:109 | with a difficulty's name as the filter, a record is listed exactly when it has that difficulty and matches the search |
| ArticleFilter.FilterUnknownDifficultyIsEmpty | app/page.tsx:109 | a filter value that is neither "All" nor a difficulty's name lists nothing |
| SampleCertificates.Article1TitleLacks | app/page.tsx:21 | record 1's title, lower-cased, has no "z" and no adjacent "cl" or "sm" |
| SampleCertificates.Article1AuthorsLacks | app/page.tsx:22 | record 1's authors, lower-cased, have no "c" or "z" |
| SampleCertificates.Article2TitleLacks | app/page.tsx:37 | record 2's title, lower-cased, has no "z" and no adjacent "sm" |
| SampleCertificates.Article2AuthorsLacks | app/page.tsx:38 | record 2's authors, lower-cased, have no "t" or "z" |
| SampleCertificates.Article3TitleLacks | app/page.tsx:53 | record 3's title, lower-cased, has no "z" and no adjacent "cl" or "sm" |
| SampleCertificates.Article3AuthorsLacks | app/page.tsx:54 | record 3's authors, lower-cased, have no "c" and no adjacent "sm" or "zz" |
| SampleCertificates.Article4TitleLacks | app/page.tsx:69 | record 4's title, lower-cased, has no "e" or "z" and no adjacent "sm" |
| SampleCertificates.Article4AuthorsLacks | app/page.tsx:70 | record 4's authors, lower-cased, have no "c" or "s" and no adjacent "zz" |
| SampleCertificates.Article5TitleLacks | app/page.tsx:85 | record 5's title, lower-cased, has no "h" or "z" and no adjacent "cl" |
| SampleCertificates.Article5AuthorsLacks | app/page.tsx:86 | record 5's authors, lower-cased, have no "c", "h" or "z" |
| SampleScenarios.FilterSampleArticles | app/page.tsx:106-111 | the list over the sample catalog is the five records' individual verdicts, concatenated in catalog order |
| SampleScenarios.EmptySearchMatchesAll | app/page.tsx:107-108 | an empty search passes the search test for every record |
| SampleScenarios.EmptySearchByDifficulty | app/page.tsx:18-99 | an empty search lists records 3 and 5 for "Beginner", record 1 for "Intermediate", and records 2 and 4 for "Advanced" |
| SampleScenarios.AdvancedShowsArticles2And4 | app/page.tsx:109 | "Advanced" with an empty search lists exactly records 2 and 4, in that order |
| SampleScenarios.ClimateMatchesOnlyArticle2 | app/page.tsx:107-108 | "climate" matches record 2 and no other record |
| SampleScenarios.SearchClimate | app/page.tsx:106-111 | searching "climate" lists exactly record 2 when the difficulty filter admits it, and nothing otherwise |
| SampleScenarios.SmithMatchesOnlyArticle1 | app/page.tsx:107-108 | a term lower-casing to "smith" matches record 1 through its authors and no other record |
| SampleScenarios.SearchSmithAnyCase | app/page.tsx:107-108 | "SMITH" and "smith" list the same records: record 1 exactly, when the difficulty filter admits it |
| SampleScenarios.NoRecordMatchesZz | app/page.tsx:107-108 | a term containing "zz" once lower-cased matches no record |
| SampleScenarios.SearchWithZzShowsNothing | app/page.tsx:106-111 | such a term lists nothing under every difficulty filter |
| SampleScenarios.SearchZzzShowsNothing | app/page.tsx:106-111 | "zzz" and "zzz-no-match" list nothing under every difficulty filter |
| ArticleBrowser.Home.FilteredArticles | app/page.tsx:106-111 | the listed articles are exactly the catalog records that match the current search term and difficulty filter |
| ArticleBrowser.Home.constructor | app/page.tsx:102-104 | initially nothing is selected, the search is empty, the filter is "All", and the whole catalog is listed |
| ArticleBrowser.Home.SetSearchTerm | app/page.tsx:142 | only the search term changes, to the typed value; the selection and the filter are kept, and the list is recomputed |
| ArticleBrowser.Home.SetDifficultyFilter | app/page.tsx:149 | only the filter changes, to the chosen value; the selection and the search term are kept, and the list is recomputed |
| ArticleBrowser.Home.SelectArticle | app/page.tsx:162-164 | clicking a listed article selects it and highlights it; the search term, the filter and the list are unchanged |
| ArticleBrowser.Home.IsHighlighted | app/page.tsx:164 | in a valid state, a catalog record is highlighted exactly when it is the selected record |
| ArticleBrowser.AtMostOneHighlighted | app/page.tsx:164 | in every state no two listed articles are highlighted at once |
| ArticleBrowser.SelectionSurvivesSearch | app/page.tsx:102-111 | after selecting record 1 and searching "climate", record 1 is still selected although the list is exactly record 2 |

## Left out

- The display-only fields `journal`, `year`, `abstract`, `keyFindings`, `methodology` and `implications` are not modelled, because the filter and the selection never read them.
- All JSX rendering, styling and layout, the header, and the detail panel are not modelled. Of the rendering, only the list highlight (`IsHighlighted`) is kept.
- Text.LowerChar: folds only ASCII `A`..`Z`. JavaScript's `toLowerCase` also folds non-ASCII letters by Unicode rules, which are not modelled. Every catalog string and every term in the scenarios is ASCII.
- React's re-rendering and state batching are not modelled. Each handler is a method that takes effect at once, and `filteredArticles` is a function of the current fields.
- ArticleBrowser.Home.SelectArticle: requires the article to be listed. The page only offers listed articles to be clicked. The underlying setter would accept any record.
- The catalog strings are written in `articles.dfy` as short literals joined with `+`. The values are the same strings as in the page.
