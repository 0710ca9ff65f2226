/**
 * The article list page: the category buttons, the search-and-category filter, the
 * pagination six articles at a time, and the handlers that change the search term, the
 * selected category and the current page.
 */
module ArticlesPage {
  import opened Wrappers
  import opened JsArray
  import opened JsString
  import opened Api

  const ItemsPerPage := 6

  /** `articles.map(article => article.category)`. */
  function CategoryColumn(articles: seq<Article>): (r: seq<string>)
    ensures |r| == |articles| && forall i :: 0 <= i < |articles| ==> r[i] == articles[i].category
  {
    seq(|articles|, i requires 0 <= i < |articles| => articles[i].category)
  }

  /** `Array.from(new Set(articles.map(article => article.category)))`. */
  function Categories(articles: seq<Article>): seq<string>
  {
    Distinct(CategoryColumn(articles))
  }

  /** One button per category: no repeats, none missing, in order of first appearance. */
  lemma CategoriesAreDistinct(articles: seq<Article>)
    ensures var r := Categories(articles);
            && (forall i, j :: 0 <= i < j < |r| ==> r[i] != r[j])
            && (forall i :: 0 <= i < |articles| ==> articles[i].category in r)
            && (forall i :: 0 <= i < |r| ==> exists k :: 0 <= k < |articles| && articles[k].category == r[i])
            && (forall i, j :: 0 <= i < j < |r| ==>
                  IndexOf(CategoryColumn(articles), r[i]) < IndexOf(CategoryColumn(articles), r[j]))
  {
    var column := CategoryColumn(articles);
    var r := Categories(articles);
    assert r == Distinct(column);
    DistinctFirstOccurrence(column);
    forall i | 0 <= i < |r| ensures exists k :: 0 <= k < |articles| && articles[k].category == r[i] {
      var k := IndexOf(column, r[i]);
      assert articles[k].category == r[i];
    }
  }

  // ---------------------------------------------------------------------------------
  // Filtering
  // ---------------------------------------------------------------------------------

  /** `searchTerm === ''` or the lower-cased title or excerpt contains the lower-cased term. */
  predicate MatchesSearch(term: string, a: Article)
  {
    || term == ""
    || Includes(ToLower(a.title), ToLower(term))
    || Includes(ToLower(a.excerpt), ToLower(term))
  }

  /** `selectedCategory === null` or the category is exactly the selected one. */
  predicate MatchesCategory(selected: Option<string>, a: Article)
  {
    selected.None? || a.category == selected.value
  }

  function Keeps(term: string, selected: Option<string>): Article -> bool
  {
    (a: Article) => MatchesSearch(term, a) && MatchesCategory(selected, a)
  }

  /** `filteredArticles`: the fetched articles that match both the search and the category. */
  function FilteredArticles(articles: seq<Article>, term: string, selected: Option<string>): (r: seq<Article>)
    ensures forall i :: 0 <= i < |r| ==> r[i] in articles && MatchesSearch(term, r[i]) && MatchesCategory(selected, r[i])
    ensures forall i :: 0 <= i < |articles| && MatchesSearch(term, articles[i]) && MatchesCategory(selected, articles[i]) ==>
              articles[i] in r
    ensures IsSubsequence(r, articles)
  {
    FilterIsSubsequence(articles, Keeps(term, selected));
    Filter(articles, Keeps(term, selected))
  }

  /** With no search term and no category every article is listed. */
  lemma NoFilterKeepsAll(articles: seq<Article>)
    ensures FilteredArticles(articles, "", None) == articles
  {
    FilterAll(articles, Keeps("", None));
  }

  /** The search ignores case: terms that differ only in the case of their letters select alike. */
  lemma SearchIgnoresCase(term1: string, term2: string, a: Article)
    requires CaseVariants(term1, term2)
    ensures MatchesSearch(term1, a) == MatchesSearch(term2, a)
  {
    CaseVariantsLowerAlike(term1, term2);
  }

  /** Searching for a term or for its lower-case form selects alike. */
  lemma SearchByLowerCaseTerm(term: string, a: Article)
    ensures MatchesSearch(term, a) == MatchesSearch(ToLower(term), a)
  {
    ToLowerIdempotent(term);
  }

  /** A term finds every article whose title holds it in any mix of upper and lower case. */
  lemma TitleFoundInAnyCase(term: string, a: Article, i: nat)
    requires i + |term| <= |a.title| && CaseVariants(term, a.title[i..i + |term|])
    ensures MatchesSearch(term, a)
  {
    var n := |term|;
    CaseVariantsLowerAlike(term, a.title[i..i + n]);
    ToLowerSlice(a.title, i, i + n);
    assert OccursAt(ToLower(a.title), ToLower(term), i);
  }

  /** Searching the seed articles for "QUANTUM" finds "The Rise of Quantum Computing". */
  lemma UpperCaseTermFindsQuantum()
    ensures MatchesSearch("QUANTUM", QuantumCrypto)
  {
    var title := QuantumCrypto.title;
    assert title[12..19] == "Quantum";
    TitleFoundInAnyCase("QUANTUM", QuantumCrypto, 12);
  }

  /** The empty term is contained in every title, so the `=== ''` test changes nothing. */
  lemma EmptyTermMatches(a: Article)
    ensures Includes(ToLower(a.title), ToLower(""))
  {
    assert OccursAt(ToLower(a.title), ToLower(""), 0);
  }

  // ---------------------------------------------------------------------------------
  // Pagination
  // ---------------------------------------------------------------------------------

  /** `filteredArticles.slice(currentPage * 6 - 6, currentPage * 6)`. */
  function Page(filtered: seq<Article>, page: int): seq<Article>
  {
    Slice(filtered, page * ItemsPerPage - ItemsPerPage, page * ItemsPerPage)
  }

  function Min(a: int, b: int): int
  {
    if a < b then a else b
  }

  /** Page `p` is the stretch from `(p - 1) * 6` up to `p * 6`, clipped to the list: at most six articles. */
  lemma PageContents(filtered: seq<Article>, page: int)
    requires page >= 1
    ensures var n := |filtered|;
            Page(filtered, page) == filtered[Min((page - 1) * ItemsPerPage, n)..Min(page * ItemsPerPage, n)]
    ensures |Page(filtered, page)| <= ItemsPerPage
  {
    SliceNonNegative(filtered, page * ItemsPerPage - ItemsPerPage, page * ItemsPerPage);
  }

  /** `Math.ceil(n / 6)`: the fewest pages of six that hold `n` articles. */
  function PageCount(n: nat): (r: nat)
    ensures r * ItemsPerPage >= n
    ensures r == 0 || (r - 1) * ItemsPerPage < n
  {
    (n + ItemsPerPage - 1) / ItemsPerPage
  }

  /** Pages 1 to `k`, one after the other. */
  function PagesUpTo(filtered: seq<Article>, k: nat): seq<Article>
  {
    if k == 0 then [] else PagesUpTo(filtered, k - 1) + Page(filtered, k)
  }

  lemma {:induction false} PagesUpToPrefix(filtered: seq<Article>, k: nat)
    ensures PagesUpTo(filtered, k) == filtered[..Min(k * ItemsPerPage, |filtered|)]
  {
    if k > 0 {
      PagesUpToPrefix(filtered, k - 1);
      PageContents(filtered, k);
      var n := |filtered|;
      var a, b := Min((k - 1) * ItemsPerPage, n), Min(k * ItemsPerPage, n);
      assert filtered[..a] + filtered[a..b] == filtered[..b];
    }
  }

  /** Pages 1 to `totalPages` together are the filtered list, each article once, in order. */
  lemma AllPagesRebuildList(filtered: seq<Article>)
    ensures PagesUpTo(filtered, PageCount(|filtered|)) == filtered
  {
    PagesUpToPrefix(filtered, PageCount(|filtered|));
  }

  lemma PageCountMonotone(m: nat, n: nat)
    requires m <= n
    ensures PageCount(m) <= PageCount(n)
  {
  }

  // ---------------------------------------------------------------------------------
  // The page's state and handlers
  // ---------------------------------------------------------------------------------

  class ArticlesView {
    /** The fetched article list. */
    const articles: seq<Article>
    var searchTerm: string
    var selectedCategory: Option<string>
    var currentPage: int

    function Filtered(): seq<Article>
      reads this
    {
      FilteredArticles(articles, searchTerm, selectedCategory)
    }

    function CurrentItems(): seq<Article>
      reads this
    {
      Page(Filtered(), currentPage)
    }

    function TotalPages(): nat
      reads this
    {
      PageCount(|Filtered()|)
    }

    /** The current page is 1 or one of the pages the links offer. */
    predicate Valid()
      reads this
    {
      1 <= currentPage && (currentPage == 1 || currentPage <= TotalPages())
    }

    /** The article grid (otherwise "No articles found"). */
    predicate ShowsItems()
      reads this
    {
      |CurrentItems()| > 0
    }

    predicate ShowsPagination()
      reads this
    {
      ShowsItems() && TotalPages() > 1
    }

    predicate ShowsPrevious()
      reads this
    {
      ShowsPagination() && currentPage > 1
    }

    predicate ShowsNext()
      reads this
    {
      ShowsPagination() && currentPage < TotalPages()
    }

    /** "Clear filters" under "No articles found", when the term or the category is truthy. */
    predicate ShowsClearFilters()
      reads this
    {
      !ShowsItems() && (searchTerm != "" || (selectedCategory.Some? && selectedCategory.value != ""))
    }

    constructor(fetched: seq<Article>)
      ensures Valid()
      ensures articles == fetched && searchTerm == "" && selectedCategory == None && currentPage == 1
    {
      articles := fetched;
      searchTerm := "";
      selectedCategory := None;
      currentPage := 1;
    }

    /** Typing in the search box: new term, back to page 1. */
    method ChangeSearch(value: string)
      modifies this
      ensures Valid()
      ensures searchTerm == value && selectedCategory == old(selectedCategory) && currentPage == 1
    {
      searchTerm := value;
      currentPage := 1;
    }

    /** The "All" button: no category, back to page 1. */
    method SelectAll()
      modifies this
      ensures Valid()
      ensures searchTerm == old(searchTerm) && selectedCategory == None && currentPage == 1
    {
      selectedCategory := None;
      currentPage := 1;
    }

    /** A category button: that category, back to page 1. */
    method SelectCategory(category: string)
      modifies this
      ensures Valid()
      ensures searchTerm == old(searchTerm) && selectedCategory == Some(category) && currentPage == 1
    {
      selectedCategory := Some(category);
      currentPage := 1;
    }

    /** "Clear filters": no term and no category, but the page number stays. */
    method ClearFilters()
      requires Valid()
      modifies this
      ensures Valid()
      ensures searchTerm == "" && selectedCategory == None && currentPage == old(currentPage)
    {
      ghost var before := |Filtered()|;
      searchTerm := "";
      selectedCategory := None;
      NoFilterKeepsAll(articles);
      PageCountMonotone(before, |articles|);
    }

    /** `handlePageChange(pageNumber)` (the scroll to the top is not modelled). */
    method HandlePageChange(pageNumber: int)
      modifies this
      ensures searchTerm == old(searchTerm) && selectedCategory == old(selectedCategory)
      ensures currentPage == pageNumber
    {
      currentPage := pageNumber;
    }

    /** The link to page `index + 1`, one of the `totalPages` links of the pagination bar. */
    method GoToPage(index: nat)
      requires Valid() && ShowsPagination() && index < TotalPages()
      modifies this
      ensures Valid()
      ensures currentPage == index + 1 && searchTerm == old(searchTerm) && selectedCategory == old(selectedCategory)
    {
      HandlePageChange(index + 1);
    }

    /** "Previous", shown only past page 1. */
    method GoPrevious()
      requires Valid() && ShowsPrevious()
      modifies this
      ensures Valid()
      ensures currentPage == old(currentPage) - 1 && searchTerm == old(searchTerm) && selectedCategory == old(selectedCategory)
    {
      HandlePageChange(currentPage - 1);
    }

    /** "Next", shown only before the last page. */
    method GoNext()
      requires Valid() && ShowsNext()
      modifies this
      ensures Valid()
      ensures currentPage == old(currentPage) + 1 && searchTerm == old(searchTerm) && selectedCategory == old(selectedCategory)
    {
      HandlePageChange(currentPage + 1);
    }
  }

  /** On a valid page "No articles found" appears exactly when nothing matches the filters. */
  lemma EmptyPageMeansNoMatches(view: ArticlesView)
    requires view.Valid()
    ensures !view.ShowsItems() <==> view.Filtered() == []
  {
    var f := view.Filtered();
    PageContents(f, view.currentPage);
  }

  /** The pagination bar is drawn only when the filtered list is longer than one page. */
  lemma PaginationNeedsSeveralPages(view: ArticlesView)
    ensures view.ShowsPagination() ==> |view.Filtered()| > ItemsPerPage
  {
  }
}
