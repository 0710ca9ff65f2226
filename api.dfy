/**
 * The mock article and comment store of the blog: the seed articles and comments and the
 * three queries the pages use (`getArticles`, `getArticleBySlug`, `getCommentsByArticleId`).
 * Every query is one atomic step; the simulated network delay is not modelled.
 */
module Api {
  import opened Wrappers
  import opened JsArray

  /**
   * `new Date(year, monthIndex, day)` (the month counts from 0, as in JavaScript). The
   * source stores dates as ISO strings and compares them through `getTime()`; for valid
   * calendar dates `Key` orders them the same way.
   */
  datatype CalendarDate = CalendarDate(year: int, monthIndex: int, day: int)
  {
    predicate Valid()
    {
      0 <= monthIndex < 12 && 1 <= day <= 31
    }

    function Key(): int
    {
      (year * 12 + monthIndex) * 32 + day
    }
  }

  /** `Key` orders valid dates by year, then month, then day. */
  lemma KeyOrdersDates(a: CalendarDate, b: CalendarDate)
    requires a.Valid() && b.Valid()
    ensures a.Key() < b.Key() <==>
      || a.year < b.year
      || (a.year == b.year && a.monthIndex < b.monthIndex)
      || (a.year == b.year && a.monthIndex == b.monthIndex && a.day < b.day)
  {
    if a.year < b.year {
      assert a.year * 12 + a.monthIndex < b.year * 12 + b.monthIndex;
    } else if a.year > b.year {
      assert a.year * 12 + a.monthIndex > b.year * 12 + b.monthIndex;
    }
  }

  datatype Article = Article(
    id: string,
    title: string,
    slug: string,
    excerpt: string,
    content: string,
    coverImage: string,
    authorId: string,
    authorName: string,
    authorAvatar: Option<string>,
    createdAt: CalendarDate,
    updatedAt: CalendarDate,
    category: string,
    tags: seq<string>,
    readTime: nat,
    featured: bool,
    views: nat)

  datatype Comment = Comment(
    id: string,
    content: string,
    articleId: string,
    authorId: string,
    authorName: string,
    authorAvatar: Option<string>,
    createdAt: CalendarDate,
    parentId: Option<string>)

  // ---------------------------------------------------------------------------------
  // Seed data. The markdown bodies are shortened to their heading and first paragraph.
  // ---------------------------------------------------------------------------------

  const JohnAvatar := "https://i.pravatar.cc/150?u=john"
  const JaneAvatar := "https://i.pravatar.cc/150?u=jane"

  const FutureOfAi := Article(
    "1",
    "The Future of Artificial " + "Intelligence: Exploring New Frontiers",
    "future-of-artificial-intelligence",
    "Discover how AI is transforming industries " +
    "and what the future holds for this " +
    "revolutionary technology.",
    "\n# The Future of Artificial " +
    "Intelligence\n\nArtificial Intelligence (AI) " +
    "has rapidly evolved from a theoretical " +
    "concept to a transformative force across " +
    "various industries. In this article, we " +
    "explore the current state of AI technology " +
    "and glimpse into its promising future.\n",
    "https://images.unsplash.com/photo-1620712943543-bcc4688e7485?" +
    "ixlib=rb-4.0.3&auto=format&fit=crop&w=1600&q=80",
    "1", "John Doe", Some(JohnAvatar),
    CalendarDate(2023, 10, 15), CalendarDate(2023, 10, 15),
    "Artificial Intelligence", ["AI", "Machine Learning", "Technology", "Future"], 8, true, 1240)

  const WebTrends := Article(
    "2",
    "Web Development Trends in 2023: What " + "You Need to Know",
    "web-development-trends-2023",
    "Stay ahead of the curve with these emerging " +
    "web development technologies and " +
    "methodologies.",
    "\n# Web Development Trends in 2023\n\nThe " +
    "web development landscape continues to " +
    "evolve at a rapid pace. Here are the key " +
    "trends shaping the industry in 2023.\n",
    "https://images.unsplash.com/photo-1607798748738-b15c40d33d57?" +
    "ixlib=rb-4.0.3&auto=format&fit=crop&w=1600&q=80",
    "2", "Jane Smith", Some(JaneAvatar),
    CalendarDate(2023, 11, 2), CalendarDate(2023, 11, 2),
    "Web Development", ["JavaScript", "React", "Web Development", "Frontend"], 6, false, 830)

  const RemoteSecurity := Article(
    "3", "Cybersecurity Best Practices for Remote Work",
    "cybersecurity-best-practices-remote-work",
    "Protect your data and systems with these " +
    "essential cybersecurity measures for remote " +
    "teams.",
    "\n# Cybersecurity Best Practices for Remote " +
    "Work\n\nAs remote work becomes increasingly " +
    "common, cybersecurity has never been more " +
    "important. This article outlines essential " +
    "practices to keep your data safe.\n",
    "https://images.unsplash.com/photo-1563986768609-322da13575f3?" +
    "ixlib=rb-4.0.3&auto=format&fit=crop&w=1600&q=80",
    "1", "John Doe", Some(JohnAvatar),
    CalendarDate(2023, 11, 10), CalendarDate(2023, 11, 10),
    "Cybersecurity", ["Security", "Remote Work", "VPN", "Data Protection"], 5, false, 615)

  const QuantumCrypto := Article(
    "4",
    "The Rise of Quantum Computing: " + "Implications for Cryptography",
    "quantum-computing-implications-cryptography",
    "How quantum computers will transform " +
    "cybersecurity and what organizations can do " +
    "to prepare.",
    "\n# The Rise of Quantum Computing: " +
    "Implications for Cryptography\n\nQuantum " +
    "computing represents a paradigm shift in " +
    "computational power, with profound " +
    "implications for cybersecurity and " +
    "cryptography.\n",
    "https://images.unsplash.com/photo-1635070041078-e363dbe005cb?" +
    "ixlib=rb-4.0.3&auto=format&fit=crop&w=1600&q=80",
    "2", "Jane Smith", Some(JaneAvatar),
    CalendarDate(2023, 11, 20), CalendarDate(2023, 11, 20),
    "Quantum Computing", ["Quantum", "Cryptography", "Security", "Computing"], 7, true, 925)

  const MockArticles: seq<Article> := [FutureOfAi, WebTrends, RemoteSecurity, QuantumCrypto]

  const MockComments: seq<Comment> := [
    Comment("1", "Great article! I especially appreciated the insights on AI in healthcare.",
      "1", "2", "Jane Smith", Some(JaneAvatar), CalendarDate(2023, 10, 16), None),
    Comment("2", "I agree with Jane. The healthcare applications are particularly exciting.",
      "1", "3", "Robert Johnson", Some("https://i.pravatar.cc/150?u=robert"), CalendarDate(2023, 10, 17), None),
    Comment("3", "Have you considered the ethical implications of AI in autonomous vehicles?",
      "1", "4", "Emily Chen", Some("https://i.pravatar.cc/150?u=emily"), CalendarDate(2023, 10, 18), None)
  ]

  function Ids(articles: seq<Article>): (ids: seq<string>)
    ensures |ids| == |articles|
    ensures forall i :: 0 <= i < |articles| ==> ids[i] == articles[i].id
  {
    seq(|articles|, i requires 0 <= i < |articles| => articles[i].id)
  }

  // ---------------------------------------------------------------------------------
  // getArticles
  // ---------------------------------------------------------------------------------

  /** The optional parameters of `getArticles`; `None` is an absent property. */
  datatype ArticleQuery = ArticleQuery(featured: Option<bool>, limit: Option<int>)

  const AllArticles := ArticleQuery(None, None)

  /** The comparator `(a, b) => time(b) - time(a)`: negative when `a` is newer. */
  function NewestFirst(a: Article, b: Article): int
  {
    b.createdAt.Key() - a.createdAt.Key()
  }

  lemma NewestFirstIsComparator()
    ensures IsComparator(NewestFirst)
  {
  }

  predicate MatchesFeatured(q: ArticleQuery, a: Article)
  {
    q.featured.None? || a.featured == q.featured.value
  }

  /** The filter `article => article.featured === wanted`. */
  function FeaturedIs(wanted: bool): Article -> bool
  {
    (a: Article) => a.featured == wanted
  }

  /** `limit` is truthy: present and not zero. */
  predicate HasLimit(q: ArticleQuery)
  {
    q.limit.Some? && q.limit.value != 0
  }

  /** The articles `getArticles(q)` resolves to when the store holds `articles`. */
  function Select(articles: seq<Article>, q: ArticleQuery): seq<Article>
  {
    var sorted := SortBy(Selected(articles, q), NewestFirst);
    if HasLimit(q) then Slice(sorted, 0, q.limit.value) else sorted
  }

  /** `getArticles(q)`: copies the seed list, filters it, sorts the copy in place, then cuts it. */
  method GetArticles(q: ArticleQuery) returns (r: seq<Article>)
    ensures r == Select(MockArticles, q)
  {
    var articles := MockArticles;
    if q.featured.Some? {
      var wanted := q.featured.value;
      articles := Filter(articles, FeaturedIs(wanted));
    }
    var copy := new Article[|articles|](i requires 0 <= i < |articles| => articles[i]);
    assert copy[..] == articles;
    Sort(copy, NewestFirst);
    r := copy[..];
    if HasLimit(q) {
      r := Slice(r, 0, q.limit.value);
    }
  }

  /** The filtered list before it is sorted. */
  function Selected(articles: seq<Article>, q: ArticleQuery): seq<Article>
  {
    if q.featured.Some? then Filter(articles, FeaturedIs(q.featured.value)) else articles
  }

  /** The result is the sorted filtered list, cut by a truthy `limit` as `slice(0, limit)` cuts. */
  lemma SelectShape(articles: seq<Article>, q: ArticleQuery)
    ensures var sorted := SortBy(Selected(articles, q), NewestFirst);
            Select(articles, q) == if HasLimit(q) then sorted[..ResolveIndex(q.limit.value, |sorted|)] else sorted
  {
    if HasLimit(q) {
      SliceFromZero(SortBy(Selected(articles, q), NewestFirst), q.limit.value);
    }
  }

  /** The result is ordered newest first. */
  lemma SelectNewestFirst(articles: seq<Article>, q: ArticleQuery)
    ensures var r := Select(articles, q);
            forall i, j :: 0 <= i < j < |r| ==> r[j].createdAt.Key() <= r[i].createdAt.Key()
  {
    var sorted := SortBy(Selected(articles, q), NewestFirst);
    NewestFirstIsComparator();
    SortBySorted(Selected(articles, q), NewestFirst);
    SelectShape(articles, q);
    var r := Select(articles, q);
    forall i, j | 0 <= i < j < |r| ensures r[j].createdAt.Key() <= r[i].createdAt.Key() {
      assert r[i] == sorted[i] && r[j] == sorted[j];
      assert NewestFirst(sorted[i], sorted[j]) <= 0;
    }
  }

  /** Without a truthy `limit`, the result is a rearrangement of exactly the matching articles. */
  lemma SelectPermutes(articles: seq<Article>, q: ArticleQuery)
    requires !HasLimit(q)
    ensures multiset(Select(articles, q)) == multiset(Selected(articles, q))
  {
    SortByPermutes(Selected(articles, q), NewestFirst);
  }

  /** Every result is a stored article matching `featured`; without a cut, every match is a result. */
  lemma SelectMembers(articles: seq<Article>, q: ArticleQuery)
    ensures forall i :: 0 <= i < |Select(articles, q)| ==>
              Select(articles, q)[i] in articles && MatchesFeatured(q, Select(articles, q)[i])
    ensures !HasLimit(q) ==> forall a :: a in articles && MatchesFeatured(q, a) ==> a in Select(articles, q)
  {
    var selected := Selected(articles, q);
    var sorted := SortBy(selected, NewestFirst);
    SortByPermutes(selected, NewestFirst);
    SelectShape(articles, q);
    var r := Select(articles, q);
    forall i | 0 <= i < |r| ensures r[i] in articles && MatchesFeatured(q, r[i]) {
      assert r[i] == sorted[i];
      assert r[i] in multiset(sorted);
    }
    if !HasLimit(q) {
      forall a | a in articles && MatchesFeatured(q, a) ensures a in r {
        var k :| 0 <= k < |articles| && articles[k] == a;
        assert a in multiset(selected);
      }
    }
  }

  /** A truthy `limit` keeps the first `limit` articles of the uncut result (all but the last `-limit` when negative). */
  lemma SelectLimit(articles: seq<Article>, featured: Option<bool>, limit: int)
    requires limit != 0
    ensures var full := Select(articles, ArticleQuery(featured, None));
            Select(articles, ArticleQuery(featured, Some(limit))) == full[..ResolveIndex(limit, |full|)]
  {
    SelectShape(articles, ArticleQuery(featured, Some(limit)));
  }

  /** Articles with the same date keep their store order. */
  lemma SelectKeepsTiesInOrder(articles: seq<Article>, q: ArticleQuery, z: Article)
    requires !HasLimit(q)
    ensures Filter(Select(articles, q), TiedWith(NewestFirst, z)) == Filter(Selected(articles, q), TiedWith(NewestFirst, z))
  {
    NewestFirstIsComparator();
    SortByStable(Selected(articles, q), NewestFirst, z);
  }

  /** A list stored oldest first is listed in reverse. */
  lemma SortsInReverse(s: seq<Article>)
    requires forall i, j :: 0 <= i < j < |s| ==> s[i].createdAt.Key() < s[j].createdAt.Key()
    ensures SortBy(s, NewestFirst) == Reverse(s)
  {
    forall i, j | 0 <= i < j < |s| ensures NewestFirst(s[i], s[j]) > 0 {
    }
    SortByReversed(s, NewestFirst);
  }

  /** Four articles stored oldest first, the first and last of them featured, as in the seed list. */
  predicate SeedShaped(a: Article, b: Article, c: Article, d: Article)
  {
    && a.createdAt.Key() < b.createdAt.Key() < c.createdAt.Key() < d.createdAt.Key()
    && a.featured && !b.featured && !c.featured && d.featured
  }

  lemma ListAll(a: Article, b: Article, c: Article, d: Article)
    requires SeedShaped(a, b, c, d)
    ensures Select([a, b, c, d], AllArticles) == [d, c, b, a]
  {
    SortsInReverse([a, b, c, d]);
  }

  lemma ListFeatured(a: Article, b: Article, c: Article, d: Article)
    requires SeedShaped(a, b, c, d)
    ensures Select([a, b, c, d], ArticleQuery(Some(true), None)) == [d, a]
  {
    var q := ArticleQuery(Some(true), None);
    assert Filter([a, b, c, d], FeaturedIs(true)) == [a, d] by {
      FilterFour(a, b, c, d, FeaturedIs(true));
      assert [a] + [d] == [a, d];
    }
    assert Selected([a, b, c, d], q) == [a, d];
    assert SortBy([a, d], NewestFirst) == Reverse([a, d]) by {
      SortsInReverse([a, d]);
    }
    assert Reverse([a, d]) == [d, a];
  }

  lemma ListUnfeatured(a: Article, b: Article, c: Article, d: Article)
    requires SeedShaped(a, b, c, d)
    ensures Select([a, b, c, d], ArticleQuery(Some(false), None)) == [c, b]
  {
    var q := ArticleQuery(Some(false), None);
    assert Filter([a, b, c, d], FeaturedIs(false)) == [b, c] by {
      FilterFour(a, b, c, d, FeaturedIs(false));
      assert [b] + [c] == [b, c];
    }
    assert Selected([a, b, c, d], q) == [b, c];
    assert SortBy([b, c], NewestFirst) == Reverse([b, c]) by {
      SortsInReverse([b, c]);
    }
    assert Reverse([b, c]) == [c, b];
  }

  lemma ListTwo(a: Article, b: Article, c: Article, d: Article)
    requires SeedShaped(a, b, c, d)
    ensures Select([a, b, c, d], ArticleQuery(None, Some(2))) == [d, c]
  {
    ListAll(a, b, c, d);
    SelectLimit([a, b, c, d], None, 2);
  }

  lemma SeedIsSeedShaped()
    ensures SeedShaped(FutureOfAi, WebTrends, RemoteSecurity, QuantumCrypto)
  {
  }

  /** `getArticles()` lists the seed articles 4, 3, 2, 1. */
  lemma AllArticlesNewestFirst()
    ensures Ids(Select(MockArticles, AllArticles)) == ["4", "3", "2", "1"]
  {
    SeedIsSeedShaped();
    ListAll(FutureOfAi, WebTrends, RemoteSecurity, QuantumCrypto);
  }

  /** `getArticles({featured: true})` lists 4, 1. */
  lemma FeaturedArticles()
    ensures Ids(Select(MockArticles, ArticleQuery(Some(true), None))) == ["4", "1"]
  {
    SeedIsSeedShaped();
    ListFeatured(FutureOfAi, WebTrends, RemoteSecurity, QuantumCrypto);
  }

  /** `getArticles({featured: false})` lists 3, 2. */
  lemma UnfeaturedArticles()
    ensures Ids(Select(MockArticles, ArticleQuery(Some(false), None))) == ["3", "2"]
  {
    SeedIsSeedShaped();
    ListUnfeatured(FutureOfAi, WebTrends, RemoteSecurity, QuantumCrypto);
  }

  /** `getArticles({limit: 2})` lists 4, 3. */
  lemma TwoNewestArticles()
    ensures Ids(Select(MockArticles, ArticleQuery(None, Some(2)))) == ["4", "3"]
  {
    SeedIsSeedShaped();
    ListTwo(FutureOfAi, WebTrends, RemoteSecurity, QuantumCrypto);
  }

  // ---------------------------------------------------------------------------------
  // getArticleBySlug and getCommentsByArticleId
  // ---------------------------------------------------------------------------------

  /** `getArticleBySlug(slug)`: the first seed article with exactly that slug, or null. */
  function GetArticleBySlug(slug: string): (r: Option<Article>)
    ensures r.None? <==> forall i :: 0 <= i < |MockArticles| ==> MockArticles[i].slug != slug
    ensures r.Some? ==> exists i :: 0 <= i < |MockArticles| && MockArticles[i] == r.value && r.value.slug == slug
                                    && forall j :: 0 <= j < i ==> MockArticles[j].slug != slug
  {
    Find(MockArticles, (a: Article) => a.slug == slug)
  }

  /** No two seed articles share a slug. */
  lemma SeedSlugsDistinct()
    ensures forall i, j :: 0 <= i < j < |MockArticles| ==> MockArticles[i].slug != MockArticles[j].slug
  {
    assert |FutureOfAi.slug| == 33 && |WebTrends.slug| == 27;
    assert |RemoteSecurity.slug| == 40 && |QuantumCrypto.slug| == 43;
  }

  /** Every seed slug leads back to its own article. */
  lemma SeedSlugsResolve(k: nat)
    requires k < |MockArticles|
    ensures GetArticleBySlug(MockArticles[k].slug) == Some(MockArticles[k])
  {
    SeedSlugsDistinct();
  }

  /** The filter `comment => comment.articleId === articleId`. */
  function OnArticle(articleId: string): Comment -> bool
  {
    (c: Comment) => c.articleId == articleId
  }

  /** `getCommentsByArticleId(articleId)`: the comments on that article, in store order. */
  function GetCommentsByArticleId(articleId: string): (r: seq<Comment>)
    ensures forall i :: 0 <= i < |r| ==> r[i] in MockComments && r[i].articleId == articleId
    ensures forall i :: 0 <= i < |MockComments| && MockComments[i].articleId == articleId ==> MockComments[i] in r
    ensures IsSubsequence(r, MockComments)
  {
    FilterIsSubsequence(MockComments, OnArticle(articleId));
    Filter(MockComments, OnArticle(articleId))
  }

  /** All three seed comments are on article '1'; any other id has none. */
  lemma SeedComments(articleId: string)
    ensures GetCommentsByArticleId("1") == MockComments
    ensures articleId != "1" ==> GetCommentsByArticleId(articleId) == []
  {
    assert forall i :: 0 <= i < |MockComments| ==> MockComments[i].articleId == "1";
    FilterAll(MockComments, OnArticle("1"));
    if articleId != "1" {
      FilterNone(MockComments, OnArticle(articleId));
    }
  }
}
