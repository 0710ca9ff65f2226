/**
 * The article page: the related-articles strip, the rendering of the article body with
 * line breaks turned into `<br/>`, and the like and bookmark toggles with their toasts.
 * Sharing, the clipboard, scrolling and the not-found redirect are not modelled.
 */
module ArticlePage {
  import opened Wrappers
  import opened JsArray
  import opened Api

  // ---------------------------------------------------------------------------------
  // Related articles
  // ---------------------------------------------------------------------------------

  /** The query behind the strip: `getArticles({ limit: 3 })`. */
  const RelatedQuery := ArticleQuery(None, Some(3))

  /** `a => a.id !== currentId`. */
  function OtherThan(currentId: string): Article -> bool
  {
    (a: Article) => a.id != currentId
  }

  /** `relatedArticles.filter(a => a.id !== article.id).slice(0, 3)`. */
  function Related(fetched: seq<Article>, currentId: string): (r: seq<Article>)
    ensures |r| <= 3
    ensures forall i :: 0 <= i < |r| ==> r[i].id != currentId && r[i] in fetched
    ensures IsSubsequence(r, fetched)
    ensures |Filter(fetched, OtherThan(currentId))| <= 3 ==>
              forall i :: 0 <= i < |fetched| && fetched[i].id != currentId ==> fetched[i] in r
  {
    var others := Filter(fetched, OtherThan(currentId));
    SliceFromZero(others, 3);
    FilterIsSubsequence(fetched, OtherThan(currentId));
    PrefixIsSubsequence(others[..ResolveIndex(3, |others|)], others);
    SubsequenceTransitive(others[..ResolveIndex(3, |others|)], others, fetched);
    Slice(others, 0, 3)
  }

  /** Dropping an element that is there makes the filtered list shorter. */
  lemma {:induction false} FilterDrops<T>(s: seq<T>, keep: T -> bool, k: nat)
    requires k < |s| && !keep(s[k])
    ensures |Filter(s, keep)| < |s|
  {
    if k > 0 {
      FilterDrops(s[1..], keep, k - 1);
    }
  }

  /**
   * The strip shows articles from the three newest only, so when the open article is one
   * of those three at most two related articles appear.
   */
  lemma CurrentAmongFetched(fetched: seq<Article>, k: nat)
    requires |fetched| <= 3 && k < |fetched|
    ensures |Related(fetched, fetched[k].id)| <= 2
  {
    FilterDrops(fetched, OtherThan(fetched[k].id), k);
    SliceFromZero(Filter(fetched, OtherThan(fetched[k].id)), 3);
  }

  lemma ListThree(a: Article, b: Article, c: Article, d: Article)
    requires SeedShaped(a, b, c, d)
    ensures Select([a, b, c, d], RelatedQuery) == [d, c, b]
  {
    ListAll(a, b, c, d);
    SelectLimit([a, b, c, d], None, 3);
  }

  /** The strip for a list of three: each of them unless it is the open article. */
  lemma RelatedOfThree(x: Article, y: Article, z: Article, currentId: string)
    ensures Related([x, y, z], currentId) ==
            (if x.id != currentId then [x] else []) + (if y.id != currentId then [y] else []) +
            (if z.id != currentId then [z] else [])
  {
    var keep := OtherThan(currentId);
    var others := Filter([x, y, z], keep);
    assert others == Filter([x], keep) + Filter([y], keep) + Filter([z], keep) by {
      assert [x, y, z] == [x] + [y] + [z];
      FilterAppend([x] + [y], [z], keep);
      FilterAppend([x], [y], keep);
    }
    FilterSingleton(x, keep);
    FilterSingleton(y, keep);
    FilterSingleton(z, keep);
    SliceFromZero(others, 3);
    assert others[..ResolveIndex(3, |others|)] == others;
  }

  /** For the newest article the strip holds the next two. */
  lemma RelatedOfNewest(a: Article, b: Article, c: Article, d: Article)
    requires SeedShaped(a, b, c, d)
    requires b.id != d.id && c.id != d.id
    ensures Related(Select([a, b, c, d], RelatedQuery), d.id) == [c, b]
  {
    ListThree(a, b, c, d);
    RelatedOfThree(d, c, b, d.id);
  }

  /** The same strip by identifiers. */
  lemma RelatedIdsOfNewest(a: Article, b: Article, c: Article, d: Article)
    requires SeedShaped(a, b, c, d)
    requires b.id != d.id && c.id != d.id
    ensures Ids(Related(Select([a, b, c, d], RelatedQuery), d.id)) == [c.id, b.id]
  {
    RelatedOfNewest(a, b, c, d);
  }

  /** For an article outside the three newest the strip holds all three. */
  lemma RelatedOfOldest(a: Article, b: Article, c: Article, d: Article)
    requires SeedShaped(a, b, c, d)
    requires a.id != b.id && a.id != c.id && a.id != d.id
    ensures Related(Select([a, b, c, d], RelatedQuery), a.id) == [d, c, b]
  {
    ListThree(a, b, c, d);
    RelatedOfThree(d, c, b, a.id);
  }

  /** The same strip by identifiers. */
  lemma RelatedIdsOfOldest(a: Article, b: Article, c: Article, d: Article)
    requires SeedShaped(a, b, c, d)
    requires a.id != b.id && a.id != c.id && a.id != d.id
    ensures Ids(Related(Select([a, b, c, d], RelatedQuery), a.id)) == [d.id, c.id, b.id]
  {
    RelatedOfOldest(a, b, c, d);
  }

  /** On the page of article 4 the strip shows articles 3 and 2. */
  lemma SeedRelatedToNewest()
    ensures Ids(Related(Select(MockArticles, RelatedQuery), "4")) == ["3", "2"]
  {
    SeedIsSeedShaped();
    RelatedIdsOfNewest(FutureOfAi, WebTrends, RemoteSecurity, QuantumCrypto);
  }

  /** On the page of article 1 the strip shows articles 4, 3 and 2. */
  lemma SeedRelatedToOldest()
    ensures Ids(Related(Select(MockArticles, RelatedQuery), "1")) == ["4", "3", "2"]
  {
    SeedIsSeedShaped();
    RelatedIdsOfOldest(FutureOfAi, WebTrends, RemoteSecurity, QuantumCrypto);
  }

  // ---------------------------------------------------------------------------------
  // The article body
  // ---------------------------------------------------------------------------------

  function NewlineCount(s: string): nat
  {
    if s == [] then 0 else (if s[0] == '\n' then 1 else 0) + NewlineCount(s[1..])
  }

  /** `content.replace(/\n/g, '<br/>')`. */
  function RenderContent(s: string): (r: string)
    ensures '\n' !in r
    ensures |r| == |s| + 4 * NewlineCount(s)
  {
    if s == [] then ""
    else (if s[0] == '\n' then "<br/>" else [s[0]]) + RenderContent(s[1..])
  }

  /** The rewrite works piece by piece: rendering a concatenation concatenates the renderings. */
  lemma {:induction false} RenderAppend(a: string, b: string)
    ensures RenderContent(a + b) == RenderContent(a) + RenderContent(b)
  {
    if a != [] {
      var head := if a[0] == '\n' then "<br/>" else [a[0]];
      assert (a + b)[0] == a[0];
      assert (a + b)[1..] == a[1..] + b;
      RenderAppend(a[1..], b);
      calc {
        RenderContent(a + b);
        head + RenderContent(a[1..] + b);
        head + (RenderContent(a[1..]) + RenderContent(b));
        (head + RenderContent(a[1..])) + RenderContent(b);
      }
    } else {
      assert a + b == b;
    }
  }

  /** Text without line breaks is shown as it is. */
  lemma {:induction false} RenderWithoutNewlines(s: string)
    requires '\n' !in s
    ensures RenderContent(s) == s
  {
    if s != [] {
      assert '\n' !in s[1..];
      RenderWithoutNewlines(s[1..]);
    }
  }

  /** Every line break becomes exactly the markup `<br/>` between the unchanged lines. */
  lemma RenderLines(first: string, rest: string)
    requires '\n' !in first
    ensures RenderContent(first + "\n" + rest) == first + "<br/>" + RenderContent(rest)
  {
    RenderAppend(first + "\n", rest);
    RenderAppend(first, "\n");
    RenderWithoutNewlines(first);
  }

  // ---------------------------------------------------------------------------------
  // Like and bookmark
  // ---------------------------------------------------------------------------------

  class Reactions {
    var hasLiked: bool
    var isBookmarked: bool

    constructor()
      ensures !hasLiked && !isBookmarked
    {
      hasLiked := false;
      isBookmarked := false;
    }

    /** `handleLike`: flips the flag; the toast is chosen by the value before the flip. */
    method HandleLike() returns (toastTitle: string)
      modifies this
      ensures hasLiked == !old(hasLiked) && isBookmarked == old(isBookmarked)
      ensures toastTitle == if old(hasLiked) then "Removed like" else "Article liked"
    {
      toastTitle := if hasLiked then "Removed like" else "Article liked";
      hasLiked := !hasLiked;
    }

    /** `handleBookmark`: flips the flag; the toast is chosen by the value before the flip. */
    method HandleBookmark() returns (toastTitle: string)
      modifies this
      ensures isBookmarked == !old(isBookmarked) && hasLiked == old(hasLiked)
      ensures toastTitle == if old(isBookmarked) then "Removed from bookmarks" else "Article bookmarked"
    {
      toastTitle := if isBookmarked then "Removed from bookmarks" else "Article bookmarked";
      isBookmarked := !isBookmarked;
    }
  }

  /** Pressing like twice puts the flag back and the two toasts alternate. */
  method LikeTwice(reactions: Reactions) returns (first: string, second: string)
    modifies reactions
    ensures reactions.hasLiked == old(reactions.hasLiked) && reactions.isBookmarked == old(reactions.isBookmarked)
    ensures first != second
  {
    first := reactions.HandleLike();
    second := reactions.HandleLike();
  }

  /** Pressing bookmark twice puts the flag back and the two toasts alternate. */
  method BookmarkTwice(reactions: Reactions) returns (first: string, second: string)
    modifies reactions
    ensures reactions.isBookmarked == old(reactions.isBookmarked) && reactions.hasLiked == old(reactions.hasLiked)
    ensures first != second
  {
    first := reactions.HandleBookmark();
    second := reactions.HandleBookmark();
  }

  /** On a freshly opened page the first like thanks the reader, the second removes it. */
  method FirstLikes() returns (first: string, second: string, third: string)
    ensures first == "Article liked" && second == "Removed like" && third == "Article liked"
  {
    var reactions := new Reactions();
    first := reactions.HandleLike();
    second := reactions.HandleLike();
    third := reactions.HandleLike();
  }
}
