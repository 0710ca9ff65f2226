# Tech Tales Journal: a verified model of the blog's core

Tech Tales Journal is a React blog front-end backed by an in-memory mock store. This
project models its core in Dafny and proves what each part promises:

- the store's three queries and its seed data (`Api`);
- the mock authentication provider with its `localStorage` session (`Auth`);
- the article list with its search, category filter and pagination (`ArticlesPage`);
- the per-category article counts, with the key order `Object.values` follows (`CategoriesPage`);
- the article editor: its length rules, tag parsing, the create/update choice, loading
  an article and importing markdown (`ArticleEditor`);
- the markdown file importer and its title-extraction pattern (`MarkdownUploader`);
- the article page: the related-articles strip, the line-break rendering and the
  like and bookmark toggles (`ArticlePage`).

Three helper modules stand for the JavaScript built-ins the core relies on. Each is
proved against its own specification:

- `Wrappers`: option and outcome types.
- `JsArray`: `slice` with negative indices, `filter`, `find`, `findIndex`, `some`,
  `indexOf`, `Array.from(new Set(...))` and the stable `sort`. `sort` is an in-place
  insertion sort on an array, proved equal to a functional stable sort that is itself
  proved sorted, a permutation and stable.
- `JsString`: the ECMAScript white-space and line-terminator sets, `trim`, `split` on one
  character, `join`, `toLowerCase`, `includes`, `endsWith`, `String(n)` and
  `encodeURIComponent`.

State that the source changes in place is modelled as classes, each with `modifies`
clauses on its methods:

| class | fields |
|---|---|
| `Auth.AuthProvider` | `user`, `isLoading`, the storage map |
| `ArticlesPage.ArticlesView` | the search term, the selected category, the current page |
| `ArticleEditor.Editor` | `isLoading`, `isEditing`, `articleId`, the form values |
| `MarkdownUploader.Uploader` | `isLoading`, the file input's value, the callback calls made so far |
| `ArticlePage.Reactions` | `hasLiked`, `isBookmarked` |

Two computations that loop in the source are methods with loop invariants. `getArticles`
sorts an array in place. The category count is a loop that updates a dictionary.
Everything else is a function or a lemma.

Dates are modelled as `CalendarDate(year, monthIndex, day)`, as the seed data builds
them with `new Date(y, m, d)`. The sort compares them through a key that orders valid
dates as `getTime()` does (`Api.KeyOrdersDates`). Strings are sequences of code points.

Where the source's behaviour depends on something outside it, the model takes it as a
parameter:

- `localeCompare` is passed in as a function. The "sorted by name" property holds
  whenever that function is a consistent comparator.
- What `localStorage` holds is given as already parsed: a user, the empty string, or
  unparseable text.
- What `FileReader` delivers is given as text or a read error.

The category counting in the source does not do what it evidently means to do (see
"## Findings"). The model keeps both the code as written and the corrected version, and
the corrected one is what the rest of the model uses.

## Model

| member | source | states |
|---|---|---|
| Api.KeyOrdersDates | src/utils/api.ts:282 | for valid calendar dates the sort key orders by year, then month, then day, as comparing `getTime()` does |
| Api.NewestFirstIsComparator | src/utils/api.ts:282 | the comparator `time(b) - time(a)` is a total preorder, so the sort is well defined |
| Api.GetArticles | src/utils/api.ts:270-290 | copying the seed list, filtering it, sorting the copy in place and cutting it yields exactly the query's specified result `Select(MockArticles, q)` |
| Api.SelectShape | src/utils/api.ts:285-287 | the result is the sorted, filtered list, cut to its first `limit` elements (as `slice(0, limit)` resolves it) only when `limit` is truthy |
| Api.SelectNewestFirst | src/utils/api.ts:282 | every result is ordered newest first |
| Api.SelectPermutes | src/utils/api.ts:274-282 | without a truthy `limit` the result is a permutation of exactly the articles matching `featured` |
| Api.SelectMembers | src/utils/api.ts:277-279 | every result is a stored article with the requested `featured` value; without a cut every such article is in the result |
| Api.SelectLimit | src/utils/api.ts:285-287 | a non-zero `limit` keeps the prefix of the uncut result of length `min(limit, n)`, or all but the last `-limit` when negative |
| Api.SelectKeepsTiesInOrder | src/utils/api.ts:282 | articles with the same date keep their store order (the sort is stable) |
| Api.SortsInReverse | src/utils/api.ts:282 | a list stored strictly oldest first sorts into its reverse |
| Api.ListAll | src/utils/api.ts:274-289 | any four articles stored oldest first are listed newest first |
| Api.ListFeatured | src/utils/api.ts:277-282 | for four articles shaped like the seed list, `featured: true` lists the fourth, then the first |
| Api.ListUnfeatured | src/utils/api.ts:277-282 | for four articles shaped like the seed list, `featured: false` lists the third, then the second |
| Api.ListTwo | src/utils/api.ts:285-287 | for four articles shaped like the seed list, `limit: 2` lists the two newest |
| Api.SeedIsSeedShaped | src/utils/api.ts:36-236 | the seed articles are stored oldest first, and exactly the first and last are featured |
| Api.AllArticlesNewestFirst | src/utils/api.ts:270-290 | `getArticles()` lists the seed ids 4, 3, 2, 1 |
| Api.FeaturedArticles | src/utils/api.ts:277-282 | `getArticles({featured: true})` lists 4, 1 |
| Api.UnfeaturedArticles | src/utils/api.ts:277-282 | `getArticles({featured: false})` lists 3, 2 |
| Api.TwoNewestArticles | src/utils/api.ts:285-287 | `getArticles({limit: 2})` lists 4, 3 |
| Api.GetArticleBySlug | src/utils/api.ts:292-298 | null exactly when no seed article has the slug; otherwise the first seed article whose slug equals it exactly |
| Api.SeedSlugsDistinct | src/utils/api.ts:36-236 | no two seed articles share a slug |
| Api.SeedSlugsResolve | src/utils/api.ts:296-297 | each seed slug leads back to its own article |
| Api.GetCommentsByArticleId | src/utils/api.ts:300-305 | the comments on the article and no others, as a subsequence of the store, so in store order |
| Api.SeedComments | src/utils/api.ts:239-267 | id `'1'` gets all three seed comments; every other id gets none |
| Api.Ids | src/utils/api.ts:6 | the id column of a list of articles, position by position |
| Auth.WithoutPassword | src/context/AuthContext.tsx:79 | the user carries every account field except the password |
| Auth.FindAccount | src/context/AuthContext.tsx:76 | no account exactly when no entry has both that e-mail and that password; otherwise the first entry that has both |
| Auth.IsEmailTaken | src/context/AuthContext.tsx:98 | true exactly when some entry has that e-mail |
| Auth.NewUser | src/context/AuthContext.tsx:105-111 | id `"4"` (`String(MOCK_USERS.length + 1)`), the given name and e-mail, role `user`, and the avatar URL keyed by the encoded e-mail |
| Auth.AuthProvider.constructor | src/context/AuthContext.tsx:53-54 | mounts with no user, loading, over the browser's stored values |
| Auth.AuthProvider.RestoreSession | src/context/AuthContext.tsx:56-67 | a parsed saved value becomes the user; an unparseable one is removed and the user kept; an absent or empty one changes nothing; loading ends in every case |
| Auth.AuthProvider.Login | src/context/AuthContext.tsx:69-89 | on matching credentials: the first matching account without its password becomes the user and is stored under `tech_blog_user`, and loading ends; otherwise it throws with the user and storage unchanged and `isLoading` left true |
| Auth.AuthProvider.Signup | src/context/AuthContext.tsx:91-119 | a taken e-mail throws and changes neither user nor storage; otherwise the new user is signed in and stored; loading ends in both cases |
| Auth.AuthProvider.Logout | src/context/AuthContext.tsx:121-125 | no user, the session key removed, the rest of storage and the loading flag untouched, so a second call changes nothing more |
| Auth.SeedCredentialsLogIn | src/context/AuthContext.tsx:25-50 | each table entry logs in with its own e-mail and password and yields itself |
| Auth.AdminLogIn | src/context/AuthContext.tsx:42-49 | `admin@example.com` / `admin123` signs in user `'3'` with the admin role |
| Auth.SignedUpCannotLogIn | src/context/AuthContext.tsx:98-116 | sign-up never adds to the table, so an e-mail sign-up accepts can never log in |
| Auth.AvatarEscapesAt | src/context/AuthContext.tsx:110 | the avatar key of `local@domain`, with both parts unreserved characters, is `local%40domain` |
| Auth.SignupThenLogin | src/context/AuthContext.tsx:76-118 | on a fresh provider a new e-mail signs up, cannot then log in, and signs up again |
| ArticlesPage.CategoryColumn | src/pages/Articles.tsx:25 | `articles.map(a => a.category)`, position by position |
| ArticlesPage.CategoriesAreDistinct | src/pages/Articles.tsx:25 | the category buttons have no repeats, include every article's category, name only categories that occur, and come in order of first occurrence |
| ArticlesPage.FilteredArticles | src/pages/Articles.tsx:28-36 | keeps an article exactly when it matches both the search and the category, preserving order (a subsequence) |
| ArticlesPage.NoFilterKeepsAll | src/pages/Articles.tsx:28-36 | an empty term and no category list every article |
| ArticlesPage.SearchIgnoresCase | src/pages/Articles.tsx:29-31 | two terms that differ only in the ASCII case of their letters select the same articles |
| ArticlesPage.SearchByLowerCaseTerm | src/pages/Articles.tsx:29-31 | a term and its lower-case form select the same articles |
| ArticlesPage.TitleFoundInAnyCase | src/pages/Articles.tsx:29-31 | a term finds every article whose title contains it in any mix of upper and lower case |
| ArticlesPage.UpperCaseTermFindsQuantum | src/pages/Articles.tsx:29-31 | the term "QUANTUM" finds the seed article "The Rise of Quantum Computing" |
| ArticlesPage.EmptyTermMatches | src/pages/Articles.tsx:29-31 | the empty term is contained in every lower-cased title |
| ArticlesPage.PageContents | src/pages/Articles.tsx:39-41 | page `p` is the clipped stretch from `(p - 1) * 6` to `p * 6`, so at most six articles |
| ArticlesPage.PageCount | src/pages/Articles.tsx:42 | `ceil(n / 6)`: the fewest pages of six that hold `n` articles |
| ArticlesPage.PagesUpToPrefix | src/pages/Articles.tsx:39-42 | pages 1 to `k` together are the first `min(6k, n)` filtered articles |
| ArticlesPage.AllPagesRebuildList | src/pages/Articles.tsx:39-42 | pages 1 to `totalPages` together are exactly the filtered list |
| ArticlesPage.PageCountMonotone | src/pages/Articles.tsx:42 | more articles never means fewer pages |
| ArticlesPage.ArticlesView.constructor | src/pages/Articles.tsx:13-15 | starts with no term, no category, on page 1 |
| ArticlesPage.ArticlesView.ChangeSearch | src/pages/Articles.tsx:69-72 | sets the term, keeps the category, resets to page 1 |
| ArticlesPage.ArticlesView.SelectAll | src/pages/Articles.tsx:79-82 | clears the category, keeps the term, resets to page 1 |
| ArticlesPage.ArticlesView.SelectCategory | src/pages/Articles.tsx:92-95 | sets the category, keeps the term, resets to page 1 |
| ArticlesPage.ArticlesView.ClearFilters | src/pages/Articles.tsx:162-165 | clears term and category but keeps the page number, which remains valid |
| ArticlesPage.ArticlesView.HandlePageChange | src/pages/Articles.tsx:45-48 | sets the page to the number given and nothing else |
| ArticlesPage.ArticlesView.GoToPage | src/pages/Articles.tsx:128-137 | the link `index + 1` moves to that page and keeps the page valid |
| ArticlesPage.ArticlesView.GoPrevious | src/pages/Articles.tsx:122-126 | "Previous", shown only past page 1, moves back one page |
| ArticlesPage.ArticlesView.GoNext | src/pages/Articles.tsx:139-143 | "Next", shown only before the last page, moves on one page |
| ArticlesPage.EmptyPageMeansNoMatches | src/pages/Articles.tsx:110-150 | on a valid page "No articles found" appears exactly when nothing matches |
| ArticlesPage.PaginationNeedsSeveralPages | src/pages/Articles.tsx:118 | the pagination bar is drawn only when more than six articles match |
| CategoriesPage.CountPositive | src/pages/Categories.tsx:27 | a category's count is positive exactly when some article has it |
| CategoriesPage.CountCategories | src/pages/Categories.tsx:19-29 | the dictionary has a key exactly for each category with articles that is not an inherited name, holding that category's article count, and its key list holds each key once, in the order the entries were created |
| CategoriesPage.ByNameIsComparator | src/pages/Categories.tsx:31 | comparing entries by name is a consistent comparator when `localeCompare` is |
| CategoriesPage.OwnKeysOrderPermutes | src/pages/Categories.tsx:31 | the order `Object.values` visits keys in lists each created key exactly as often as it exists |
| CategoriesPage.OwnKeysOrderIndicesFirst | src/pages/Categories.tsx:31 | keys that are array indices (such as "2023") come first, in ascending numeric order |
| CategoriesPage.OwnKeysOrderOthersAsCreated | src/pages/Categories.tsx:31 | the other keys follow the array indices, in the order they were created |
| CategoriesPage.OwnKeysOrderKeepsKeys | src/pages/Categories.tsx:31 | listing a dictionary's keys in that order names each of its keys once |
| CategoriesPage.IndexKeysListedFirst | src/pages/Categories.tsx:31 | keys created as "Web", "2023", "7" are visited as "7", "2023", "Web" |
| CategoriesPage.Entries | src/pages/Categories.tsx:31 | `Object.values(acc)` visiting the keys in a given order: one entry per key with its count |
| CategoriesPage.EntriesTabulate | src/pages/Categories.tsx:19-31 | the entries of the counted dictionary have distinct names, correct counts and cover every counted category |
| CategoriesPage.PermutedTable | src/pages/Categories.tsx:31 | sorting the entries keeps distinct names, correct counts and coverage |
| CategoriesPage.Tabulate | src/pages/Categories.tsx:18-32 | the entries, taken in `Object.values` order and then sorted: the list names each counted category once with its article count, ordered by `localeCompare` when that is consistent |
| CategoriesPage.CategoryDataAsWritten | src/pages/Categories.tsx:18-32 | as written, the list misses every category whose name `{}` inherits from `Object.prototype` |
| CategoriesPage.CategoryData | src/pages/Categories.tsx:18-32 | every category appears exactly once with its article count, the list is sorted by name, it is empty exactly when there are no articles, and the counts sum to the number of articles |
| CategoriesPage.ToStringCategoryIsLost | src/pages/Categories.tsx:21-27 | one article filed under `toString` gives an empty list as written, and the single entry `toString: 1` as intended |
| CategoriesPage.CountsAddUp | src/pages/Categories.tsx:27 | summing the counts of a duplicate-free list of names that covers all categories gives the number of articles |
| CategoriesPage.TotalIsCountSum | src/pages/Categories.tsx:27 | when each entry holds its category's count, the total of the list is the sum of those counts |
| CategoriesPage.CategoryCountsAddUp | src/pages/Categories.tsx:27 | the counts of the category list add up to the number of articles |
| CategoriesPage.Names | src/pages/Categories.tsx:54 | the names of the entries, position by position |
| CategoriesPage.CountLabel | src/pages/Categories.tsx:65 | the label is "article" exactly when the count is 1, otherwise "articles" |
| ArticleEditor.ValidationErrors | src/pages/ArticleEditor.tsx:17-25 | no messages exactly when title, excerpt, content, category and tags reach lengths 5, 10, 50, 2 and 2 and the cover image passes the URL check; at most six messages |
| ArticleEditor.ValidationErrorsNameBrokenRules | src/pages/ArticleEditor.tsx:17-25 | each of the six messages is reported exactly when its own rule is broken |
| ArticleEditor.TrimAll | src/pages/ArticleEditor.tsx:103 | every piece trimmed, position by position |
| ArticleEditor.TrimCommaFree | src/pages/ArticleEditor.tsx:101-103 | trimming never introduces a comma |
| ArticleEditor.CleanPieces | src/pages/ArticleEditor.tsx:101-104 | trimming comma-free pieces and dropping empties gives only clean tags and keeps every non-blank piece |
| ArticleEditor.ParseTags | src/pages/ArticleEditor.tsx:101-104 | every tag is non-empty, trimmed and comma-free, and the tags are the trimmed comma-separated pieces in input order (a subsequence) |
| ArticleEditor.ParseTagsKeepsNonBlank | src/pages/ArticleEditor.tsx:101-104 | every piece between commas that is not blank yields its trimmed self as a tag |
| ArticleEditor.ParseEmptyTags | src/pages/ArticleEditor.tsx:101-104 | an empty tag field has no tags |
| ArticleEditor.ParseJoinedNonEmptyTags | src/pages/ArticleEditor.tsx:77 | parsing one or more clean tags joined with `", "` gives them back |
| ArticleEditor.ParseJoinedTags | src/pages/ArticleEditor.tsx:77 | round trip: parsing `tags.join(', ')` of clean tags gives back the same list |
| ArticleEditor.FieldsOf | src/pages/ArticleEditor.tsx:109-115 | the fields a save sends: the form's text fields, the parsed tags, and `featured \|\| false` |
| ArticleEditor.FormOf | src/pages/ArticleEditor.tsx:71-79 | the form filled from a fetched article, with its tags joined by `", "` |
| ArticleEditor.LoadedArticleSavesItself | src/pages/ArticleEditor.tsx:71-115 | saving a loaded article unchanged sends its own fields, tags included |
| ArticleEditor.Editor.constructor | src/pages/ArticleEditor.tsx:33-48 | not loading, not editing, no article id, the default form values |
| ArticleEditor.Editor.Open | src/pages/ArticleEditor.tsx:50-63 | signed out or without a slug nothing changes; with a slug, editing is on and the article (when found) fills the form and gives its id |
| ArticleEditor.Editor.FetchArticle | src/pages/ArticleEditor.tsx:65-90 | a found article sets the id and the form; a missing one leaves both; loading ends |
| ArticleEditor.Editor.OnSubmit | src/pages/ArticleEditor.tsx:92-140 | no user: nothing is sent; editing with a truthy id: an update of that id; otherwise a create with the user as author; loading ends after a save |
| ArticleEditor.Editor.Submit | src/pages/ArticleEditor.tsx:180 | `handleSubmit(onSubmit)`: a form failing the schema is rejected with its messages and never reaches `onSubmit`; a valid one is sent as `onSubmit` sends it, an update when editing a loaded article and a create otherwise |
| ArticleEditor.Editor.HandleMarkdownLoaded | src/pages/ArticleEditor.tsx:142-150 | the content is always replaced, the title only by a non-empty one, every other field is unchanged |
| ArticleEditor.JoinedTagsLength | src/pages/ArticleEditor.tsx:77 | a joined tag field is at least as long as its first tag |
| ArticleEditor.SeedFormsMeetLengthRules | src/utils/api.ts:36-236 | every seed article loaded into the form meets the length rules, and its id is non-empty |
| ArticleEditor.EditAndSave | src/pages/ArticleEditor.tsx:59-116 | opening an existing article and submitting it unchanged through `handleSubmit` passes the schema and updates that article with its own fields |
| ArticleEditor.ImportAndSubmit | src/pages/ArticleEditor.tsx:37-46 | submitting a new editor right after a markdown import is always rejected, with the excerpt, cover image, category and tag messages; the title and content messages appear exactly when the file did not fill those fields |
| MarkdownUploader.LineEnd | src/components/articles/MarkdownUploader.tsx:34 | where `(.+)$` stops: the first line terminator or the end, with no line terminator before it |
| MarkdownUploader.SpaceEnd | src/components/articles/MarkdownUploader.tsx:34 | where the greedy `\s+` stops: the first non-white-space character or the end |
| MarkdownUploader.GroupStart | src/components/articles/MarkdownUploader.tsx:34 | the backtracking of `\s+`: the latest start where `.` can match, or none |
| MarkdownUploader.MatchAt | src/components/articles/MarkdownUploader.tsx:34 | the pattern matches at a position exactly when a match is returned there, and the group starts as late as any match's |
| MarkdownUploader.FirstMatch | src/components/articles/MarkdownUploader.tsx:34 | the leftmost position where the pattern matches, or none when it matches nowhere |
| MarkdownUploader.ExtractTitle | src/components/articles/MarkdownUploader.tsx:33-40 | no match means no title; a title is non-empty and trimmed |
| MarkdownUploader.TitleOfLeftmostMatch | src/components/articles/MarkdownUploader.tsx:33-40 | the title is the trimmed group of the leftmost match, or none when that trims to empty |
| MarkdownUploader.DoubleHashesGiveNoTitle | src/components/articles/MarkdownUploader.tsx:34 | a text in which every `#` at a line start is followed by another `#` has no title |
| MarkdownUploader.TitleFromNextLine | src/components/articles/MarkdownUploader.tsx:34-36 | `\s+` crosses the line break, so a bare `#` line takes its title from the next line |
| MarkdownUploader.Uploader.HandleFileUpload | src/components/articles/MarkdownUploader.tsx:15-64 | no file, or a name without `.md`, changes nothing; read text is passed unchanged with its title to the callback and the input is cleared; a read error calls nothing; loading ends |
| MarkdownUploader.RejectsOtherFiles | src/components/articles/MarkdownUploader.tsx:20-23 | a file not named `.md` never reaches the callback |
| ArticlePage.Related | src/pages/Article.tsx:301 | at most three, never the current article, in fetched order (a subsequence), and every other fetched article when there are at most three |
| ArticlePage.FilterDrops | src/pages/Article.tsx:301 | a filter that rejects an element present in the list returns fewer elements |
| ArticlePage.CurrentAmongFetched | src/pages/Article.tsx:32 | when the open article is among the three fetched, at most two related ones show |
| ArticlePage.ListThree | src/pages/Article.tsx:32 | for seed-shaped articles, `getArticles({limit: 3})` gives the three newest |
| ArticlePage.RelatedOfThree | src/pages/Article.tsx:301 | from three fetched articles the strip shows each that is not the open one, in order |
| ArticlePage.RelatedOfNewest | src/pages/Article.tsx:301 | on the newest article's page the strip shows the next two newest |
| ArticlePage.RelatedOfOldest | src/pages/Article.tsx:301 | on the page of an article outside the three newest the strip shows all three |
| ArticlePage.RelatedIdsOfNewest | src/pages/Article.tsx:301 | on the newest article's page the strip's identifiers are those of the next two newest |
| ArticlePage.RelatedIdsOfOldest | src/pages/Article.tsx:301 | on the page of an article outside the three newest the strip's identifiers are those of all three, newest first |
| ArticlePage.SeedRelatedToNewest | src/pages/Article.tsx:301 | on article 4's page the strip shows 3 and 2 |
| ArticlePage.SeedRelatedToOldest | src/pages/Article.tsx:301 | on article 1's page the strip shows 4, 3 and 2 |
| ArticlePage.RenderContent | src/pages/Article.tsx:229 | the rendered body has no line break, and its length is the input's plus four per line break |
| ArticlePage.RenderAppend | src/pages/Article.tsx:229 | rendering a concatenation concatenates the renderings |
| ArticlePage.RenderWithoutNewlines | src/pages/Article.tsx:229 | text without line breaks renders as itself |
| ArticlePage.RenderLines | src/pages/Article.tsx:229 | every line break becomes exactly `<br/>` between the unchanged lines |
| ArticlePage.Reactions.constructor | src/pages/Article.tsx:19-20 | not liked, not bookmarked |
| ArticlePage.Reactions.HandleLike | src/pages/Article.tsx:37-44 | flips the like flag, leaves the bookmark, and chooses the toast by the value before the flip |
| ArticlePage.Reactions.HandleBookmark | src/pages/Article.tsx:47-56 | flips the bookmark flag, leaves the like, and chooses the toast by the value before the flip |
| ArticlePage.LikeTwice | src/pages/Article.tsx:37-44 | two likes restore both flags, and the two toasts differ |
| ArticlePage.BookmarkTwice | src/pages/Article.tsx:47-56 | two bookmarks restore both flags, and the two toasts differ |
| ArticlePage.FirstLikes | src/pages/Article.tsx:37-44 | on a fresh page the likes toast "Article liked", "Removed like", "Article liked" |
| JsArray.ResolveIndex | src/pages/Articles.tsx:41 | how `slice` resolves an index: clamped to the length, negative values counted back from the end |
| JsArray.Slice | src/pages/Articles.tsx:41 | `slice` never returns more than the list |
| JsArray.SliceNonNegative | src/pages/Articles.tsx:41 | with non-negative bounds `slice` is the clamped subrange |
| JsArray.SlicePrefix | src/utils/api.ts:286 | `slice(0, k)` for `k >= 0` is the prefix of length `min(k, n)` |
| JsArray.SliceFromZero | src/utils/api.ts:286 | `slice(0, end)` is a prefix for every `end` |
| JsArray.Filter | src/pages/Articles.tsx:28 | `filter`: no longer than the input, only kept elements, and every kept element |
| JsArray.FilterAll | src/pages/Articles.tsx:28 | a filter that keeps everything returns the list |
| JsArray.FilterNone | src/utils/api.ts:304 | a filter that keeps nothing returns the empty list |
| JsArray.FilterIsSubsequence | src/pages/Articles.tsx:28 | `filter` keeps order: its result is a subsequence |
| JsArray.SubsequenceTransitive | src/pages/Article.tsx:301 | a subsequence of a subsequence is a subsequence |
| JsArray.FilterAppend | src/pages/Article.tsx:301 | filtering distributes over concatenation |
| JsArray.FilterThree | src/pages/Article.tsx:301 | a three-element list filters element by element |
| JsArray.FilterPartition | src/pages/Categories.tsx:31 | what a filter keeps and what the opposite filter keeps together make up the list |
| JsArray.FindIndex | src/utils/api.ts:296 | the first index satisfying the predicate, or -1 exactly when there is none |
| JsArray.Find | src/utils/api.ts:296 | the first element satisfying the predicate, or none exactly when there is none |
| JsArray.Exists | src/context/AuthContext.tsx:98 | `some` is true exactly when some element satisfies the predicate |
| JsArray.PermutationNoDuplicates | src/pages/Categories.tsx:31 | rearranging a list without duplicates keeps it without duplicates |
| JsArray.IndexOf | src/pages/Articles.tsx:25 | the first position of an element, or -1 exactly when it is absent |
| JsArray.Distinct | src/pages/Articles.tsx:25 | `Array.from(new Set(s))`: no repeats, nothing new, nothing missing |
| JsArray.DistinctFirstOccurrence | src/pages/Articles.tsx:25 | the distinct elements come in order of first occurrence |
| JsArray.InsertPermutes | src/utils/api.ts:282 | insertion adds exactly one element |
| JsArray.SortByPermutes | src/utils/api.ts:282 | the sort is a permutation of its input |
| JsArray.SortByKeeps | src/utils/api.ts:282 | a property of every input element holds of every sorted element |
| JsArray.InsertSorted | src/utils/api.ts:282 | inserting into a sorted list keeps it sorted |
| JsArray.SortBySorted | src/utils/api.ts:282 | with a consistent comparator the sort's result is sorted |
| JsArray.InsertStable | src/utils/api.ts:282 | insertion puts the new element after the ones it ties with |
| JsArray.SortByStable | src/utils/api.ts:282 | the sort is stable: tied elements keep their input order |
| JsArray.Reverse | src/utils/api.ts:282 | the list in the opposite order |
| JsArray.SortByReversed | src/utils/api.ts:282 | a list in which each later element must come first sorts into its reverse |
| JsArray.Sort | src/utils/api.ts:282 | `array.sort(cmp)` in place leaves the array holding the stable sorted permutation of its old contents |
| JsArray.InsertInPlace | src/utils/api.ts:282 | one insertion step in place: the prefix becomes the old prefix with the element inserted, the rest unchanged |
| JsString.TrimStart | src/pages/ArticleEditor.tsx:103 | drops exactly the longest all-white-space prefix |
| JsString.TrimEnd | src/pages/ArticleEditor.tsx:103 | drops exactly the longest all-white-space suffix |
| JsString.Trim | src/pages/ArticleEditor.tsx:103 | the result starts and ends with non-white-space (or is empty) |
| JsString.TrimIncluded | src/pages/ArticleEditor.tsx:103 | the trimmed string is a piece of the original |
| JsString.TrimEmpty | src/components/articles/MarkdownUploader.tsx:36 | trimming gives the empty string exactly when the string is all white space |
| JsString.TrimTrimmed | src/pages/ArticleEditor.tsx:103 | trimming leaves a trimmed string alone |
| JsString.TrimPadded | src/pages/ArticleEditor.tsx:103 | white space before a non-empty trimmed string is trimmed away |
| JsString.ToLowerChar | src/pages/Articles.tsx:30 | 'A'..'Z' map to 'a'..'z' (code point plus 32), every other character stays, and no result is an upper-case ASCII letter |
| JsString.ToLower | src/pages/Articles.tsx:30 | lower-casing works character by character and keeps the length |
| JsString.CaseVariantsLowerAlike | src/pages/Articles.tsx:30 | strings that differ only in ASCII case lower-case to the same string |
| JsString.ToLowerIdempotent | src/pages/Articles.tsx:30 | lower-casing twice is lower-casing once |
| JsString.IncludedCharacters | src/pages/Articles.tsx:30 | every character of an included string occurs in the string |
| JsString.Split | src/pages/ArticleEditor.tsx:102 | at least one piece, and no piece holds the separator |
| JsString.JoinSplit | src/pages/ArticleEditor.tsx:102 | joining the pieces with the separator rebuilds the string |
| JsString.SplitWithoutSeparator | src/pages/ArticleEditor.tsx:102 | a string without the separator splits into itself alone |
| JsString.SplitAppend | src/pages/ArticleEditor.tsx:102 | a separator cuts the split in two |
| JsString.SplitJoin | src/pages/ArticleEditor.tsx:77 | splitting a join of separator-free pieces gives them back |
| JsString.NatToString | src/context/AuthContext.tsx:106 | `String(n)`: decimal digits with no leading zero |
| JsString.NatToStringRoundTrip | src/context/AuthContext.tsx:106 | reading the digits back gives `n` |
| JsString.EncodeUriComponent | src/context/AuthContext.tsx:110 | the result holds only unreserved characters and `%` |
| JsString.EncodeUriComponentIdentity | src/context/AuthContext.tsx:110 | a string is its own encoding exactly when all its characters are unreserved |
| JsString.EncodeUriComponentAppend | src/context/AuthContext.tsx:110 | encoding distributes over concatenation |
| JsString.EncodeAt | src/context/AuthContext.tsx:110 | `@` is encoded as `%40` |
| JsString.EncodeLength | src/context/AuthContext.tsx:110 | encoding never shortens a string |

## Left out

- The simulated network delays (`setTimeout`) and the asynchrony of `await`. Each API
  call, handler and effect is one atomic step, and React's re-rendering and effect
  scheduling are not modelled. In particular `EditAndSave` runs the fetch to completion
  before the submit.
- Toasts, navigation and redirects, `window.scrollTo`, sharing and the clipboard, the
  focus on the excerpt field, and all markup beyond what decides visibility.
- `formatDate`: it depends on the clock and on date-fns.
- Creating, updating and deleting articles and comments. `updateArticle` and
  `createArticle` are not defined in `src/utils/api.ts`, so a save is modelled as the
  request it sends (`ArticleEditor.SaveRequest`). Slug generation and read-time are not
  part of this model.
- The category parameter some pages pass to `getArticles`, which the function ignores.
- The JSON text in `localStorage`: a stored value is modelled as the result of
  `JSON.parse` (a user, `null`, the empty string, or unparseable text).
- `FileReader`: a selected file comes with its read result, text or error, and `onload`
  or `onerror` runs immediately. An exception thrown by the `onContentLoaded` callback is
  not modelled.
- The seed articles' markdown bodies are shortened to their heading and first paragraph.
  Each is still longer than the 50 characters the editor's schema demands of the content,
  as the full bodies are; no property depends on the rest.
- Strings are sequences of code points. JavaScript's `length` counts UTF-16 units, so the
  lengths differ for characters outside the Basic Multilingual Plane.
- ArticleEditor.ValidationErrors: the `coverImage` rule, `z.string().url()`, is the
  parameter `isUrl`; the URL parser behind it is not modelled. Proofs use only that `''`
  is not a URL and that the seed cover images are.
- Api.GetArticles: `limit` is an integer. A fractional `limit`, which `slice` truncates,
  and `NaN`, which is falsy, are not modelled; the pages pass only 2, 3 and 6.
- JsString.ToLower: only ASCII letters are mapped; `toLowerCase` maps all of Unicode.
- `localeCompare` is a parameter. Its locale-dependent order is not modelled; the
  categories come out sorted whenever it is a consistent comparator.
- CategoriesPage.CategoryDataAsWritten: it states only that the inherited names drop out.
  The side effect of `acc[category].count += 1` on `Object.prototype`'s own members (a
  `count` property set to `NaN` on them) is not modelled.
- Logging in and signing up while another call is still pending (interleaved `await`s).

## Findings

| source | as written | input that shows it | evidently intended | confidence | as-written member | corrected member |
|---|---|---|---|---|---|---|
| src/pages/Categories.tsx:19-29 | the counts go into a plain object `{}`, and `if (!acc[category])` reads inherited properties, so a category named like a member of `Object.prototype` never gets its own entry and is missing from `Object.values(acc)` | one article whose category is `"toString"`: the list is empty instead of `toString: 1` | every category of the articles appears once with its count (for example counting into `Object.create(null)` or a `Map`) | not executed | CategoriesPage.CategoryDataAsWritten, CategoriesPage.ToStringCategoryIsLost | CategoriesPage.CategoryData |
