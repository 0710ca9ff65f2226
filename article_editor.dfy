/**
 * The article editor: the form's length rules, the comma-separated tag field and its
 * parsing, loading an existing article into the form, the save request a submit produces
 * (update when editing a loaded article, create otherwise) and the markdown import hook.
 * The create and update calls themselves, the toasts and the navigation are not modelled;
 * a submit yields the request it would send.
 */
module ArticleEditor {
  import opened Wrappers
  import opened JsArray
  import opened JsString
  import opened Api
  import opened Auth

  /** The form's fields; `featured` is optional in the schema. */
  datatype FormValues = FormValues(
    title: string,
    excerpt: string,
    content: string,
    coverImage: string,
    category: string,
    tags: string,
    featured: Option<bool>)

  const DefaultValues := FormValues("", "", "", "", "", "", Some(false))

  /** The schema's length rules, each field with its minimum. */
  predicate MeetsLengthRules(v: FormValues)
  {
    && |v.title| >= 5
    && |v.excerpt| >= 10
    && |v.content| >= 50
    && |v.category| >= 2
    && |v.tags| >= 2
  }

  /**
   * The whole schema. `isUrl` is what `z.string().url()` accepts, the verdict of the URL
   * parser, which is not modelled.
   */
  predicate MeetsSchema(v: FormValues, isUrl: string -> bool)
  {
    MeetsLengthRules(v) && isUrl(v.coverImage)
  }

  const TitleMessage := "Title must be at least 5 characters"
  const ExcerptMessage := "Excerpt must be at least 10 characters"
  const ContentMessage := "Content must be at least 50 characters"
  const UrlMessage := "Must be a valid URL"
  const CategoryMessage := "Category is required"
  const TagsMessage := "At least one tag is required"

  /** The schema's messages for the rules a form breaks, in field order. */
  function ValidationErrors(v: FormValues, isUrl: string -> bool): (errors: seq<string>)
    ensures errors == [] <==> MeetsSchema(v, isUrl)
    ensures |errors| <= 6
  {
    Check(|v.title| < 5, TitleMessage)
    + Check(|v.excerpt| < 10, ExcerptMessage)
    + Check(|v.content| < 50, ContentMessage)
    + Check(!isUrl(v.coverImage), UrlMessage)
    + Check(|v.category| < 2, CategoryMessage)
    + Check(|v.tags| < 2, TagsMessage)
  }

  /** One rule's contribution: its message when the rule is broken. */
  function Check(broken: bool, message: string): seq<string>
  {
    if broken then [message] else []
  }

  /** Each message is reported exactly when its own rule is broken. */
  lemma ValidationErrorsNameBrokenRules(v: FormValues, isUrl: string -> bool)
    ensures var errors := ValidationErrors(v, isUrl);
            && (TitleMessage in errors <==> |v.title| < 5)
            && (ExcerptMessage in errors <==> |v.excerpt| < 10)
            && (ContentMessage in errors <==> |v.content| < 50)
            && (UrlMessage in errors <==> !isUrl(v.coverImage))
            && (CategoryMessage in errors <==> |v.category| < 2)
            && (TagsMessage in errors <==> |v.tags| < 2)
  {
    assert |TitleMessage| == 35 && |ExcerptMessage| == 38 && |ContentMessage| == 38;
    assert |UrlMessage| == 19 && |CategoryMessage| == 20 && |TagsMessage| == 28;
    assert ExcerptMessage[0] != ContentMessage[0];
  }

  // ---------------------------------------------------------------------------------
  // Tags
  // ---------------------------------------------------------------------------------

  /** `parts.map(tag => tag.trim())`. */
  function TrimAll(parts: seq<string>): (r: seq<string>)
    ensures |r| == |parts| && forall i :: 0 <= i < |parts| ==> r[i] == Trim(parts[i])
  {
    seq(|parts|, i requires 0 <= i < |parts| => Trim(parts[i]))
  }

  /** `tag => tag.length > 0`. */
  function NonEmpty(): string -> bool
  {
    (t: string) => |t| > 0
  }

  /** A tag as the parser produces it: not empty, no surrounding white space, no comma. */
  predicate CleanTag(t: string)
  {
    t != [] && IsTrimmed(t) && ',' !in t
  }

  /** Trimming a comma-free piece leaves it comma-free. */
  lemma TrimCommaFree(piece: string)
    requires ',' !in piece
    ensures ',' !in Trim(piece)
  {
    TrimIncluded(piece);
    if ',' in Trim(piece) {
      IncludedCharacters(piece, Trim(piece), ',');
    }
  }

  /** Trimming comma-free pieces and dropping the empty ones leaves only clean tags. */
  lemma CleanPieces(pieces: seq<string>)
    requires forall i :: 0 <= i < |pieces| ==> ',' !in pieces[i]
    ensures var tags := Filter(TrimAll(pieces), NonEmpty());
            forall i :: 0 <= i < |tags| ==> CleanTag(tags[i])
  {
    var trimmed := TrimAll(pieces);
    var tags := Filter(trimmed, NonEmpty());
    forall i | 0 <= i < |tags| ensures CleanTag(tags[i]) {
      assert tags[i] in trimmed && NonEmpty()(tags[i]);
      var j :| 0 <= j < |trimmed| && trimmed[j] == tags[i];
      TrimCommaFree(pieces[j]);
    }
  }

  /** `values.tags.split(',').map(tag => tag.trim()).filter(tag => tag.length > 0)`. */
  function ParseTags(s: string): (tags: seq<string>)
    ensures forall i :: 0 <= i < |tags| ==> CleanTag(tags[i])
    ensures IsSubsequence(tags, TrimAll(Split(s, ',')))
  {
    CleanPieces(Split(s, ','));
    FilterIsSubsequence(TrimAll(Split(s, ',')), NonEmpty());
    Filter(TrimAll(Split(s, ',')), NonEmpty())
  }

  /** No tag is lost: every piece between commas that is not blank yields its trimmed self. */
  lemma ParseTagsKeepsNonBlank(s: string)
    ensures var pieces := Split(s, ',');
            forall i :: 0 <= i < |pieces| && Trim(pieces[i]) != [] ==> Trim(pieces[i]) in ParseTags(s)
  {
    var pieces := Split(s, ',');
    var trimmed := TrimAll(pieces);
    forall i | 0 <= i < |pieces| && Trim(pieces[i]) != [] ensures Trim(pieces[i]) in ParseTags(s) {
      assert trimmed[i] == Trim(pieces[i]) && NonEmpty()(trimmed[i]);
    }
  }

  /** `prefix + t` for every tag. */
  function Prefixed(prefix: string, tags: seq<string>): (r: seq<string>)
    ensures |r| == |tags| && forall i :: 0 <= i < |tags| ==> r[i] == prefix + tags[i]
  {
    seq(|tags|, i requires 0 <= i < |tags| => prefix + tags[i])
  }

  /** Joining prefixed tags with `sep` puts the prefix in front and after every separator. */
  lemma {:induction false} JoinPrefixed(prefix: string, tags: seq<string>, sep: string)
    requires |tags| >= 1
    ensures Join(Prefixed(prefix, tags), sep) == prefix + Join(tags, sep + prefix)
  {
    if |tags| > 1 {
      var rest := Join(tags[1..], sep + prefix);
      JoinPrefixed(prefix, tags[1..], sep);
      assert Prefixed(prefix, tags)[1..] == Prefixed(prefix, tags[1..]);
      assert Join(Prefixed(prefix, tags), sep) == (prefix + tags[0]) + sep + (prefix + rest);
      assert Join(tags, sep + prefix) == tags[0] + (sep + prefix) + rest;
    }
  }

  /** A join with `sep + pad` is a join with `sep` of the first tag and the others with `pad` in front. */
  lemma JoinPadded(tags: seq<string>, sep: string, pad: string)
    requires |tags| >= 1
    ensures Join(tags, sep + pad) == Join([tags[0]] + Prefixed(pad, tags[1..]), sep)
  {
    var pieces := [tags[0]] + Prefixed(pad, tags[1..]);
    if |tags| > 1 {
      var rest := Join(tags[1..], sep + pad);
      assert pieces[1..] == Prefixed(pad, tags[1..]);
      JoinPrefixed(pad, tags[1..], sep);
      assert Join(pieces, sep) == tags[0] + sep + (pad + rest);
      assert Join(tags, sep + pad) == tags[0] + (sep + pad) + rest;
    }
  }

  /** The pieces of a joined tag field, after the split on commas. */
  lemma SplitPadded(tags: seq<string>, pad: string)
    requires |tags| >= 1 && forall i :: 0 <= i < |tags| ==> ',' !in tags[i]
    requires ',' !in pad
    ensures var pieces := [tags[0]] + Prefixed(pad, tags[1..]);
            Split(Join(pieces, ","), ',') == pieces
  {
    var pieces := [tags[0]] + Prefixed(pad, tags[1..]);
    forall i | 0 <= i < |pieces| ensures ',' !in pieces[i] {
      if i > 0 {
        assert pieces[i] == pad + tags[i];
      }
    }
    SplitJoin(pieces, ',');
  }

  /** Trimming the pieces takes the white-space padding off again. */
  lemma TrimPieces(tags: seq<string>, pad: string)
    requires |tags| >= 1 && forall i :: 0 <= i < |tags| ==> CleanTag(tags[i])
    requires AllWhiteSpace(pad)
    ensures TrimAll([tags[0]] + Prefixed(pad, tags[1..])) == tags
  {
    var pieces := [tags[0]] + Prefixed(pad, tags[1..]);
    forall i | 0 <= i < |tags| ensures Trim(pieces[i]) == tags[i] {
      if i == 0 {
        TrimTrimmed(tags[0]);
      } else {
        assert pieces[i] == pad + tags[i];
        TrimPadded(pad, tags[i]);
      }
    }
  }

  /** An empty tag field has no tags. */
  lemma ParseEmptyTags()
    ensures ParseTags("") == []
  {
    assert Split("", ',') == [""];
    TrimTrimmed("");
    FilterNone(TrimAll([""]), NonEmpty());
  }

  /** Parsing a field of one or more clean tags joined by `", "`. */
  lemma ParseJoinedNonEmptyTags(tags: seq<string>)
    requires tags != [] && forall i :: 0 <= i < |tags| ==> CleanTag(tags[i])
    ensures ParseTags(Join(tags, ", ")) == tags
  {
    var comma, space := ",", " ";
    var pieces := [tags[0]] + Prefixed(space, tags[1..]);
    var field := Join(tags, ", ");
    assert field == Join(pieces, comma) by {
      assert ", " == comma + space;
      JoinPadded(tags, comma, space);
    }
    assert Split(field, ',') == pieces by {
      assert ',' !in space;
      SplitPadded(tags, space);
    }
    assert TrimAll(pieces) == tags by {
      assert AllWhiteSpace(space);
      TrimPieces(tags, space);
    }
    FilterAll(tags, NonEmpty());
    assert ParseTags(field) == Filter(TrimAll(Split(field, ',')), NonEmpty());
  }

  /** The tag field of a loaded article, `tags.join(', ')`, parses back to the same tags. */
  lemma ParseJoinedTags(tags: seq<string>)
    requires forall i :: 0 <= i < |tags| ==> CleanTag(tags[i])
    ensures ParseTags(Join(tags, ", ")) == tags
  {
    if tags == [] {
      ParseEmptyTags();
    } else {
      ParseJoinedNonEmptyTags(tags);
    }
  }

  // ---------------------------------------------------------------------------------
  // Loading and saving
  // ---------------------------------------------------------------------------------

  /** The article fields a save sends. */
  datatype ArticleFields = ArticleFields(
    title: string,
    excerpt: string,
    content: string,
    coverImage: string,
    category: string,
    tags: seq<string>,
    featured: bool)

  /** `updateArticle(id, fields)` or `createArticle({...fields, authorId, authorName, authorAvatar})`. */
  datatype SaveRequest =
    | Update(id: string, fields: ArticleFields)
    | Create(fields: ArticleFields, authorId: string, authorName: string, authorAvatar: Option<string>)

  /** What pressing "submit" leads to. */
  datatype Submission =
    | Rejected(errors: seq<string>)   // the schema refused the form; `onSubmit` is not called
    | NotSignedIn                     // `onSubmit` found no user
    | Saved(request: SaveRequest)

  /** The fields `onSubmit` sends for the form's values: parsed tags, `featured || false`. */
  function FieldsOf(v: FormValues): (f: ArticleFields)
    ensures f.title == v.title && f.excerpt == v.excerpt && f.content == v.content
    ensures f.coverImage == v.coverImage && f.category == v.category
    ensures f.tags == ParseTags(v.tags)
    ensures f.featured <==> v.featured == Some(true)
  {
    ArticleFields(v.title, v.excerpt, v.content, v.coverImage, v.category, ParseTags(v.tags), v.featured == Some(true))
  }

  /** The `form.reset` values for a fetched article. */
  function FormOf(a: Article): (v: FormValues)
    ensures v.title == a.title && v.excerpt == a.excerpt && v.content == a.content
    ensures v.coverImage == a.coverImage && v.category == a.category && v.featured == Some(a.featured)
    ensures v.tags == Join(a.tags, ", ")
  {
    FormValues(a.title, a.excerpt, a.content, a.coverImage, a.category, Join(a.tags, ", "), Some(a.featured))
  }

  /** Saving a loaded article unchanged sends back its own fields, tags included. */
  lemma LoadedArticleSavesItself(a: Article)
    requires forall i :: 0 <= i < |a.tags| ==> CleanTag(a.tags[i])
    ensures FieldsOf(FormOf(a)) == ArticleFields(a.title, a.excerpt, a.content, a.coverImage, a.category, a.tags, a.featured)
  {
    ParseJoinedTags(a.tags);
  }

  class Editor {
    var isLoading: bool
    var isEditing: bool
    var articleId: Option<string>
    var form: FormValues

    constructor()
      ensures !isLoading && !isEditing && articleId == None && form == DefaultValues
    {
      isLoading := false;
      isEditing := false;
      articleId := None;
      form := DefaultValues;
    }

    /** The mount effect: a signed-out visitor is sent away; a truthy slug turns on editing and loads it. */
    method Open(slug: Option<string>, isAuthenticated: bool)
      modifies this
      ensures !isAuthenticated || slug.None? || slug.value == "" ==>
                isLoading == old(isLoading) && isEditing == old(isEditing) && articleId == old(articleId) && form == old(form)
      ensures isAuthenticated && slug.Some? && slug.value != "" ==>
                && isEditing && !isLoading
                && (GetArticleBySlug(slug.value).Some? ==>
                      var a := GetArticleBySlug(slug.value).value;
                      articleId == Some(a.id) && form == FormOf(a))
                && (GetArticleBySlug(slug.value).None? ==> articleId == old(articleId) && form == old(form))
    {
      if !isAuthenticated {
        return;
      }
      if slug.Some? && slug.value != "" {
        isEditing := true;
        FetchArticle(slug.value);
      }
    }

    /** `fetchArticle`: a found article fills the form and gives its id; a missing one changes nothing. */
    method FetchArticle(slug: string)
      modifies this
      ensures !isLoading && isEditing == old(isEditing)
      ensures GetArticleBySlug(slug).Some? ==>
                articleId == Some(GetArticleBySlug(slug).value.id) && form == FormOf(GetArticleBySlug(slug).value)
      ensures GetArticleBySlug(slug).None? ==> articleId == old(articleId) && form == old(form)
    {
      isLoading := true;
      var article := GetArticleBySlug(slug);
      if article.Some? {
        articleId := Some(article.value.id);
        form := FormOf(article.value);
      }
      isLoading := false;
    }

    /**
     * `onSubmit(values)`: without a user nothing happens; otherwise an update of the loaded
     * article when editing one with a truthy id, else a create carrying the user as author.
     */
    method OnSubmit(user: Option<User>, values: FormValues) returns (s: Submission)
      modifies this
      ensures isEditing == old(isEditing) && articleId == old(articleId) && form == old(form)
      ensures user.None? ==> s == NotSignedIn && isLoading == old(isLoading)
      ensures user.Some? ==> !isLoading && s.Saved?
      ensures user.Some? && isEditing && articleId.Some? && articleId.value != "" ==>
                s == Saved(Update(articleId.value, FieldsOf(values)))
      ensures user.Some? && !(isEditing && articleId.Some? && articleId.value != "") ==>
                s == Saved(Create(FieldsOf(values), user.value.id, user.value.name, user.value.avatar))
    {
      if user.None? {
        return NotSignedIn;
      }
      isLoading := true;
      var fields := FieldsOf(values);
      if isEditing && articleId.Some? && articleId.value != "" {
        s := Saved(Update(articleId.value, fields));
      } else {
        s := Saved(Create(fields, user.value.id, user.value.name, user.value.avatar));
      }
      isLoading := false;
    }

    /** `form.handleSubmit(onSubmit)`: the schema first, then `onSubmit` on the form's values. */
    method Submit(user: Option<User>, isUrl: string -> bool) returns (s: Submission)
      modifies this
      ensures isEditing == old(isEditing) && articleId == old(articleId) && form == old(form)
      ensures !MeetsSchema(form, isUrl) ==> s == Rejected(ValidationErrors(form, isUrl)) && isLoading == old(isLoading)
      ensures MeetsSchema(form, isUrl) && user.None? ==> s == NotSignedIn
      ensures MeetsSchema(form, isUrl) && user.Some? && isEditing && articleId.Some? && articleId.value != "" ==>
                s == Saved(Update(articleId.value, FieldsOf(form))) && !isLoading
      ensures MeetsSchema(form, isUrl) && user.Some? && !(isEditing && articleId.Some? && articleId.value != "") ==>
                s == Saved(Create(FieldsOf(form), user.value.id, user.value.name, user.value.avatar)) && !isLoading
    {
      var errors := ValidationErrors(form, isUrl);
      if errors != [] {
        return Rejected(errors);
      }
      s := OnSubmit(user, form);
    }

    /** `handleMarkdownLoaded`: the content always, the title only when a non-empty one came with it. */
    method HandleMarkdownLoaded(title: Option<string>, content: string)
      modifies this
      ensures form.content == content
      ensures form.title == (if title.Some? && title.value != "" then title.value else old(form.title))
      ensures form.excerpt == old(form.excerpt) && form.coverImage == old(form.coverImage)
      ensures form.category == old(form.category) && form.tags == old(form.tags) && form.featured == old(form.featured)
      ensures isLoading == old(isLoading) && isEditing == old(isEditing) && articleId == old(articleId)
    {
      form := form.(content := content);
      if title.Some? && title.value != "" {
        form := form.(title := title.value);
      }
    }
  }

  /** A joined tag field is at least as long as its first tag. */
  lemma JoinedTagsLength(tags: seq<string>, sep: string)
    requires tags != []
    ensures |Join(tags, sep)| >= |tags[0]|
  {
    if |tags| > 1 {
      assert Join(tags, sep) == tags[0] + sep + Join(tags[1..], sep);
    }
  }

  /** Each seed article, loaded into the form, meets the length rules and has a non-empty id. */
  lemma SeedFormsMeetLengthRules(a: Article)
    requires a in MockArticles
    ensures MeetsLengthRules(FormOf(a)) && a.id != ""
  {
    JoinedTagsLength(a.tags, ", ");
  }

  /**
   * Opening the editor on an existing article and submitting the loaded form unchanged
   * passes the schema and asks to update that article with its own fields.
   */
  method EditAndSave(slug: string, user: User, isUrl: string -> bool) returns (s: Submission)
    requires slug != "" && GetArticleBySlug(slug).Some?
    requires var a := GetArticleBySlug(slug).value; forall i :: 0 <= i < |a.tags| ==> CleanTag(a.tags[i])
    requires isUrl(GetArticleBySlug(slug).value.coverImage)
    ensures var a := GetArticleBySlug(slug).value;
            s == Saved(Update(a.id, ArticleFields(a.title, a.excerpt, a.content, a.coverImage, a.category, a.tags, a.featured)))
  {
    var a := GetArticleBySlug(slug).value;
    SeedFormsMeetLengthRules(a);
    var editor := new Editor();
    editor.Open(Some(slug), true);
    s := editor.Submit(Some(user), isUrl);
    LoadedArticleSavesItself(a);
  }

  /**
   * A new editor after a markdown import, submitted as it stands: the schema always refuses
   * it, since the excerpt, the cover image, the category and the tags are still empty; the
   * title and content messages appear exactly when the file did not fill those fields.
   */
  method ImportAndSubmit(title: Option<string>, content: string, user: Option<User>, isUrl: string -> bool)
    returns (s: Submission)
    requires !isUrl("")
    ensures s.Rejected?
    ensures ExcerptMessage in s.errors && UrlMessage in s.errors && CategoryMessage in s.errors && TagsMessage in s.errors
    ensures TitleMessage in s.errors <==> !(title.Some? && |title.value| >= 5)
    ensures ContentMessage in s.errors <==> |content| < 50
    ensures title.Some? && |title.value| >= 5 && |content| >= 50 ==>
              s.errors == [ExcerptMessage, UrlMessage, CategoryMessage, TagsMessage]
  {
    // On `/editor/new` there is no slug, so the mount effect leaves the fresh editor as it is.
    var editor := new Editor();
    editor.HandleMarkdownLoaded(title, content);
    s := editor.Submit(user, isUrl);
  }
}
