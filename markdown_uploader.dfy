/**
 * The markdown import button: it accepts only `.md` files, reads the file as text, takes
 * the title from the first heading the pattern `/^#\s+(.+)$/m` finds and hands the title
 * and the unchanged text to its callback.
 *
 * The pattern is modelled by what it matches: in multiline mode `^` is the start of the
 * text or a position after a line terminator, `\s` is any white space INCLUDING line
 * terminators, `.` is any character except a line terminator, and `$` is the end of the
 * text or a position before a line terminator. The search is leftmost; at the chosen
 * position the greedy `\s+` gives back characters only as far as `(.+)` needs to match.
 */
module MarkdownUploader {
  import opened Wrappers
  import opened JsString

  /** `file.name.endsWith('.md')`. */
  predicate IsMarkdownName(name: string)
  {
    EndsWith(name, ".md")
  }

  /** `^` in multiline mode. */
  predicate LineStart(s: string, p: nat)
    requires p <= |s|
  {
    p == 0 || IsLineTerminator(s[p - 1])
  }

  predicate AllSpace(s: string, a: nat, b: nat)
    requires a <= b <= |s|
  {
    forall i :: a <= i < b ==> IsWhiteSpace(s[i])
  }

  predicate NoLineBreak(s: string, a: nat, b: nat)
    requires a <= b <= |s|
  {
    forall i :: a <= i < b ==> !IsLineTerminator(s[i])
  }

  /** `#\s+(.+)$` matches at `p` with the group `(.+)` spanning `s[a..b]`. */
  predicate Matches(s: string, p: nat, a: nat, b: nat)
  {
    && p + 1 < a < b <= |s|
    && LineStart(s, p) && s[p] == '#'
    && AllSpace(s, p + 1, a)
    && NoLineBreak(s, a, b)
    && (b == |s| || IsLineTerminator(s[b]))
  }

  /** Where `(.+)` stops: the first line terminator at or after `q`, or the end. */
  function LineEnd(s: string, q: nat): (e: nat)
    requires q <= |s|
    ensures q <= e <= |s| && NoLineBreak(s, q, e) && (e == |s| || IsLineTerminator(s[e]))
    decreases |s| - q
  {
    if q == |s| || IsLineTerminator(s[q]) then q else LineEnd(s, q + 1)
  }

  /** Where the greedy `\s+` stops: the first non-white-space character at or after `q`, or the end. */
  function SpaceEnd(s: string, q: nat): (e: nat)
    requires q <= |s|
    ensures q <= e <= |s| && AllSpace(s, q, e) && (e == |s| || !IsWhiteSpace(s[e]))
    decreases |s| - q
  {
    if q == |s| || !IsWhiteSpace(s[q]) then q else SpaceEnd(s, q + 1)
  }

  /** Backtracking `\s+`: the group starts at the last of `a, a - 1, ..., p + 2` where `.` can match. */
  function GroupStart(s: string, p: nat, a: nat): (r: Option<nat>)
    requires p + 2 <= a <= |s|
    ensures r.Some? ==> p + 2 <= r.value <= a && r.value < |s| && !IsLineTerminator(s[r.value])
    ensures r.Some? ==> forall c :: r.value < c <= a && c < |s| ==> IsLineTerminator(s[c])
    ensures r.None? ==> forall c :: p + 2 <= c <= a && c < |s| ==> IsLineTerminator(s[c])
    decreases a
  {
    if a < |s| && !IsLineTerminator(s[a]) then Some(a)
    else if a == p + 2 then None
    else GroupStart(s, p, a - 1)
  }

  lemma MatchEnd(s: string, p: nat, a: nat, b: nat)
    requires Matches(s, p, a, b)
    ensures b == LineEnd(s, a)
  {
    var e := LineEnd(s, a);
    // Naming s[b] and s[e] lets the facts about those characters be used.
    if b < |s| {
      var c := s[b];
    }
    if e < |s| {
      var c := s[e];
    }
  }

  /** The pattern tried at `p`: the bounds of the group, if it matches there. */
  function MatchAt(s: string, p: nat): (r: Option<(nat, nat)>)
    ensures r.Some? ==> Matches(s, p, r.value.0, r.value.1)
    ensures r.Some? ==> forall a: nat, b: nat :: Matches(s, p, a, b) ==> a <= r.value.0
    ensures r.None? ==> forall a: nat, b: nat :: !Matches(s, p, a, b)
  {
    if p < |s| && LineStart(s, p) && s[p] == '#' && SpaceEnd(s, p + 1) >= p + 2 then
      var k := SpaceEnd(s, p + 1);
      match GroupStart(s, p, k)
      case Some(a) =>
        assert AllSpace(s, p + 1, a);
        forall a': nat, b': nat | Matches(s, p, a', b') ensures a' <= a {
          assert !IsLineTerminator(s[a']);
        }
        Some((a, LineEnd(s, a)))
      case None =>
        forall a': nat, b': nat ensures !Matches(s, p, a', b') {
          if a' < |s| {
            var c := s[a'];  // a line terminator by GroupStart, not one by Matches
          }
        }
        None
    else
      forall a': nat, b': nat ensures !Matches(s, p, a', b') {
        if p + 1 < |s| {
          var c := s[p + 1];  // not white space, so `\s+` cannot start
        }
      }
      None
  }

  /** A match found by the leftmost search: where it starts and the bounds of its group. */
  datatype Found = Found(start: nat, group: nat, groupEnd: nat)

  /** `content.match(...)`, searching from `p` onwards. */
  function FirstMatch(s: string, p: nat): (r: Option<Found>)
    ensures r.Some? ==> p <= r.value.start && Matches(s, r.value.start, r.value.group, r.value.groupEnd)
    ensures r.Some? ==> forall a: nat, b: nat :: Matches(s, r.value.start, a, b) ==> a <= r.value.group
    ensures forall q: nat, a: nat, b: nat :: p <= q && Matches(s, q, a, b) && (r.None? || q < r.value.start) ==> false
    decreases |s| - p
  {
    if p >= |s| then None
    else
      match MatchAt(s, p)
      case Some((a, b)) => Some(Found(p, a, b))
      case None => FirstMatch(s, p + 1)
  }

  /** `title = titleMatch[1].trim()`, then `title || undefined`. */
  function ExtractTitle(content: string): (title: Option<string>)
    ensures (forall p: nat, a: nat, b: nat :: !Matches(content, p, a, b)) ==> title == None
    ensures title.Some? ==> title.value != "" && IsTrimmed(title.value)
  {
    match FirstMatch(content, 0)
    case None => None
    case Some(m) =>
      var t := Trim(content[m.group..m.groupEnd]);
      if t == "" then None else Some(t)
  }

  /**
   * The title is the trimmed group of THE match the pattern selects: the first position
   * where it matches, and there the group that starts as late as the greedy `\s+` allows.
   */
  lemma TitleOfLeftmostMatch(content: string, p: nat, a: nat, b: nat)
    requires Matches(content, p, a, b)
    requires forall q: nat, a': nat, b': nat :: q < p ==> !Matches(content, q, a', b')
    requires forall a': nat, b': nat :: Matches(content, p, a', b') ==> a' <= a
    ensures ExtractTitle(content) == (if Trim(content[a..b]) == "" then None else Some(Trim(content[a..b])))
  {
    var m := FirstMatch(content, 0).value;
    assert m.start == p;
    assert m.group == a;
    MatchEnd(content, p, a, b);
    MatchEnd(content, p, m.group, m.groupEnd);
  }

  /**
   * A line that starts `##` never gives the title, since after the first `#` comes `#`, not
   * white space: a text whose every `#` at a line start is followed by another has none.
   */
  lemma DoubleHashesGiveNoTitle(s: string)
    requires forall p :: 0 <= p < |s| && LineStart(s, p) && s[p] == '#' ==> p + 1 < |s| && s[p + 1] == '#'
    ensures ExtractTitle(s) == None
  {
    assert !IsWhiteSpace('#');
    forall p: nat, a: nat, b: nat ensures !Matches(s, p, a, b) {
      if p < |s| && LineStart(s, p) && s[p] == '#' && p + 1 < a && a <= |s| {
        assert s[p + 1] == '#';
      }
    }
  }

  /** `\s+` runs over the line break: a bare `#` line takes its title from the next line. */
  lemma TitleFromNextLine(line: string)
    requires line != [] && !IsWhiteSpace(line[0]) && NoLineBreak(line, 0, |line|)
    ensures ExtractTitle("#\n" + line) == Some(Trim(line))
  {
    var s := "#\n" + line;
    var n := |s|;
    assert s[2..n] == line;
    assert Matches(s, 0, 2, n) by {
      assert IsWhiteSpace(s[1]);
      forall i | 2 <= i < n ensures !IsLineTerminator(s[i]) {
        assert s[i] == line[i - 2];
      }
    }
    assert !IsWhiteSpace(s[2]);
    TitleOfLeftmostMatch(s, 0, 2, n);
    TrimStartPadded([], line);
    assert Trim(line) != [];
  }

  // ---------------------------------------------------------------------------------
  // The upload handler
  // ---------------------------------------------------------------------------------

  /** What `FileReader.readAsText` ends with. */
  datatype ReadResult = Text(text: string) | ReadError

  datatype SelectedFile = SelectedFile(name: string, read: ReadResult)

  /** What the callback `onContentLoaded` receives. */
  datatype Loaded = Loaded(title: Option<string>, content: string)

  datatype UploadOutcome = NoFile | NotMarkdown | LoadedFile | ReadFailed

  class Uploader {
    var isLoading: bool
    /** The file input's value. */
    var inputValue: string
    /** The calls made so far to `onContentLoaded`, oldest first. */
    var delivered: seq<Loaded>

    constructor()
      ensures !isLoading && delivered == []
    {
      isLoading := false;
      inputValue := "";
      delivered := [];
    }

    /** `handleFileUpload` with its reader's `onload` or `onerror` run to completion. */
    method HandleFileUpload(file: Option<SelectedFile>) returns (outcome: UploadOutcome)
      modifies this
      ensures file.None? ==> outcome == NoFile && unchanged(this)
      ensures file.Some? && !IsMarkdownName(file.value.name) ==> outcome == NotMarkdown && unchanged(this)
      ensures file.Some? && IsMarkdownName(file.value.name) && file.value.read.Text? ==>
                && outcome == LoadedFile
                && delivered == old(delivered) + [Loaded(ExtractTitle(file.value.read.text), file.value.read.text)]
                && inputValue == "" && !isLoading
      ensures file.Some? && IsMarkdownName(file.value.name) && file.value.read.ReadError? ==>
                outcome == ReadFailed && delivered == old(delivered) && inputValue == old(inputValue) && !isLoading
    {
      if file.None? {
        return NoFile;
      }
      if !IsMarkdownName(file.value.name) {
        return NotMarkdown;
      }
      isLoading := true;
      match file.value.read
      case Text(content) =>
        var title := ExtractTitle(content);
        delivered := delivered + [Loaded(title, content)];
        inputValue := "";
        isLoading := false;
        outcome := LoadedFile;
      case ReadError =>
        isLoading := false;
        outcome := ReadFailed;
    }
  }

  /** A file without the `.md` ending never reaches the callback, whatever it holds. */
  method RejectsOtherFiles(name: string, read: ReadResult) returns (calls: seq<Loaded>)
    requires !IsMarkdownName(name)
    ensures calls == []
  {
    var uploader := new Uploader();
    var outcome := uploader.HandleFileUpload(Some(SelectedFile(name, read)));
    calls := uploader.delivered;
  }
}
