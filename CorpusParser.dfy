/**
 * `DataProcessor.parse_text_file`: reading one crawler text file back into a
 * corpus record.  The title and URL come from the first `标题: ` and `网址: `
 * lines; the body is the file with every header block removed and cut at the
 * first image manifest and at the first `Specials`/`Videos` line; the date is
 * looked up in that body.
 */
module CorpusParser {
  import opened Wrappers
  import opened Strings
  import opened TextWriter
  import ContentDate

  /** The dictionary `parse_text_file` returns. */
  datatype CorpusRecord = CorpusRecord(
    title: string,
    content: string,
    source: string,
    mediaName: string,
    kind: string,
    filePath: string,
    imageUrl: Option<string>,
    videoUrl: Option<string>,
    publishDate: Option<ContentDate.Date>)

  // ---------------------------------------------------------------------------
  // Scanning
  // ---------------------------------------------------------------------------

  /** The end of the line that starts at `i`: the next newline, or the end of the text. */
  function LineEnd(s: string, i: nat): (e: nat)
    requires i <= |s|
    ensures i <= e <= |s| && (e < |s| ==> s[e] == '\n')
    ensures forall k :: i <= k < e ==> s[k] != '\n'
    decreases |s| - i
  {
    if i == |s| || s[i] == '\n' then i else LineEnd(s, i + 1)
  }

  /** `re.search(marker + '(.+)', s)`: where the captured rest of line starts, for the first
      occurrence of `marker` at or after `from` that is followed by a character other than a
      newline. */
  function FieldStart(s: string, marker: string, from: nat): (r: Option<nat>)
    ensures r.Some? ==> from + |marker| <= r.value < |s| && OccursAt(s, marker, r.value - |marker|) && s[r.value] != '\n'
    ensures r.Some? ==> forall j :: from <= j < r.value - |marker| ==>
              !(OccursAt(s, marker, j) && j + |marker| < |s| && s[j + |marker|] != '\n')
    ensures r.None? ==> forall j :: from <= j ==>
              !(OccursAt(s, marker, j) && j + |marker| < |s| && s[j + |marker|] != '\n')
    decreases |s| - from
  {
    if from + |marker| >= |s| then None
    else if OccursAt(s, marker, from) && s[from + |marker|] != '\n' then Some(from + |marker|)
    else FieldStart(s, marker, from + 1)
  }

  /** `match.group(1).strip()` for that search, or None without a match. */
  function Field(s: string, marker: string): Option<string> {
    match FieldStart(s, marker, 0)
    case None => None
    case Some(a) => Some(Strip(s[a..LineEnd(s, a)]))
  }

  /** `os.path.basename`: the part after the last slash. */
  function BaseName(path: string): (r: string)
    ensures '/' !in r
    ensures |r| <= |path| && path[|path| - |r|..] == r
    ensures |r| < |path| ==> path[|path| - |r| - 1] == '/'
  {
    if path == [] || path[|path| - 1] == '/' then []
    else BaseName(path[..|path| - 1]) + [path[|path| - 1]]
  }

  /** A match of `标题: .+\n网址: .+\n\n` at `i`. */
  predicate HeaderAt(s: string, i: nat) {
    OccursAt(s, TitleLabel, i) && i + 4 < |s| &&
    var e1 := LineEnd(s, i + 4);
    i + 4 < e1 && OccursAt(s, UrlLabel, e1 + 1) && e1 + 5 < |s| &&
    var e2 := LineEnd(s, e1 + 5);
    e1 + 5 < e2 && e2 + 1 < |s| && s[e2 + 1] == '\n'
  }

  /** Where that match ends. */
  function HeaderEnd(s: string, i: nat): (e: nat)
    requires HeaderAt(s, i)
    ensures i < e <= |s|
  {
    LineEnd(s, LineEnd(s, i + 4) + 5) + 2
  }

  /** `re.sub(header_pattern, '', s)` from `i` on: every non-overlapping match, scanning left
      to right, removed. */
  function DropHeaders(s: string, i: nat): string
    decreases |s| - i
  {
    if i >= |s| then []
    else if HeaderAt(s, i) then DropHeaders(s, HeaderEnd(s, i))
    else [s[i]] + DropHeaders(s, i + 1)
  }

  /** `re.sub(pat + '.*$', '', s, flags=re.DOTALL)` for a literal `pat`: everything from the
      first occurrence on is removed. */
  function CutAt(s: string, pat: string): (r: string)
    ensures |r| <= |s| && r == s[..|r|]
    ensures forall j :: 0 <= j < |r| ==> !OccursAt(s, pat, j)
    ensures |r| < |s| ==> OccursAt(s, pat, |r|)
    ensures !Contains(s, pat) ==> r == s
  {
    match IndexOf(s, pat)
    case None => s
    case Some(p) => s[..p]
  }

  /** `re.sub(r'\n(?:Specials|Videos)\n.*$', '', s, flags=re.DOTALL)`: cut at the first line
      that is exactly `Specials` or `Videos`. */
  function CutSpecials(s: string): (r: string)
    ensures |r| <= |s| && r == s[..|r|]
    ensures forall j :: 0 <= j < |r| ==> !OccursAt(s, "\nSpecials\n", j) && !OccursAt(s, "\nVideos\n", j)
    ensures |r| < |s| ==> OccursAt(s, "\nSpecials\n", |r|) || OccursAt(s, "\nVideos\n", |r|)
    ensures !Contains(s, "\nSpecials\n") && !Contains(s, "\nVideos\n") ==> r == s
  {
    match (IndexOf(s, "\nSpecials\n"), IndexOf(s, "\nVideos\n"))
    case (None, None) => s
    case (Some(p), None) => s[..p]
    case (None, Some(q)) => s[..q]
    case (Some(p), Some(q)) => if p <= q then s[..p] else s[..q]
  }

  /** `text_content` before its final strip. */
  function TextContent(raw: string): (r: string)
    ensures !Contains(r, ImageHeading)
  {
    var cut := CutAt(DropHeaders(raw, 0), ImageHeading);
    CutAtFree(DropHeaders(raw, 0), ImageHeading);
    NotContainsSlice(cut, ImageHeading, 0, |CutSpecials(cut)|);
    CutSpecials(cut)
  }

  /** The `url` that `parse_text_file` computes (it is not part of the record it returns). */
  function ParsedUrl(raw: string): string {
    if Field(raw, UrlLabel).Some? then Field(raw, UrlLabel).value else ""
  }

  /** `parse_text_file(file_path)`: `raw` is the file's text, None when it cannot be read. */
  function ParseTextFile(filePath: string, raw: Option<string>): (r: Option<CorpusRecord>)
    ensures r.None? <==> raw.None?
    ensures r.Some? ==> r.value.filePath == filePath && r.value.videoUrl.None? &&
                        (r.value.imageUrl.Some? <==> Contains(raw.value, ImageHeading))
  {
    match raw
    case None => None
    case Some(text) =>
      var title := if Field(text, TitleLabel).Some? then Field(text, TitleLabel).value else BaseName(filePath);
      var body := TextContent(text);
      var hasImages := Contains(text, ImageHeading);
      Some(CorpusRecord(title, Strip(body), "china", "China Daily", "text", filePath,
                        if hasImages then Some("images/" + title + "_1.jpg") else None,
                        None, ContentDate.ExtractDate(body)))
  }

  // ---------------------------------------------------------------------------
  // Properties of every parse
  // ---------------------------------------------------------------------------

  /** Whatever the file holds: the fixed fields are constant, the image URL is present
      exactly when the file mentions an image manifest and then names the first image of the
      title, and the body never contains an image manifest heading. */
  lemma ParseShape(filePath: string, text: string)
    ensures var r := ParseTextFile(filePath, Some(text)).value;
      r.source == "china" && r.mediaName == "China Daily" && r.kind == "text" &&
      r.filePath == filePath && r.videoUrl.None? &&
      (r.imageUrl.Some? <==> Contains(text, ImageHeading)) &&
      (r.imageUrl.Some? ==> r.imageUrl.value == "images/" + r.title + "_1.jpg") &&
      !Contains(r.content, ImageHeading)
  {
    var cut := CutAt(DropHeaders(text, 0), ImageHeading);
    CutAtFree(DropHeaders(text, 0), ImageHeading);
    var body := CutSpecials(cut);
    NotContainsSlice(cut, ImageHeading, 0, |body|);
    var i := LeadingSpace(body);
    NotContainsSlice(body, ImageHeading, i, TrailingCut(body, i));
  }

  /** An unreadable file gives no record. */
  lemma UnreadableGivesNone(filePath: string)
    ensures ParseTextFile(filePath, None).None?
  {
  }

  /** Cutting at a pattern leaves no occurrence of it. */
  lemma CutAtFree(s: string, pat: string)
    requires pat != []
    ensures !Contains(CutAt(s, pat), pat)
  {
    match IndexOf(s, pat)
    case None =>
    case Some(p) =>
      forall j | OccursAt(s[..p], pat, j) ensures false {
        assert s[..p][j..j + |pat|] == s[j..j + |pat|];
        assert OccursAt(s, pat, j);
      }
      ContainsIff(s[..p], pat);
  }

  // ---------------------------------------------------------------------------
  // Round trip with the writer
  // ---------------------------------------------------------------------------

  /** A file written without media lists is read back as the title, URL and body it was
      written from: the title and the URL are found again, the body is the stripped paragraph
      block, and no image is announced. */
  lemma RoundTrip(filePath: string, title: string, url: string, content: string)
    requires title != [] && '\n' !in title && NoSpaceAtEnds(title)
    requires !Contains(title, UrlLabel) && !Contains(title, ImageHeading)
    requires url != [] && '\n' !in url && NoSpaceAtEnds(url) && !Contains(url, ImageHeading)
    requires !Contains(content, TitleLabel) && !Contains(content, ImageHeading)
    requires !Contains(content, "\nSpecials\n") && !Contains(content, "\nVideos\n")
    ensures var raw := RenderText(title, url, content, [], []);
      ParsedUrl(raw) == url &&
      ParseTextFile(filePath, Some(raw)) ==
        Some(CorpusRecord(title, Strip(content), "china", "China Daily", "text", filePath,
                          None, None, ContentDate.ExtractDate(content)))
  {
    TitleRead(title, url, content);
    UrlRead(title, url, content);
    BodyRead(title, url, content);
    HeadingStartsApart();
    RenderedFree(title, url, content, ImageHeading);
  }

  /** The image heading starts with a character of neither label and holds no newline. */
  lemma HeadingStartsApart()
    ensures ImageHeading != [] && '\n' !in ImageHeading
    ensures ImageHeading[0] !in TitleLabel && ImageHeading[0] !in UrlLabel
  {
  }

  /** The title line of a rendered file is read back as the title. */
  lemma TitleRead(title: string, url: string, content: string)
    requires title != [] && '\n' !in title && NoSpaceAtEnds(title)
    ensures Field(RenderText(title, url, content, [], []), TitleLabel) == Some(title)
  {
    var raw := RenderText(title, url, content, [], []);
    var e1 := 4 + |title|;
    HeaderLayout(title, url, content);
    assert FieldStart(raw, TitleLabel, 0) == Some(4);
    LineEndAt(raw, 4, e1);
    StripTrimmed(title);
  }

  /** The URL line of a rendered file is read back as the URL. */
  lemma UrlRead(title: string, url: string, content: string)
    requires '\n' !in title && !Contains(title, UrlLabel)
    requires url != [] && '\n' !in url && NoSpaceAtEnds(url)
    ensures Field(RenderText(title, url, content, [], []), UrlLabel) == Some(url)
  {
    var raw := RenderText(title, url, content, [], []);
    var e1 := 4 + |title|;
    var e2 := e1 + 5 + |url|;
    HeaderLayout(title, url, content);
    PrefixFree(TitleLabel, title, UrlLabel);
    assert raw[..e1] == TitleLabel + title;
    NoOccurrenceUpTo(raw, UrlLabel, e1);
    FieldStartSkip(raw, UrlLabel, 0, e1 + 1);
    LineEndAt(raw, e1 + 5, e2);
    var line := raw[e1 + 5..e2];
    assert Field(raw, UrlLabel) == Some(Strip(line));
    assert line == url;
    StripTrimmed(url);
  }

  /** The body of a rendered file without media lists is the paragraph block itself. */
  lemma BodyRead(title: string, url: string, content: string)
    requires title != [] && '\n' !in title && url != [] && '\n' !in url
    requires !Contains(content, TitleLabel) && !Contains(content, ImageHeading)
    requires !Contains(content, "\nSpecials\n") && !Contains(content, "\nVideos\n")
    ensures TextContent(RenderText(title, url, content, [], [])) == content
  {
    var raw := RenderText(title, url, content, [], []);
    var e1 := 4 + |title|;
    var e2 := e1 + 5 + |url|;
    var h := e2 + 2;
    HeaderLayout(title, url, content);
    LineEndAt(raw, 4, e1);
    LineEndAt(raw, e1 + 5, e2);
    assert HeaderAt(raw, 0);
    assert HeaderEnd(raw, 0) == h;
    assert raw[h..] == content;
    assert !Contains(raw[h..], TitleLabel);
    forall j | h <= j < |raw| ensures !OccursAt(raw, TitleLabel, j) {
      NoOccurrenceInSuffix(raw, h, TitleLabel, j);
    }
    DropHeadersNone(raw, h);
    assert DropHeaders(raw, 0) == content;
    assert IndexOf(content, ImageHeading).None?;
    assert CutAt(content, ImageHeading) == content;
    assert IndexOf(content, "\nSpecials\n").None? && IndexOf(content, "\nVideos\n").None?;
  }

  /** Where the parts of a rendered header sit. */
  lemma HeaderLayout(title: string, url: string, content: string)
    ensures var raw := RenderText(title, url, content, [], []);
      var e1 := 4 + |title|;
      var e2 := e1 + 5 + |url|;
      |raw| == e2 + 2 + |content| &&
      raw[..4] == TitleLabel && raw[4..e1] == title && raw[e1] == '\n' &&
      raw[e1 + 1..e1 + 5] == UrlLabel && raw[e1 + 5..e2] == url &&
      raw[e2] == '\n' && raw[e2 + 1] == '\n' && raw[e2 + 2..] == content
  {
  }

  /** `LineEnd` is the first newline from `i`, or the end. */
  lemma {:induction false} LineEndAt(s: string, i: nat, e: nat)
    requires i <= e <= |s| && (e < |s| ==> s[e] == '\n')
    requires forall k :: i <= k < e ==> s[k] != '\n'
    ensures LineEnd(s, i) == e
    decreases e - i
  {
    if i < e {
      LineEndAt(s, i + 1, e);
    }
  }

  /** The search for a field skips every position before the first real one. */
  lemma {:induction false} FieldStartSkip(s: string, marker: string, from: nat, target: nat)
    requires from <= target && OccursAt(s, marker, target) && target + |marker| < |s| && s[target + |marker|] != '\n'
    requires forall j :: from <= j < target ==> !OccursAt(s, marker, j)
    ensures FieldStart(s, marker, from) == Some(target + |marker|)
    decreases target - from
  {
    if from < target {
      FieldStartSkip(s, marker, from + 1, target);
    }
  }

  /** A pattern whose first character is not in `marker` is not found in `marker + t` unless it
      is found in `t`. */
  lemma PrefixFree(marker: string, t: string, pat: string)
    requires pat != [] && pat[0] !in marker && !Contains(t, pat)
    ensures !Contains(marker + t, pat)
  {
    var s := marker + t;
    forall j | 0 <= j && j + |pat| <= |s| ensures !OccursAt(s, pat, j) {
      if j >= |marker| {
        assert s[j..j + |pat|] == t[j - |marker|..j - |marker| + |pat|];
        assert !OccursAt(t, pat, j - |marker|);
      } else {
        assert s[j..j + |pat|][0] == marker[j];
        assert marker[j] in marker;
      }
    }
    ContainsIff(s, pat);
  }

  /** A newline-free pattern that is not found before a newline cannot start before it. */
  lemma NoOccurrenceUpTo(s: string, pat: string, e: nat)
    requires e < |s| && s[e] == '\n' && '\n' !in pat && !Contains(s[..e], pat)
    ensures forall j :: 0 <= j <= e ==> !OccursAt(s, pat, j)
  {
    forall j | 0 <= j <= e && j + |pat| <= |s| ensures !OccursAt(s, pat, j) {
      if j + |pat| <= e {
        assert s[..e][j..j + |pat|] == s[j..j + |pat|];
        assert !OccursAt(s[..e], pat, j);
      } else {
        assert s[j..j + |pat|][e - j] == '\n';
        assert pat[e - j] in pat;
      }
    }
  }

  /** An occurrence inside a suffix is an occurrence in that suffix. */
  lemma NoOccurrenceInSuffix(s: string, h: nat, pat: string, j: nat)
    requires h <= j <= |s| && !Contains(s[h..], pat)
    ensures !OccursAt(s, pat, j)
  {
    if j + |pat| <= |s| {
      assert s[h..][j - h..j - h + |pat|] == s[j..j + |pat|];
      assert !OccursAt(s[h..], pat, j - h);
    }
  }

  /** With no title marker left, removing header blocks changes nothing. */
  lemma {:induction false} DropHeadersNone(s: string, i: nat)
    requires i <= |s|
    requires forall j :: i <= j < |s| ==> !OccursAt(s, TitleLabel, j)
    ensures DropHeaders(s, i) == s[i..]
    decreases |s| - i
  {
    if i < |s| {
      DropHeadersNone(s, i + 1);
      assert s[i..] == [s[i]] + s[i + 1..];
    }
  }

  /** Joining two parts with a newline creates no occurrence of a newline-free pattern. */
  lemma NotContainsAcrossNewline(a: string, b: string, pat: string)
    requires '\n' !in pat && !Contains(a, pat) && !Contains(b, pat)
    ensures !Contains(a + "\n" + b, pat)
  {
    var s := a + "\n" + b;
    forall j | 0 <= j && j + |pat| <= |s| ensures !OccursAt(s, pat, j) {
      if j + |pat| <= |a| {
        assert s[j..j + |pat|] == a[j..j + |pat|];
        assert !OccursAt(a, pat, j);
      } else if j > |a| {
        assert s[j..j + |pat|] == b[j - |a| - 1..j - |a| - 1 + |pat|];
        assert !OccursAt(b, pat, j - |a| - 1);
      } else {
        assert s[j..j + |pat|][|a| - j] == '\n';
        assert pat[|a| - j] in pat;
      }
    }
    ContainsIff(s, pat);
  }

  /** A pattern missing from every part of a header, and not starting with a character of
      either marker, is missing from the rendered header. */
  lemma RenderedFree(title: string, url: string, content: string, pat: string)
    requires pat != [] && '\n' !in pat && pat[0] !in TitleLabel && pat[0] !in UrlLabel
    requires !Contains(title, pat) && !Contains(url, pat) && !Contains(content, pat)
    ensures !Contains(RenderText(title, url, content, [], []), pat)
  {
    PrefixFree(TitleLabel, title, pat);
    PrefixFree(UrlLabel, url, pat);
    assert !Contains([], pat);
    NotContainsAcrossNewline([], content, pat);
    assert [] + "\n" + content == "\n" + content;
    NotContainsAcrossNewline(UrlLabel + url, "\n" + content, pat);
    NotContainsAcrossNewline(TitleLabel + title, UrlLabel + url + "\n" + ("\n" + content), pat);
    assert RenderText(title, url, content, [], []) ==
           TitleLabel + title + "\n" + (UrlLabel + url + "\n" + ("\n" + content));
  }
}
