/**
 * `extract_main_content` of the two word-frequency scripts: the body of a
 * crawled text file is the window of its lines from the first line that is
 * not blank and not a `标题:`/`网址:` header, up to (not including) the first
 * line that mentions a media list.  The Chinese script first rejects a file
 * with no CJK ideograph at all.
 */
module BodyWindow {
  import opened Wrappers
  import opened Strings
  import TextWriter
  import ImageHarvest
  import VideoHarvest

  /** A line where the body may start. */
  predicate BodyLine(line: string) {
    Strip(line) != [] && !StartsWith(line, "标题:") && !StartsWith(line, "网址:")
  }

  /** A line where the body stops. */
  predicate ListLine(line: string) {
    Contains(line, "图片列表:") || Contains(line, "视频列表:")
  }

  /** The first index at or after `from` whose line satisfies `p`. */
  function FirstWhere(lines: seq<string>, p: string -> bool, from: nat): (r: Option<nat>)
    requires from <= |lines|
    ensures r.Some? ==> from <= r.value < |lines| && p(lines[r.value])
    ensures r.Some? ==> forall j :: from <= j < r.value ==> !p(lines[j])
    ensures r.None? ==> forall j :: from <= j < |lines| ==> !p(lines[j])
    decreases |lines| - from
  {
    if from == |lines| then None
    else if p(lines[from]) then Some(from)
    else FirstWhere(lines, p, from + 1)
  }

  /** The window between the first `start` line (or the top) and the first `stop` line (or the
      bottom); empty when the stop line comes first. */
  function WindowBy(lines: seq<string>, start: string -> bool, stop: string -> bool): string {
    var s := match FirstWhere(lines, start, 0) case None => 0 case Some(i) => i;
    var e := match FirstWhere(lines, stop, 0) case None => |lines| case Some(i) => i;
    if s <= e then Join(lines[s..e], "\n") else []
  }

  /** `start_line`: the first body line, 0 when there is none. */
  function StartLine(lines: seq<string>): nat {
    match FirstWhere(lines, BodyLine, 0)
    case None => 0
    case Some(i) => i
  }

  /** `end_line`: the first list line, `len(lines)` when there is none. */
  function EndLine(lines: seq<string>): nat {
    match FirstWhere(lines, ListLine, 0)
    case None => |lines|
    case Some(i) => i
  }

  /** `'\n'.join(lines[start_line:end_line])`. */
  function Window(lines: seq<string>): string {
    WindowBy(lines, BodyLine, ListLine)
  }

  /** The first loop: it breaks at the first body line. */
  method FindStart(lines: seq<string>) returns (start: nat)
    ensures start == 0 || start < |lines|
    ensures (exists i :: 0 <= i < |lines| && BodyLine(lines[i])) ==>
              (start < |lines| && BodyLine(lines[start]) && forall j :: 0 <= j < start ==> !BodyLine(lines[j]))
    ensures start == StartLine(lines)
  {
    start := 0;
    var i := 0;
    while i < |lines|
      invariant i <= |lines|
      invariant FirstWhere(lines, BodyLine, i) == FirstWhere(lines, BodyLine, 0)
    {
      if BodyLine(lines[i]) {
        start := i;
        break;
      }
      i := i + 1;
    }
  }

  /** The second loop: it breaks at the first list line. */
  method FindEnd(lines: seq<string>) returns (end: nat)
    ensures end <= |lines|
    ensures end < |lines| ==> ListLine(lines[end])
    ensures forall j :: 0 <= j < end ==> !ListLine(lines[j])
    ensures end == EndLine(lines)
  {
    end := |lines|;
    var i := 0;
    while i < |lines|
      invariant i <= |lines|
      invariant forall j :: 0 <= j < i ==> !ListLine(lines[j])
      invariant FirstWhere(lines, ListLine, i) == FirstWhere(lines, ListLine, 0)
    {
      if ListLine(lines[i]) {
        end := i;
        break;
      }
      i := i + 1;
    }
  }

  /** What `extract_main_content` returns for a file whose read gave `content` (None when
      reading fails); with `gated`, the Chinese script's check for an ideograph comes first. */
  function MainContent(content: Option<string>, gated: bool): string {
    if content.None? || (gated && !HasCjk(content.value)) then [] else Window(SplitLines(content.value))
  }

  /** `extract_main_content` of the English script; `content` is None when reading fails
      (the function then returns ""). */
  method ExtractMainContent(content: Option<string>) returns (main: string)
    ensures content.None? ==> main == []
    ensures content.Some? ==> main == Window(SplitLines(content.value))
  {
    if content.None? {
      return [];
    }
    var lines := SplitLines(content.value);
    var start := FindStart(lines);
    var end := FindEnd(lines);
    if start <= end {
      main := Join(lines[start..end], "\n");
    } else {
      main := [];
    }
  }

  /** A CJK unified ideograph, the class `[一-龥]`. */
  predicate IsCjk(c: char) { '\U{4e00}' <= c <= '\U{9fa5}' }

  /** `re.search(r'[一-龥]', s)` succeeds. */
  predicate HasCjk(s: string) { exists i :: 0 <= i < |s| && IsCjk(s[i]) }

  /** `extract_main_content` of the Chinese script: a file without any ideograph gives "". */
  method ExtractMainContentCjk(content: Option<string>) returns (main: string)
    ensures content.None? || !HasCjk(content.value) ==> main == []
    ensures content.Some? && HasCjk(content.value) ==> main == Window(SplitLines(content.value))
  {
    if content.None? || !HasCjk(content.value) {
      return [];
    }
    main := ExtractMainContent(content);
  }

  // ---------------------------------------------------------------------------
  // The corpus
  // ---------------------------------------------------------------------------

  /** An entry of `os.listdir(texts_folder)` and what reading it gives (None when it fails). */
  datatype SourceFile = SourceFile(name: string, content: Option<string>)

  predicate EndsWith(s: string, suffix: string) {
    |suffix| <= |s| && s[|s| - |suffix|..] == suffix
  }

  /** The extracted bodies that count: those of `.txt` files that are not empty, in listing order. */
  function Contributions(files: seq<SourceFile>, gated: bool): (r: seq<string>)
    ensures |r| <= |files|
  {
    if files == [] then []
    else
      var f := files[|files| - 1];
      var main := MainContent(f.content, gated);
      Contributions(files[..|files| - 1], gated) + (if EndsWith(f.name, ".txt") && main != [] then [main] else [])
  }

  /** `all_text` after the loop: every contribution followed by a newline. */
  function Corpus(parts: seq<string>): string {
    if parts == [] then [] else Corpus(parts[..|parts| - 1]) + parts[|parts| - 1] + "\n"
  }

  /** The module-level loop over the text folder: `all_text` and `file_count`. */
  method GatherTexts(files: seq<SourceFile>, gated: bool) returns (allText: string, fileCount: nat)
    ensures allText == Corpus(Contributions(files, gated))
    ensures fileCount == |Contributions(files, gated)|
  {
    allText, fileCount := [], 0;
    for i := 0 to |files|
      invariant allText == Corpus(Contributions(files[..i], gated))
      invariant fileCount == |Contributions(files[..i], gated)|
    {
      ContributionsStep(files, i, gated);
      ghost var before := Contributions(files[..i], gated);
      var f := files[i];
      if EndsWith(f.name, ".txt") {
        var content := ExtractFor(f.content, gated);
        if content != [] {
          CorpusStep(before, content);
          allText := allText + content + "\n";
          fileCount := fileCount + 1;
        } else {
          assert Contributions(files[..i + 1], gated) == before + [];
          assert before + [] == before;
        }
      } else {
        assert Contributions(files[..i + 1], gated) == before + [];
        assert before + [] == before;
      }
    }
    assert files[..|files|] == files;
  }

  /** The script's own `extract_main_content`. */
  method ExtractFor(content: Option<string>, gated: bool) returns (main: string)
    ensures main == MainContent(content, gated)
  {
    if gated {
      main := ExtractMainContentCjk(content);
    } else {
      main := ExtractMainContent(content);
    }
  }

  lemma ContributionsStep(files: seq<SourceFile>, i: nat, gated: bool)
    requires i < |files|
    ensures var f := files[i]; var main := MainContent(f.content, gated);
      Contributions(files[..i + 1], gated) ==
        Contributions(files[..i], gated) + (if EndsWith(f.name, ".txt") && main != [] then [main] else [])
  {
    assert files[..i + 1][..i] == files[..i];
  }

  lemma CorpusStep(parts: seq<string>, c: string)
    ensures Corpus(parts + [c]) == Corpus(parts) + c + "\n"
  {
    assert (parts + [c])[..|parts|] == parts;
  }

  /** A listed file that `file_count` counts: a `.txt` name and a non-empty extracted body. */
  predicate Counted(f: SourceFile, gated: bool) {
    EndsWith(f.name, ".txt") && MainContent(f.content, gated) != []
  }

  /** Each contribution is the non-empty body of a listed `.txt` file; `ContributionsComplete`
      and `ContributionsCount` give the other direction. */
  lemma ContributionsSound(files: seq<SourceFile>, gated: bool)
    ensures forall c <- Contributions(files, gated) :: c != [] &&
              exists f <- files :: EndsWith(f.name, ".txt") && MainContent(f.content, gated) == c
  {
    ContributionsGathered(files, gated);
    GatheredSound(files, BodyOf(gated));
  }

  /** Every counted file contributes its body. */
  lemma ContributionsComplete(files: seq<SourceFile>, gated: bool, i: nat)
    requires i < |files| && Counted(files[i], gated)
    ensures MainContent(files[i].content, gated) in Contributions(files, gated)
  {
    ContributionsGathered(files, gated);
    GatheredComplete(files, BodyOf(gated), i);
  }

  /** The contributions of two runs of files are those of the first run followed by those of
      the second: listing order is kept. */
  lemma ContributionsAppend(a: seq<SourceFile>, b: seq<SourceFile>, gated: bool)
    ensures Contributions(a + b, gated) == Contributions(a, gated) + Contributions(b, gated)
  {
    ContributionsGathered(a + b, gated);
    ContributionsGathered(a, gated);
    ContributionsGathered(b, gated);
    GatheredAppend(a, b, BodyOf(gated));
  }

  /** One file contributes its body exactly when it is counted. */
  lemma ContributionsOne(f: SourceFile, gated: bool)
    ensures Contributions([f], gated) == if Counted(f, gated) then [MainContent(f.content, gated)] else []
  {
    assert [f][..0] == [];
  }

  /** The positions of the counted files. */
  function CountedPositions(files: seq<SourceFile>, gated: bool): set<nat> {
    set i | 0 <= i < |files| && Counted(files[i], gated)
  }

  /** `file_count` is the number of counted files. */
  lemma ContributionsCount(files: seq<SourceFile>, gated: bool)
    ensures |Contributions(files, gated)| == |CountedPositions(files, gated)|
  {
    ContributionsGathered(files, gated);
    GatheredCount(files, BodyOf(gated));
    assert GatheredPositions(files, BodyOf(gated)) == CountedPositions(files, gated);
  }

  /** The same selection over any body function: the lemmas below are proved once for an
      arbitrary `body` and read back for the script's extraction through `ContributionsGathered`. */
  function Gathered(files: seq<SourceFile>, body: SourceFile -> string): (r: seq<string>)
    ensures |r| <= |files|
  {
    if files == [] then []
    else
      var f := files[|files| - 1];
      Gathered(files[..|files| - 1], body) + (if EndsWith(f.name, ".txt") && body(f) != [] then [body(f)] else [])
  }

  /** What the script extracts from one listed file. */
  function BodyOf(gated: bool): SourceFile -> string {
    (f: SourceFile) => MainContent(f.content, gated)
  }

  lemma {:induction false} ContributionsGathered(files: seq<SourceFile>, gated: bool)
    ensures Contributions(files, gated) == Gathered(files, BodyOf(gated))
  {
    if files != [] {
      ContributionsGathered(files[..|files| - 1], gated);
      assert BodyOf(gated)(files[|files| - 1]) == MainContent(files[|files| - 1].content, gated);
    }
  }

  lemma {:induction false} GatheredSound(files: seq<SourceFile>, body: SourceFile -> string)
    ensures forall c <- Gathered(files, body) :: c != [] &&
              exists f <- files :: EndsWith(f.name, ".txt") && body(f) == c
  {
    if files != [] {
      var pre := files[..|files| - 1];
      GatheredSound(pre, body);
      forall c | c in Gathered(pre, body)
        ensures exists f <- files :: EndsWith(f.name, ".txt") && body(f) == c
      {
        var f :| f in pre && EndsWith(f.name, ".txt") && body(f) == c;
        assert f in files;
      }
    }
  }

  lemma {:induction false} GatheredComplete(files: seq<SourceFile>, body: SourceFile -> string, i: nat)
    requires i < |files| && Picked(files[i], body)
    ensures body(files[i]) in Gathered(files, body)
  {
    var n := |files| - 1;
    if i < n {
      assert files[..n][i] == files[i];
      GatheredComplete(files[..n], body, i);
    }
  }

  lemma {:induction false} GatheredAppend(a: seq<SourceFile>, b: seq<SourceFile>, body: SourceFile -> string)
    ensures Gathered(a + b, body) == Gathered(a, body) + Gathered(b, body)
    decreases |b|
  {
    if b == [] {
      assert a + b == a;
    } else {
      var n := |b| - 1;
      assert (a + b)[..|a + b| - 1] == a + b[..n];
      assert (a + b)[|a + b| - 1] == b[n];
      GatheredAppend(a, b[..n], body);
    }
  }

  predicate Picked(f: SourceFile, body: SourceFile -> string) {
    EndsWith(f.name, ".txt") && body(f) != []
  }

  function GatheredPositions(files: seq<SourceFile>, body: SourceFile -> string): set<nat> {
    set i | 0 <= i < |files| && Picked(files[i], body)
  }

  lemma {:induction false} GatheredCount(files: seq<SourceFile>, body: SourceFile -> string)
    ensures |Gathered(files, body)| == |GatheredPositions(files, body)|
  {
    if files != [] {
      var n := |files| - 1;
      GatheredCount(files[..n], body);
      PositionsStep(files, body);
      if Picked(files[n], body) {
        assert n !in GatheredPositions(files[..n], body);
      }
    }
  }

  lemma PositionsStep(files: seq<SourceFile>, body: SourceFile -> string)
    requires files != []
    ensures var n := |files| - 1;
      GatheredPositions(files, body) ==
        GatheredPositions(files[..n], body) + (if Picked(files[n], body) then {n} else {})
  {
    var n := |files| - 1;
    var pre := files[..n];
    var add: set<nat> := if Picked(files[n], body) then {n} else {};
    forall i: nat | i in GatheredPositions(files, body)
      ensures i in GatheredPositions(pre, body) + add
    {
      if i < n {
        assert pre[i] == files[i];
      }
    }
    forall i: nat | i in GatheredPositions(pre, body)
      ensures i in GatheredPositions(files, body)
    {
      assert pre[i] == files[i];
    }
  }

  // ---------------------------------------------------------------------------
  // Properties
  // ---------------------------------------------------------------------------

  /** An article text that opens with a body line and holds no list line. */
  predicate ArticleText(content: string) {
    BodyLine(SplitLines(content)[0]) &&
    forall k :: 0 <= k < |SplitLines(content)| ==> !ListLine(SplitLines(content)[k])
  }

  /** Two single header lines, neither a body line nor a list line. */
  predicate HeaderPair(t: string, u: string) {
    '\n' !in t && '\n' !in u && !BodyLine(t) && !BodyLine(u) && !BodyLine([]) &&
    !ListLine(t) && !ListLine(u) && !ListLine([])
  }

  /** The window of a file the crawler wrote is its article text: the header lines and the
      media lists are cut off (the blank line before a list stays, as a final newline). */
  lemma WindowOfRendered(title: string, url: string, content: string,
                         images: seq<ImageHarvest.SavedImage>, videos: seq<VideoHarvest.SavedVideo>)
    requires '\n' !in title && '\n' !in url
    requires !ListLine(TextWriter.TitleLabel + title) && !ListLine(TextWriter.UrlLabel + url)
    requires ArticleText(content)
    ensures Window(SplitLines(TextWriter.RenderText(title, url, content, images, videos))) ==
            content + (if images == [] && videos == [] then [] else "\n")
  {
    var t := TextWriter.TitleLabel + title;
    var u := TextWriter.UrlLabel + url;
    RenderedParts(title, url, content, images, videos);
    HeadLinesNotBody(title, url);
    EmptyNotListLine();
    assert HeaderPair(t, u);
    var media := TextWriter.ImageManifest(images) + TextWriter.VideoManifest(videos);
    if images == [] && videos == [] {
      WindowWithoutMedia(t, u, content, media);
    } else {
      var heading, rest := ListHeading(images, videos);
      WindowWithMedia(t, u, content, media, heading, rest);
    }
  }

  lemma WindowWithoutMedia(t: string, u: string, content: string, media: string)
    requires media == []
    requires HeaderPair(t, u) && ArticleText(content)
    ensures Window(SplitLines(t + "\n" + u + "\n\n" + (content + media))) == content
  {
    var cl := SplitLines(content);
    SplitHeader(t, u, content + media);
    JoinSplitLines(content);
    assert content + media == content;
    assert cl + [] == cl;
    WindowAfterHead(t, u, [], cl, [], BodyLine, ListLine);
  }

  lemma WindowWithMedia(t: string, u: string, content: string, media: string, heading: string, rest: string)
    requires media == "\n\n" + heading + "\n" + rest
    requires HeaderPair(t, u) && ArticleText(content)
    requires '\n' !in heading && ListLine(heading)
    ensures Window(SplitLines(t + "\n" + u + "\n\n" + (content + media))) ==
            content + "\n"
  {
    SplitHeader(t, u, content + media);
    JoinSplitLines(content);
    var cl := SplitLines(content);
    SplitMedia(content, heading, rest);
    var tail := [[], heading] + SplitLines(rest);
    assert tail[0] == [] && tail[1] == heading;
    WindowAfterHead(t, u, [], cl, tail, BodyLine, ListLine);
    JoinAppend(cl, [], "\n");
  }

  /** The rendered file is the two header lines, a blank line, the text and the media section. */
  lemma RenderedParts(title: string, url: string, content: string,
                      images: seq<ImageHarvest.SavedImage>, videos: seq<VideoHarvest.SavedVideo>)
    ensures TextWriter.RenderText(title, url, content, images, videos) ==
            (TextWriter.TitleLabel + title) + "\n" + (TextWriter.UrlLabel + url) + "\n\n" +
            (content + (TextWriter.ImageManifest(images) + TextWriter.VideoManifest(videos)))
  {
    var x := TextWriter.TitleLabel + title + "\n" + TextWriter.UrlLabel + url + "\n\n";
    var im, vm := TextWriter.ImageManifest(images), TextWriter.VideoManifest(videos);
    assert x == (TextWriter.TitleLabel + title) + "\n" + (TextWriter.UrlLabel + url) + "\n\n";
    TextWriter.AppendAssoc(x, content, im);
    TextWriter.AppendAssoc(x + content, im, vm);
    TextWriter.AppendAssoc(x, content + im, vm);
    TextWriter.AppendAssoc(content, im, vm);
  }

  lemma SplitHeader(t: string, u: string, rest: string)
    requires '\n' !in t && '\n' !in u
    ensures SplitLines(t + "\n" + u + "\n\n" + rest) == [t, u, []] + SplitLines(rest)
  {
    assert t + "\n" + u + "\n\n" + rest == t + "\n" + (u + "\n" + ([] + "\n" + rest));
    SplitPrefix(t, u + "\n" + ([] + "\n" + rest));
    SplitPrefix(u, [] + "\n" + rest);
    SplitPrefix([], rest);
  }

  lemma SplitMedia(content: string, heading: string, rest: string)
    requires '\n' !in heading
    ensures SplitLines(content + ("\n\n" + heading + "\n" + rest)) ==
            SplitLines(content) + ([[], heading] + SplitLines(rest))
  {
    var inner := heading + "\n" + rest;
    var after := [] + "\n" + inner;
    assert content + ("\n\n" + heading + "\n" + rest) == content + "\n" + after;
    SplitConcat(content, after);
    SplitPrefix([], inner);
    SplitPrefix(heading, rest);
    assert SplitLines(after) == [[], heading] + SplitLines(rest);
  }

  /** The non-empty media section starts with a blank line and a list heading. */
  lemma ListHeading(images: seq<ImageHarvest.SavedImage>, videos: seq<VideoHarvest.SavedVideo>)
    returns (heading: string, rest: string)
    requires images != [] || videos != []
    ensures '\n' !in heading && ListLine(heading)
    ensures TextWriter.ImageManifest(images) + TextWriter.VideoManifest(videos) ==
            "\n\n" + heading + "\n" + rest
  {
    if images != [] {
      heading := TextWriter.ImageHeading;
      rest := TextWriter.ImageLines(images) + TextWriter.VideoManifest(videos);
      TextWriter.AppendAssoc("\n\n" + heading + "\n", TextWriter.ImageLines(images), TextWriter.VideoManifest(videos));
      ContainsSelf("图片列表:");
    } else {
      heading := TextWriter.VideoHeading;
      rest := TextWriter.VideoLines(videos);
      ContainsSelf("视频列表:");
    }
  }

  lemma EmptyNotListLine()
    ensures !ListLine([]) && !BodyLine([])
  {
  }

  lemma ContainsSelf(s: string)
    ensures Contains(s, s)
  {
    assert OccursAt(s, s, 0);
  }

  /** Neither header line nor the blank line after them starts the body. */
  lemma HeadLinesNotBody(title: string, url: string)
    ensures !BodyLine(TextWriter.TitleLabel + title) && !BodyLine(TextWriter.UrlLabel + url) && !BodyLine([])
  {
    assert (TextWriter.TitleLabel + title)[..|"标题:"|] == "标题:";
    assert (TextWriter.UrlLabel + url)[..|"网址:"|] == "网址:";
  }

  /** The window of three lines that neither start nor stop it, the body lines and a tail
      that opens with a line that does not stop it and then a line that does. */
  lemma WindowAfterHead(h0: string, h1: string, h2: string, body: seq<string>, tail: seq<string>,
                        p: string -> bool, q: string -> bool)
    requires !p(h0) && !p(h1) && !p(h2) && !q(h0) && !q(h1) && !q(h2)
    requires |body| >= 1 && p(body[0])
    requires forall k :: 0 <= k < |body| ==> !q(body[k])
    requires tail == [] || (|tail| >= 2 && !q(tail[0]) && q(tail[1]))
    ensures WindowBy([h0, h1, h2] + (body + tail), p, q) == Join(body + (if tail == [] then [] else [tail[0]]), "\n")
  {
    var head := [h0, h1, h2];
    var lines := head + (body + tail);
    assert (body + tail)[0] == body[0];
    FirstInMiddle(head, body + tail, p);
    var extra := if tail == [] then [] else [tail[0]];
    var pre := head + body + extra;
    NoStopBefore(h0, h1, h2, body, extra, q);
    var rest := if tail == [] then [] else tail[1..];
    if tail == [] {
      assert lines == pre + rest;
      NoneAt(lines, q);
    } else {
      Reassoc(head, body, tail);
      FirstInMiddle(pre, rest, q);
    }
    assert FirstWhere(lines, q, 0) == (if tail == [] then None else Some(|pre|));
    SliceMiddle(head, body, extra, rest);
    assert lines[3..|pre|] == body + extra;
    WindowByIs(lines, p, q, 3, |pre|);
  }

  lemma WindowByIs(lines: seq<string>, p: string -> bool, q: string -> bool, s: nat, e: nat)
    requires FirstWhere(lines, p, 0) == Some(s)
    requires FirstWhere(lines, q, 0) == Some(e) || (FirstWhere(lines, q, 0) == None && e == |lines|)
    requires s <= e
    ensures WindowBy(lines, p, q) == Join(lines[s..e], "\n")
  {
  }

  lemma NoStopBefore(h0: string, h1: string, h2: string, body: seq<string>, extra: seq<string>, q: string -> bool)
    requires !q(h0) && !q(h1) && !q(h2)
    requires forall k :: 0 <= k < |body| ==> !q(body[k])
    requires forall k :: 0 <= k < |extra| ==> !q(extra[k])
    ensures var pre := [h0, h1, h2] + body + extra; forall k :: 0 <= k < |pre| ==> !q(pre[k])
  {
    var pre := [h0, h1, h2] + body + extra;
    forall k | 0 <= k < |pre| ensures !q(pre[k]) {
      if k < 3 {
        assert pre[k] == [h0, h1, h2][k];
      } else if k < 3 + |body| {
        assert pre[k] == body[k - 3];
      } else {
        assert pre[k] == extra[k - 3 - |body|];
      }
    }
  }

  lemma Reassoc(head: seq<string>, body: seq<string>, tail: seq<string>)
    requires |tail| >= 1
    ensures head + (body + tail) == (head + body + [tail[0]]) + tail[1..]
  {
    assert tail == [tail[0]] + tail[1..];
  }

  lemma SliceMiddle(head: seq<string>, body: seq<string>, extra: seq<string>, rest: seq<string>)
    ensures ((head + body + extra) + rest)[|head|..|head + body + extra|] == body + extra
  {
    var pre := head + body + extra;
    assert (pre + rest)[|head|..|pre|] == pre[|head|..];
  }

  /** The first hit is the first element of the second part when the first part has none. */
  lemma FirstInMiddle(a: seq<string>, b: seq<string>, p: string -> bool)
    requires forall k :: 0 <= k < |a| ==> !p(a[k])
    requires |b| >= 1 && p(b[0])
    ensures FirstWhere(a + b, p, 0) == Some(|a|)
  {
    var s := a + b;
    assert forall k :: 0 <= k < |a| ==> s[k] == a[k];
    assert s[|a|] == b[0];
    FirstAt(s, p, |a|);
  }

  lemma FirstAt(lines: seq<string>, p: string -> bool, i: nat)
    requires i < |lines| && p(lines[i]) && forall j :: 0 <= j < i ==> !p(lines[j])
    ensures FirstWhere(lines, p, 0) == Some(i)
  {
  }

  lemma NoneAt(lines: seq<string>, p: string -> bool)
    requires forall j :: 0 <= j < |lines| ==> !p(lines[j])
    ensures FirstWhere(lines, p, 0) == None
  {
  }

  lemma NoneOfFour(a: string, b: string, c: string, d: string, p: string -> bool)
    requires !p(a) && !p(b) && !p(c) && !p(d)
    ensures FirstWhere([a, b, c, d], p, 0) == None
  {
    NoneAt([a, b, c, d], p);
  }

  /** A file with no body line at all keeps its header: an article that produced no paragraph
      and no media is counted with its `标题:` and `网址:` lines. */
  lemma EmptyArticleKeepsHeader(title: string, url: string)
    requires '\n' !in title && '\n' !in url
    requires !ListLine(TextWriter.TitleLabel + title) && !ListLine(TextWriter.UrlLabel + url)
    ensures Window(SplitLines(TextWriter.RenderText(title, url, [], [], []))) ==
            TextWriter.RenderText(title, url, [], [], [])
  {
    var text := TextWriter.RenderText(title, url, [], [], []);
    var t := TextWriter.TitleLabel + title;
    var u := TextWriter.UrlLabel + url;
    assert text == t + "\n" + (u + "\n" + ([] + "\n" + []));
    SplitPrefix(t, u + "\n" + ([] + "\n" + []));
    SplitPrefix(u, [] + "\n" + []);
    SplitPrefix([], []);
    var lines := SplitLines(text);
    assert lines == [t, u, [], []];
    HeadLinesNotBody(title, url);
    EmptyNotListLine();
    NoneOfFour(t, u, [], [], BodyLine);
    NoneOfFour(t, u, [], [], ListLine);
    JoinSplitLines(text);
    assert lines[0..|lines|] == lines;
  }
}
