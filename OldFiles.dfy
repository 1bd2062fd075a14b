/**
 * Pruning old articles (`delete_old_files.py`): for every `.txt` file in the
 * text folder, the URL on its `网址: ` line is searched for a `YYYY-MM/DD`
 * date; an article dated before 2015 is deleted together with the media
 * files its manifest names, from both the image and the video folder.  A
 * date that matches the pattern but is not a calendar date raises and stops
 * the run.
 */
module OldFiles {
  import opened Wrappers
  import opened Strings
  import opened TextWriter
  import opened BodyWindow
  import ImageHarvest
  import VideoHarvest

  // ---------------------------------------------------------------------------
  // extract_date_from_url
  // ---------------------------------------------------------------------------

  datatype Date = Date(year: nat, month: nat, day: nat)

  /** No date in the URL, a date, or a pattern match `strptime` rejects (a `ValueError`). */
  datatype DateResult = NoDate | Parsed(date: Date) | BadDate

  /** `\d{4}-\d{2}/\d{2}` matches at `i`. */
  predicate DatePatternAt(s: string, i: nat) {
    i + 10 <= |s| && AllDigits(s[i..i + 4]) && s[i + 4] == '-' && AllDigits(s[i + 5..i + 7]) &&
    s[i + 7] == '/' && AllDigits(s[i + 8..i + 10])
  }

  /** The leftmost match at or after `from`. */
  function FindDatePattern(s: string, from: nat): (r: Option<nat>)
    ensures r.Some? ==> from <= r.value && DatePatternAt(s, r.value)
    ensures r.Some? ==> forall j: nat :: from <= j < r.value ==> !DatePatternAt(s, j)
    ensures r.None? ==> forall j: nat :: from <= j ==> !DatePatternAt(s, j)
    decreases |s| - from
  {
    if from + 10 > |s| then None
    else if DatePatternAt(s, from) then Some(from)
    else FindDatePattern(s, from + 1)
  }

  predicate IsLeapYear(y: nat) { y % 4 == 0 && (y % 100 != 0 || y % 400 == 0) }

  function DaysInMonth(y: nat, m: nat): nat
    requires 1 <= m <= 12
  {
    if m == 2 then (if IsLeapYear(y) then 29 else 28)
    else if m == 4 || m == 6 || m == 9 || m == 11 then 30
    else 31
  }

  /** What `datetime` accepts: years from 1, months 1 to 12, days within the month. */
  predicate ValidDate(d: Date) {
    d.year >= 1 && 1 <= d.month <= 12 && 1 <= d.day <= DaysInMonth(d.year, d.month)
  }

  /** `extract_date_from_url(url)`: the first `YYYY-MM/DD` read with `strptime('%Y-%m/%d')`. */
  function ExtractDate(url: string): (r: DateResult)
    ensures r.NoDate? <==> forall j: nat :: !DatePatternAt(url, j)
    ensures r.Parsed? ==> ValidDate(r.date)
  {
    match FindDatePattern(url, 0)
    case None => NoDate
    case Some(i) =>
      var d := Date(DigitsValue(url[i..i + 4]), DigitsValue(url[i + 5..i + 7]), DigitsValue(url[i + 8..i + 10]));
      if ValidDate(d) then Parsed(d) else BadDate
  }

  /** Two decimal digits, zero-padded. */
  function Pad2(n: nat): (r: string)
    requires n < 100
    ensures |r| == 2 && AllDigits(r)
  {
    [DigitChar(n / 10), DigitChar(n % 10)]
  }

  /** Four decimal digits, zero-padded. */
  function Pad4(n: nat): (r: string)
    requires n < 10000
    ensures |r| == 4 && AllDigits(r)
  {
    [DigitChar(n / 1000), DigitChar(n / 100 % 10), DigitChar(n / 10 % 10), DigitChar(n % 10)]
  }

  /** A date as it appears in the site's article URLs, `%Y-%m/%d`. */
  function UrlDate(d: Date): (r: string)
    requires d.year < 10000 && d.month < 100 && d.day < 100
    ensures |r| == 10
  {
    Pad4(d.year) + "-" + Pad2(d.month) + "/" + Pad2(d.day)
  }

  lemma Pad2Value(n: nat)
    requires n < 100
    ensures DigitsValue(Pad2(n)) == n
  {
    var s := Pad2(n);
    assert s[..1][..0] == [];
    assert s[..1] == [DigitChar(n / 10)];
    assert DigitValue(DigitChar(n / 10)) == n / 10;
    assert DigitValue(DigitChar(n % 10)) == n % 10;
    assert DigitsValue(s[..1]) == n / 10;
  }

  lemma Pad4Value(n: nat)
    requires n < 10000
    ensures DigitsValue(Pad4(n)) == n
  {
    var s := Pad4(n);
    assert s[..3][..2][..1][..0] == [];
    assert s[..3][..2][..1] == s[..1];
    assert s[..3][..2] == s[..2];
    assert DigitsValue(s[..1]) == n / 1000;
    assert DigitsValue(s[..2]) == n / 1000 * 10 + n / 100 % 10 == n / 100;
    assert DigitsValue(s[..3]) == n / 100 * 10 + n / 10 % 10 == n / 10;
  }

  /** A URL whose only digits are those of one date yields that date, or raises when the date
      is not a calendar date. */
  lemma {:induction false} ExtractUrlDate(prefix: string, d: Date, suffix: string)
    requires d.year < 10000 && d.month < 100 && d.day < 100
    requires forall k :: 0 <= k < |prefix| ==> !IsDigit(prefix[k])
    ensures ExtractDate(prefix + UrlDate(d) + suffix) == if ValidDate(d) then Parsed(d) else BadDate
  {
    var url := prefix + UrlDate(d) + suffix;
    var p := |prefix|;
    assert url[p..p + 4] == Pad4(d.year);
    assert url[p + 5..p + 7] == Pad2(d.month);
    assert url[p + 8..p + 10] == Pad2(d.day);
    assert url[p + 4] == '-' && url[p + 7] == '/';
    assert DatePatternAt(url, p);
    forall j: nat | j < p
      ensures !DatePatternAt(url, j)
    {
      assert url[j..j + 4][0] == prefix[j];
    }
    assert FindDatePattern(url, 0) == Some(p);
    Pad4Value(d.year);
    Pad2Value(d.month);
    Pad2Value(d.day);
  }

  // ---------------------------------------------------------------------------
  // get_media_files_list, as written
  // ---------------------------------------------------------------------------

  /** The full-width colon U+FF1A the list headings are searched with. */
  const WideColon: char := '\U{FF1A}'

  const WideImageHeading: string := "图片列表" + [WideColon]
  const WideVideoHeading: string := "\n视频列表" + [WideColon]

  /** `re.search(r'图片列表：(.*?)\n视频列表：(.*?)$', content, re.DOTALL)`: the two groups.  Only
      the first image heading can start a match, and the lazy first group stops at the first
      video heading after it; `$` also matches before a final newline. */
  function MediaSectionAsWritten(content: string): Option<(string, string)> {
    match IndexOf(content, WideImageHeading)
    case None => None
    case Some(i) =>
      match IndexFrom(content, WideVideoHeading, i + 5)
      case None => None
      case Some(j) =>
        var end := if content[|content| - 1] == '\n' && |content| - 1 >= j + 6 then |content| - 1 else |content|;
        Some((content[i + 5..j], content[j + 6..end]))
  }

  /** `[x.strip() for x in lines if x.strip()]`. */
  function NonBlank(lines: seq<string>): (r: seq<string>)
    ensures |r| <= |lines|
    ensures forall e <- r :: e != [] && NoSpaceAtEnds(e)
  {
    if lines == [] then []
    else
      var n := |lines| - 1;
      NonBlank(lines[..n]) + (if Strip(lines[n]) != [] then [Strip(lines[n])] else [])
  }

  /** The kept lines of two runs are those of the first run followed by those of the second. */
  lemma {:induction false} NonBlankAppend(a: seq<string>, b: seq<string>)
    ensures NonBlank(a + b) == NonBlank(a) + NonBlank(b)
    decreases |b|
  {
    if b == [] {
      assert a + b == a;
    } else {
      var n := |b| - 1;
      assert (a + b)[..|a + b| - 1] == a + b[..n];
      assert (a + b)[|a + b| - 1] == b[n];
      NonBlankAppend(a, b[..n]);
    }
  }

  /** One line is kept, stripped, exactly when it is not blank. */
  lemma NonBlankOne(line: string)
    ensures NonBlank([line]) == if Strip(line) != [] then [Strip(line)] else []
  {
    assert [line][..0] == [];
  }

  /** The lazy image group stops at the first video heading after the image heading, so it
      holds none itself. */
  lemma ImageGroupStopsAtVideos(content: string)
    ensures MediaSectionAsWritten(content).Some? ==> !Contains(MediaSectionAsWritten(content).value.0, WideVideoHeading)
  {
    if MediaSectionAsWritten(content).Some? {
      var i := IndexOf(content, WideImageHeading).value;
      var j := IndexFrom(content, WideVideoHeading, i + 5).value;
      var g := content[i + 5..j];
      forall k | 0 <= k && k + |WideVideoHeading| <= |g| ensures !OccursAt(g, WideVideoHeading, k) {
        SliceOfSlice(content, i + 5, j, k, |WideVideoHeading|);
        assert !OccursAt(content, WideVideoHeading, i + 5 + k);
      }
      ContainsIff(g, WideVideoHeading);
    }
  }

  lemma SliceOfSlice(s: string, a: nat, b: nat, k: nat, n: nat)
    requires a <= b <= |s| && k + n <= b - a
    ensures s[a..b][k..k + n] == s[a + k..a + k + n]
  {
    var x, y := s[a..b][k..k + n], s[a + k..a + k + n];
    assert forall t :: 0 <= t < n ==> x[t] == y[t];
  }

  /** `group.strip().split('\n')`, cleaned. */
  function GroupEntries(group: string): seq<string> {
    NonBlank(SplitLines(Strip(group)))
  }

  /** `get_media_files_list(file_path)` as written: the image entries, then the video entries. */
  function MediaFilesAsWritten(content: string): (r: seq<string>)
    ensures forall e <- r :: e != [] && NoSpaceAtEnds(e)
    ensures !Contains(content, WideImageHeading) ==> r == []
    ensures !Contains(content, WideVideoHeading) ==> r == []
    ensures MediaSectionAsWritten(content).Some? ==>
      r == GroupEntries(MediaSectionAsWritten(content).value.0) + GroupEntries(MediaSectionAsWritten(content).value.1)
  {
    match MediaSectionAsWritten(content)
    case None => []
    case Some((images, videos)) => GroupEntries(images) + GroupEntries(videos)
  }

  /** Digits and a minus sign are all `IntToString` writes. */
  lemma IntToStringChars(n: int)
    ensures forall k :: 0 <= k < |IntToString(n)| ==> IsDigit(IntToString(n)[k]) || IntToString(n)[k] == '-'
  {
    if n < 0 {
      assert IntToString(n) == "-" + NatToString(-n);
    }
  }

  /** No full-width colon in a manifest built from names without one. */
  lemma {:induction false} NoWideColonInImageLines(images: seq<ImageHarvest.SavedImage>)
    requires forall img <- images :: WideColon !in img.fileName
    ensures WideColon !in ImageLines(images)
  {
    if images != [] {
      var n := |images| - 1;
      assert forall img <- images[..n] :: img in images;
      NoWideColonInImageLines(images[..n]);
      assert images[n] in images;
      NoWideColonInImageLine(n + 1, images[n]);
    }
  }

  lemma NoWideColonInImageLine(k: nat, img: ImageHarvest.SavedImage)
    requires WideColon !in img.fileName
    ensures WideColon !in ImageLine(k, img)
  {
    var number, w, h := NatToString(k), IntToString(img.width), IntToString(img.height);
    assert WideColon !in number by { assert AllDigits(number); }
    assert WideColon !in w by { IntToStringChars(img.width); }
    assert WideColon !in h by { IntToStringChars(img.height); }
    assert WideColon !in SizeLabel;
    var front := number + ". " + img.fileName + SizeLabel;
    assert WideColon !in front;
    assert ImageLine(k, img) == front + w + "x" + h + "\n";
  }

  lemma {:induction false} NoWideColonInVideoLines(videos: seq<VideoHarvest.SavedVideo>)
    requires forall v <- videos :: WideColon !in v.fileName
    ensures WideColon !in VideoLines(videos)
  {
    if videos != [] {
      var n := |videos| - 1;
      assert forall v <- videos[..n] :: v in videos;
      NoWideColonInVideoLines(videos[..n]);
      assert videos[n] in videos;
      assert WideColon !in NatToString(n + 1);
    }
  }

  /** The full-width heading cannot occur in text without a full-width colon. */
  lemma WideHeadingNeedsColon(s: string)
    requires WideColon !in s
    ensures !Contains(s, WideImageHeading)
  {
    forall i | 0 <= i && i + 5 <= |s|
      ensures !OccursAt(s, WideImageHeading, i)
    {
      assert s[i..i + 5][4] == s[i + 4] != WideColon;
    }
    ContainsIff(s, WideImageHeading);
  }

  /** The crawler writes its headings with an ASCII colon, so on any file it wrote from text
      without a full-width colon the media list as written is empty, whatever was saved. */
  lemma AsWrittenMissesCrawlerFiles(title: string, url: string, content: string,
                                    images: seq<ImageHarvest.SavedImage>, videos: seq<VideoHarvest.SavedVideo>)
    requires WideColon !in title && WideColon !in url && WideColon !in content
    requires forall img <- images :: WideColon !in img.fileName
    requires forall v <- videos :: WideColon !in v.fileName
    ensures MediaFilesAsWritten(RenderText(title, url, content, images, videos)) == []
  {
    var text := RenderText(title, url, content, images, videos);
    NoWideColonRendered(title, url, content, images, videos);
    WideHeadingNeedsColon(text);
  }

  lemma NoWideColonRendered(title: string, url: string, content: string,
                            images: seq<ImageHarvest.SavedImage>, videos: seq<VideoHarvest.SavedVideo>)
    requires WideColon !in title && WideColon !in url && WideColon !in content
    requires forall img <- images :: WideColon !in img.fileName
    requires forall v <- videos :: WideColon !in v.fileName
    ensures WideColon !in RenderText(title, url, content, images, videos)
  {
    NoWideColonInHeader(title, url, content);
    NoWideColonInImageManifest(images);
    NoWideColonInVideoManifest(videos);
  }

  lemma NoWideColonInHeader(title: string, url: string, content: string)
    requires WideColon !in title && WideColon !in url && WideColon !in content
    ensures WideColon !in Header(title, url, content)
  {
  }

  lemma NoWideColonInImageManifest(images: seq<ImageHarvest.SavedImage>)
    requires forall img <- images :: WideColon !in img.fileName
    ensures WideColon !in ImageManifest(images)
  {
    NoWideColonInImageLines(images);
  }

  lemma NoWideColonInVideoManifest(videos: seq<VideoHarvest.SavedVideo>)
    requires forall v <- videos :: WideColon !in v.fileName
    ensures WideColon !in VideoManifest(videos)
  {
    NoWideColonInVideoLines(videos);
  }

  // ---------------------------------------------------------------------------
  // get_media_files_list, corrected: the crawler's own manifest
  // ---------------------------------------------------------------------------

  /** The end of the run of ASCII digits from `i`. */
  function DigitEnd(s: string, i: nat): (e: nat)
    requires i <= |s|
    ensures i <= e <= |s| && (e < |s| ==> !IsDigit(s[e]))
    ensures forall k :: i <= k < e ==> IsDigit(s[k])
    decreases |s| - i
  {
    if i < |s| && IsDigit(s[i]) then DigitEnd(s, i + 1) else i
  }

  /** The file name on a numbered manifest line `N. name`; an image line ends in
      ` - 尺寸: WxH`, which is cut off. */
  function EntryName(line: string, image: bool): Option<string> {
    var d := DigitEnd(line, 0);
    if d == 0 || !OccursAt(line, ". ", d) then None
    else
      var rest := line[d + 2..];
      if !image then Some(rest)
      else match IndexOf(rest, SizeLabel)
        case Some(p) => Some(rest[..p])
        case None => Some(rest)
  }

  datatype Section = Outside | InImages | InVideos

  /** The list being read and the names collected. */
  datatype ManifestScan = ManifestScan(section: Section, names: seq<string>)

  /** One line: a heading opens its list, a numbered line inside a list names a file. */
  function ManifestStep(st: ManifestScan, line: string): ManifestScan {
    if line == ImageHeading then ManifestScan(InImages, st.names)
    else if line == VideoHeading then ManifestScan(InVideos, st.names)
    else if st.section == Outside then st
    else match EntryName(line, st.section == InImages)
      case Some(name) => ManifestScan(st.section, st.names + [name])
      case None => st
  }

  function ScanManifest(st: ManifestScan, lines: seq<string>): ManifestScan {
    if lines == [] then st else ManifestStep(ScanManifest(st, lines[..|lines| - 1]), lines[|lines| - 1])
  }

  /** The names of the media files a crawler text file lists, images first. */
  function MediaFiles(content: string): seq<string> {
    ScanManifest(ManifestScan(Outside, []), SplitLines(content)).names
  }

  /** The names the crawler saved. */
  function ImageNames(images: seq<ImageHarvest.SavedImage>): (r: seq<string>)
    ensures |r| == |images| && forall k :: 0 <= k < |images| ==> r[k] == images[k].fileName
  {
    if images == [] then [] else ImageNames(images[..|images| - 1]) + [images[|images| - 1].fileName]
  }

  function VideoNames(videos: seq<VideoHarvest.SavedVideo>): (r: seq<string>)
    ensures |r| == |videos| && forall k :: 0 <= k < |videos| ==> r[k] == videos[k].fileName
  {
    if videos == [] then [] else VideoNames(videos[..|videos| - 1]) + [videos[|videos| - 1].fileName]
  }

  /** The manifest line of an image without its newline. */
  function ImageText(k: nat, img: ImageHarvest.SavedImage): string {
    NatToString(k) + ". " + img.fileName + SizeLabel + IntToString(img.width) + "x" + IntToString(img.height)
  }

  function VideoText(k: nat, video: VideoHarvest.SavedVideo): string {
    NatToString(k) + ". " + video.fileName
  }

  function ImageTexts(images: seq<ImageHarvest.SavedImage>): (r: seq<string>)
    ensures |r| == |images|
  {
    if images == [] then [] else ImageTexts(images[..|images| - 1]) + [ImageText(|images|, images[|images| - 1])]
  }

  function VideoTexts(videos: seq<VideoHarvest.SavedVideo>): (r: seq<string>)
    ensures |r| == |videos|
  {
    if videos == [] then [] else VideoTexts(videos[..|videos| - 1]) + [VideoText(|videos|, videos[|videos| - 1])]
  }

  /** The video heading, the video lines and the blank after the last newline. */
  function VideoSection(videos: seq<VideoHarvest.SavedVideo>): seq<string> {
    [VideoHeading] + VideoTexts(videos) + [[]]
  }

  /** The lines of the video manifest when it follows the image lines. */
  function VideoTail(videos: seq<VideoHarvest.SavedVideo>): seq<string> {
    if videos == [] then [[]] else [[], []] + VideoSection(videos)
  }

  /** The lines of the media section after the body text. */
  function MediaTail(images: seq<ImageHarvest.SavedImage>, videos: seq<VideoHarvest.SavedVideo>): seq<string> {
    if images != [] then [[], ImageHeading] + ImageTexts(images) + VideoTail(videos)
    else if videos != [] then [[]] + VideoSection(videos)
    else []
  }

  lemma ImageTextLineFree(k: nat, img: ImageHarvest.SavedImage)
    requires '\n' !in img.fileName
    ensures '\n' !in ImageText(k, img) && ImageLine(k, img) == ImageText(k, img) + "\n"
  {
    IntToStringChars(img.width);
    IntToStringChars(img.height);
  }

  lemma VideoTextLineFree(k: nat, video: VideoHarvest.SavedVideo)
    requires '\n' !in video.fileName
    ensures '\n' !in VideoText(k, video) && VideoLine(k, video) == VideoText(k, video) + "\n"
  {
  }

  lemma RegroupLine(a: string, t: string, rest: string)
    ensures a + (t + "\n") + rest == a + (t + "\n" + rest)
  {
  }

  lemma RegroupTexts(a: seq<string>, t: string, b: seq<string>)
    ensures a + ([t] + b) == a + [t] + b
  {
  }

  /** The image lines split into their texts. */
  lemma {:induction false} SplitImageLines(images: seq<ImageHarvest.SavedImage>, rest: string)
    requires forall img <- images :: '\n' !in img.fileName
    ensures SplitLines(ImageLines(images) + rest) == ImageTexts(images) + SplitLines(rest)
  {
    if images == [] {
      assert ImageLines(images) + rest == rest;
    } else {
      var n := |images| - 1;
      var init, img := images[..n], images[n];
      var t := ImageText(n + 1, img);
      assert forall i <- init :: i in images;
      assert img in images;
      ImageTextLineFree(n + 1, img);
      assert ImageLines(images) == ImageLines(init) + (t + "\n");
      RegroupLine(ImageLines(init), t, rest);
      SplitImageLines(init, t + "\n" + rest);
      SplitPrefix(t, rest);
      assert ImageTexts(images) == ImageTexts(init) + [t];
      RegroupTexts(ImageTexts(init), t, SplitLines(rest));
    }
  }

  lemma {:induction false} SplitVideoLines(videos: seq<VideoHarvest.SavedVideo>, rest: string)
    requires forall v <- videos :: '\n' !in v.fileName
    ensures SplitLines(VideoLines(videos) + rest) == VideoTexts(videos) + SplitLines(rest)
  {
    if videos == [] {
      assert VideoLines(videos) + rest == rest;
    } else {
      var n := |videos| - 1;
      var init, v := videos[..n], videos[n];
      var t := VideoText(n + 1, v);
      assert forall w <- init :: w in videos;
      assert v in videos;
      VideoTextLineFree(n + 1, v);
      assert VideoLines(videos) == VideoLines(init) + (t + "\n");
      RegroupLine(VideoLines(init), t, rest);
      SplitVideoLines(init, t + "\n" + rest);
      SplitPrefix(t, rest);
      assert VideoTexts(videos) == VideoTexts(init) + [t];
      RegroupTexts(VideoTexts(init), t, SplitLines(rest));
    }
  }

  /** The video manifest splits into the video tail. */
  lemma SplitVideoManifest(videos: seq<VideoHarvest.SavedVideo>)
    requires forall v <- videos :: '\n' !in v.fileName
    ensures SplitLines(VideoManifest(videos)) == VideoTail(videos)
  {
    if videos != [] {
      var vl := VideoLines(videos);
      assert VideoManifest(videos) == "\n\n" + VideoHeading + "\n" + vl;
      SplitVideoLines(videos, []);
      assert vl + [] == vl;
      SplitHeadedList(VideoHeading, vl, VideoTexts(videos));
    }
  }

  /** Two blank lines, a heading line, then lines that split into `texts` and a final empty
      line. */
  lemma SplitHeadedList(h: string, lines: string, texts: seq<string>)
    requires '\n' !in h && SplitLines(lines + []) == texts + SplitLines([])
    ensures SplitLines("\n\n" + h + "\n" + lines) == [[], []] + ([h] + texts + [[]])
  {
    var r1 := h + "\n" + lines;
    DoubleNewline(h, lines);
    assert lines + [] == lines;
    var blank: string := [];
    assert SplitLines(lines) == texts + [blank];
    SplitPrefix(h, lines);
    LeadingNewline(r1);
    LeadingNewline("\n" + r1);
    assert SplitLines("\n" + ("\n" + r1)) == [blank] + ([blank] + ([h] + (texts + [blank])));
    HeadedShape(blank, h, texts);
  }

  lemma DoubleNewline(h: string, lines: string)
    ensures "\n\n" + h + "\n" + lines == "\n" + ("\n" + (h + "\n" + lines))
  {
  }

  lemma HeadedShape<T>(a: T, h: T, texts: seq<T>)
    ensures [a] + ([a] + ([h] + (texts + [a]))) == [a, a] + ([h] + texts + [a])
  {
  }

  lemma LeadingNewline(x: string)
    ensures SplitLines("\n" + x) == [[]] + SplitLines(x)
  {
    SplitPrefix([], x);
    assert [] + "\n" + x == "\n" + x;
  }

  /** After the body text, the file splits into the media tail. */
  lemma SplitMediaTail(content: string, images: seq<ImageHarvest.SavedImage>, videos: seq<VideoHarvest.SavedVideo>)
    requires forall img <- images :: '\n' !in img.fileName
    requires forall v <- videos :: '\n' !in v.fileName
    ensures SplitLines(content + (ImageManifest(images) + VideoManifest(videos))) ==
            SplitLines(content) + MediaTail(images, videos)
  {
    if images != [] {
      SplitWithImages(content, images, videos);
    } else if videos != [] {
      SplitVideosOnly(content, videos);
    } else {
      assert ImageManifest(images) + VideoManifest(videos) == [];
      assert content + [] == content;
    }
  }

  lemma SplitWithImages(content: string, images: seq<ImageHarvest.SavedImage>, videos: seq<VideoHarvest.SavedVideo>)
    requires images != []
    requires forall img <- images :: '\n' !in img.fileName
    requires forall v <- videos :: '\n' !in v.fileName
    ensures SplitLines(content + (ImageManifest(images) + VideoManifest(videos))) ==
            SplitLines(content) + MediaTail(images, videos)
  {
    var head := "\n\n" + ImageHeading + "\n";
    var il, vm := ImageLines(images), VideoManifest(videos);
    var rest := il + vm;
    assert ImageManifest(images) == head + il;
    AppendAssoc(head, il, vm);
    SplitMedia(content, ImageHeading, rest);
    SplitImageLines(images, vm);
    SplitVideoManifest(videos);
    var blank: string := [];
    Assoc([blank, ImageHeading], ImageTexts(images), VideoTail(videos));
  }

  lemma SplitVideosOnly(content: string, videos: seq<VideoHarvest.SavedVideo>)
    requires videos != []
    requires forall v <- videos :: '\n' !in v.fileName
    ensures SplitLines(content + (ImageManifest([]) + VideoManifest(videos))) ==
            SplitLines(content) + MediaTail([], videos)
  {
    var vl := VideoLines(videos);
    assert ImageManifest([]) + VideoManifest(videos) == "\n\n" + VideoHeading + "\n" + vl;
    SplitMedia(content, VideoHeading, vl);
    SplitVideoLines(videos, []);
    assert vl + [] == vl;
    var blank: string := [];
    var texts := VideoTexts(videos);
    Assoc([VideoHeading], texts, [blank]);
    Assoc([blank], [VideoHeading], texts + [blank]);
    assert [blank] + [VideoHeading] == [blank, VideoHeading];
  }

  /** A line that starts with a digit is no heading. */
  lemma DigitLineNotHeading(line: string)
    requires |line| > 0 && IsDigit(line[0])
    ensures line != ImageHeading && line != VideoHeading
  {
    assert line[0] != ImageHeading[0] && line[0] != VideoHeading[0];
  }

  /** The digit run at the start of a line ends where the number ends. */
  lemma DigitRunIs(s: string, m: nat)
    requires m < |s| && AllDigits(s[..m]) && !IsDigit(s[m])
    ensures DigitEnd(s, 0) == m
  {
    forall k | 0 <= k < m
      ensures IsDigit(s[k])
    {
      assert s[..m][k] == s[k];
    }
  }

  /** In `name + " - 尺寸: " + tail`, the size label is first found right after a name without
      an ASCII colon. */
  lemma SizeLabelAfter(name: string, tail: string)
    requires ':' !in name
    ensures IndexOf(name + SizeLabel + tail, SizeLabel) == Some(|name|)
  {
    var s := name + SizeLabel + tail;
    assert s[|name|..|name| + |SizeLabel|] == SizeLabel;
    assert OccursAt(s, SizeLabel, |name|);
    forall j | 0 <= j < |name|
      ensures !OccursAt(s, SizeLabel, j)
    {
      if j + |SizeLabel| <= |s| {
        assert s[j..j + |SizeLabel|][5] == s[j + 5];
        if j + 5 < |name| {
          assert s[j + 5] == name[j + 5];
        } else {
          assert s[j + 5] == SizeLabel[j + 5 - |name|];
        }
        assert s[j + 5] != SizeLabel[5];
      }
    }
  }

  /** The corrected parser reads an image's file name back from its manifest line. */
  lemma ImageEntryName(k: nat, img: ImageHarvest.SavedImage)
    requires ':' !in img.fileName
    ensures EntryName(ImageText(k, img), true) == Some(img.fileName)
    ensures ImageText(k, img) != ImageHeading && ImageText(k, img) != VideoHeading
  {
    var line := ImageText(k, img);
    var num, w, h := NatToString(k), IntToString(img.width), IntToString(img.height);
    RegroupImageText(num, img.fileName, w, h);
    NumberedImageEntry(num, img.fileName, w + "x" + h);
    DigitLineNotHeading(line);
  }

  lemma RegroupImageText(num: string, name: string, w: string, h: string)
    ensures num + ". " + name + SizeLabel + w + "x" + h == num + ". " + (name + SizeLabel + (w + "x" + h))
  {
  }

  /** A numbered image line gives back the name before its size label. */
  lemma NumberedImageEntry(num: string, name: string, size: string)
    requires num != [] && AllDigits(num) && ':' !in name
    ensures EntryName(num + ". " + (name + SizeLabel + size), true) == Some(name)
  {
    var rest := name + SizeLabel + size;
    var line := num + ". " + rest;
    assert line[..|num|] == num;
    DigitRunIs(line, |num|);
    assert line[|num| + 2..] == rest;
    SizeLabelAfter(name, size);
    assert rest[..|name|] == name;
  }

  lemma VideoEntryName(k: nat, video: VideoHarvest.SavedVideo)
    ensures EntryName(VideoText(k, video), false) == Some(video.fileName)
    ensures VideoText(k, video) != ImageHeading && VideoText(k, video) != VideoHeading
  {
    var line := VideoText(k, video);
    var num := NatToString(k);
    assert line[..|num|] == num;
    DigitRunIs(line, |num|);
    assert line[|num| + 2..] == video.fileName;
    DigitLineNotHeading(line);
  }

  /** Scanning the lines `a` then the lines `b`. */
  lemma {:induction false} ScanAppend(st: ManifestScan, a: seq<string>, b: seq<string>)
    ensures ScanManifest(st, a + b) == ScanManifest(ScanManifest(st, a), b)
    decreases |b|
  {
    if b == [] {
      assert a + b == a;
    } else {
      var n := |b| - 1;
      ScanAppend(st, a, b[..n]);
      assert (a + b)[..|a + b| - 1] == a + b[..n];
    }
  }

  /** Outside any list, lines that are no heading add nothing. */
  lemma {:induction false} ScanOutsideQuiet(lines: seq<string>)
    requires forall k :: 0 <= k < |lines| ==> lines[k] != ImageHeading && lines[k] != VideoHeading
    ensures ScanManifest(ManifestScan(Outside, []), lines) == ManifestScan(Outside, [])
  {
    if lines != [] {
      ScanOutsideQuiet(lines[..|lines| - 1]);
    }
  }

  /** Inside the image list, the image lines add their file names in order. */
  lemma {:induction false} ScanImageTexts(names: seq<string>, images: seq<ImageHarvest.SavedImage>)
    requires forall img <- images :: ':' !in img.fileName
    ensures ScanManifest(ManifestScan(InImages, names), ImageTexts(images)) ==
            ManifestScan(InImages, names + ImageNames(images))
  {
    if images != [] {
      var n := |images| - 1;
      var init, img := images[..n], images[n];
      var line := ImageText(n + 1, img);
      assert forall i <- init :: i in images;
      assert img in images;
      assert ImageTexts(images) == ImageTexts(init) + [line];
      ScanLast(ManifestScan(InImages, names), ImageTexts(init), line);
      ScanImageTexts(names, init);
      ImageEntryName(n + 1, img);
      assert ImageNames(images) == ImageNames(init) + [img.fileName];
      Assoc(names, ImageNames(init), [img.fileName]);
    }
  }

  lemma {:induction false} ScanVideoTexts(names: seq<string>, videos: seq<VideoHarvest.SavedVideo>)
    ensures ScanManifest(ManifestScan(InVideos, names), VideoTexts(videos)) ==
            ManifestScan(InVideos, names + VideoNames(videos))
  {
    if videos != [] {
      var n := |videos| - 1;
      var init, video := videos[..n], videos[n];
      var line := VideoText(n + 1, video);
      assert VideoTexts(videos) == VideoTexts(init) + [line];
      ScanLast(ManifestScan(InVideos, names), VideoTexts(init), line);
      ScanVideoTexts(names, init);
      VideoEntryName(n + 1, video);
      assert VideoNames(videos) == VideoNames(init) + [video.fileName];
      Assoc(names, VideoNames(init), [video.fileName]);
    }
  }

  /** One line scanned. */
  lemma ScanLast(st: ManifestScan, lines: seq<string>, line: string)
    ensures ScanManifest(st, lines + [line]) == ManifestStep(ScanManifest(st, lines), line)
  {
    assert (lines + [line])[..|lines|] == lines;
  }

  lemma ScanOne(st: ManifestScan, line: string)
    ensures ScanManifest(st, [line]) == ManifestStep(st, line)
  {
    assert [line][..0] == [];
  }

  /** The video heading opens the video list, and the video lines add their names. */
  lemma ScanVideoSection(st: ManifestScan, videos: seq<VideoHarvest.SavedVideo>)
    ensures ScanManifest(st, VideoSection(videos)).names == st.names + VideoNames(videos)
  {
    ScanOne(st, VideoHeading);
    ScanAppend(st, [VideoHeading], VideoTexts(videos));
    ScanVideoTexts(st.names, videos);
    ScanAppend(st, [VideoHeading] + VideoTexts(videos), [[]]);
    ScanOne(ManifestScan(InVideos, st.names + VideoNames(videos)), []);
  }

  /** The video part adds the video names, whatever list was open before it. */
  lemma ScanVideoTail(st: ManifestScan, videos: seq<VideoHarvest.SavedVideo>)
    ensures ScanManifest(st, VideoTail(videos)).names == st.names + VideoNames(videos)
  {
    ScanOne(st, []);
    if videos != [] {
      var blank: string := [];
      ScanAppend(st, [blank], [blank]);
      assert [blank] + [blank] == [blank, blank];
      ScanAppend(st, [blank, blank], VideoSection(videos));
      ScanVideoSection(st, videos);
    }
  }

  /** The whole media tail names the images, then the videos. */
  lemma ScanMediaTail(images: seq<ImageHarvest.SavedImage>, videos: seq<VideoHarvest.SavedVideo>)
    requires forall img <- images :: ':' !in img.fileName
    ensures ScanManifest(ManifestScan(Outside, []), MediaTail(images, videos)).names ==
            ImageNames(images) + VideoNames(videos)
  {
    var init := ManifestScan(Outside, []);
    ScanOne(init, []);
    if images != [] {
      ScanAppend(init, [[]], [ImageHeading]);
      ScanOne(init, ImageHeading);
      assert [[]] + [ImageHeading] == [[], ImageHeading];
      ScanAppend(init, [[], ImageHeading], ImageTexts(images));
      ScanImageTexts([], images);
      ScanAppend(init, [[], ImageHeading] + ImageTexts(images), VideoTail(videos));
      ScanVideoTail(ManifestScan(InImages, [] + ImageNames(images)), videos);
      assert [] + ImageNames(images) == ImageNames(images);
    } else if videos != [] {
      ScanAppend(init, [[]], VideoSection(videos));
      ScanVideoSection(init, videos);
      assert ImageNames(images) == [];
    }
  }

  /** The crawler's header lines are no headings. */
  lemma HeaderNotHeading(title: string, url: string)
    ensures TitleLabel + title != ImageHeading && TitleLabel + title != VideoHeading
    ensures UrlLabel + url != ImageHeading && UrlLabel + url != VideoHeading
  {
    assert (TitleLabel + title)[0] != ImageHeading[0] && (TitleLabel + title)[0] != VideoHeading[0];
    assert (UrlLabel + url)[0] != ImageHeading[0] && (UrlLabel + url)[0] != VideoHeading[0];
  }

  /** The corrected list reads back exactly the names of the media the crawler saved for the
      article, images first, provided no body line is itself a list heading. */
  lemma MediaFilesOfRendered(title: string, url: string, content: string,
                             images: seq<ImageHarvest.SavedImage>, videos: seq<VideoHarvest.SavedVideo>)
    requires '\n' !in title && '\n' !in url
    requires forall line <- SplitLines(content) :: line != ImageHeading && line != VideoHeading
    requires forall img <- images :: '\n' !in img.fileName && ':' !in img.fileName
    requires forall v <- videos :: '\n' !in v.fileName
    ensures MediaFiles(RenderText(title, url, content, images, videos)) == ImageNames(images) + VideoNames(videos)
  {
    var t, u := TitleLabel + title, UrlLabel + url;
    var media := ImageManifest(images) + VideoManifest(videos);
    var init := ManifestScan(Outside, []);
    RenderedParts(title, url, content, images, videos);
    assert '\n' !in t && '\n' !in u;
    SplitHeader(t, u, content + media);
    SplitMediaTail(content, images, videos);
    var head := [t, u, []] + SplitLines(content);
    var tail := MediaTail(images, videos);
    assert SplitLines(RenderText(title, url, content, images, videos)) == head + tail;
    HeaderNotHeading(title, url);
    forall k | 0 <= k < |head|
      ensures head[k] != ImageHeading && head[k] != VideoHeading
    {
      if k >= 3 {
        assert head[k] in SplitLines(content);
      }
    }
    ScanOutsideQuiet(head);
    ScanAppend(init, head, tail);
    ScanMediaTail(images, videos);
  }

  // ---------------------------------------------------------------------------
  // The deletion decision
  // ---------------------------------------------------------------------------

  /** `re.search(r'网址: (.*?)\n', content)`: the rest of the first address line that ends
      in a newline. */
  function UrlOfText(content: string): (r: Option<string>)
    ensures r.Some? ==> Contains(content, UrlLabel) && '\n' !in r.value
    ensures !Contains(content, UrlLabel) ==> r.None?
  {
    match IndexOf(content, UrlLabel)
    case None => None
    case Some(i) =>
      match IndexFrom(content, "\n", i + |UrlLabel|)
      case None => None
      case Some(j) =>
        NewlineFreeBefore(content, i + |UrlLabel|, j);
        Some(content[i + |UrlLabel|..j])
  }

  /** The text before the first newline from `from` holds no newline. */
  lemma NewlineFreeBefore(s: string, from: nat, j: nat)
    requires from <= j <= |s| && forall k :: from <= k < j ==> !OccursAt(s, "\n", k)
    ensures '\n' !in s[from..j]
  {
    forall k | from <= k < j
      ensures s[k] != '\n'
    {
      assert !OccursAt(s, "\n", k);
      assert s[k..k + 1] == [s[k]];
    }
  }

  /** Articles dated before this year are removed. */
  const CutoffYear: nat := 2015

  datatype Decision = Keep | Delete | Crash

  /** The decision on the address found in a file (the `if date and date.year < 2015` test). */
  function UrlDecision(url: Option<string>): Decision {
    match url
    case None => Keep
    case Some(u) =>
      match ExtractDate(u)
      case NoDate => Keep
      case BadDate => Crash
      case Parsed(d) => if d.year < CutoffYear then Delete else Keep
  }

  /** The decision on one text file's content. */
  function Decide(content: string): (r: Decision)
    ensures UrlOfText(content).None? ==> r == Keep
    ensures r == Delete ==> ExtractDate(UrlOfText(content).value).Parsed? &&
                            ExtractDate(UrlOfText(content).value).date.year < CutoffYear
  {
    UrlDecision(UrlOfText(content))
  }

  /** In a crawler file the first `网址: ` label is the one that opens the second line, provided
      the title does not contain that label. */
  lemma UrlLabelFirst(title: string, after: string)
    requires !Contains(title, UrlLabel)
    ensures IndexOf(TitleLabel + title + "\n" + UrlLabel + after, UrlLabel) == Some(|TitleLabel| + |title| + 1)
  {
    var text := TitleLabel + title + "\n" + UrlLabel + after;
    var p := |TitleLabel| + |title| + 1;
    assert text[p..p + |UrlLabel|] == UrlLabel;
    assert OccursAt(text, UrlLabel, p);
    ContainsIff(title, UrlLabel);
    forall j | 0 <= j < p
      ensures !OccursAt(text, UrlLabel, j)
    {
      if j + 4 <= |text| {
        if j < 4 {
          assert text[j..j + 4][0] == TitleLabel[j] != UrlLabel[0];
        } else if j + 4 <= 4 + |title| {
          assert text[j..j + 4] == title[j - 4..j];
          assert !OccursAt(title, UrlLabel, j - 4);
        } else {
          var k := 4 + |title| - j;
          assert text[j..j + 4][k] == text[4 + |title|] == '\n' != UrlLabel[k];
        }
      }
    }
  }

  /** The first newline from `q` ends a newline-free piece that starts at `q`. */
  lemma NewlineAfter(text: string, q: nat, piece: string)
    requires '\n' !in piece && q + |piece| < |text|
    requires text[q..q + |piece|] == piece && text[q + |piece|] == '\n'
    ensures IndexFrom(text, "\n", q) == Some(q + |piece|)
  {
    var e := q + |piece|;
    assert OccursAt(text, "\n", e);
    forall k | q <= k < e
      ensures !OccursAt(text, "\n", k)
    {
      assert text[k] == piece[k - q];
      assert text[k..k + 1][0] == text[k];
    }
  }

  /** The rendered file around its address line. */
  lemma RenderedAddress(title: string, url: string, content: string,
                        images: seq<ImageHarvest.SavedImage>, videos: seq<VideoHarvest.SavedVideo>)
    ensures RenderText(title, url, content, images, videos) ==
            TitleLabel + title + "\n" + UrlLabel + (url + "\n" + ("\n" + content + ImageManifest(images) + VideoManifest(videos)))
  {
    RegroupAddress(TitleLabel + title + "\n" + UrlLabel, url, content, ImageManifest(images), VideoManifest(videos));
  }

  lemma RegroupAddress(a: string, url: string, content: string, im: string, vm: string)
    ensures a + url + "\n\n" + content + im + vm == a + (url + "\n" + ("\n" + content + im + vm))
  {
  }

  /** The address line of a crawler file gives back the URL it was written with. */
  lemma UrlOfRendered(title: string, url: string, content: string,
                      images: seq<ImageHarvest.SavedImage>, videos: seq<VideoHarvest.SavedVideo>)
    requires '\n' !in url && !Contains(title, UrlLabel)
    ensures UrlOfText(RenderText(title, url, content, images, videos)) == Some(url)
  {
    RenderedAddress(title, url, content, images, videos);
    UrlOfHeader(title, url, "\n" + content + ImageManifest(images) + VideoManifest(videos));
  }

  /** The address read back from any text whose first two lines are the crawler's header. */
  lemma UrlOfHeader(title: string, url: string, rest: string)
    requires '\n' !in url && !Contains(title, UrlLabel)
    ensures UrlOfText(TitleLabel + title + "\n" + UrlLabel + (url + "\n" + rest)) == Some(url)
  {
    var after := url + "\n" + rest;
    var text := TitleLabel + title + "\n" + UrlLabel + after;
    UrlLabelFirst(title, after);
    var q := |TitleLabel| + |title| + 1 + |UrlLabel|;
    assert text[q..] == after;
    assert text[q..q + |url|] == url by {
      assert text[q..q + |url|] == after[..|url|];
    }
    assert text[q + |url|] == after[|url|];
    NewlineAfter(text, q, url);
  }

  /** A file the crawler wrote for an article whose URL carries the date `d` is deleted exactly
      when that is a calendar date before 2015, and stops the run when it is no calendar date. */
  lemma CrawlerFileDecision(title: string, prefix: string, d: Date, suffix: string, content: string,
                            images: seq<ImageHarvest.SavedImage>, videos: seq<VideoHarvest.SavedVideo>)
    requires d.year < 10000 && d.month < 100 && d.day < 100
    requires forall k :: 0 <= k < |prefix| ==> !IsDigit(prefix[k])
    requires '\n' !in prefix + UrlDate(d) + suffix && !Contains(title, UrlLabel)
    ensures Decide(RenderText(title, prefix + UrlDate(d) + suffix, content, images, videos)) ==
            if !ValidDate(d) then Crash else if d.year < 2015 then Delete else Keep
  {
    UrlOfRendered(title, prefix + UrlDate(d) + suffix, content, images, videos);
    ExtractUrlDate(prefix, d, suffix);
  }

  // ---------------------------------------------------------------------------
  // main: the pruning loop
  // ---------------------------------------------------------------------------

  /** The text folder (file name to contents) and the names in the image and video folders. */
  datatype Folders = Folders(texts: map<string, string>, images: set<string>, videos: set<string>)

  function MediaSet(media: seq<string>): set<string> {
    set m | m in media
  }

  /** One listed file: skipped unless `.txt`; a file that cannot be opened or a bad date stops
      the run (the flag); a file dated before 2015 is removed with its media. */
  function PruneStep(f: Folders, name: string): (r: (Folders, bool))
    ensures r.1 ==> r.0 == f
    ensures r.0.texts == f.texts || (EndsWith(name, ".txt") && r.0.texts == f.texts - {name})
    ensures r.0.images <= f.images && r.0.videos <= f.videos
  {
    if !EndsWith(name, ".txt") then (f, false)
    else if name !in f.texts then (f, true)
    else match Decide(f.texts[name])
      case Keep => (f, false)
      case Crash => (f, true)
      case Delete =>
        var media := MediaSet(MediaFiles(f.texts[name]));
        (Folders(f.texts - {name}, f.images - media, f.videos - media), false)
  }

  /** The folders after the listed files, and whether the run stopped on an exception. */
  function Prune(f: Folders, listing: seq<string>): (r: (Folders, bool))
    ensures r.0.texts.Keys <= f.texts.Keys && r.0.images <= f.images && r.0.videos <= f.videos
    ensures forall n :: n in r.0.texts ==> r.0.texts[n] == f.texts[n]
  {
    if listing == [] then (f, false)
    else
      var before := Prune(f, listing[..|listing| - 1]);
      if before.1 then before else PruneStep(before.0, listing[|listing| - 1])
  }

  /** The folders on disk. */
  class Store {
    var texts: map<string, string>
    var images: set<string>
    var videos: set<string>

    function Contents(): Folders
      reads this
    {
      Folders(texts, images, videos)
    }

    constructor (f: Folders)
      ensures Contents() == f
    {
      texts, images, videos := f.texts, f.images, f.videos;
    }

    /** The loop over `media_files`: each name is removed from the image folder and from the
        video folder where it exists. */
    method RemoveMediaFiles(media: seq<string>)
      modifies this
      ensures texts == old(texts)
      ensures images == old(images) - MediaSet(media) && videos == old(videos) - MediaSet(media)
    {
      for i := 0 to |media|
        invariant texts == old(texts)
        invariant images == old(images) - MediaSet(media[..i])
        invariant videos == old(videos) - MediaSet(media[..i])
      {
        assert MediaSet(media[..i + 1]) == MediaSet(media[..i]) + {media[i]};
        if media[i] in images {
          images := images - {media[i]};
        }
        if media[i] in videos {
          videos := videos - {media[i]};
        }
      }
      assert media[..|media|] == media;
    }

    /** `main()` over the listing of the text folder; `crashed` when an exception ends it. */
    method RemoveOldFiles(listing: seq<string>) returns (crashed: bool)
      modifies this
      ensures (Contents(), crashed) == Prune(old(Contents()), listing)
    {
      ghost var start := Contents();
      crashed := false;
      for i := 0 to |listing|
        invariant (Contents(), false) == Prune(start, listing[..i])
      {
        var name := listing[i];
        ghost var before := Contents();
        PruneAt(start, listing, i);
        assert Prune(start, listing[..i + 1]) == PruneStep(before, name);
        if !EndsWith(name, ".txt") {
          continue;
        }
        if name !in texts {
          PruneStops(start, listing, i + 1);
          return true;
        }
        var content := texts[name];
        var url := UrlOfText(content);
        if url.None? {
          continue;
        }
        var date := ExtractDate(url.value);
        if date.BadDate? {
          PruneStops(start, listing, i + 1);
          return true;
        }
        if date.Parsed? && date.date.year < CutoffYear {
          var media := MediaFiles(content);
          texts := texts - {name};
          RemoveMediaFiles(media);
        }
      }
      assert listing[..|listing|] == listing;
    }
  }

  lemma PruneAt(f: Folders, listing: seq<string>, i: nat)
    requires i < |listing|
    ensures Prune(f, listing[..i + 1]) ==
      (if Prune(f, listing[..i]).1 then Prune(f, listing[..i]) else PruneStep(Prune(f, listing[..i]).0, listing[i]))
  {
    var step := listing[..i + 1];
    assert step[..|step| - 1] == listing[..i] && step[|step| - 1] == listing[i];
  }

  /** Once the run has stopped, the rest of the listing is not looked at. */
  lemma {:induction false} PruneStops(f: Folders, listing: seq<string>, k: nat)
    requires k <= |listing| && Prune(f, listing[..k]).1
    ensures Prune(f, listing) == Prune(f, listing[..k])
    decreases |listing| - k
  {
    if k < |listing| {
      assert listing[..k + 1][..k] == listing[..k];
      PruneStops(f, listing, k + 1);
    } else {
      assert listing[..k] == listing;
    }
  }

  /** A listed `.txt` file that the run deletes. */
  predicate Doomed(texts: map<string, string>, listing: seq<string>, name: string) {
    name in listing && EndsWith(name, ".txt") && name in texts && Decide(texts[name]) == Delete
  }

  /** A media name listed by some deleted file. */
  ghost predicate Condemned(texts: map<string, string>, listing: seq<string>, x: string) {
    exists name :: Doomed(texts, listing, name) && x in MediaFiles(texts[name])
  }

  /** On a run that is not stopped, the text files left are exactly those that are not listed
      `.txt` files dated before 2015, and their contents are untouched. */
  lemma {:induction false} PruneTexts(f: Folders, listing: seq<string>)
    requires !Prune(f, listing).1
    ensures forall n :: n in Prune(f, listing).0.texts <==> n in f.texts && !Doomed(f.texts, listing, n)
    ensures forall n <- Prune(f, listing).0.texts :: Prune(f, listing).0.texts[n] == f.texts[n]
  {
    if listing != [] {
      var k := |listing| - 1;
      var init, m := listing[..k], listing[k];
      assert !Prune(f, init).1;
      PruneTexts(f, init);
      forall n ensures Doomed(f.texts, listing, n) <==> Doomed(f.texts, init, n) || (n == m && Doomed(f.texts, listing, n)) {
        assert n in listing <==> n in init || n == m by { assert listing == init + [m]; }
      }
    }
  }

  /** On a run that is not stopped, a media name leaves a folder exactly when a deleted file
      lists it; nothing else is removed. */
  lemma {:induction false} PruneMedia(f: Folders, listing: seq<string>)
    requires !Prune(f, listing).1
    ensures forall x :: x in Prune(f, listing).0.images <==> x in f.images && !Condemned(f.texts, listing, x)
    ensures forall x :: x in Prune(f, listing).0.videos <==> x in f.videos && !Condemned(f.texts, listing, x)
  {
    if listing != [] {
      var k := |listing| - 1;
      var init, m := listing[..k], listing[k];
      assert listing == init + [m];
      assert !Prune(f, init).1;
      PruneMedia(f, init);
      PruneTexts(f, init);
      var g := Prune(f, init).0;
      assert Prune(f, listing) == PruneStep(g, m);
      forall x
        ensures Condemned(f.texts, listing, x) <==>
                Condemned(f.texts, init, x) || (Doomed(f.texts, listing, m) && x in MediaFiles(f.texts[m]))
      {
        CondemnedStep(f.texts, init, m, x);
      }
      if EndsWith(m, ".txt") {
        assert m in g.texts;
        assert g.texts[m] == f.texts[m];
      }
    }
  }

  /** A media name is condemned by a longer listing when an earlier file condemns it or the
      new last file is deleted and lists it. */
  lemma CondemnedStep(texts: map<string, string>, init: seq<string>, m: string, x: string)
    ensures Condemned(texts, init + [m], x) <==>
            Condemned(texts, init, x) || (Doomed(texts, init + [m], m) && x in MediaFiles(texts[m]))
  {
    var listing := init + [m];
    assert forall n :: Doomed(texts, listing, n) <==> Doomed(texts, init, n) || (n == m && Doomed(texts, listing, m));
    if Condemned(texts, listing, x) {
      var n :| Doomed(texts, listing, n) && x in MediaFiles(texts[n]);
      if n != m {
        assert Doomed(texts, init, n);
      }
    }
    if Condemned(texts, init, x) {
      var n :| Doomed(texts, init, n) && x in MediaFiles(texts[n]);
      assert Doomed(texts, listing, n);
    }
  }
}
