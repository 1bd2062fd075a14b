/**
 * The image half of the media harvester (`find_background_images` and
 * `download_images`): the candidate `img` tags of the scope (the container, or
 * the whole page when there is none), their keyword and display-size filters,
 * the inline-style background images, and the names the saved files get.
 * File writes are taken to succeed; what is saved is the list of records
 * the crawler keeps for the text file's manifest.
 */
module ImageHarvest {
  import opened Wrappers
  import opened Strings
  import opened Dom
  import opened Web
  import opened Naming
  import opened DisplaySize
  import Extractor

  const MinImageWidth: int := 300
  const MinImageHeight: int := 200

  /** One entry of `saved_images`. */
  datatype SavedImage = SavedImage(fileName: string, width: int, height: int, url: string)

  // ---------------------------------------------------------------------------
  // Background images
  // ---------------------------------------------------------------------------

  predicate IsQuote(c: char) { c == '\'' || c == '"' }

  /** The lazy `(.*?)` before `['"]?\)`: the shortest prefix of `q`, from length `k` on, that
      is followed by `)` or by a quote and `)`; it cannot run across a newline. */
  function LazyCapture(q: string, k: nat): (r: Option<string>)
    requires k <= |q|
    ensures r.Some? ==> k <= |r.value| <= |q| && r.value == q[..|r.value|] && '\n' !in q[k..|r.value|]
    decreases |q| - k
  {
    if k < |q| && (q[k] == ')' || (IsQuote(q[k]) && k + 1 < |q| && q[k + 1] == ')')) then Some(q[..k])
    else if k < |q| && q[k] != '\n' then
      var r := LazyCapture(q, k + 1);
      assert r.Some? ==> q[k..|r.value|] == [q[k]] + q[k + 1..|r.value|];
      r
    else None
  }

  /** A match of `background(?:-image)?\s*:\s*url\(['"]?(.*?)['"]?\)` at the front of `t`:
      its captured URL. */
  function BackgroundHere(t: string): Option<string> {
    if StartsWith(t, "background") then AfterPropertyName(t[10..]) else None
  }

  /** After `background`: an optional `-image`, then `\s*:`. */
  function AfterPropertyName(r: string): Option<string> {
    var afterName := if StartsWith(r, "-image") then r[6..] else r;
    var colon := afterName[LeadingSpace(afterName)..];
    if colon != [] && colon[0] == ':' then AfterColon(colon[1..]) else None
  }

  /** After the colon: `\s*url\(`, an optional quote, then the lazy capture. */
  function AfterColon(afterColon: string): Option<string> {
    var call := afterColon[LeadingSpace(afterColon)..];
    if StartsWith(call, "url(") then
      var open := call[4..];
      LazyCapture(if open != [] && IsQuote(open[0]) then open[1..] else open, 0)
    else None
  }

  /** `re.search` of the background pattern: where its leftmost match, at or after `from`, starts. */
  function BackgroundMatchStart(style: string, from: nat): (r: Option<nat>)
    requires from <= |style|
    ensures r.Some? ==> from <= r.value <= |style| && BackgroundHere(style[r.value..]).Some?
    decreases |style| - from
  {
    if BackgroundHere(style[from..]).Some? then Some(from)
    else if from == |style| then None
    else BackgroundMatchStart(style, from + 1)
  }

  /** The URL captured by that leftmost match. */
  function BackgroundMatch(style: string): Option<string> {
    match BackgroundMatchStart(style, 0)
    case None => None
    case Some(i) => BackgroundHere(style[i..])
  }

  /** The words that disqualify a background URL (lower-cased). */
  predicate BackgroundBlocked(lowered: string) {
    Contains(lowered, "icon") || Contains(lowered, "logo") || Contains(lowered, "banner") ||
    Contains(lowered, "button") || Contains(lowered, "bg-") || Contains(lowered, "background")
  }

  /** The background URL one element contributes, if any. */
  function BackgroundOf(elem: Node): (r: Option<string>)
    ensures r.Some? ==> r.value != [] && !BackgroundBlocked(Lower(r.value))
  {
    var style := if Get(elem, "style").Some? then Get(elem, "style").value else "";
    var m := BackgroundMatch(style);
    if m.Some? && m.value != [] && !BackgroundBlocked(Lower(m.value)) then m else None
  }

  function OptionToSeq<T>(o: Option<T>): (r: seq<T>)
    ensures |r| <= 1 && (o.Some? <==> |r| == 1) && (o.Some? ==> r[0] == o.value)
  {
    if o.Some? then [o.value] else []
  }

  /** The background URLs of the styled elements, in document order. */
  function BackgroundsOf(elems: seq<Node>): (r: seq<string>)
  {
    if elems == [] then []
    else
      var init := elems[..|elems| - 1];
      assert forall e :: e in init ==> e in elems;
      BackgroundsOf(init) + OptionToSeq(BackgroundOf(elems[|elems| - 1]))
  }

  /** `find_background_images(scope)`. */
  method FindBackgroundImages(scope: Node) returns (urls: seq<string>)
    ensures urls == BackgroundsOf(FindAll(scope, HasAttr("style")))
  {
    var elems := FindAll(scope, HasAttr("style"));
    urls := [];
    for j := 0 to |elems|
      invariant urls == BackgroundsOf(elems[..j])
    {
      var m := BackgroundOf(elems[j]);
      BackgroundsStep(elems, j);
      if m.Some? {
        urls := urls + [m.value];
      }
    }
    assert elems[..|elems|] == elems;
  }

  lemma BackgroundsStep(elems: seq<Node>, j: nat)
    requires j < |elems|
    ensures BackgroundsOf(elems[..j + 1]) == BackgroundsOf(elems[..j]) + OptionToSeq(BackgroundOf(elems[j]))
  {
    var step := elems[..j + 1];
    assert step[..|step| - 1] == elems[..j] && step[|step| - 1] == elems[j];
  }

  // ---------------------------------------------------------------------------
  // img tags
  // ---------------------------------------------------------------------------

  /** `img_tags`: every `img`, then every tag with `data-original-src`, then every tag with
      `data-lazy-src`; a tag can be listed more than once. */
  function ImgTags(scope: Node): seq<Node> {
    FindAll(scope, TagIs("img")) + FindAll(scope, HasAttr("data-original-src")) +
    FindAll(scope, HasAttr("data-lazy-src"))
  }

  /** The attributes tried for an image URL, in order. */
  const SourceAttributes: seq<string> := ["src", "data-src", "data-original", "data-original-src", "data-lazy-src"]

  /** The first attribute of `attrs`, from `k` on, whose value is present and non-empty. */
  function FirstTruthy(n: Node, attrs: seq<string>, k: nat): (r: Option<string>)
    requires k <= |attrs|
    ensures r.Some? ==> r.value != [] && exists j :: k <= j < |attrs| && Get(n, attrs[j]) == r
    ensures r.None? ==> forall j :: k <= j < |attrs| ==> !Truthy(Get(n, attrs[j]))
    decreases |attrs| - k
  {
    if k == |attrs| then None
    else if Truthy(Get(n, attrs[k])) then Get(n, attrs[k])
    else FirstTruthy(n, attrs, k + 1)
  }

  /** The words that disqualify an `img` URL (lower-cased): icons, logos and advertisements. */
  predicate ImageBlocked(lowered: string) {
    Contains(lowered, "icon") || Contains(lowered, "logo") ||
    Contains(lowered, "ad.") || Contains(lowered, "ad/") || Contains(lowered, "advert") ||
    Contains(lowered, "advertisement")
  }

  /** The extension a saved image gets: from the decoded format, else from Content-Type. */
  function SavedExt(resp: Response): string {
    if resp.picture.Some? then ImageExtFromFormat(resp.picture.value.format)
    else ImageExtFromContentType(resp.contentType)
  }

  /** What happens to the `i`-th entry of `img_tags`: the record saved for it, or None when it
      is skipped (no URL, a blocked URL, a size that raises, a failed download, an undecodable
      image of unknown size, or one smaller than 300x200). */
  function ImageOutcome(web: Web, page: string, safe: string, i: nat, img: Node): (r: Option<SavedImage>)
    ensures r.Some? ==> r.value.width >= MinImageWidth && r.value.height >= MinImageHeight
    ensures FirstTruthy(img, SourceAttributes, 0).None? || GetDisplaySize(img).Raises? ==> r.None?
  {
    match FirstTruthy(img, SourceAttributes, 0)
    case None => None
    case Some(src) =>
      var u := web.join(page, src);
      if ImageBlocked(Lower(u)) then None
      else match GetDisplaySize(img)
        case Raises => None
        case Measured(dw, dh) =>
          match CheckedFetch(web, u)
          case None => None
          case Some(resp) =>
            if (dw == 0 || dh == 0) && resp.picture.None? then None
            else
              var w := if dw == 0 || dh == 0 then resp.picture.value.width else dw;
              var h := if dw == 0 || dh == 0 then resp.picture.value.height else dh;
              if w < MinImageWidth || h < MinImageHeight then None
              else Some(SavedImage(IndexedName(safe, i + 1, SavedExt(resp)), w, h, u))
  }

  /** What happens to the `i`-th background URL; `base` is `len(img_tags)`. */
  function BackgroundOutcome(web: Web, page: string, safe: string, base: nat, i: nat, bg: string): Option<SavedImage>
  {
    var u := web.join(page, bg);
    match CheckedFetch(web, u)
    case None => None
    case Some(resp) =>
      match resp.picture
      case None => None
      case Some(p) =>
        if p.width < MinImageWidth || p.height < MinImageHeight then None
        else Some(SavedImage(BackgroundName(safe, base + i + 1, ImageExtFromFormat(p.format)), p.width, p.height, u))
  }

  /** The records saved for the `img_tags` entries, in order. */
  function SavedFromTags(web: Web, page: string, safe: string, tags: seq<Node>): (r: seq<SavedImage>)
    ensures |r| <= |tags|
  {
    if tags == [] then []
    else
      var n := |tags| - 1;
      SavedFromTags(web, page, safe, tags[..n]) + OptionToSeq(ImageOutcome(web, page, safe, n, tags[n]))
  }

  /** The records saved for the background URLs, in order. */
  function SavedFromBackgrounds(web: Web, page: string, safe: string, base: nat, bgs: seq<string>): (r: seq<SavedImage>)
    ensures |r| <= |bgs|
  {
    if bgs == [] then []
    else
      var n := |bgs| - 1;
      SavedFromBackgrounds(web, page, safe, base, bgs[..n]) + OptionToSeq(BackgroundOutcome(web, page, safe, base, n, bgs[n]))
  }

  /** Where images are looked for: the given container; without one, the container extracted
      from a fresh fetch of the page, or that page as a whole; None when that fetch fails. */
  function HarvestScope(web: Web, page: string, container: Option<Node>): Option<Node> {
    if container.Some? then container
    else match CheckedFetch(web, page)
      case None => None
      case Some(resp) =>
        var c := Extractor.ArticleContainer(resp.document);
        if c.Some? then c else Some(resp.document)
  }

  /** The `saved_images` list `download_images` returns. */
  function SavedImages(web: Web, page: string, title: string, container: Option<Node>): seq<SavedImage> {
    match HarvestScope(web, page, container)
    case None => []
    case Some(scope) =>
      var tags := ImgTags(scope);
      SavedFromTags(web, page, SafeTitle(title), tags) +
      SavedFromBackgrounds(web, page, SafeTitle(title), |tags|, BackgroundsOf(FindAll(scope, HasAttr("style"))))
  }

  /** `download_images(url, title, article_container)`: the count and the records of the saved images. */
  method DownloadImages(web: Web, page: string, title: string, container: Option<Node>)
    returns (count: nat, saved: seq<SavedImage>)
    ensures saved == SavedImages(web, page, title, container)
    ensures count == |saved|
  {
    var found := FindScope(web, page, container);
    if found.None? {
      return 0, [];
    }
    var scope := found.value;
    var tags := ImgTags(scope);
    var backgrounds := FindBackgroundImages(scope);
    var safe := SafeTitle(title);
    var fromTags := SaveTagImages(web, page, safe, tags);
    var fromBackgrounds := SaveBackgroundImages(web, page, safe, |tags|, backgrounds);
    saved := fromTags + fromBackgrounds;
    count := |fromTags| + |fromBackgrounds|;
  }

  /** The head of `download_images`: the container, or else a fresh fetch of the page and the
      container extracted from it, or that page as a whole. */
  method FindScope(web: Web, page: string, container: Option<Node>) returns (scope: Option<Node>)
    ensures scope == HarvestScope(web, page, container)
  {
    if container.Some? {
      return container;
    }
    var resp := CheckedFetch(web, page);
    if resp.None? {
      return None;
    }
    var _, c := Extractor.ExtractArticleContent(resp.value.document);
    if c.Some? {
      scope := c;
    } else {
      scope := Some(resp.value.document);
    }
  }

  /** The first loop of `download_images`, over `img_tags`. */
  method SaveTagImages(web: Web, page: string, safe: string, tags: seq<Node>) returns (saved: seq<SavedImage>)
    ensures saved == SavedFromTags(web, page, safe, tags)
  {
    saved := [];
    for i := 0 to |tags|
      invariant saved == SavedFromTags(web, page, safe, tags[..i])
    {
      var outcome := ImageOutcome(web, page, safe, i, tags[i]);
      TagsStep(web, page, safe, tags, i);
      if outcome.Some? {
        saved := saved + [outcome.value];
      }
    }
    assert tags[..|tags|] == tags;
  }

  /** The second loop of `download_images`, over the background URLs; `base` is `len(img_tags)`. */
  method SaveBackgroundImages(web: Web, page: string, safe: string, base: nat, bgs: seq<string>)
    returns (saved: seq<SavedImage>)
    ensures saved == SavedFromBackgrounds(web, page, safe, base, bgs)
  {
    saved := [];
    for i := 0 to |bgs|
      invariant saved == SavedFromBackgrounds(web, page, safe, base, bgs[..i])
    {
      var outcome := BackgroundOutcome(web, page, safe, base, i, bgs[i]);
      SavedBackgroundsStep(web, page, safe, base, bgs, i);
      if outcome.Some? {
        saved := saved + [outcome.value];
      }
    }
    assert bgs[..|bgs|] == bgs;
  }

  lemma TagsStep(web: Web, page: string, safe: string, tags: seq<Node>, i: nat)
    requires i < |tags|
    ensures SavedFromTags(web, page, safe, tags[..i + 1]) ==
      SavedFromTags(web, page, safe, tags[..i]) + OptionToSeq(ImageOutcome(web, page, safe, i, tags[i]))
  {
    var step := tags[..i + 1];
    assert step[..|step| - 1] == tags[..i] && step[|step| - 1] == tags[i];
  }

  lemma SavedBackgroundsStep(web: Web, page: string, safe: string, base: nat, bgs: seq<string>, i: nat)
    requires i < |bgs|
    ensures SavedFromBackgrounds(web, page, safe, base, bgs[..i + 1]) ==
      SavedFromBackgrounds(web, page, safe, base, bgs[..i]) + OptionToSeq(BackgroundOutcome(web, page, safe, base, i, bgs[i]))
  {
    var step := bgs[..i + 1];
    assert step[..|step| - 1] == bgs[..i] && step[|step| - 1] == bgs[i];
  }

  /** A record is saved for an `img` tag only when the tag has a URL attribute, the joined URL
      names no icon, logo or advertisement, the download succeeded, the size is at least
      300x200, and the file is named `{safe}_{i+1}.{ext}` with the extension of the response. */
  lemma ImageOutcomeSound(web: Web, page: string, safe: string, i: nat, img: Node)
    ensures var r := ImageOutcome(web, page, safe, i, img);
      r.Some? ==>
        var src := FirstTruthy(img, SourceAttributes, 0);
        src.Some? && r.value.url == web.join(page, src.value) &&
        !ImageBlocked(Lower(r.value.url)) &&
        r.value.width >= MinImageWidth && r.value.height >= MinImageHeight &&
        CheckedFetch(web, r.value.url).Some? &&
        r.value.fileName == IndexedName(safe, i + 1, SavedExt(CheckedFetch(web, r.value.url).value))
  {
  }

  /** The size a saved `img` record carries is the declared display size when both parts are
      non-zero, and the decoded size otherwise. */
  lemma ImageOutcomeSize(web: Web, page: string, safe: string, i: nat, img: Node)
    ensures var r := ImageOutcome(web, page, safe, i, img);
      r.Some? ==> (GetDisplaySize(img).Measured? &&
        var d := GetDisplaySize(img);
        var resp := CheckedFetch(web, r.value.url).value;
        if d.width == 0 || d.height == 0 then
          resp.picture.Some? && r.value.width == resp.picture.value.width && r.value.height == resp.picture.value.height
        else r.value.width == d.width && r.value.height == d.height)
  {
  }

  /** A background record is saved only for a decodable download of at least 300x200, and is
      named `{safe}_bg_{base+i+1}.{format}`. */
  lemma BackgroundOutcomeSound(web: Web, page: string, safe: string, base: nat, i: nat, bg: string)
    ensures var r := BackgroundOutcome(web, page, safe, base, i, bg);
      r.Some? ==>
        r.value.url == web.join(page, bg) &&
        r.value.width >= MinImageWidth && r.value.height >= MinImageHeight &&
        CheckedFetch(web, r.value.url).Some? && CheckedFetch(web, r.value.url).value.picture.Some? &&
        r.value.fileName == BackgroundName(safe, base + i + 1,
                              ImageExtFromFormat(CheckedFetch(web, r.value.url).value.picture.value.format))
  {
  }

  /** Every background URL found is non-empty and names no icon, logo, banner, button or
      background asset. */
  lemma {:induction false} BackgroundsOfFiltered(elems: seq<Node>)
    ensures forall u <- BackgroundsOf(elems) :: u != [] && !BackgroundBlocked(Lower(u))
  {
    if elems != [] {
      BackgroundsOfFiltered(elems[..|elems| - 1]);
    }
  }

  /** Every record kept for an `img` tag is at least 300x200 and comes from an unblocked URL. */
  lemma {:induction false} TagImagesSound(web: Web, page: string, safe: string, tags: seq<Node>)
    ensures forall r <- SavedFromTags(web, page, safe, tags) ::
      r.width >= MinImageWidth && r.height >= MinImageHeight && !ImageBlocked(Lower(r.url))
  {
    if tags != [] {
      var n := |tags| - 1;
      TagImagesSound(web, page, safe, tags[..n]);
      ImageOutcomeSound(web, page, safe, n, tags[n]);
    }
  }

  /** Every record kept for a background image is at least 300x200. */
  lemma {:induction false} BackgroundImagesSound(web: Web, page: string, safe: string, base: nat, bgs: seq<string>)
    ensures forall r <- SavedFromBackgrounds(web, page, safe, base, bgs) ::
      r.width >= MinImageWidth && r.height >= MinImageHeight
  {
    if bgs != [] {
      var n := |bgs| - 1;
      BackgroundImagesSound(web, page, safe, base, bgs[..n]);
      BackgroundOutcomeSound(web, page, safe, base, n, bgs[n]);
    }
  }

  /** Whatever `download_images` saves, from tags or from backgrounds, is at least 300x200. */
  lemma SavedImagesLargeEnough(web: Web, page: string, title: string, container: Option<Node>)
    ensures forall r <- SavedImages(web, page, title, container) ::
      r.width >= MinImageWidth && r.height >= MinImageHeight
  {
    match HarvestScope(web, page, container)
    case None =>
    case Some(scope) =>
      var tags := ImgTags(scope);
      TagImagesSound(web, page, SafeTitle(title), tags);
      BackgroundImagesSound(web, page, SafeTitle(title), |tags|, BackgroundsOf(FindAll(scope, HasAttr("style"))));
  }

  /** With no container, a failed fetch of the page saves nothing. */
  lemma NoPageNoImages(web: Web, page: string, title: string)
    requires CheckedFetch(web, page).None?
    ensures SavedImages(web, page, title, None) == []
  {
  }
}
