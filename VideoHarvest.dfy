/**
 * The video half of the media harvester (`download_videos`): the video
 * sources of the scope (`source` children and `src` of `video` tags, player
 * iframes, then the extra sources found elsewhere), and what is kept for each:
 * a link file for an embedded player, a downloaded file otherwise.
 */
module VideoHarvest {
  import opened Wrappers
  import opened Strings
  import opened Dom
  import opened Web
  import opened Naming
  import ImageHarvest
  import Extractor

  /** `'type'` of an entry of `saved_videos`. */
  datatype VideoKind = Link | File

  /** One entry of `saved_videos`. */
  datatype SavedVideo = SavedVideo(fileName: string, url: string, kind: VideoKind)

  // ---------------------------------------------------------------------------
  // Sources
  // ---------------------------------------------------------------------------

  /** The non-empty `src` values of `nodes`, in order. */
  function TruthySources(nodes: seq<Node>): (r: seq<string>)
    ensures |r| <= |nodes|
    ensures forall u <- r :: u != []
  {
    if nodes == [] then []
    else
      var n := |nodes| - 1;
      TruthySources(nodes[..n]) + (if Truthy(Get(nodes[n], "src")) then [Get(nodes[n], "src").value] else [])
  }

  /** The sources one `video` tag contributes: its `source` descendants' `src`, then its own. */
  function SourcesOfVideo(video: Node): (r: seq<string>) {
    TruthySources(FindAll(video, TagIs("source")) + [video])
  }

  /** The sources of the `video` tags, tag after tag. */
  function VideoTagSources(videos: seq<Node>): seq<string> {
    if videos == [] then []
    else VideoTagSources(videos[..|videos| - 1]) + SourcesOfVideo(videos[|videos| - 1])
  }

  /** An iframe `src` that looks like an embedded player. */
  predicate PlayerLike(src: string) {
    Contains(src, "video") || Contains(src, "player") || Contains(src, "youtube") || Contains(src, "vimeo")
  }

  /** The player-like `src` values of the iframes, in order. */
  function IframeSources(iframes: seq<Node>): (r: seq<string>)
    ensures |r| <= |iframes|
  {
    if iframes == [] then []
    else
      var n := |iframes| - 1;
      var src := Get(iframes[n], "src");
      IframeSources(iframes[..n]) + (if Truthy(src) && PlayerLike(src.value) then [src.value] else [])
  }

  /** `video_sources` for a scope; `extra` stands for `find_additional_video_sources`. */
  function VideoSources(scope: Node, extra: Node -> seq<string>): seq<string> {
    VideoTagSources(FindAll(scope, TagIs("video"))) + IframeSources(FindAll(scope, TagIs("iframe"))) + extra(scope)
  }

  /** The loops that build `video_sources`. */
  method CollectVideoSources(scope: Node, extra: Node -> seq<string>) returns (sources: seq<string>)
    ensures sources == VideoSources(scope, extra)
  {
    var fromVideos := CollectVideoTagSources(FindAll(scope, TagIs("video")));
    var fromIframes := CollectIframeSources(FindAll(scope, TagIs("iframe")));
    sources := fromVideos + fromIframes + extra(scope);
  }

  /** The loop over the `video` tags. */
  method CollectVideoTagSources(videos: seq<Node>) returns (sources: seq<string>)
    ensures sources == VideoTagSources(videos)
  {
    sources := [];
    for i := 0 to |videos|
      invariant sources == VideoTagSources(videos[..i])
    {
      assert videos[..i + 1][..i] == videos[..i];
      var own := CollectTruthySources(FindAll(videos[i], TagIs("source")) + [videos[i]]);
      sources := sources + own;
    }
    assert videos[..|videos|] == videos;
  }

  /** The loop over one tag's `source` children, followed by the tag's own `src`. */
  method CollectTruthySources(nodes: seq<Node>) returns (sources: seq<string>)
    ensures sources == TruthySources(nodes)
  {
    sources := [];
    for j := 0 to |nodes|
      invariant sources == TruthySources(nodes[..j])
    {
      assert nodes[..j + 1][..j] == nodes[..j];
      var src := Get(nodes[j], "src");
      if Truthy(src) {
        sources := sources + [src.value];
      }
    }
    assert nodes[..|nodes|] == nodes;
  }

  /** The loop over the iframes. */
  method CollectIframeSources(iframes: seq<Node>) returns (sources: seq<string>)
    ensures sources == IframeSources(iframes)
  {
    sources := [];
    for i := 0 to |iframes|
      invariant sources == IframeSources(iframes[..i])
    {
      assert iframes[..i + 1][..i] == iframes[..i];
      var src := Get(iframes[i], "src");
      if Truthy(src) && PlayerLike(src.value) {
        sources := sources + [src.value];
      }
    }
    assert iframes[..|iframes|] == iframes;
  }

  // ---------------------------------------------------------------------------
  // Classification
  // ---------------------------------------------------------------------------

  /** A joined URL that is recorded as a link instead of being downloaded. */
  predicate Embedded(u: string) {
    Contains(u, "youtube.com") || Contains(u, "vimeo.com") || Contains(u, "player")
  }

  /** The text written into a link file. */
  function LinkFileText(u: string): (r: string)
    ensures |r| == |u| + 6 && r[6..] == u
  {
    "视频链接: " + u
  }

  /** What happens to the `i`-th entry of `video_sources`: the record saved for it, or None
      when the download fails. */
  function VideoOutcome(web: Web, page: string, safe: string, i: nat, src: string): (r: Option<SavedVideo>)
    ensures r.Some? ==> r.value.url == web.join(page, src)
    ensures r.None? ==> !Embedded(web.join(page, src)) && CheckedFetch(web, web.join(page, src)).None?
  {
    var u := web.join(page, src);
    if Embedded(u) then Some(SavedVideo(LinkName(safe, i + 1), u, Link))
    else match CheckedFetch(web, u)
      case None => None
      case Some(resp) => Some(SavedVideo(IndexedName(safe, i + 1, VideoExt(resp.contentType, u)), u, File))
  }

  /** The records saved for `video_sources`, in order. */
  function SavedFromSources(web: Web, page: string, safe: string, sources: seq<string>): (r: seq<SavedVideo>)
    ensures |r| <= |sources|
  {
    if sources == [] then []
    else
      var n := |sources| - 1;
      SavedFromSources(web, page, safe, sources[..n]) + ImageHarvest.OptionToSeq(VideoOutcome(web, page, safe, n, sources[n]))
  }

  /** The `saved_videos` list `download_videos` returns. */
  function SavedVideos(web: Web, page: string, title: string, container: Option<Node>, extra: Node -> seq<string>): seq<SavedVideo> {
    match ImageHarvest.HarvestScope(web, page, container)
    case None => []
    case Some(scope) => SavedFromSources(web, page, SafeTitle(title), VideoSources(scope, extra))
  }

  /** `download_videos(url, title, article_container)`: the count and the records of the saved videos. */
  method DownloadVideos(web: Web, page: string, title: string, container: Option<Node>, extra: Node -> seq<string>)
    returns (count: nat, saved: seq<SavedVideo>)
    ensures saved == SavedVideos(web, page, title, container, extra)
    ensures count == |saved|
  {
    var scope: Node;
    if container.Some? {
      scope := container.value;
    } else {
      var resp := CheckedFetch(web, page);
      if resp.None? {
        return 0, [];
      }
      var _, c := Extractor.ExtractArticleContent(resp.value.document);
      if c.Some? {
        scope := c.value;
      } else {
        scope := resp.value.document;
      }
    }
    var sources := CollectVideoSources(scope, extra);
    count, saved := SaveVideos(web, page, SafeTitle(title), sources);
  }

  /** The download loop of `download_videos`, with its `count`. */
  method SaveVideos(web: Web, page: string, safe: string, sources: seq<string>)
    returns (count: nat, saved: seq<SavedVideo>)
    ensures saved == SavedFromSources(web, page, safe, sources)
    ensures count == |saved|
  {
    count, saved := 0, [];
    for i := 0 to |sources|
      invariant saved == SavedFromSources(web, page, safe, sources[..i])
      invariant count == |saved|
    {
      assert sources[..i + 1][..i] == sources[..i];
      var outcome := VideoOutcome(web, page, safe, i, sources[i]);
      if outcome.Some? {
        saved := saved + [outcome.value];
        count := count + 1;
      }
    }
    assert sources[..|sources|] == sources;
  }

  // ---------------------------------------------------------------------------
  // Properties
  // ---------------------------------------------------------------------------

  /** An embedded player is recorded as `{safe}_{i+1}_link.txt` whatever the network does:
      it is never fetched. */
  lemma EmbeddedIsLink(web: Web, page: string, safe: string, i: nat, src: string)
    requires Embedded(web.join(page, src))
    ensures VideoOutcome(web, page, safe, i, src) == Some(SavedVideo(LinkName(safe, i + 1), web.join(page, src), Link))
    ensures forall other: Web :: other.join == web.join ==>
              VideoOutcome(other, page, safe, i, src) == VideoOutcome(web, page, safe, i, src)
  {
  }

  /** Any other source is kept exactly when its download succeeds, as `{safe}_{i+1}.{ext}`
      with `ext` one of mp4, webm, ogg. */
  lemma DirectIsFile(web: Web, page: string, safe: string, i: nat, src: string)
    requires !Embedded(web.join(page, src))
    ensures var r := VideoOutcome(web, page, safe, i, src);
      var u := web.join(page, src);
      (r.Some? <==> CheckedFetch(web, u).Some?) &&
      (r.Some? ==> (r.value.kind == File && r.value.url == u &&
         r.value.fileName in {IndexedName(safe, i + 1, "mp4"), IndexedName(safe, i + 1, "webm"), IndexedName(safe, i + 1, "ogg")}))
  {
    var u := web.join(page, src);
    if CheckedFetch(web, u).Some? {
      var ext := VideoExt(CheckedFetch(web, u).value.contentType, u);
      assert ext in {"mp4", "webm", "ogg"};
    }
  }

  /** Every saved record is a link exactly when its URL is an embedded player. */
  lemma {:induction false} SavedKindMatchesUrl(web: Web, page: string, safe: string, sources: seq<string>)
    ensures forall r <- SavedFromSources(web, page, safe, sources) :: (r.kind == Link <==> Embedded(r.url))
  {
    if sources != [] {
      SavedKindMatchesUrl(web, page, safe, sources[..|sources| - 1]);
    }
  }

  /** Only player-like iframes contribute sources. */
  lemma {:induction false} IframeSourcesPlayerLike(iframes: seq<Node>)
    ensures forall u <- IframeSources(iframes) :: u != [] && PlayerLike(u)
  {
    if iframes != [] {
      IframeSourcesPlayerLike(iframes[..|iframes| - 1]);
    }
  }
}
