/**
 * The persistence writer (`download_text`): the text file of one article is
 * its title line, its URL line, a blank line and the paragraphs, followed by
 * a numbered image manifest and a numbered video manifest when there is
 * anything to list.  The file is named after the sanitised title.
 */
module TextWriter {
  import opened Wrappers
  import opened Strings
  import opened Dom
  import opened Web
  import opened Naming
  import ImageHarvest
  import VideoHarvest
  import Extractor

  /** A written text file: its name under `texts/` and its contents. */
  datatype TextFile = TextFile(name: string, body: string)

  const TitleLabel: string := "标题: "
  const UrlLabel: string := "网址: "
  const ImageHeading: string := "图片列表:"
  const VideoHeading: string := "视频列表:"
  const SizeLabel: string := " - 尺寸: "

  /** `标题: {title}\n网址: {url}\n\n{content}`. */
  function Header(title: string, url: string, content: string): string {
    TitleLabel + title + "\n" + UrlLabel + url + "\n\n" + content
  }

  /** The manifest line of the `k`-th saved image (counting from 1). */
  function ImageLine(k: nat, img: ImageHarvest.SavedImage): string {
    NatToString(k) + ". " + img.fileName + SizeLabel + IntToString(img.width) + "x" + IntToString(img.height) + "\n"
  }

  /** The manifest line of the `k`-th saved video (counting from 1). */
  function VideoLine(k: nat, video: VideoHarvest.SavedVideo): string {
    NatToString(k) + ". " + video.fileName + "\n"
  }

  /** The image lines, numbered from 1. */
  function ImageLines(images: seq<ImageHarvest.SavedImage>): string {
    if images == [] then []
    else ImageLines(images[..|images| - 1]) + ImageLine(|images|, images[|images| - 1])
  }

  /** The video lines, numbered from 1. */
  function VideoLines(videos: seq<VideoHarvest.SavedVideo>): string {
    if videos == [] then []
    else VideoLines(videos[..|videos| - 1]) + VideoLine(|videos|, videos[|videos| - 1])
  }

  /** The image manifest: nothing when no image was saved. */
  function ImageManifest(images: seq<ImageHarvest.SavedImage>): string {
    if images == [] then [] else "\n\n" + ImageHeading + "\n" + ImageLines(images)
  }

  /** The video manifest: nothing when no video was saved. */
  function VideoManifest(videos: seq<VideoHarvest.SavedVideo>): string {
    if videos == [] then [] else "\n\n" + VideoHeading + "\n" + VideoLines(videos)
  }

  /** `full_content` as written to the file. */
  function RenderText(title: string, url: string, content: string,
                      images: seq<ImageHarvest.SavedImage>, videos: seq<VideoHarvest.SavedVideo>): string
  {
    Header(title, url, content) + ImageManifest(images) + VideoManifest(videos)
  }

  /** The string building of `download_text`. */
  method RenderFullContent(title: string, url: string, content: string,
                           images: seq<ImageHarvest.SavedImage>, videos: seq<VideoHarvest.SavedVideo>)
    returns (full: string)
    ensures full == RenderText(title, url, content, images, videos)
  {
    full := Header(title, url, content);
    full := AppendImageManifest(full, images);
    full := AppendVideoManifest(full, videos);
  }

  /** The image section: the heading, then the loop that appends one line per saved image. */
  method AppendImageManifest(start: string, images: seq<ImageHarvest.SavedImage>) returns (full: string)
    ensures full == start + ImageManifest(images)
  {
    full := start;
    if |images| > 0 {
      var head := "\n\n" + ImageHeading + "\n";
      full := full + head;
      for i := 0 to |images|
        invariant full == start + head + ImageLines(images[..i])
      {
        var line := ImageLine(i + 1, images[i]);
        ImageLinesStep(images, i);
        AppendAssoc(start + head, ImageLines(images[..i]), line);
        full := full + line;
      }
      assert images[..|images|] == images;
      AppendAssoc(start, head, ImageLines(images));
    }
  }

  /** The video section: the heading, then the loop that appends one line per saved video. */
  method AppendVideoManifest(start: string, videos: seq<VideoHarvest.SavedVideo>) returns (full: string)
    ensures full == start + VideoManifest(videos)
  {
    full := start;
    if |videos| > 0 {
      var head := "\n\n" + VideoHeading + "\n";
      full := full + head;
      for i := 0 to |videos|
        invariant full == start + head + VideoLines(videos[..i])
      {
        var line := VideoLine(i + 1, videos[i]);
        VideoLinesStep(videos, i);
        AppendAssoc(start + head, VideoLines(videos[..i]), line);
        full := full + line;
      }
      assert videos[..|videos|] == videos;
      AppendAssoc(start, head, VideoLines(videos));
    }
  }

  lemma AppendAssoc(a: string, b: string, c: string)
    ensures a + (b + c) == a + b + c
  {
  }

  lemma ImageLinesStep(images: seq<ImageHarvest.SavedImage>, i: nat)
    requires i < |images|
    ensures ImageLines(images[..i + 1]) == ImageLines(images[..i]) + ImageLine(i + 1, images[i])
  {
    assert images[..i + 1][..i] == images[..i];
  }

  lemma VideoLinesStep(videos: seq<VideoHarvest.SavedVideo>, i: nat)
    requires i < |videos|
    ensures VideoLines(videos[..i + 1]) == VideoLines(videos[..i]) + VideoLine(i + 1, videos[i])
  {
    assert videos[..i + 1][..i] == videos[..i];
  }

  /** `download_text(url, title, saved_images, saved_videos)`: it fetches the page again and
      extracts the text; on success it writes `{safe_title}.txt` and returns True with the
      container, on a failed fetch it writes nothing and returns False and None. */
  method DownloadText(web: Web, url: string, title: string,
                      images: seq<ImageHarvest.SavedImage>, videos: seq<VideoHarvest.SavedVideo>)
    returns (ok: bool, container: Option<Node>, written: Option<TextFile>)
    ensures ok <==> CheckedFetch(web, url).Some? && web.canWrite(SafeTitle(title) + ".txt")
    ensures !ok ==> container.None? && written.None?
    ensures ok ==>
      var doc := CheckedFetch(web, url).value.document;
      container == Extractor.ArticleContainer(doc) &&
      written == Some(TextFile(SafeTitle(title) + ".txt",
                               RenderText(title, url, Extractor.ArticleText(doc), images, videos)))
  {
    var resp := CheckedFetch(web, url);
    if resp.None? {
      return false, None, None;
    }
    var content, c := Extractor.ExtractArticleContent(resp.value.document);
    var full := RenderFullContent(title, url, content, images, videos);
    var name := SafeTitle(title) + ".txt";
    if !web.canWrite(name) {
      return false, None, None;
    }
    ok, container, written := true, c, Some(TextFile(name, full));
  }

  /** Without saved media the file is exactly the header block. */
  lemma NoMediaIsHeader(title: string, url: string, content: string)
    ensures RenderText(title, url, content, [], []) == Header(title, url, content)
  {
  }
}
