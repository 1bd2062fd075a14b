/**
 * The crawler's deterministic file names: the sanitised title, the index
 * suffixes of images and videos, and the extension chains that fall back on
 * the Content-Type header or the URL.
 */
module Naming {
  import opened Wrappers
  import opened Strings

  /** The characters the title sanitiser deletes: backslash, slash, star, question mark,
      colon, double quote, angle brackets and bar. */
  predicate PathIllegal(c: char) {
    c == '\\' || c == '/' || c == '*' || c == '?' || c == ':' || c == '"' || c == '<' || c == '>' || c == '|'
  }

  /** `safe_title`: the title with every path-illegal character deleted, the rest in order. */
  function SafeTitle(title: string): (r: string)
    ensures |r| <= |title|
    ensures forall k :: 0 <= k < |r| ==> !PathIllegal(r[k])
    ensures (forall k :: 0 <= k < |title| ==> !PathIllegal(title[k])) ==> r == title
  {
    if title == [] then []
    else
      var rest := SafeTitle(title[1..]);
      if PathIllegal(title[0]) then rest else [title[0]] + rest
  }

  /** Sanitising a concatenation sanitises each part: every kept character keeps its place
      relative to the others. */
  lemma {:induction false} SafeTitleAppend(a: string, b: string)
    ensures SafeTitle(a + b) == SafeTitle(a) + SafeTitle(b)
  {
    if a != [] {
      assert (a + b)[0] == a[0];
      assert (a + b)[1..] == a[1..] + b;
      SafeTitleAppend(a[1..], b);
    } else {
      assert a + b == b;
    }
  }

  /** A single character is dropped exactly when it is path-illegal. */
  lemma SafeTitleChar(c: char)
    ensures SafeTitle([c]) == if PathIllegal(c) then [] else [c]
  {
    assert [c][1..] == [];
  }

  /** Sanitising twice changes nothing more. */
  lemma SafeTitleIdempotent(title: string)
    ensures SafeTitle(SafeTitle(title)) == SafeTitle(title)
  {
  }

  /** The extension of a saved image whose bytes PIL could not decode, from `Content-Type`. */
  function ImageExtFromContentType(ct: string): (ext: string)
    ensures ext in {"jpg", "png", "gif", "webp"}
    ensures ext == "jpg" <==> Contains(ct, "jpeg") || Contains(ct, "jpg") ||
                              (!Contains(ct, "png") && !Contains(ct, "gif") && !Contains(ct, "webp"))
    ensures ext == "png" <==> !Contains(ct, "jpeg") && !Contains(ct, "jpg") && Contains(ct, "png")
    ensures ext == "gif" <==> !Contains(ct, "jpeg") && !Contains(ct, "jpg") && !Contains(ct, "png") &&
                              Contains(ct, "gif")
    ensures ext == "webp" <==> !Contains(ct, "jpeg") && !Contains(ct, "jpg") && !Contains(ct, "png") &&
                               !Contains(ct, "gif") && Contains(ct, "webp")
  {
    if Contains(ct, "jpeg") || Contains(ct, "jpg") then "jpg"
    else if Contains(ct, "png") then "png"
    else if Contains(ct, "gif") then "gif"
    else if Contains(ct, "webp") then "webp"
    else "jpg"
  }

  /** The extension of a decoded image: PIL's format name lower-cased, or "jpg" without one. */
  function ImageExtFromFormat(format: Option<string>): (ext: string)
    ensures format.Some? && format.value != [] ==> ext == Lower(format.value)
    ensures format.None? || format.value == [] ==> ext == "jpg"
  {
    if format.Some? && format.value != [] then Lower(format.value) else "jpg"
  }

  /** The extension of a downloaded video: Content-Type first, then the URL, then "mp4". */
  function VideoExt(ct: string, videoUrl: string): (ext: string)
    ensures ext in {"mp4", "webm", "ogg"}
    ensures Contains(ct, "mp4") ==> ext == "mp4"
    ensures !Contains(ct, "mp4") && Contains(ct, "webm") ==> ext == "webm"
    ensures !Contains(ct, "mp4") && !Contains(ct, "webm") && Contains(ct, "ogg") ==> ext == "ogg"
    ensures !Contains(ct, "mp4") && !Contains(ct, "webm") && !Contains(ct, "ogg") ==>
              ext == (if Contains(videoUrl, ".mp4") then "mp4"
                      else if Contains(videoUrl, ".webm") then "webm"
                      else if Contains(videoUrl, ".ogg") then "ogg"
                      else "mp4")
  {
    if Contains(ct, "mp4") then "mp4"
    else if Contains(ct, "webm") then "webm"
    else if Contains(ct, "ogg") then "ogg"
    else if Contains(videoUrl, ".mp4") then "mp4"
    else if Contains(videoUrl, ".webm") then "webm"
    else if Contains(videoUrl, ".ogg") then "ogg"
    else "mp4"
  }

  /** `f"{safe_title}_{n}.{ext}"`. */
  function IndexedName(safe: string, n: nat, ext: string): string {
    safe + "_" + NatToString(n) + "." + ext
  }

  /** `f"{safe_title}_bg_{n}.{ext}"`. */
  function BackgroundName(safe: string, n: nat, ext: string): string {
    safe + "_bg_" + NatToString(n) + "." + ext
  }

  /** `f"{safe_title}_{n}_link.txt"`. */
  function LinkName(safe: string, n: nat): string {
    safe + "_" + NatToString(n) + "_link.txt"
  }
}
