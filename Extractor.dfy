/**
 * `WebCrawler.extract_article_content`: choose the article container and
 * collect its paragraphs.  An ordered probe of generic selectors comes
 * first; failing that the `div` with the longest stripped text (the first
 * of several equally long ones, as Python's `max`); with a container, its
 * `p`/`h1`-`h6` texts after boilerplate is decomposed; with none at all, the
 * document's `p` texts longer than 30 characters and `<body>` as container.
 */
module Extractor {
  import opened Wrappers
  import opened Strings
  import opened Dom

  /** The crawler's ordered list of generic container selectors. */
  const ArticleSelectors: seq<string> := [
    "article", ".article", ".content", ".post", ".entry", ".main-content",
    "#content", "#article", ".story", ".detail", ".article-content",
    ".article-body", ".post-content", ".entry-content", ".main",
    ".text", ".body", "#main", ".container", ".wrapper"
  ]

  /** `#x` searches by id, `.x` by class, anything else by tag name. */
  function SelectorMatcher(sel: string): (m: Matcher)
    ensures StartsWith(sel, "#") ==> m == IdIs(sel[1..])
    ensures StartsWith(sel, ".") ==> m == HasClass(sel[1..])
    ensures !StartsWith(sel, "#") && !StartsWith(sel, ".") ==> m == TagIs(sel)
  {
    if StartsWith(sel, "#") then IdIs(sel[1..])
    else if StartsWith(sel, ".") then HasClass(sel[1..])
    else TagIs(sel)
  }

  /** `container and container.text.strip()`. */
  predicate HasText(n: Node) { Strip(RawText(n)) != [] }

  /** The selector finds a node whose text is not blank. */
  predicate SelectorHit(doc: Node, sel: string) {
    var found := Find(doc, SelectorMatcher(sel));
    found.Some? && HasText(found.value)
  }

  /** Which selectors of `sels` hit, in order. */
  function Hits(doc: Node, sels: seq<string>): (h: seq<bool>)
    ensures |h| == |sels|
    ensures forall j :: 0 <= j < |sels| ==> h[j] == SelectorHit(doc, sels[j])
  {
    seq(|sels|, j requires 0 <= j < |sels| => SelectorHit(doc, sels[j]))
  }

  /** The index of the first hit at or after `from`: the selector the probe settles on. */
  function FirstHit(hits: seq<bool>, from: nat): (r: Option<nat>)
    requires from <= |hits|
    ensures r.Some? ==> from <= r.value < |hits| && hits[r.value]
    ensures r.Some? ==> forall j :: from <= j < r.value ==> !hits[j]
    ensures r.None? ==> forall j :: from <= j < |hits| ==> !hits[j]
    decreases |hits| - from
  {
    if from == |hits| then None
    else if hits[from] then Some(from)
    else FirstHit(hits, from + 1)
  }

  /** The key of Python's `max(divs, key=...)`: the length of the stripped text. */
  function TextLen(n: Node): nat { |StrippedText(n)| }

  /** The index Python's `max` picks: a longest text, the first of equally long ones. */
  function LongestIndex(s: seq<Node>): (k: nat)
    requires |s| > 0
    ensures k < |s|
    ensures forall j :: 0 <= j < |s| ==> TextLen(s[j]) <= TextLen(s[k])
    ensures forall j :: 0 <= j < k ==> TextLen(s[j]) < TextLen(s[k])
  {
    if |s| == 1 then 0
    else
      var k := LongestIndex(s[..|s| - 1]);
      assert forall j :: 0 <= j < |s| - 1 ==> s[..|s| - 1][j] == s[j];
      if TextLen(s[|s| - 1]) > TextLen(s[k]) then |s| - 1 else k
  }

  /** The container the extractor chooses before decomposing anything. */
  function ChosenContainer(doc: Node): Option<Node> {
    match FirstHit(Hits(doc, ArticleSelectors), 0)
    case Some(k) => Find(doc, SelectorMatcher(ArticleSelectors[k]))
    case None =>
      var divs := FindAll(doc, TagIs("div"));
      if |divs| > 0 then Some(divs[LongestIndex(divs)]) else None
  }

  /** The stripped texts of `elems` longer than `bound` characters, in order. */
  function TextsLongerThan(elems: seq<Node>, bound: nat): (r: seq<string>)
    ensures |r| <= |elems|
    ensures forall k :: 0 <= k < |r| ==> |r[k]| > bound
  {
    if elems == [] then []
    else
      var last := elems[|elems| - 1];
      TextsLongerThan(elems[..|elems| - 1], bound) +
      (if |StrippedText(last)| > bound then [StrippedText(last)] else [])
  }

  /** The positions in `elems` of the elements whose stripped text is longer than `bound`,
      in ascending order. */
  function LongTextPositions(elems: seq<Node>, bound: nat): (idx: seq<nat>)
    ensures forall k :: 0 <= k < |idx| ==> idx[k] < |elems| && |StrippedText(elems[idx[k]])| > bound
    ensures forall k, l :: 0 <= k < l < |idx| ==> idx[k] < idx[l]
  {
    if elems == [] then []
    else
      var n := |elems| - 1;
      var rec := LongTextPositions(elems[..n], bound);
      assert forall k :: 0 <= k < |rec| ==> elems[..n][rec[k]] == elems[rec[k]];
      rec + (if |StrippedText(elems[n])| > bound then [n] else [])
  }

  /** Every position whose element passes the bound is listed. */
  lemma {:induction false} LongTextPositionsComplete(elems: seq<Node>, bound: nat, j: nat)
    requires j < |elems| && |StrippedText(elems[j])| > bound
    ensures j in LongTextPositions(elems, bound)
  {
    var n := |elems| - 1;
    if j < n {
      assert elems[..n][j] == elems[j];
      LongTextPositionsComplete(elems[..n], bound, j);
    }
  }

  /** The k-th collected text is the stripped text of the k-th element that passes the
      bound: the texts keep the order of `elems`, and none is dropped or repeated. */
  lemma {:induction false} TextsInOrder(elems: seq<Node>, bound: nat)
    ensures var idx := LongTextPositions(elems, bound);
            |TextsLongerThan(elems, bound)| == |idx| &&
            forall k :: 0 <= k < |idx| ==> TextsLongerThan(elems, bound)[k] == StrippedText(elems[idx[k]])
  {
    TextsCount(elems, bound);
    forall k | 0 <= k < |LongTextPositions(elems, bound)|
      ensures TextsLongerThan(elems, bound)[k] == StrippedText(elems[LongTextPositions(elems, bound)[k]])
    {
      TextAt(elems, bound, k);
    }
  }

  /** Every collected text is the stripped text of one of the elements and is longer than
      the bound; every element whose stripped text is longer than the bound gives a text. */
  lemma TextsLongerThanMembers(elems: seq<Node>, bound: nat)
    ensures forall t :: t in TextsLongerThan(elems, bound) ==>
              |t| > bound && exists e :: e in elems && StrippedText(e) == t
    ensures forall e :: e in elems && |StrippedText(e)| > bound ==> StrippedText(e) in TextsLongerThan(elems, bound)
  {
    var r, idx := TextsLongerThan(elems, bound), LongTextPositions(elems, bound);
    TextsInOrder(elems, bound);
    forall t | t in r
      ensures exists e :: e in elems && StrippedText(e) == t
    {
      var k :| 0 <= k < |r| && r[k] == t;
      assert elems[idx[k]] in elems;
    }
    forall e | e in elems && |StrippedText(e)| > bound
      ensures StrippedText(e) in r
    {
      var j :| 0 <= j < |elems| && elems[j] == e;
      LongTextPositionsComplete(elems, bound, j);
      var k :| 0 <= k < |idx| && idx[k] == j;
      assert r[k] == StrippedText(e);
    }
  }

  /** As many texts are collected as there are positions that pass the bound. */
  lemma {:induction false} TextsCount(elems: seq<Node>, bound: nat)
    ensures |TextsLongerThan(elems, bound)| == |LongTextPositions(elems, bound)|
  {
    if elems != [] {
      TextsCount(elems[..|elems| - 1], bound);
    }
  }

  /** The k-th collected text is the text at the k-th passing position. */
  lemma {:induction false} TextAt(elems: seq<Node>, bound: nat, k: nat)
    requires k < |LongTextPositions(elems, bound)|
    ensures k < |TextsLongerThan(elems, bound)|
    ensures TextsLongerThan(elems, bound)[k] == StrippedText(elems[LongTextPositions(elems, bound)[k]])
  {
    TextsCount(elems, bound);
    var n := |elems| - 1;
    var init := elems[..n];
    TextsCount(init, bound);
    var rec := LongTextPositions(init, bound);
    if k < |rec| {
      TextAt(init, bound, k);
      assert init[rec[k]] == elems[rec[k]];
    }
  }

  /** Collecting from two runs of elements is collecting from each, the first run first. */
  lemma {:induction false} TextsLongerThanAppend(a: seq<Node>, b: seq<Node>, bound: nat)
    ensures TextsLongerThan(a + b, bound) == TextsLongerThan(a, bound) + TextsLongerThan(b, bound)
    decreases |b|
  {
    if b == [] {
      assert a + b == a;
    } else {
      var n := |b| - 1;
      assert (a + b)[..|a + b| - 1] == a + b[..n];
      assert (a + b)[|a + b| - 1] == b[n];
      TextsLongerThanAppend(a, b[..n], bound);
    }
  }

  /** One element contributes its stripped text exactly when that is longer than the bound. */
  lemma TextsLongerThanOne(e: Node, bound: nat)
    ensures TextsLongerThan([e], bound) == if |StrippedText(e)| > bound then [StrippedText(e)] else []
  {
    assert [e][..0] == [];
  }

  const ParagraphTags: set<string> := {"p", "h1", "h2", "h3", "h4", "h5", "h6"}

  /** The paragraphs collected from a chosen container: the non-empty stripped
      texts of its `p`/`h1`-`h6` descendants once boilerplate is decomposed. */
  function ContainerParagraphs(c: Node): seq<string> {
    TextsLongerThan(FindAll(Prune(c), TagIn(ParagraphTags)), 0)
  }

  /** The paragraphs of the last-resort path: `p` texts longer than 30 characters. */
  function FallbackParagraphs(doc: Node): seq<string> {
    TextsLongerThan(FindAll(doc, TagIs("p")), 30)
  }

  /** Every paragraph of a chosen container is the non-empty text of a `p`/`h1`-`h6`
      element left in the pruned container, carries no surrounding whitespace and so
      is never whitespace only; every such element with text gives a paragraph. */
  lemma ContainerParagraphsSound(c: Node)
    ensures forall t :: t in ContainerParagraphs(c) ==>
              t != [] && !AllSpace(t) &&
              exists e :: e in Descendants(Prune(c)) && e.tag in ParagraphTags &&
                          e.tag !in Boilerplate && StrippedText(e) == t
    ensures forall e ::
              (e in Descendants(Prune(c)) && e.Element? && e.tag in ParagraphTags && StrippedText(e) != [])
              ==> StrippedText(e) in ContainerParagraphs(c)
  {
    var m := TagIn(ParagraphTags);
    var elems := FindAll(Prune(c), m);
    TextsLongerThanMembers(elems, 0);
    forall t | t in ContainerParagraphs(c)
      ensures t != [] && !AllSpace(t)
      ensures exists e :: e in Descendants(Prune(c)) && e.tag in ParagraphTags &&
                          e.tag !in Boilerplate && StrippedText(e) == t
    {
      var e :| e in elems && StrippedText(e) == t;
      ParagraphElement(c, e);
    }
    forall e | e in Descendants(Prune(c)) && e.Element? && e.tag in ParagraphTags && StrippedText(e) != []
      ensures StrippedText(e) in ContainerParagraphs(c)
    {
      assert Matches(e, m) && e in elems;
    }
  }

  /** An element the paragraph search finds in the pruned container is a `p`/`h1`-`h6`
      element of it that is not boilerplate, and its text, when not empty, is not blank. */
  lemma ParagraphElement(c: Node, e: Node)
    requires e in FindAll(Prune(c), TagIn(ParagraphTags))
    ensures e in Descendants(Prune(c)) && e.tag in ParagraphTags && e.tag !in Boilerplate
    ensures StrippedText(e) != [] ==> !AllSpace(StrippedText(e))
  {
    PruneRemovesBoilerplate(c);
    assert Matches(e, TagIn(ParagraphTags)) && e in Descendants(Prune(c));
    StrippedTextTrimmed(e);
    if StrippedText(e) != [] {
      assert !IsSpace(StrippedText(e)[0]);
    }
  }

  /** On the last-resort path every paragraph is the text of a `p` of the document
      and is longer than 30 characters; every such `p` text is kept. */
  lemma FallbackParagraphsSound(doc: Node)
    ensures forall t :: t in FallbackParagraphs(doc) ==>
              |t| > 30 && exists e :: e in Descendants(doc) && e.tag == "p" && StrippedText(e) == t
    ensures forall e ::
              (e in Descendants(doc) && e.Element? && e.tag == "p" && |StrippedText(e)| > 30)
              ==> StrippedText(e) in FallbackParagraphs(doc)
  {
    TextsLongerThanMembers(FindAll(doc, TagIs("p")), 30);
  }

  /** The container's paragraphs follow the order in which the search lists the
      `p`/`h1`-`h6` elements of the pruned container: the k-th paragraph is the text of the
      k-th such element with text. */
  lemma ContainerParagraphsInOrder(c: Node)
    ensures var elems := FindAll(Prune(c), TagIn(ParagraphTags));
            var idx := LongTextPositions(elems, 0);
            |ContainerParagraphs(c)| == |idx| &&
            forall k :: 0 <= k < |idx| ==> ContainerParagraphs(c)[k] == StrippedText(elems[idx[k]])
  {
    TextsInOrder(FindAll(Prune(c), TagIn(ParagraphTags)), 0);
  }

  /** The last-resort paragraphs follow the order in which the search lists the `p`
      elements: the k-th paragraph is the text of the k-th `p` longer than 30 characters. */
  lemma FallbackParagraphsInOrder(doc: Node)
    ensures var elems := FindAll(doc, TagIs("p"));
            var idx := LongTextPositions(elems, 30);
            |FallbackParagraphs(doc)| == |idx| &&
            forall k :: 0 <= k < |idx| ==> FallbackParagraphs(doc)[k] == StrippedText(elems[idx[k]])
  {
    TextsInOrder(FindAll(doc, TagIs("p")), 30);
  }

  /** The container `extract_article_content` hands to the harvester: the chosen node with its
      boilerplate decomposed, or the document's `<body>` (None when it has none). */
  function ArticleContainer(doc: Node): (r: Option<Node>)
    ensures ChosenContainer(doc).Some? ==> r == Some(Prune(ChosenContainer(doc).value))
    ensures ChosenContainer(doc).None? ==> r == Find(doc, TagIs("body"))
  {
    if ChosenContainer(doc).Some? then Some(Prune(ChosenContainer(doc).value)) else Find(doc, TagIs("body"))
  }

  /** The text `extract_article_content` returns: the paragraphs joined by blank lines. */
  function ArticleText(doc: Node): string {
    match ChosenContainer(doc)
    case Some(c) => Join(ContainerParagraphs(c), "\n\n")
    case None => Join(FallbackParagraphs(doc), "\n\n")
  }

  method ExtractArticleContent(doc: Node) returns (content: string, container: Option<Node>)
    ensures container == ArticleContainer(doc)
    ensures content == ArticleText(doc)
    ensures ChosenContainer(doc).Some? ==>
              container == Some(Prune(ChosenContainer(doc).value)) &&
              content == Join(ContainerParagraphs(ChosenContainer(doc).value), "\n\n")
    ensures ChosenContainer(doc).None? ==>
              container == Find(doc, TagIs("body")) &&
              content == Join(FallbackParagraphs(doc), "\n\n")
  {
    var chosen: Option<Node> := None;
    var hit := ProbeSelectors(doc, ArticleSelectors);
    if hit.Some? {
      chosen := Find(doc, SelectorMatcher(ArticleSelectors[hit.value]));
    } else {
      var divs := FindAll(doc, TagIs("div"));
      if |divs| > 0 {
        var best := LongestDiv(divs);
        chosen := Some(divs[best]);
      }
    }
    assert chosen == ChosenContainer(doc);
    if chosen.Some? {
      var pruned := Prune(chosen.value);
      var paragraphs := CollectTexts(FindAll(pruned, TagIn(ParagraphTags)), 0);
      content := Join(paragraphs, "\n\n");
      container := Some(pruned);
    } else {
      var paragraphs := CollectTexts(FindAll(doc, TagIs("p")), 30);
      content := Join(paragraphs, "\n\n");
      container := Find(doc, TagIs("body"));
    }
  }

  /** The selector loop: the first selector whose match has non-blank text, then `break`. */
  method ProbeSelectors(doc: Node, sels: seq<string>) returns (hit: Option<nat>)
    ensures hit == FirstHit(Hits(doc, sels), 0)
  {
    ghost var hits := Hits(doc, sels);
    hit := None;
    var i := 0;
    while i < |sels|
      invariant 0 <= i <= |sels| && hit.None?
      invariant FirstHit(hits, 0) == FirstHit(hits, i)
    {
      var found := TrySelector(doc, sels[i]);
      assert found == hits[i];
      if found {
        hit := Some(i);
        break;
      }
      assert FirstHit(hits, i) == FirstHit(hits, i + 1);
      i := i + 1;
    }
  }

  /** One probe: `soup.find` by id, class or tag name as the selector says, and the test that
      the element found has non-blank text. */
  method TrySelector(doc: Node, sel: string) returns (hit: bool)
    ensures hit == SelectorHit(doc, sel)
  {
    var container := Find(doc, SelectorMatcher(sel));
    hit := container.Some? && HasText(container.value);
  }

  /** The `max(divs, key=...)` scan: keep the first of the longest. */
  method LongestDiv(divs: seq<Node>) returns (best: nat)
    requires |divs| > 0
    ensures best == LongestIndex(divs)
  {
    best := 0;
    for j := 1 to |divs|
      invariant best == LongestIndex(divs[..j])
    {
      assert divs[..j + 1][..j] == divs[..j];
      if TextLen(divs[j]) > TextLen(divs[best]) {
        best := j;
      }
    }
    assert divs[..|divs|] == divs;
  }

  /** The loop `for p in elems: text = p.get_text(strip=True); if <long enough>: paragraphs.append(text)`. */
  method CollectTexts(elems: seq<Node>, bound: nat) returns (paragraphs: seq<string>)
    ensures paragraphs == TextsLongerThan(elems, bound)
  {
    paragraphs := [];
    for j := 0 to |elems|
      invariant paragraphs == TextsLongerThan(elems[..j], bound)
    {
      assert elems[..j + 1][..j] == elems[..j];
      var text := StrippedText(elems[j]);
      if |text| > bound {
        paragraphs := paragraphs + [text];
      }
    }
    assert elems[..|elems|] == elems;
  }
}
