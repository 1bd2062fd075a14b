/**
 * The parsed document as BeautifulSoup's `html.parser` tree builder hands it
 * to the crawler: element nodes (tag name in lower case, the `class` attribute
 * already split into its list of class names, every other attribute in a map)
 * and text nodes.  The document itself is the root element.  Text nodes stand
 * for the strings `get_text` reports; comments and the bodies of `script` and
 * `style` elements are not text nodes.
 *
 * `find_all` is a search of the descendants in document (pre-)order, never the
 * node itself; `find` is its first hit; `get_text(strip=True)` concatenates the
 * stripped strings; `decompose` of every script/style/nav/footer/aside
 * descendant is `Prune`.
 */
module Dom {
  import opened Wrappers
  import opened Strings

  datatype Node =
    | Element(tag: string, attrs: map<string, string>, classes: seq<string>, children: seq<Node>)
    | Text(text: string)

  /** The ways the crawler searches the tree (bs4's `name=`, `class_=`, `id=`, `attrs={..: True}`). */
  datatype Matcher =
    | TagIs(name: string)
    | TagIn(names: set<string>)
    | HasClass(className: string)
    | IdIs(id: string)
    | HasAttr(attr: string)

  predicate Matches(n: Node, m: Matcher) {
    n.Element? &&
    match m
    case TagIs(name) => n.tag == name
    case TagIn(names) => n.tag in names
    case HasClass(c) => c in n.classes
    case IdIs(id) => "id" in n.attrs && n.attrs["id"] == id
    case HasAttr(a) => a in n.attrs
  }

  /** `tag.get(attr)`: the attribute's value, or None when it is absent. */
  function Get(n: Node, attr: string): Option<string> {
    if n.Element? && attr in n.attrs then Some(n.attrs[attr]) else None
  }

  /** Python truthiness of `tag.get(attr)`: present and not the empty string. */
  predicate Truthy(v: Option<string>) { v.Some? && v.value != [] }

  /** Every element at or below the given nodes, in document order. */
  function Elements(cs: seq<Node>): (r: seq<Node>)
    ensures forall k :: 0 <= k < |r| ==> r[k].Element?
  {
    if cs == [] then []
    else
      (match cs[0]
       case Text(_) => []
       case Element(_, _, _, ch) => [cs[0]] + Elements(ch))
      + Elements(cs[1..])
  }

  /** bs4's `descendants`, restricted to tags. */
  function Descendants(n: Node): seq<Node> {
    if n.Element? then Elements(n.children) else []
  }

  lemma {:induction false} ElementsAppend(a: seq<Node>, b: seq<Node>)
    ensures Elements(a + b) == Elements(a) + Elements(b)
  {
    if a == [] {
      assert a + b == b;
    } else {
      assert (a + b)[0] == a[0];
      assert (a + b)[1..] == a[1..] + b;
      ElementsAppend(a[1..], b);
    }
  }

  /** The elements of `s` that `m` matches, order kept. */
  function Select(s: seq<Node>, m: Matcher): (r: seq<Node>)
    ensures |r| <= |s|
    ensures forall k :: 0 <= k < |r| ==> Matches(r[k], m) && r[k] in s
    ensures forall x :: x in s && Matches(x, m) ==> x in r
  {
    if s == [] then [] else (if Matches(s[0], m) then [s[0]] else []) + Select(s[1..], m)
  }

  /** Selecting from two runs selects from each, the first run's hits first. */
  lemma {:induction false} SelectAppend(a: seq<Node>, b: seq<Node>, m: Matcher)
    ensures Select(a + b, m) == Select(a, m) + Select(b, m)
  {
    if a == [] {
      assert a + b == b;
    } else {
      assert (a + b)[0] == a[0];
      assert (a + b)[1..] == a[1..] + b;
      SelectAppend(a[1..], b, m);
    }
  }

  /** One node is kept exactly when it matches. */
  lemma SelectOne(x: Node, m: Matcher)
    ensures Select([x], m) == if Matches(x, m) then [x] else []
  {
    assert [x][1..] == [];
  }

  /** `node.find_all(...)`. */
  function FindAll(n: Node, m: Matcher): seq<Node> {
    Select(Descendants(n), m)
  }

  /** The index of the first element of `s` that `m` matches. */
  function FirstIndex(s: seq<Node>, m: Matcher): (r: Option<nat>)
    ensures r.Some? ==> r.value < |s| && Matches(s[r.value], m) &&
                        forall j :: 0 <= j < r.value ==> !Matches(s[j], m)
    ensures r.None? ==> forall j :: 0 <= j < |s| ==> !Matches(s[j], m)
  {
    if s == [] then None
    else if Matches(s[0], m) then Some(0)
    else match FirstIndex(s[1..], m)
      case None => None
      case Some(k) => Some(k + 1)
  }

  /** `node.find(...)`: the first matching descendant in document order. */
  function Find(n: Node, m: Matcher): Option<Node> {
    match FirstIndex(Descendants(n), m)
    case None => None
    case Some(k) => Some(Descendants(n)[k])
  }

  /** `.text`: every string below the node, concatenated. */
  function RawText(n: Node): string {
    match n
    case Text(t) => t
    case Element(_, _, _, cs) => RawTexts(cs)
  }

  function RawTexts(cs: seq<Node>): string {
    if cs == [] then [] else RawText(cs[0]) + RawTexts(cs[1..])
  }

  /** `.get_text(strip=True)`: every string below the node stripped, then concatenated. */
  function StrippedText(n: Node): string {
    match n
    case Text(t) => Strip(t)
    case Element(_, _, _, cs) => StrippedTexts(cs)
  }

  function StrippedTexts(cs: seq<Node>): string {
    if cs == [] then [] else StrippedText(cs[0]) + StrippedTexts(cs[1..])
  }

  /** A node whose text is only whitespace contributes nothing to `get_text(strip=True)`. */
  lemma {:induction false} BlankTextStripsEmpty(n: Node)
    requires AllSpace(RawText(n))
    ensures StrippedText(n) == []
  {
    match n
    case Text(t) => StripEmptyIff(t);
    case Element(_, _, _, cs) => BlankTextsStripEmpty(cs);
  }

  lemma {:induction false} BlankTextsStripEmpty(cs: seq<Node>)
    requires AllSpace(RawTexts(cs))
    ensures StrippedTexts(cs) == []
  {
    if cs != [] {
      var a, b := RawText(cs[0]), RawTexts(cs[1..]);
      assert RawTexts(cs) == a + b;
      assert forall k :: 0 <= k < |a| ==> (a + b)[k] == a[k];
      assert forall k :: 0 <= k < |b| ==> (a + b)[|a| + k] == b[k];
      BlankTextStripsEmpty(cs[0]);
      BlankTextsStripEmpty(cs[1..]);
    }
  }

  /** Concatenating two strings without whitespace at their ends gives another such string. */
  lemma TrimmedConcat(a: string, b: string)
    requires NoSpaceAtEnds(a) && NoSpaceAtEnds(b)
    ensures NoSpaceAtEnds(a + b)
  {
    if a != [] && b != [] { assert (a + b)[0] == a[0] && (a + b)[|a + b| - 1] == b[|b| - 1]; }
    else if a == [] { assert a + b == b; }
    else { assert a + b == a; }
  }

  /** `get_text(strip=True)` never starts or ends with whitespace. */
  lemma {:induction false} StrippedTextTrimmed(n: Node)
    ensures NoSpaceAtEnds(StrippedText(n))
  {
    match n
    case Text(t) =>
    case Element(_, _, _, cs) => StrippedTextsTrimmed(cs);
  }

  lemma {:induction false} StrippedTextsTrimmed(cs: seq<Node>)
    ensures NoSpaceAtEnds(StrippedTexts(cs))
  {
    if cs != [] {
      StrippedTextTrimmed(cs[0]);
      StrippedTextsTrimmed(cs[1..]);
      TrimmedConcat(StrippedText(cs[0]), StrippedTexts(cs[1..]));
    }
  }

  /** The tags the extractor decomposes before collecting paragraphs. */
  const Boilerplate: set<string> := {"script", "style", "nav", "footer", "aside"}

  /** A node with every script/style/nav/footer/aside descendant decomposed. */
  function Prune(n: Node): Node {
    match n
    case Text(_) => n
    case Element(t, a, c, cs) => Element(t, a, c, PruneAll(cs))
  }

  function PruneAll(cs: seq<Node>): seq<Node> {
    if cs == [] then []
    else (if cs[0].Element? && cs[0].tag in Boilerplate then [] else [Prune(cs[0])]) + PruneAll(cs[1..])
  }

  /** After pruning no boilerplate element is left anywhere below the node. */
  lemma PruneRemovesBoilerplate(n: Node)
    ensures forall x :: x in Descendants(Prune(n)) ==> x.tag !in Boilerplate
  {
    if n.Element? { PruneAllRemovesBoilerplate(n.children); }
  }

  lemma {:induction false} PruneAllRemovesBoilerplate(cs: seq<Node>)
    ensures forall x :: x in Elements(PruneAll(cs)) ==> x.tag !in Boilerplate
  {
    if cs != [] {
      var head := if cs[0].Element? && cs[0].tag in Boilerplate then [] else [Prune(cs[0])];
      assert PruneAll(cs) == head + PruneAll(cs[1..]);
      ElementsAppend(head, PruneAll(cs[1..]));
      PruneAllRemovesBoilerplate(cs[1..]);
      if head != [] && cs[0].Element? {
        assert head == [Prune(cs[0])];
        assert Elements(head) == [Prune(cs[0])] + Elements(PruneAll(cs[0].children)) + [];
        PruneAllRemovesBoilerplate(cs[0].children);
      }
    }
  }
}
