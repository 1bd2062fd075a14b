/**
 * `DataProcessor.parse_sentiment_results`: reading the sentiment report back.
 * A line naming a list (positive, negative, neutral) opens that section; a
 * scored line `N.  title  (得分: x.y)` inside a section becomes one record
 * with the section's fixed rates.  The score is kept as the matched text.
 */
module Sentiment {
  import opened Wrappers
  import opened Strings

  datatype Section = Positive | Negative | Neutral

  /** One entry of `sentiment_data`; the rates and emotions are whole percentages. */
  datatype SentimentRecord = SentimentRecord(
    title: string,
    sentiment: Section,
    scoreText: string,
    confidence: int,
    positiveRate: int,
    negativeRate: int,
    neutralRate: int,
    joy: int,
    trust: int,
    fear: int,
    surprise: int)

  /** The section a header line opens, tested in the order of the source. */
  function HeaderOf(line: string): (r: Option<Section>)
    ensures r == Some(Positive) <==> Contains(line, "正向报道列表")
    ensures r == Some(Negative) <==> !Contains(line, "正向报道列表") && Contains(line, "负面报道列表")
    ensures r == Some(Neutral) <==>
      !Contains(line, "正向报道列表") && !Contains(line, "负面报道列表") && Contains(line, "中性报道列表")
  {
    if Contains(line, "正向报道列表") then Some(Positive)
    else if Contains(line, "负面报道列表") then Some(Negative)
    else if Contains(line, "中性报道列表") then Some(Neutral)
    else None
  }

  // ---------------------------------------------------------------------------
  // The score pattern \d+\.\s+(.+?)\s+\(得分:\s+(-?\d+\.\d+)\)
  // ---------------------------------------------------------------------------

  /** The end of the run of characters satisfying `IsDigit` from `i`. */
  function DigitRunEnd(s: string, i: nat): (e: nat)
    requires i <= |s|
    ensures i <= e <= |s| && (e < |s| ==> !IsDigit(s[e]))
    ensures forall k :: i <= k < e ==> IsDigit(s[k])
    decreases |s| - i
  {
    if i < |s| && IsDigit(s[i]) then DigitRunEnd(s, i + 1) else i
  }

  /** The end of the run of whitespace from `i`. */
  function SpaceRunEnd(s: string, i: nat): (e: nat)
    requires i <= |s|
    ensures i <= e <= |s| && (e < |s| ==> !IsSpace(s[e]))
    ensures forall k :: i <= k < e ==> IsSpace(s[k])
    decreases |s| - i
  {
    if i < |s| && IsSpace(s[i]) then SpaceRunEnd(s, i + 1) else i
  }

  /** `-?\d+\.\d+\)` at `p`: the number's text. */
  function ScoreAt(s: string, p: nat): Option<string>
    requires p <= |s|
  {
    var n := if p < |s| && s[p] == '-' then p + 1 else p;
    var d1 := DigitRunEnd(s, n);
    if d1 == n || d1 >= |s| || s[d1] != '.' then None
    else
      var d2 := DigitRunEnd(s, d1 + 1);
      if d2 == d1 + 1 || d2 >= |s| || s[d2] != ')' then None
      else Some(s[p..d2])
  }

  /** `\s+\(得分:\s+` then the score, at `p` (every `\s+` here is followed by a non-space,
      so only the longest run can work). */
  function TailAt(s: string, p: nat): Option<string>
    requires p <= |s|
  {
    var w := SpaceRunEnd(s, p);
    if w == p || !OccursAt(s, "(得分:", w) then None
    else
      var w2 := SpaceRunEnd(s, w + 4);
      if w2 == w + 4 then None else ScoreAt(s, w2)
  }

  /** The lazy `(.+?)` from `ts`: the shortest newline-free title of length `k` or more after
      which the tail matches. */
  function LazyTitle(s: string, ts: nat, k: nat): Option<(string, string)>
    requires 1 <= k && ts <= |s|
    decreases |s| - ts - k + 1
  {
    if ts + k > |s| || s[ts + k - 1] == '\n' then None
    else match TailAt(s, ts + k)
      case Some(score) => Some((s[ts..ts + k], score))
      case None => LazyTitle(s, ts, k + 1)
  }

  /** `\s+` before the title, tried longest first: `l` characters of whitespace from `w0`. */
  function TryWhitespace(s: string, w0: nat, l: nat): Option<(string, string)>
    requires w0 + l <= |s|
    decreases l
  {
    if l == 0 then None
    else match LazyTitle(s, w0 + l, 1)
      case Some(r) => Some(r)
      case None => TryWhitespace(s, w0, l - 1)
  }

  /** The pattern matched at `i`: the title group and the score group. */
  function ScoreLineAt(s: string, i: nat): Option<(string, string)>
    requires i <= |s|
  {
    var d := DigitRunEnd(s, i);
    if d == i || d >= |s| || s[d] != '.' then None
    else TryWhitespace(s, d + 1, SpaceRunEnd(s, d + 1) - (d + 1))
  }

  /** `re.search`: the leftmost match at or after `i`. */
  function SearchScore(s: string, i: nat): Option<(string, string)>
    requires i <= |s|
    decreases |s| - i
  {
    if ScoreLineAt(s, i).Some? then ScoreLineAt(s, i)
    else if i == |s| then None
    else SearchScore(s, i + 1)
  }

  /** `re.search` returns the match at the first position where the pattern matches. */
  lemma {:induction false} SearchScoreLeftmost(s: string, i: nat, j: nat)
    requires i <= j <= |s| && ScoreLineAt(s, j).Some?
    requires forall k :: i <= k < j ==> ScoreLineAt(s, k).None?
    ensures SearchScore(s, i) == ScoreLineAt(s, j)
    decreases j - i
  {
    if i < j {
      assert ScoreLineAt(s, i).None?;
      SearchScoreLeftmost(s, i + 1, j);
    }
  }

  /** ... and no match when the pattern matches nowhere. */
  lemma {:induction false} SearchScoreNone(s: string, i: nat)
    requires i <= |s|
    requires forall k :: i <= k <= |s| ==> ScoreLineAt(s, k).None?
    ensures SearchScore(s, i).None?
    decreases |s| - i
  {
    if i < |s| {
      SearchScoreNone(s, i + 1);
    }
  }

  /** The line the sentiment report writes for one article: its rank, a dot, a space, the
      title, and the score in `(得分: …)`. */
  function ScoreLine(rank: nat, title: string, score: string): string {
    NatToString(rank) + ". " + title + " (得分: " + score + ")"
  }

  /** A title the pattern reads whole: not empty, on one line, with no whitespace at either end
      and no `(得分:` inside it. */
  predicate PlainTitle(t: string) {
    |t| >= 1 && !IsSpace(t[0]) && !IsSpace(t[|t| - 1]) &&
    (forall k :: 0 <= k < |t| ==> t[k] != '\n') && !Contains(t, "(得分:")
  }

  /** The text of a score `-?\d+\.\d+`. */
  function ScoreText(neg: bool, whole: string, frac: string): string {
    (if neg then "-" else "") + whole + "." + frac
  }

  /** A report line with a plain title and a well-formed score is read back as that title and
      that score. */
  lemma ScoreLineRead(rank: nat, title: string, neg: bool, whole: string, frac: string)
    requires PlainTitle(title)
    requires AllDigits(whole) && AllDigits(frac) && |whole| >= 1 && |frac| >= 1
    ensures SearchScore(ScoreLine(rank, title, ScoreText(neg, whole, frac)), 0) ==
            Some((title, ScoreText(neg, whole, frac)))
  {
    var score := ScoreText(neg, whole, frac);
    LineLayout(rank, title, score);
    ScoreTextShape(neg, whole, frac);
    ReadFromLayout(ScoreLine(rank, title, score), |NatToString(rank)|, title, score,
                   if neg then 1 else 0, |whole|);
  }

  /** The shape `-?\d+\.\d+` of a score: an optional sign (`o` is its length), `w` digits,
      a dot and at least one more digit. */
  predicate ScoreShape(sc: string, o: nat, w: nat) {
    o <= 1 && w >= 1 && o + w + 1 < |sc| && (o == 1 ==> sc[0] == '-') &&
    (forall k :: o <= k < o + w ==> IsDigit(sc[k])) && sc[o + w] == '.' &&
    (forall k :: o + w + 1 <= k < |sc| ==> IsDigit(sc[k]))
  }

  lemma ScoreTextShape(neg: bool, whole: string, frac: string)
    requires AllDigits(whole) && AllDigits(frac) && |whole| >= 1 && |frac| >= 1
    ensures ScoreShape(ScoreText(neg, whole, frac), if neg then 1 else 0, |whole|)
  {
    var sc := ScoreText(neg, whole, frac);
    var o := if neg then 1 else 0;
    assert forall k :: o <= k < o + |whole| ==> sc[k] == whole[k - o];
    assert forall k :: o + |whole| + 1 <= k < |sc| ==> sc[k] == frac[k - o - |whole| - 1];
  }

  /** The pattern read on a laid-out line: the digits and the dot, one space, the lazy title
      that grows to the whole title, and the tail. */
  lemma ReadFromLayout(s: string, a: nat, t: string, score: string, o: nat, w: nat)
    requires Layout(s, a, t, score) && PlainTitle(t) && ScoreShape(score, o, w)
    ensures SearchScore(s, 0) == Some((t, score))
  {
    HeadRead(s, a, t, score);
    TitleRead(s, a, t, score, o, w);
    FinishRead(s, a, (t, score));
  }

  /** The rank's digits end at the dot, and one space follows it. */
  lemma HeadRead(s: string, a: nat, t: string, score: string)
    requires Layout(s, a, t, score) && PlainTitle(t)
    ensures DigitRunEnd(s, 0) == a && SpaceRunEnd(s, a + 1) == a + 2
  {
    assert s[a + 2 + 0] == t[0];
    DigitRunIs(s, 0, a);
    SpaceRunIs(s, a + 1, a + 2);
  }

  /** The lazy title, tried from one character, first succeeds at the whole title. */
  lemma TitleRead(s: string, a: nat, t: string, score: string, o: nat, w: nat)
    requires Layout(s, a, t, score) && PlainTitle(t) && ScoreShape(score, o, w)
    ensures LazyTitle(s, a + 2, 1) == Some((t, score))
  {
    var ts := a + 2;
    assert s[ts + (|t| - 1)] == t[|t| - 1];
    assert s[ts..ts + |t|] == t;
    ScoreAtFromShape(s, ts + |t| + 6, score, o, w);
    TailReads(s, ts, t, score);
    LazyTitleAtEnd(s, ts, t, score);
    LazyTitleSkips(s, ts, t, score, 1);
  }

  lemma LazyTitleAtEnd(s: string, ts: nat, t: string, score: string)
    requires |t| >= 1 && ts + |t| <= |s| && s[ts..ts + |t|] == t && s[ts + |t| - 1] != '\n'
    requires TailAt(s, ts + |t|) == Some(score)
    ensures LazyTitle(s, ts, |t|) == Some((t, score))
  {
  }

  lemma FinishRead(s: string, a: nat, r: (string, string))
    requires 1 <= a && a + 2 <= |s| && DigitRunEnd(s, 0) == a && s[a] == '.'
    requires SpaceRunEnd(s, a + 1) == a + 2 && LazyTitle(s, a + 2, 1) == Some(r)
    ensures SearchScore(s, 0) == Some(r)
  {
    assert TryWhitespace(s, a + 1, 1) == Some(r);
    assert ScoreLineAt(s, 0) == Some(r);
  }

  /** Where the parts of a report line sit. */
  predicate Layout(s: string, a: nat, t: string, score: string) {
    var ts := a + 2;
    a >= 1 && |s| == ts + |t| + 6 + |score| + 1 &&
    (forall k :: 0 <= k < a ==> IsDigit(s[k])) && s[a] == '.' && s[a + 1] == ' ' &&
    (forall k :: 0 <= k < |t| ==> s[ts + k] == t[k]) &&
    s[ts + |t|] == ' ' && s[ts + |t| + 1..ts + |t| + 5] == "(得分:" && s[ts + |t| + 5] == ' ' &&
    (forall k :: 0 <= k < |score| ==> s[ts + |t| + 6 + k] == score[k]) &&
    s[ts + |t| + 6 + |score|] == ')'
  }

  lemma LineLayout(rank: nat, t: string, score: string)
    ensures Layout(ScoreLine(rank, t, score), |NatToString(rank)|, t, score)
  {
    var s := ScoreLine(rank, t, score);
    var ts := |NatToString(rank)| + 2;
    LineRank(rank, t, score);
    LineTitle(rank, t, score);
    LineMark(rank, t, score);
    LineScore(rank, t, score);
    assert s[ts + |t| + 1..ts + |t| + 5] == "(得分:";
  }

  /** The parts of a score line, each at its offset. */
  lemma LineRank(rank: nat, t: string, score: string)
    ensures var s := ScoreLine(rank, t, score); var a := |NatToString(rank)|;
      |s| == a + 2 + |t| + 6 + |score| + 1 &&
      (forall k :: 0 <= k < a ==> IsDigit(s[k])) && s[a] == '.' && s[a + 1] == ' ' &&
      s[|s| - 1] == ')'
  {
    var d := NatToString(rank);
    var s := ScoreLine(rank, t, score);
    var u := d + ". ";
    var v := u + t;
    var w := v + " (得分: ";
    var x := w + score;
    assert s == x + ")";
    var a := |d|;
    forall k | 0 <= k < a
      ensures IsDigit(s[k])
    {
      assert s[k] == x[k] == w[k] == v[k] == u[k] == d[k];
    }
    assert s[a] == u[a] == '.';
    assert s[a + 1] == u[a + 1] == ' ';
  }

  lemma LineTitle(rank: nat, t: string, score: string)
    ensures var s := ScoreLine(rank, t, score); var ts := |NatToString(rank)| + 2;
      |s| == ts + |t| + 6 + |score| + 1 &&
      forall k :: 0 <= k < |t| ==> s[ts + k] == t[k]
  {
    var d := NatToString(rank);
    var s := ScoreLine(rank, t, score);
    var u := d + ". ";
    var v := u + t;
    var w := v + " (得分: ";
    var x := w + score;
    assert s == x + ")";
    var ts := |d| + 2;
    forall k | 0 <= k < |t|
      ensures s[ts + k] == t[k]
    {
      assert s[ts + k] == x[ts + k] == w[ts + k] == v[ts + k];
    }
  }

  lemma LineMark(rank: nat, t: string, score: string)
    ensures var s := ScoreLine(rank, t, score); var ts := |NatToString(rank)| + 2;
      |s| == ts + |t| + 6 + |score| + 1 &&
      forall k :: 0 <= k < 6 ==> s[ts + |t| + k] == " (得分: "[k]
  {
    var d := NatToString(rank);
    var s := ScoreLine(rank, t, score);
    var u := d + ". ";
    var v := u + t;
    var w := v + " (得分: ";
    var x := w + score;
    assert s == x + ")";
    var ts := |d| + 2;
    forall k | 0 <= k < 6
      ensures s[ts + |t| + k] == " (得分: "[k]
    {
      assert s[ts + |t| + k] == x[ts + |t| + k] == w[ts + |t| + k];
    }
  }

  lemma LineScore(rank: nat, t: string, score: string)
    ensures var s := ScoreLine(rank, t, score); var ts := |NatToString(rank)| + 2;
      |s| == ts + |t| + 6 + |score| + 1 &&
      forall k :: 0 <= k < |score| ==> s[ts + |t| + 6 + k] == score[k]
  {
    var d := NatToString(rank);
    var s := ScoreLine(rank, t, score);
    var u := d + ". ";
    var v := u + t;
    var w := v + " (得分: ";
    var x := w + score;
    assert s == x + ")";
    var ts := |d| + 2;
    forall k | 0 <= k < |score|
      ensures s[ts + |t| + 6 + k] == score[k]
    {
      assert s[ts + |t| + 6 + k] == x[|w| + k];
    }
  }

  /** A run of digits (or of whitespace) that stops at a character of another kind is the run
      `DigitRunEnd` (or `SpaceRunEnd`) finds. */
  lemma {:induction false} DigitRunIs(s: string, i: nat, e: nat)
    requires i <= e <= |s| && (forall k :: i <= k < e ==> IsDigit(s[k])) && (e < |s| ==> !IsDigit(s[e]))
    ensures DigitRunEnd(s, i) == e
    decreases e - i
  {
    if i < e {
      DigitRunIs(s, i + 1, e);
    }
  }

  lemma {:induction false} SpaceRunIs(s: string, i: nat, e: nat)
    requires i <= e <= |s| && (forall k :: i <= k < e ==> IsSpace(s[k])) && (e < |s| ==> !IsSpace(s[e]))
    ensures SpaceRunEnd(s, i) == e
    decreases e - i
  {
    if i < e {
      SpaceRunIs(s, i + 1, e);
    }
  }

  /** The score group at `p` reads a well-formed score up to its closing parenthesis. */
  lemma ScoreAtFromShape(s: string, p: nat, sc: string, o: nat, w: nat)
    requires ScoreShape(sc, o, w)
    requires p + |sc| < |s| && (forall k :: 0 <= k < |sc| ==> s[p + k] == sc[k]) && s[p + |sc|] == ')'
    ensures ScoreAt(s, p) == Some(sc)
  {
    var n := p + o;
    var d1 := n + w;
    var d2 := p + |sc|;
    assert s[p] == sc[0];
    assert s[d1] == sc[o + w];
    forall k | n <= k < d1 ensures IsDigit(s[k]) {
      assert s[k] == sc[k - p];
    }
    DigitRunIs(s, n, d1);
    forall k | d1 + 1 <= k < d2 ensures IsDigit(s[k]) {
      assert s[k] == sc[k - p];
    }
    DigitRunIs(s, d1 + 1, d2);
    assert s[p..d2] == sc;
  }

  /** Right after a plain title, the tail `\s+\(得分:\s+score\)` matches. */
  lemma TailReads(s: string, ts: nat, t: string, score: string)
    requires |t| >= 1 && |score| >= 1 && !IsSpace(score[0])
    requires ts >= 2 && Layout(s, ts - 2, t, score)
    requires ScoreAt(s, ts + |t| + 6) == Some(score)
    ensures TailAt(s, ts + |t|) == Some(score)
  {
    var w := ts + |t| + 1;
    SpaceRunIs(s, ts + |t|, w);
    assert s[w..w + |"(得分:"|] == "(得分:";
    assert s[w + 5] == score[0];
    SpaceRunIs(s, w + 4, w + 5);
  }

  /** Before the end of a plain title the tail cannot match, so the lazy title keeps growing. */
  lemma {:induction false} LazyTitleSkips(s: string, ts: nat, t: string, score: string, k: nat)
    requires PlainTitle(t) && ts >= 2 && Layout(s, ts - 2, t, score)
    requires 1 <= k <= |t|
    ensures LazyTitle(s, ts, k) == LazyTitle(s, ts, |t|)
    decreases |t| - k
  {
    if k < |t| {
      assert s[ts + k - 1] == t[k - 1];
      NoTailInside(s, ts, t, score, k);
      LazyTitleSkips(s, ts, t, score, k + 1);
    }
  }

  lemma NoTailInside(s: string, ts: nat, t: string, score: string, k: nat)
    requires PlainTitle(t) && ts >= 2 && Layout(s, ts - 2, t, score)
    requires 1 <= k < |t|
    ensures TailAt(s, ts + k) == None
  {
    var w := SpaceRunEnd(s, ts + k);
    if w != ts + k {
      assert s[ts + |t| - 1] == t[|t| - 1];
      assert w < ts + |t|;
      NoHeadAt(s, ts, t, score, w - ts);
    }
  }

  /** `(得分:` does not start inside a plain title. */
  lemma NoHeadAt(s: string, ts: nat, t: string, score: string, j: nat)
    requires PlainTitle(t) && ts >= 2 && Layout(s, ts - 2, t, score)
    requires j < |t|
    ensures !OccursAt(s, "(得分:", ts + j)
  {
    var pat := "(得分:";
    if j + 4 <= |t| {
      assert !OccursAt(t, pat, j);
      var k :| 0 <= k < 4 && t[j..j + 4][k] != pat[k];
      assert s[ts + j..ts + j + 4][k] == s[ts + j + k] == t[j + k];
    } else {
      var k := |t| - j;
      assert s[ts + j + k] == ' ';
      assert pat[k] != ' ';
      if ts + j + 4 <= |s| {
        assert s[ts + j..ts + j + 4][k] == s[ts + j + k];
      }
    }
  }

  // ---------------------------------------------------------------------------
  // Records
  // ---------------------------------------------------------------------------

  /** The record of a matched line in section `sec`. */
  function MakeRecord(title: string, sec: Section, scoreText: string): (r: SentimentRecord)
    ensures r.positiveRate + r.negativeRate + r.neutralRate == 100 && r.confidence == 85
    ensures r.title == Strip(title) && r.sentiment == sec && r.scoreText == scoreText
  {
    SentimentRecord(Strip(title), sec, scoreText, 85,
      if sec == Positive then 90 else if sec == Negative then 5 else 50,
      if sec == Positive then 5 else if sec == Negative then 90 else 25,
      if sec == Positive then 5 else if sec == Negative then 5 else 25,
      if sec == Positive then 80 else 10,
      if sec == Positive then 75 else 15,
      if sec == Positive then 10 else 70,
      if sec == Positive then 20 else 30)
  }

  /** The state after the lines so far: the current section and the records collected. */
  datatype ScanState = ScanState(current: Option<Section>, data: seq<SentimentRecord>)

  /** One turn of the loop. */
  function Step(st: ScanState, line: string): ScanState {
    if HeaderOf(line).Some? then ScanState(HeaderOf(line), st.data)
    else if Contains(line, "得分:") && st.current.Some? then
      match SearchScore(line, 0)
      case None => st
      case Some((title, score)) => ScanState(st.current, st.data + [MakeRecord(title, st.current.value, score)])
    else st
  }

  /** The state after `lines`, from no section and no records. */
  function Scan(lines: seq<string>): ScanState {
    if lines == [] then ScanState(None, [])
    else Step(Scan(lines[..|lines| - 1]), lines[|lines| - 1])
  }

  /** `parse_sentiment_results(results_file)`: `lines` is `f.readlines()`, None when the file
      cannot be read. */
  method ParseSentimentResults(lines: Option<seq<string>>) returns (data: seq<SentimentRecord>)
    ensures lines.None? ==> data == []
    ensures lines.Some? ==> data == Scan(lines.value).data
  {
    data := [];
    if lines.None? {
      return;
    }
    var ls := lines.value;
    var current: Option<Section> := None;
    for i := 0 to |ls|
      invariant ScanState(current, data) == Scan(ls[..i])
    {
      assert ls[..i + 1][..i] == ls[..i];
      var line := ls[i];
      if Contains(line, "正向报道列表") {
        current := Some(Positive);
      } else if Contains(line, "负面报道列表") {
        current := Some(Negative);
      } else if Contains(line, "中性报道列表") {
        current := Some(Neutral);
      } else if Contains(line, "得分:") && current.Some? {
        var m := SearchScore(line, 0);
        if m.Some? {
          data := data + [MakeRecord(m.value.0, current.value, m.value.1)];
        }
      }
    }
    assert ls[..|ls|] == ls;
  }

  // ---------------------------------------------------------------------------
  // Properties
  // ---------------------------------------------------------------------------

  /** The most recent header line among `lines`. */
  function LastHeader(lines: seq<string>): Option<Section> {
    if lines == [] then None
    else if HeaderOf(lines[|lines| - 1]).Some? then HeaderOf(lines[|lines| - 1])
    else LastHeader(lines[..|lines| - 1])
  }

  /** The section the loop is in is the one named by the last header line seen. */
  lemma {:induction false} CurrentIsLastHeader(lines: seq<string>)
    ensures Scan(lines).current == LastHeader(lines)
  {
    if lines != [] {
      CurrentIsLastHeader(lines[..|lines| - 1]);
    }
  }

  /** A record produced by a line carries the section of the last header before that line;
      no line produces a record before the first header. */
  lemma RecordSectionIsLastHeader(lines: seq<string>, line: string)
    requires |Scan(lines + [line]).data| > |Scan(lines).data|
    ensures LastHeader(lines).Some?
    ensures Scan(lines + [line]).data == Scan(lines).data + [Scan(lines + [line]).data[|Scan(lines).data|]]
    ensures Scan(lines + [line]).data[|Scan(lines).data|].sentiment == LastHeader(lines).value
  {
    assert (lines + [line])[..|lines|] == lines;
    CurrentIsLastHeader(lines);
  }

  /** Lines seen before any header add nothing. */
  lemma {:induction false} NoHeaderNoRecords(lines: seq<string>)
    requires forall k :: 0 <= k < |lines| ==> HeaderOf(lines[k]).None?
    ensures Scan(lines) == ScanState(None, [])
  {
    if lines != [] {
      NoHeaderNoRecords(lines[..|lines| - 1]);
    }
  }

  /** Every record has the fixed rates of its section, rates that sum to 100, and confidence 85;
      its title carries no surrounding whitespace. */
  lemma {:induction false} RecordsWellFormed(lines: seq<string>)
    ensures forall r <- Scan(lines).data ::
      r.confidence == 85 && r.positiveRate + r.negativeRate + r.neutralRate == 100 &&
      (r.sentiment == Positive ==> r.positiveRate == 90 && r.negativeRate == 5 && r.neutralRate == 5) &&
      (r.sentiment == Negative ==> r.positiveRate == 5 && r.negativeRate == 90 && r.neutralRate == 5) &&
      (r.sentiment == Neutral ==> r.positiveRate == 50 && r.negativeRate == 25 && r.neutralRate == 25) &&
      NoSpaceAtEnds(r.title)
  {
    if lines != [] {
      RecordsWellFormed(lines[..|lines| - 1]);
    }
  }

  /** There are never more records than lines. */
  lemma {:induction false} AtMostOnePerLine(lines: seq<string>)
    ensures |Scan(lines).data| <= |lines|
  {
    if lines != [] {
      AtMostOnePerLine(lines[..|lines| - 1]);
    }
  }
}
