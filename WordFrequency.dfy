/**
 * The mixed Chinese and English word-frequency report: only files holding at
 * least one ideograph contribute their bodies; the segmented words are
 * stripped and kept when they are Chinese words of two or more characters
 * that are not stopwords, or ASCII words of three or more letters whose
 * lower-case form is not a stopword (the original case is kept).  The fifty
 * most common words seen at least three times become rows, each labelled
 * Chinese or English, and the rows are split into a Chinese and an English
 * table.
 */
module WordFrequency {
  import opened Wrappers
  import opened Strings
  import opened BodyWindow
  import opened Frequency

  const ChineseStopwords: set<string> := {
    "的", "了", "在", "是", "我", "有", "和", "就", "不", "人", "都", "一", "一个",
    "上", "也", "很", "到", "说", "要", "去", "你", "会", "着", "没有", "看", "好",
    "自己", "这", "这个", "来", "什么", "那", "可以", "中", "大", "为", "他", "她",
    "标题", "网址", "图片", "列表", "视频", "尺寸", "所示"}

  const EnglishStopwords: set<string> := {
    "the", "and", "of", "to", "in", "for", "is", "on", "that", "with", "by",
    "at", "as", "it", "be", "this", "an", "are", "was", "from", "has", "have",
    "will", "its", "which", "not", "or", "a", "also", "can", "their", "they",
    "said", "were", "been", "would", "more", "we", "other", "year", "all",
    "had", "our", "new", "one", "two", "his", "her", "him", "she", "he", "i"}

  /** The number of rows asked of `most_common`. */
  const TopN: nat := 50

  /** The words the crawler's own file layout puts in every text file. */
  const LayoutWords: set<string> := {"标题", "网址", "图片", "列表", "视频", "尺寸"}

  /** The filter on one segmented token: its stripped form, when kept. */
  function Kept(token: string): (r: Option<string>)
    ensures r.Some? ==> r.value == Strip(token) && |r.value| >= 2
  {
    var w := Strip(token);
    if HasCjk(w) && |w| > 1 && w !in ChineseStopwords then Some(w)
    else if IsAsciiWord(w) && |w| > 2 && Lower(w) !in EnglishStopwords then Some(w)
    else None
  }

  /** `valid_words` for the tokens `jieba.cut` produced. */
  function KeptWords(tokens: seq<string>): (r: seq<string>)
    ensures |r| <= |tokens|
  {
    if tokens == [] then []
    else
      var n := |tokens| - 1;
      KeptWords(tokens[..n]) + (if Kept(tokens[n]).Some? then [Kept(tokens[n]).value] else [])
  }

  /** The filter loop. */
  method FilterWords(tokens: seq<string>) returns (valid: seq<string>)
    ensures valid == KeptWords(tokens)
  {
    valid := [];
    for i := 0 to |tokens|
      invariant valid == KeptWords(tokens[..i])
    {
      assert tokens[..i + 1][..i] == tokens[..i];
      var word := Strip(tokens[i]);
      if HasCjk(word) && |word| > 1 && word !in ChineseStopwords {
        valid := valid + [word];
      } else if IsAsciiWord(word) && |word| > 2 && Lower(word) !in EnglishStopwords {
        valid := valid + [word];
      }
    }
    assert tokens[..|tokens|] == tokens;
  }

  datatype Language = Chinese | English

  /** The language column: Chinese when the word holds an ideograph. */
  function LanguageOf(word: string): Language {
    if HasCjk(word) then Chinese else English
  }

  /** One row of the report. */
  datatype Row = Row(word: string, count: nat, language: Language)

  /** The rows for the selected entries. */
  function Labelled(entries: seq<Entry>): (r: seq<Row>)
    ensures |r| == |entries|
  {
    if entries == [] then []
    else
      var n := |entries| - 1;
      Labelled(entries[..n]) + [Row(entries[n].word, entries[n].count, LanguageOf(entries[n].word))]
  }

  /** `df[df['语言'] == lang]`: the rows of one language, in order. */
  function Table(rows: seq<Row>, lang: Language): (r: seq<Row>)
    ensures |r| <= |rows|
  {
    if rows == [] then []
    else
      var n := |rows| - 1;
      Table(rows[..n], lang) + (if rows[n].language == lang then [rows[n]] else [])
  }

  /** The three tables written out. */
  datatype Report = Report(fileCount: nat, validWords: seq<string>, totalWords: nat,
                           all: seq<Row>, chinese: seq<Row>, english: seq<Row>)

  /** The row loop: `for word, count in top_words`, skipping counts below three. */
  method BuildRows(top: seq<Entry>) returns (rows: seq<Row>)
    ensures rows == Labelled(Frequent(top))
  {
    rows := [];
    for i := 0 to |top|
      invariant rows == Labelled(Frequent(top[..i]))
    {
      assert top[..i + 1][..i] == top[..i];
      var e := top[i];
      ghost var sel := Frequent(top[..i]);
      if e.count < 3 {
        assert Frequent(top[..i + 1]) == sel + [];
        assert sel + [] == sel;
        continue;
      }
      var lang := if HasCjk(e.word) then Chinese else English;
      assert Frequent(top[..i + 1]) == sel + [e];
      assert (sel + [e])[..|sel|] == sel;
      assert Labelled(sel + [e]) == Labelled(sel) + [Row(e.word, e.count, lang)];
      rows := rows + [Row(e.word, e.count, lang)];
    }
    assert top[..|top|] == top;
  }

  /** The whole script; `segment` stands for `jieba.cut`. None when no file holding an ideograph
      contributed (the script exits). */
  method Analyse(files: seq<SourceFile>, segment: string -> seq<string>) returns (report: Option<Report>)
    ensures report.None? <==> Contributions(files, true) == []
    ensures report.Some? ==>
      var r := report.value;
      r.fileCount == |Contributions(files, true)| &&
      r.validWords == KeptWords(segment(Corpus(Contributions(files, true)))) &&
      r.totalWords == |r.validWords| &&
      r.all == Labelled(Rows(r.validWords, TopN)) &&
      r.chinese == Table(r.all, Chinese) && r.english == Table(r.all, English)
  {
    var allText, fileCount := GatherTexts(files, true);
    if fileCount == 0 {
      return None;
    }
    var valid := FilterWords(segment(allText));
    var counter := Tally(valid);
    var total := Total(counter);
    TallyTotal(valid);
    var top := MostCommon(counter, TopN);
    var rows := BuildRows(top);
    report := Some(Report(fileCount, valid, total, rows, Table(rows, Chinese), Table(rows, English)));
  }

  // ---------------------------------------------------------------------------
  // Properties
  // ---------------------------------------------------------------------------

  /** A Chinese word of two or more characters that is not a stopword, or an ASCII word of
      three or more letters whose lower-case form is not a stopword. */
  predicate ValidWord(w: string) {
    (HasCjk(w) && |w| >= 2 && w !in ChineseStopwords) ||
    (IsAsciiWord(w) && |w| >= 3 && Lower(w) !in EnglishStopwords)
  }

  /** What the filter keeps of one token. */
  lemma KeptSound(t: string)
    ensures Kept(t).Some? <==> ValidWord(Strip(t))
    ensures Kept(t).Some? ==> Kept(t).value == Strip(t) && NoSpaceAtEnds(Kept(t).value)
  {
  }

  /** Every kept word is valid. */
  lemma {:induction false} KeptWordsSound(tokens: seq<string>)
    ensures forall w <- KeptWords(tokens) :: ValidWord(w)
  {
    if tokens != [] {
      KeptWordsSound(tokens[..|tokens| - 1]);
      KeptSound(tokens[|tokens| - 1]);
    }
  }

  /** The words of the file layout (title, address, picture, list, video, size) never survive
      the filter. */
  lemma LayoutWordDropped(t: string)
    requires Strip(t) in LayoutWords
    ensures Kept(t).None?
  {
  }

  /** A row's label is Chinese exactly when its word holds an ideograph. */
  lemma {:induction false} LabelsMatch(entries: seq<Entry>)
    ensures forall k :: 0 <= k < |entries| ==>
      Labelled(entries)[k] == Row(entries[k].word, entries[k].count, LanguageOf(entries[k].word))
  {
    if entries != [] {
      LabelsMatch(entries[..|entries| - 1]);
    }
  }

  /** The two language tables split the rows: a row is in exactly the table of its own
      language, and together they hold every row. */
  lemma {:induction false} TablesPartition(rows: seq<Row>)
    ensures forall r <- Table(rows, Chinese) :: r in rows && r.language == Chinese
    ensures forall r <- Table(rows, English) :: r in rows && r.language == English
    ensures forall r <- rows :: r in Table(rows, r.language)
    ensures |Table(rows, Chinese)| + |Table(rows, English)| == |rows|
  {
    TableSound(rows, Chinese);
    TableSound(rows, English);
    TableComplete(rows);
    TableSizes(rows);
  }

  lemma {:induction false} TableSound(rows: seq<Row>, lang: Language)
    ensures forall r <- Table(rows, lang) :: r in rows && r.language == lang
  {
    if rows != [] {
      var n := |rows| - 1;
      var pre := rows[..n];
      TableSound(pre, lang);
      assert forall r <- pre :: r in rows;
    }
  }

  lemma {:induction false} TableComplete(rows: seq<Row>)
    ensures forall r <- rows :: r in Table(rows, r.language)
  {
    if rows != [] {
      var n := |rows| - 1;
      var pre := rows[..n];
      TableComplete(pre);
      assert rows == pre + [rows[n]];
    }
  }

  lemma {:induction false} TableSizes(rows: seq<Row>)
    ensures |Table(rows, Chinese)| + |Table(rows, English)| == |rows|
  {
    if rows != [] {
      TableSizes(rows[..|rows| - 1]);
    }
  }

  /** The report's rows: at most fifty, in non-increasing count order, each a valid word with
      its exact count of at least three, labelled by whether it holds an ideograph. */
  lemma ReportRows(tokens: seq<string>)
    ensures var valid := KeptWords(tokens);
      var rows := Labelled(Rows(valid, TopN));
      |rows| <= 50 &&
      forall k :: 0 <= k < |rows| ==>
        ValidWord(rows[k].word) && rows[k].count == Occurrences(valid, rows[k].word) && rows[k].count >= 3 &&
        (rows[k].language == Chinese <==> HasCjk(rows[k].word)) &&
        (k + 1 < |rows| ==> rows[k].count >= rows[k + 1].count)
  {
    var valid := KeptWords(tokens);
    var top := Rows(valid, TopN);
    RowsSound(valid, TopN);
    KeptWordsSound(tokens);
    LabelsMatch(top);
    forall k | 0 <= k < |top|
      ensures ValidWord(top[k].word)
    {
      assert top[k] in top;
    }
  }
}
