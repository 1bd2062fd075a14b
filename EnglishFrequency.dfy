/**
 * The English word-frequency report: the bodies of the crawled text files
 * are gathered, the English words of the corpus are lower-cased and filtered
 * (single letters and stopwords go), counted, and the hundred most common
 * words seen at least three times become the rows of the report.
 */
module EnglishFrequency {
  import opened Wrappers
  import opened Strings
  import opened BodyWindow
  import opened Frequency

  const Stopwords: set<string> := {
    "the", "and", "of", "to", "in", "for", "is", "on", "that", "with", "by",
    "at", "as", "it", "be", "this", "an", "are", "was", "from", "has", "have",
    "will", "its", "which", "not", "or", "a", "also", "can", "their", "they",
    "said", "were", "been", "would", "more", "we", "other", "year", "all",
    "had", "our", "new", "one", "two", "his", "her", "him", "she", "he", "i",
    "am", "being", "do", "does", "did", "but", "if", "because",
    "until", "while", "about", "against",
    "between", "into", "through", "during", "before", "after", "above", "below",
    "up", "down", "out", "off", "over", "under",
    "again", "further", "then", "once", "here", "there", "when", "where", "why",
    "how", "any", "both", "each", "few", "most", "some", "such",
    "only", "own", "same", "so", "than", "too", "very", "s", "t", "just", "now"}

  /** The number of rows asked of `most_common`. */
  const TopN: nat := 100

  /** `word.lower().strip()`, kept when it is longer than one character and not a stopword. */
  function Kept(token: string): (r: Option<string>)
    ensures r.Some? ==> 2 <= |r.value| <= |token| && r.value !in Stopwords
  {
    var w := Strip(Lower(token));
    if |w| > 1 && w !in Stopwords then Some(w) else None
  }

  /** `valid_english_words` for the tokens `re.findall` returned. */
  function KeptWords(tokens: seq<string>): (r: seq<string>)
    ensures |r| <= |tokens|
  {
    if tokens == [] then []
    else
      var n := |tokens| - 1;
      KeptWords(tokens[..n]) + (if Kept(tokens[n]).Some? then [Kept(tokens[n]).value] else [])
  }

  /** The filter loop. */
  method FilterWords(tokens: seq<string>) returns (valid: seq<string>)
    ensures valid == KeptWords(tokens)
  {
    valid := [];
    for i := 0 to |tokens|
      invariant valid == KeptWords(tokens[..i])
    {
      assert tokens[..i + 1][..i] == tokens[..i];
      var word := Strip(Lower(tokens[i]));
      if |word| > 1 && word !in Stopwords {
        valid := valid + [word];
      }
    }
    assert tokens[..|tokens|] == tokens;
  }

  /** The report: the number of files used, the kept words, `total_words`, and the word and
      count columns. */
  datatype Report = Report(fileCount: nat, validWords: seq<string>, totalWords: nat,
                           words: seq<string>, counts: seq<nat>)

  /** The whole script; `findWords` stands for `re.findall(r'\b[a-zA-Z]+\b', ...)`. None when no
      file contributed (the script exits). */
  method Analyse(files: seq<SourceFile>, findWords: string -> seq<string>) returns (report: Option<Report>)
    ensures report.None? <==> Contributions(files, false) == []
    ensures report.Some? ==>
      var r := report.value;
      r.fileCount == |Contributions(files, false)| &&
      r.validWords == KeptWords(findWords(Corpus(Contributions(files, false)))) &&
      r.totalWords == |r.validWords| &&
      |r.words| == |r.counts| == |Rows(r.validWords, TopN)| &&
      forall k :: 0 <= k < |r.words| ==> Rows(r.validWords, TopN)[k] == Entry(r.words[k], r.counts[k])
  {
    var allText, fileCount := GatherTexts(files, false);
    if fileCount == 0 {
      return None;
    }
    var valid := FilterWords(findWords(allText));
    var counter := Tally(valid);
    var total := Total(counter);
    TallyTotal(valid);
    var top := MostCommon(counter, TopN);
    var words, counts := SelectRows(top);
    report := Some(Report(fileCount, valid, total, words, counts));
  }

  // ---------------------------------------------------------------------------
  // Properties
  // ---------------------------------------------------------------------------

  /** Lower-case ASCII letters, at least two of them, and not a stopword. */
  predicate ValidEnglish(w: string) {
    |w| >= 2 && w !in Stopwords && forall i :: 0 <= i < |w| ==> 'a' <= w[i] <= 'z'
  }

  /** What the filter keeps of a token `re.findall` can return. */
  lemma KeptSound(t: string)
    requires IsAsciiWord(t)
    ensures Kept(t).Some? <==> |t| >= 2 && Lower(t) !in Stopwords
    ensures Kept(t).Some? ==> Kept(t).value == Lower(t) && ValidEnglish(Kept(t).value)
  {
    StripTrimmed(Lower(t));
  }

  /** Every kept word is a valid lower-case English word. */
  lemma {:induction false} KeptWordsSound(tokens: seq<string>)
    requires forall t <- tokens :: IsAsciiWord(t)
    ensures forall w <- KeptWords(tokens) :: ValidEnglish(w)
  {
    if tokens != [] {
      var n := |tokens| - 1;
      assert forall t <- tokens[..n] :: t in tokens;
      KeptWordsSound(tokens[..n]);
      assert tokens[n] in tokens;
      KeptSound(tokens[n]);
    }
  }

  /** The report's rows: at most a hundred, in non-increasing count order, each word kept
      with its exact count of at least three; `total_words` is the sum of all counts. */
  lemma ReportRows(valid: seq<string>)
    ensures |Rows(valid, TopN)| <= 100 && NonIncreasing(Rows(valid, TopN))
    ensures forall e <- Rows(valid, TopN) :: e.word in valid && e.count == Occurrences(valid, e.word) && e.count >= 3
    ensures Total(Tally(valid)) == |valid|
  {
    RowsSound(valid, TopN);
    TallyTotal(valid);
  }
}
