/**
 * The counting step shared by the two word-frequency scripts: `Counter` over
 * the kept words (one entry per distinct word, in order of first occurrence),
 * `most_common(n)` (a stable sort by decreasing count, cut to `n` entries)
 * and the row loop that skips entries seen fewer than three times.
 */
module Frequency {

  /** One `(word, count)` pair of a `Counter`. */
  datatype Entry = Entry(word: string, count: nat)

  /** The number of times `w` occurs in `words`. */
  function Occurrences(words: seq<string>, w: string): nat {
    if words == [] then 0
    else Occurrences(words[..|words| - 1], w) + (if words[|words| - 1] == w then 1 else 0)
  }

  /** One more occurrence of `w`: its count goes up, or it is appended with count 1. */
  function Bump(entries: seq<Entry>, w: string): (r: seq<Entry>)
    ensures |r| == |entries| || |r| == |entries| + 1
  {
    if entries == [] then [Entry(w, 1)]
    else if entries[0].word == w then [Entry(w, entries[0].count + 1)] + entries[1..]
    else [entries[0]] + Bump(entries[1..], w)
  }

  /** `Counter(words)`. */
  function Tally(words: seq<string>): (r: seq<Entry>)
    ensures |r| <= |words| && (words != [] ==> |r| >= 1)
  {
    if words == [] then [] else Bump(Tally(words[..|words| - 1]), words[|words| - 1])
  }

  /** `sum(counter.values())`. */
  function Total(entries: seq<Entry>): nat {
    if entries == [] then 0 else entries[0].count + Total(entries[1..])
  }

  predicate DistinctWords(entries: seq<Entry>) {
    forall i, j :: 0 <= i < j < |entries| ==> entries[i].word != entries[j].word
  }

  /** What a `Counter` of `words` is: distinct words, each with its number of occurrences,
      and every word of `words` present. */
  predicate IsCounterOf(entries: seq<Entry>, words: seq<string>) {
    DistinctWords(entries) &&
    (forall i :: 0 <= i < |entries| ==> entries[i].word in words && entries[i].count == Occurrences(words, entries[i].word)) &&
    (forall w :: w in words ==> exists i :: 0 <= i < |entries| && entries[i].word == w)
  }

  // ---------------------------------------------------------------------------
  // Counter
  // ---------------------------------------------------------------------------

  lemma {:induction false} BumpPresent(entries: seq<Entry>, w: string, i: nat)
    requires i < |entries| && entries[i].word == w
    requires forall j :: 0 <= j < i ==> entries[j].word != w
    ensures Bump(entries, w) == entries[i := Entry(w, entries[i].count + 1)]
    decreases i
  {
    if i > 0 {
      BumpPresent(entries[1..], w, i - 1);
      assert [entries[0]] + entries[1..][i - 1 := Entry(w, entries[i].count + 1)] == entries[i := Entry(w, entries[i].count + 1)];
    }
  }

  lemma {:induction false} BumpAbsent(entries: seq<Entry>, w: string)
    requires forall j :: 0 <= j < |entries| ==> entries[j].word != w
    ensures Bump(entries, w) == entries + [Entry(w, 1)]
    decreases |entries|
  {
    if entries != [] {
      BumpAbsent(entries[1..], w);
      assert [entries[0]] + (entries[1..] + [Entry(w, 1)]) == entries + [Entry(w, 1)];
    }
  }

  lemma {:induction false} BumpTotal(entries: seq<Entry>, w: string)
    ensures Total(Bump(entries, w)) == Total(entries) + 1
    decreases |entries|
  {
    if entries != [] && entries[0].word != w {
      BumpTotal(entries[1..], w);
      assert ([entries[0]] + Bump(entries[1..], w))[1..] == Bump(entries[1..], w);
    } else if entries != [] {
      assert ([Entry(w, entries[0].count + 1)] + entries[1..])[1..] == entries[1..];
    }
  }

  /** `Counter` counts every word exactly. */
  lemma {:induction false} TallyIsCounter(words: seq<string>)
    ensures IsCounterOf(Tally(words), words)
  {
    if words != [] {
      var n := |words| - 1;
      var pre, w := words[..n], words[n];
      TallyIsCounter(pre);
      assert words == pre + [w];
      var t := Tally(pre);
      if exists i :: 0 <= i < |t| && t[i].word == w {
        var i :| 0 <= i < |t| && t[i].word == w;
        CounterStepPresent(t, pre, w, i);
      } else {
        CounterStepAbsent(t, pre, w);
      }
    }
  }

  lemma OccurrencesStep(pre: seq<string>, w: string, v: string)
    ensures Occurrences(pre + [w], v) == Occurrences(pre, v) + (if w == v then 1 else 0)
  {
    assert (pre + [w])[..|pre|] == pre;
  }

  lemma InStep(pre: seq<string>, w: string, v: string)
    ensures v in pre + [w] <==> v in pre || v == w
  {
  }

  lemma CounterStepPresent(t: seq<Entry>, pre: seq<string>, w: string, i: nat)
    requires IsCounterOf(t, pre) && i < |t| && t[i].word == w
    ensures IsCounterOf(Bump(t, w), pre + [w])
  {
    BumpPresent(t, w, i);
    var r := Bump(t, w);
    var words := pre + [w];
    forall k | 0 <= k < |r| ensures r[k].word in words && r[k].count == Occurrences(words, r[k].word) {
      OccurrencesStep(pre, w, r[k].word);
      InStep(pre, w, r[k].word);
      if k != i {
        assert r[k] == t[k];
      }
    }
    forall v | v in words ensures exists k :: 0 <= k < |r| && r[k].word == v {
      InStep(pre, w, v);
      if v != w {
        var k :| 0 <= k < |t| && t[k].word == v;
        assert r[k].word == v;
      } else {
        assert r[i].word == v;
      }
    }
    assert DistinctWords(r) by {
      forall a, b | 0 <= a < b < |r| ensures r[a].word != r[b].word {
        assert r[a].word == t[a].word && r[b].word == t[b].word;
      }
    }
  }

  lemma CounterStepAbsent(t: seq<Entry>, pre: seq<string>, w: string)
    requires IsCounterOf(t, pre) && forall i :: 0 <= i < |t| ==> t[i].word != w
    ensures IsCounterOf(Bump(t, w), pre + [w])
  {
    BumpAbsent(t, w);
    var r := Bump(t, w);
    var words := pre + [w];
    assert w !in pre;
    forall k | 0 <= k < |r| ensures r[k].word in words && r[k].count == Occurrences(words, r[k].word) {
      OccurrencesStep(pre, w, r[k].word);
      InStep(pre, w, r[k].word);
      if k < |t| {
        assert r[k] == t[k];
      } else {
        NoOccurrences(pre, w);
      }
    }
    forall v | v in words ensures exists k :: 0 <= k < |r| && r[k].word == v {
      InStep(pre, w, v);
      if v != w {
        var k :| 0 <= k < |t| && t[k].word == v;
        assert r[k].word == v;
      } else {
        assert r[|t|].word == v;
      }
    }
  }

  lemma {:induction false} NoOccurrences(words: seq<string>, w: string)
    requires w !in words
    ensures Occurrences(words, w) == 0
  {
    if words != [] {
      assert w !in words[..|words| - 1];
      NoOccurrences(words[..|words| - 1], w);
    }
  }

  /** `total_words` is the number of kept words. */
  lemma {:induction false} TallyTotal(words: seq<string>)
    ensures Total(Tally(words)) == |words|
  {
    if words != [] {
      TallyTotal(words[..|words| - 1]);
      BumpTotal(Tally(words[..|words| - 1]), words[|words| - 1]);
    }
  }

  // ---------------------------------------------------------------------------
  // most_common
  // ---------------------------------------------------------------------------

  predicate NonIncreasing(entries: seq<Entry>) {
    forall i, j :: 0 <= i < j < |entries| ==> entries[i].count >= entries[j].count
  }

  /** Insert `e` before the first entry that does not count more: an entry that came earlier
      stays ahead of later ones with the same count. */
  function Insert(e: Entry, sorted: seq<Entry>): (r: seq<Entry>)
    ensures |r| == |sorted| + 1
    ensures multiset(r) == multiset(sorted) + multiset{e}
  {
    if sorted == [] || sorted[0].count <= e.count then [e] + sorted
    else
      assert sorted == [sorted[0]] + sorted[1..];
      [sorted[0]] + Insert(e, sorted[1..])
  }

  /** `sorted(entries, key=count, reverse=True)`, stable. */
  function SortByCount(entries: seq<Entry>): (r: seq<Entry>)
    ensures |r| == |entries|
    ensures multiset(r) == multiset(entries)
  {
    if entries == [] then []
    else
      assert entries == [entries[0]] + entries[1..];
      Insert(entries[0], SortByCount(entries[1..]))
  }

  /** The entries of `s` whose count is `c`, in order. */
  function WithCount(s: seq<Entry>, c: nat): seq<Entry> {
    if s == [] then [] else (if s[0].count == c then [s[0]] else []) + WithCount(s[1..], c)
  }

  /** Inserting keeps the order among equal counts: `e` goes before every entry of `sorted`
      that counts the same. */
  lemma {:induction false} InsertStable(e: Entry, sorted: seq<Entry>, c: nat)
    ensures WithCount(Insert(e, sorted), c) == WithCount([e] + sorted, c)
    decreases |sorted|
  {
    if !(sorted == [] || sorted[0].count <= e.count) {
      var s0, rest := sorted[0], sorted[1..];
      assert ([s0] + Insert(e, rest))[1..] == Insert(e, rest);
      InsertStable(e, rest, c);
      assert ([e] + rest)[1..] == rest;
      assert ([e] + sorted)[1..] == sorted;
      assert sorted == [s0] + rest;
      assert ([s0] + rest)[1..] == rest;
    }
  }

  /** The sort is stable: for every count, the entries with that count keep their order. */
  lemma {:induction false} SortStable(entries: seq<Entry>, c: nat)
    ensures WithCount(SortByCount(entries), c) == WithCount(entries, c)
  {
    if entries != [] {
      var rest := entries[1..];
      InsertStable(entries[0], SortByCount(rest), c);
      SortStable(rest, c);
      assert ([entries[0]] + SortByCount(rest))[1..] == SortByCount(rest);
    }
  }

  lemma {:induction false} InsertSorted(e: Entry, sorted: seq<Entry>)
    requires NonIncreasing(sorted)
    ensures NonIncreasing(Insert(e, sorted))
    decreases |sorted|
  {
    if !(sorted == [] || sorted[0].count <= e.count) {
      var tail := sorted[1..];
      InsertSorted(e, tail);
      InsertBounded(e, tail, sorted[0].count);
      HeadOver(sorted[0], Insert(e, tail));
    }
  }

  /** Inserting an entry under a bound keeps every entry under it. */
  lemma {:induction false} InsertBounded(e: Entry, s: seq<Entry>, bound: nat)
    requires e.count <= bound && forall k :: 0 <= k < |s| ==> s[k].count <= bound
    ensures forall k :: 0 <= k < |Insert(e, s)| ==> Insert(e, s)[k].count <= bound
    decreases |s|
  {
    if !(s == [] || s[0].count <= e.count) {
      InsertBounded(e, s[1..], bound);
    }
  }

  /** An entry counting at least as much as each of a sorted run can head it. */
  lemma HeadOver(h: Entry, rest: seq<Entry>)
    requires NonIncreasing(rest) && forall k :: 0 <= k < |rest| ==> rest[k].count <= h.count
    ensures NonIncreasing([h] + rest)
  {
  }

  lemma {:induction false} SortSorted(entries: seq<Entry>)
    ensures NonIncreasing(SortByCount(entries))
  {
    if entries != [] {
      SortSorted(entries[1..]);
      InsertSorted(entries[0], SortByCount(entries[1..]));
    }
  }

  /** `counter.most_common(n)`. */
  function MostCommon(entries: seq<Entry>, n: nat): (r: seq<Entry>)
    ensures |r| <= n && |r| <= |entries|
  {
    var s := SortByCount(entries);
    if |s| <= n then s else s[..n]
  }

  /** The entries `most_common(n)` returns come in non-increasing count order, are entries of
      the counter, and no entry left out counts more than one that was kept. */
  lemma MostCommonSound(entries: seq<Entry>, n: nat)
    ensures NonIncreasing(MostCommon(entries, n))
    ensures forall e <- MostCommon(entries, n) :: e in entries
    ensures |MostCommon(entries, n)| == if |entries| <= n then |entries| else n
    ensures |entries| <= n ==> multiset(MostCommon(entries, n)) == multiset(entries)
    ensures forall e <- entries ::
              e in MostCommon(entries, n) || forall k :: 0 <= k < |MostCommon(entries, n)| ==> e.count <= MostCommon(entries, n)[k].count
  {
    SortSorted(entries);
    TopFromEntries(entries, n);
    LeftOutCountsLess(entries, n);
  }

  lemma TopFromEntries(entries: seq<Entry>, n: nat)
    ensures forall e <- MostCommon(entries, n) :: e in entries
  {
    var s := SortByCount(entries);
    forall e | e in MostCommon(entries, n) ensures e in entries {
      assert e in multiset(s);
    }
  }

  lemma LeftOutCountsLess(entries: seq<Entry>, n: nat)
    requires NonIncreasing(SortByCount(entries))
    ensures forall e <- entries ::
              e in MostCommon(entries, n) || forall k :: 0 <= k < |MostCommon(entries, n)| ==> e.count <= MostCommon(entries, n)[k].count
  {
    var s := SortByCount(entries);
    var top := MostCommon(entries, n);
    forall e | e in entries
      ensures e in top || forall k :: 0 <= k < |top| ==> e.count <= top[k].count
    {
      assert e in multiset(s);
      var m :| 0 <= m < |s| && s[m] == e;
      if m < |top| {
        assert top[m] == e;
      } else {
        forall k | 0 <= k < |top| ensures e.count <= top[k].count {
          assert top[k] == s[k];
        }
      }
    }
  }

  // ---------------------------------------------------------------------------
  // The rows
  // ---------------------------------------------------------------------------

  /** The entries the row loop keeps: those counted three times or more, in order. */
  function Frequent(top: seq<Entry>): (r: seq<Entry>)
    ensures |r| <= |top|
  {
    if top == [] then []
    else Frequent(top[..|top| - 1]) + (if top[|top| - 1].count < 3 then [] else [top[|top| - 1]])
  }

  /** The loop `for word, count in top_words: if count < 3: continue; ...` that fills the word
      and count columns. */
  method SelectRows(top: seq<Entry>) returns (words: seq<string>, counts: seq<nat>)
    ensures |words| == |counts| == |Frequent(top)|
    ensures forall k :: 0 <= k < |words| ==> Frequent(top)[k] == Entry(words[k], counts[k])
  {
    words, counts := [], [];
    for i := 0 to |top|
      invariant |words| == |counts| == |Frequent(top[..i])|
      invariant forall k :: 0 <= k < |words| ==> Frequent(top[..i])[k] == Entry(words[k], counts[k])
    {
      assert top[..i + 1][..i] == top[..i];
      var e := top[i];
      if e.count < 3 {
        continue;
      }
      words := words + [e.word];
      counts := counts + [e.count];
    }
    assert top[..|top|] == top;
  }

  /** The rows keep exactly the entries counted at least three times, in their order. */
  lemma {:induction false} FrequentSound(top: seq<Entry>)
    ensures forall e <- Frequent(top) :: e in top && e.count >= 3
    ensures forall e <- top :: e.count >= 3 ==> e in Frequent(top)
    ensures NonIncreasing(top) ==> NonIncreasing(Frequent(top))
  {
    if top != [] {
      var n := |top| - 1;
      FrequentSound(top[..n]);
      assert top == top[..n] + [top[n]];
      var f := Frequent(top[..n]);
      if NonIncreasing(top) && top[n].count >= 3 {
        forall k | 0 <= k < |f| ensures f[k].count >= top[n].count {
          assert f[k] in top[..n];
        }
      }
    }
  }

  /** The row selection of a report over `words` with a cut at `n`: rows are the entries of
      `most_common(n)` counted three times or more. */
  function Rows(words: seq<string>, n: nat): seq<Entry> {
    Frequent(MostCommon(Tally(words), n))
  }

  /** Rows come in non-increasing count order, at most `n` of them, each word with its exact
      count of at least three; a word seen three times or more that has no row was crowded
      out: the cut was reached and every row counts at least as much. */
  lemma RowsSound(words: seq<string>, n: nat)
    ensures |Rows(words, n)| <= n && NonIncreasing(Rows(words, n))
    ensures forall e <- Rows(words, n) :: e.word in words && e.count == Occurrences(words, e.word) && e.count >= 3
    ensures forall w <- words :: Occurrences(words, w) >= 3 && (forall e <- Rows(words, n) :: e.word != w) ==>
              |MostCommon(Tally(words), n)| == n && forall e <- Rows(words, n) :: Occurrences(words, w) <= e.count
  {
    var t := Tally(words);
    var top := MostCommon(t, n);
    TallyIsCounter(words);
    MostCommonSound(t, n);
    FrequentSound(top);
    RowsCounted(words, t, top);
    forall w | w in words && Occurrences(words, w) >= 3 && (forall e <- Rows(words, n) :: e.word != w)
      ensures |top| == n && forall e <- Rows(words, n) :: Occurrences(words, w) <= e.count
    {
      CrowdedOut(words, t, top, n, w);
    }
  }

  lemma RowsCounted(words: seq<string>, t: seq<Entry>, top: seq<Entry>)
    requires IsCounterOf(t, words)
    requires forall e <- top :: e in t
    ensures forall e <- Frequent(top) :: e.word in words && e.count == Occurrences(words, e.word)
  {
    FrequentSound(top);
    forall e | e in Frequent(top) ensures e.word in words && e.count == Occurrences(words, e.word) {
      var i :| 0 <= i < |t| && t[i] == e;
    }
  }

  lemma CrowdedOut(words: seq<string>, t: seq<Entry>, top: seq<Entry>, n: nat, w: string)
    requires IsCounterOf(t, words) && top == MostCommon(t, n)
    requires w in words && Occurrences(words, w) >= 3 && forall e <- Frequent(top) :: e.word != w
    ensures |top| == n && forall e <- Frequent(top) :: Occurrences(words, w) <= e.count
  {
    FrequentSound(top);
    var i :| 0 <= i < |t| && t[i].word == w;
    var e := t[i];
    assert e in t && e.count >= 3;
    assert e !in Frequent(top);
    assert e !in top;
    LeftOut(t, n, e);
    forall r | r in Frequent(top) ensures Occurrences(words, w) <= r.count {
      var k :| 0 <= k < |top| && top[k] == r;
    }
  }

  /** An entry that `most_common(n)` leaves out means the cut was reached above it. */
  lemma LeftOut(t: seq<Entry>, n: nat, e: Entry)
    requires e in t && e !in MostCommon(t, n)
    ensures |MostCommon(t, n)| == n
    ensures forall k :: 0 <= k < n ==> e.count <= MostCommon(t, n)[k].count
  {
    MostCommonSound(t, n);
    assert e in multiset(t);
    assert |t| <= n ==> e in multiset(MostCommon(t, n));
  }
}
