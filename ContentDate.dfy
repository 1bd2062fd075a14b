/**
 * `extract_date_from_content`: the publication date of an article is the
 * first match of `YYYY年M月D日` that names a real calendar day, else the
 * first match of `YYYY-M-D` that does; the slash and dotted patterns are
 * searched as well but never yield a date.
 */
module ContentDate {
  import opened Wrappers
  import opened Strings

  datatype Date = Date(year: int, month: int, day: int)

  predicate IsLeap(y: int) { (y % 4 == 0 && y % 100 != 0) || y % 400 == 0 }

  function DaysInMonth(y: int, m: int): int
    requires 1 <= m <= 12
  {
    if m == 2 then (if IsLeap(y) then 29 else 28)
    else if m == 4 || m == 6 || m == 9 || m == 11 then 30
    else 31
  }

  /** What `datetime.date(y, m, d)` accepts: years 1 to 9999 and a day of that month. */
  predicate ValidDate(y: int, m: int, d: int) {
    1 <= y <= 9999 && 1 <= m <= 12 && 1 <= d <= DaysInMonth(y, m)
  }

  /** The three numbers a pattern captures. */
  datatype Fields = Fields(year: nat, month: nat, day: nat)

  /** `\d{4}` at `i`: the value of four ASCII digits. */
  function FourDigits(s: string, i: nat): (r: Option<nat>)
    ensures r.Some? ==> i + 4 <= |s| && AllDigits(s[i..i + 4]) && r.value == DigitsValue(s[i..i + 4])
    ensures r.None? ==> i + 4 > |s| || exists k :: i <= k < i + 4 && !IsDigit(s[k])
  {
    if i + 4 <= |s| && AllDigits(s[i..i + 4]) then Some(DigitsValue(s[i..i + 4])) else None
  }

  /** `\d{1,2}` at `i` that must be followed by `stop`: two digits when that works, else one.
      Returns the value and the index just past `stop`. */
  function ShortNumberBefore(s: string, i: nat, stop: char): (r: Option<(nat, nat)>)
    ensures r.Some? ==> i + 2 <= r.value.1 <= i + 3 && r.value.1 <= |s| && s[r.value.1 - 1] == stop
    ensures r.Some? ==> AllDigits(s[i..r.value.1 - 1]) && r.value.0 == DigitsValue(s[i..r.value.1 - 1])
  {
    if i + 2 < |s| && IsDigit(s[i]) && IsDigit(s[i + 1]) && s[i + 2] == stop then
      Some((DigitsValue(s[i..i + 2]), i + 3))
    else if i + 1 < |s| && IsDigit(s[i]) && s[i + 1] == stop then
      Some((DigitsValue(s[i..i + 1]), i + 2))
    else None
  }

  /** A final greedy `\d{1,2}` at `i`. */
  function ShortNumber(s: string, i: nat): (r: Option<nat>)
  {
    if i + 1 < |s| && IsDigit(s[i]) && IsDigit(s[i + 1]) then Some(DigitsValue(s[i..i + 2]))
    else if i < |s| && IsDigit(s[i]) then Some(DigitsValue(s[i..i + 1]))
    else None
  }

  /** `(\d{4})年(\d{1,2})月(\d{1,2})日` matched at `i`. */
  function ChineseDateAt(s: string, i: nat): Option<Fields> {
    match FourDigits(s, i)
    case None => None
    case Some(y) =>
      if i + 4 < |s| && s[i + 4] == '年' then
        match ShortNumberBefore(s, i + 5, '月')
        case None => None
        case Some((m, j)) =>
          match ShortNumberBefore(s, j, '日')
          case None => None
          case Some((d, _)) => Some(Fields(y, m, d))
      else None
  }

  /** `(\d{4}-\d{1,2}-\d{1,2})` matched at `i`. */
  function HyphenDateAt(s: string, i: nat): Option<Fields> {
    match FourDigits(s, i)
    case None => None
    case Some(y) =>
      if i + 4 < |s| && s[i + 4] == '-' then
        match ShortNumberBefore(s, i + 5, '-')
        case None => None
        case Some((m, j)) =>
          match ShortNumber(s, j)
          case None => None
          case Some(d) => Some(Fields(y, m, d))
      else None
  }

  /** The two patterns that can yield a date. */
  datatype Pattern = ChineseDate | HyphenDate

  function MatchAt(p: Pattern, s: string, i: nat): Option<Fields> {
    match p
    case ChineseDate => ChineseDateAt(s, i)
    case HyphenDate => HyphenDateAt(s, i)
  }

  /** `re.search`: the fields of the leftmost match at or after `from`. */
  function SearchFrom(p: Pattern, s: string, from: nat): (r: Option<Fields>)
    decreases |s| - from
  {
    if from >= |s| then None
    else if MatchAt(p, s, from).Some? then MatchAt(p, s, from)
    else SearchFrom(p, s, from + 1)
  }

  /** The date one pattern contributes: its leftmost match, when that names a real day
      (`date(...)` and `strptime(..., '%Y-%m-%d')` both raise `ValueError` otherwise). */
  function Attempt(p: Pattern, s: string): (r: Option<Date>)
    ensures r.Some? ==> ValidDate(r.value.year, r.value.month, r.value.day)
  {
    match SearchFrom(p, s, 0)
    case None => None
    case Some(f) =>
      if ValidDate(f.year, f.month, f.day) then Some(Date(f.year, f.month, f.day)) else None
  }

  /** `extract_date_from_content(content)`. */
  function ExtractDate(s: string): (r: Option<Date>)
    ensures r.Some? ==> ValidDate(r.value.year, r.value.month, r.value.day)
  {
    if Attempt(ChineseDate, s).Some? then Attempt(ChineseDate, s) else Attempt(HyphenDate, s)
  }

  // ---------------------------------------------------------------------------
  // Properties
  // ---------------------------------------------------------------------------

  /** The leftmost match is a match, and there is none before it. */
  lemma {:induction false} SearchFromLeftmost(p: Pattern, s: string, from: nat)
    ensures SearchFrom(p, s, from).Some? ==>
      exists i :: from <= i < |s| && MatchAt(p, s, i) == SearchFrom(p, s, from) &&
        forall j :: from <= j < i ==> MatchAt(p, s, j).None?
    ensures SearchFrom(p, s, from).None? ==> forall j :: from <= j < |s| ==> MatchAt(p, s, j).None?
    decreases |s| - from
  {
    if from < |s| {
      if MatchAt(p, s, from).Some? {
        assert MatchAt(p, s, from) == SearchFrom(p, s, from);
      } else {
        SearchFromLeftmost(p, s, from + 1);
        assert SearchFrom(p, s, from) == SearchFrom(p, s, from + 1);
        if SearchFrom(p, s, from + 1).Some? {
          var i :| from + 1 <= i < |s| && MatchAt(p, s, i) == SearchFrom(p, s, from + 1) &&
            forall j :: from + 1 <= j < i ==> MatchAt(p, s, j).None?;
          assert forall j :: from <= j < i ==> MatchAt(p, s, j).None?;
        }
      }
    }
  }

  /** `re.search` finds the match at `i` when no match starts before it. */
  lemma {:induction false} SearchFromAt(p: Pattern, s: string, from: nat, i: nat)
    requires from <= i < |s| && MatchAt(p, s, i).Some?
    requires forall j :: from <= j < i ==> MatchAt(p, s, j).None?
    ensures SearchFrom(p, s, from) == MatchAt(p, s, i)
    decreases i - from
  {
    if from < i {
      SearchFromAt(p, s, from + 1, i);
    }
  }

  /** A pattern's date is read from its leftmost match: the day it names when that is a real
      day, and no date at all otherwise (the later matches are not tried). */
  lemma AttemptLeftmost(p: Pattern, s: string, i: nat)
    requires i < |s| && MatchAt(p, s, i).Some?
    requires forall j :: 0 <= j < i ==> MatchAt(p, s, j).None?
    ensures var f := MatchAt(p, s, i).value;
      Attempt(p, s) == if ValidDate(f.year, f.month, f.day) then Some(Date(f.year, f.month, f.day)) else None
  {
    SearchFromAt(p, s, 0, i);
  }

  /** A pattern that matches nowhere yields no date. */
  lemma AttemptNoMatch(p: Pattern, s: string)
    requires forall j :: 0 <= j < |s| ==> MatchAt(p, s, j).None?
    ensures Attempt(p, s) == None
  {
    SearchFromLeftmost(p, s, 0);
  }

  /** A match of either pattern starts with a digit. */
  lemma MatchStartsWithDigit(p: Pattern, s: string, i: nat)
    ensures MatchAt(p, s, i).Some? ==> i < |s| && IsDigit(s[i])
  {
    if FourDigits(s, i).Some? {
      assert s[i..i + 4][0] == s[i];
    }
  }

  /** A `年月日` match has `年` right after its four digits. */
  lemma ChineseNeedsYearMark(s: string, i: nat)
    ensures ChineseDateAt(s, i).Some? ==> i + 4 < |s| && s[i + 4] == '年'
  {
  }

  /** A string written as `YYYY年M月D日` with a real day is read back as that day. */
  lemma ChineseDateRoundTrip(y: nat, m: nat, d: nat)
    requires 1000 <= y <= 9999 && ValidDate(y, m, d)
    ensures ExtractDate(NatToString(y) + "年" + NatToString(m) + "月" + NatToString(d) + "日")
            == Some(Date(y, m, d))
  {
    var s := NatToString(y) + "年" + NatToString(m) + "月" + NatToString(d) + "日";
    ChineseDateAfterPrefix([], s, [], y, m, d);
    assert [] + s + [] == s;
  }

  /** The first real `年月日` date of a text whose lead-in holds no digit is the one found,
      whatever follows it. */
  lemma ChineseDateAfterPrefix(pre: string, t: string, post: string, y: nat, m: nat, d: nat)
    requires forall k :: 0 <= k < |pre| ==> !IsDigit(pre[k])
    requires 1000 <= y <= 9999 && ValidDate(y, m, d)
    requires t == NatToString(y) + "年" + NatToString(m) + "月" + NatToString(d) + "日"
    ensures ExtractDate(pre + t + post) == Some(Date(y, m, d))
  {
    var ys, ms, ds := NatToString(y), NatToString(m), NatToString(d);
    var s := pre + t + post;
    var i := |pre|;
    NatToStringValue(y);
    NatToStringValue(m);
    NatToStringValue(d);
    FourDigitRendering(y);
    ShortRendering(m);
    ShortRendering(d);
    assert s[i..i + |t|] == t;
    ChineseDateText(s, i, ys, ms, ds);
    forall j | 0 <= j < i ensures MatchAt(ChineseDate, s, j).None? {
      assert s[j] == pre[j];
      MatchStartsWithDigit(ChineseDate, s, j);
    }
    AttemptLeftmost(ChineseDate, s, i);
  }

  /** Four digits, `年`, one or two digits, `月`, one or two digits and `日` match at `i`. */
  lemma ChineseDateText(s: string, i: nat, ys: string, ms: string, ds: string)
    requires AllDigits(ys) && AllDigits(ms) && AllDigits(ds)
    requires |ys| == 4 && 1 <= |ms| <= 2 && 1 <= |ds| <= 2
    requires var t := ys + "年" + ms + "月" + ds + "日"; i + |t| <= |s| && s[i..i + |t|] == t
    ensures ChineseDateAt(s, i) == Some(Fields(DigitsValue(ys), DigitsValue(ms), DigitsValue(ds)))
  {
    var t := ys + "年" + ms + "月" + ds + "日";
    var j := 5 + |ms| + 1;
    ChineseTextParts(ys, ms, ds);
    PieceAt(s, i, t, 0, ys);
    CharAt(s, i, t, 4);
    FourAt(s, i, ys);
    var mAt, dAt, end := i + 5, i + j, i + j + |ds| + 1;
    ShortPieceAt(s, i, t, 5, ms, '月', mAt, dAt);
    ShortPieceAt(s, i, t, j, ds, '日', dAt, end);
    ChineseFromParts(s, i, DigitsValue(ys), DigitsValue(ms), DigitsValue(ds), dAt, end);
  }

  /** A piece of one or two digits at offset `off` of `t`, followed there by `stop`, is read
      by `ShortNumberBefore` at `i + off` of `s` when `t` sits at `i`. */
  lemma ShortPieceAt(s: string, i: nat, t: string, off: nat, x: string, stop: char, at: nat, next: nat)
    requires i + |t| <= |s| && s[i..i + |t|] == t
    requires AllDigits(x) && 1 <= |x| <= 2 && !IsDigit(stop)
    requires off + |x| < |t| && t[off..off + |x|] == x && t[off + |x|] == stop
    requires at == i + off && next == at + |x| + 1
    ensures ShortNumberBefore(s, at, stop) == Some((DigitsValue(x), next))
  {
    PieceAt(s, i, t, off, x);
    CharAt(s, i, t, off + |x|);
    ShortAt(s, i + off, x, stop);
  }

  /** Where the parts of `YYYY年M月D日` sit. */
  lemma ChineseTextParts(ys: string, ms: string, ds: string)
    requires |ys| == 4
    ensures var t := ys + "年" + ms + "月" + ds + "日"; var j := 5 + |ms| + 1;
      |t| == j + |ds| + 1 && t[0..4] == ys && t[4] == '年' && t[5..5 + |ms|] == ms &&
      t[5 + |ms|] == '月' && t[j..j + |ds|] == ds && t[j + |ds|] == '日'
  {
  }

  /** A piece of `t` at offset `off` sits at `i + off` of `s` when `t` sits at `i`. */
  lemma PieceAt(s: string, i: nat, t: string, off: nat, part: string)
    requires i + |t| <= |s| && s[i..i + |t|] == t
    requires off + |part| <= |t| && t[off..off + |part|] == part
    ensures forall k :: 0 <= k < |part| ==> s[i + off + k] == part[k]
  {
    forall k | 0 <= k < |part| ensures s[i + off + k] == part[k] {
      assert part[k] == t[off + k];
      assert t[off + k] == s[i..i + |t|][off + k];
    }
  }

  lemma CharAt(s: string, i: nat, t: string, off: nat)
    requires i + |t| <= |s| && s[i..i + |t|] == t && off < |t|
    ensures s[i + off] == t[off]
  {
    assert t[off] == s[i..i + |t|][off];
  }

  /** `ChineseDateAt` assembled from its three reads. */
  lemma ChineseFromParts(s: string, i: nat, y: nat, m: nat, d: nat, j: nat, k: nat)
    requires FourDigits(s, i) == Some(y) && i + 4 < |s| && s[i + 4] == '年'
    requires ShortNumberBefore(s, i + 5, '月') == Some((m, j)) && ShortNumberBefore(s, j, '日') == Some((d, k))
    ensures ChineseDateAt(s, i) == Some(Fields(y, m, d))
  {
  }

  /** A string written as `YYYY-M-D` with a real day is read back as that day: the `年月日`
      pattern finds nothing in it, and the hyphenated one reads the whole string. */
  lemma HyphenDateRoundTrip(y: nat, m: nat, d: nat)
    requires 1000 <= y <= 9999 && ValidDate(y, m, d)
    ensures ExtractDate(NatToString(y) + "-" + NatToString(m) + "-" + NatToString(d)) == Some(Date(y, m, d))
  {
    var ys, ms, ds := NatToString(y), NatToString(m), NatToString(d);
    var s := ys + "-" + ms + "-" + ds;
    NatToStringValue(y);
    NatToStringValue(m);
    NatToStringValue(d);
    FourDigitRendering(y);
    ShortRendering(m);
    ShortRendering(d);
    HyphenDateText(ys, ms, ds);
    forall j | 0 <= j < |s| ensures MatchAt(ChineseDate, s, j).None? {
      ChineseNeedsYearMark(s, j);
      NoYearMark(ys, ms, ds, j + 4);
    }
    AttemptNoMatch(ChineseDate, s);
    AttemptLeftmost(HyphenDate, s, 0);
  }

  /** A hyphenated date holds no `年`. */
  lemma NoYearMark(ys: string, ms: string, ds: string, k: nat)
    requires AllDigits(ys) && AllDigits(ms) && AllDigits(ds)
    ensures var s := ys + "-" + ms + "-" + ds; k < |s| ==> s[k] != '年'
  {
    var s := ys + "-" + ms + "-" + ds;
    if k < |s| {
      if k < |ys| {
        assert s[k] == ys[k];
      } else if k == |ys| || k == |ys| + 1 + |ms| {
        assert s[k] == '-';
      } else if k < |ys| + 1 + |ms| {
        assert s[k] == ms[k - |ys| - 1];
      } else {
        assert s[k] == ds[k - |ys| - 2 - |ms|];
      }
    }
  }

  /** Four digits, `-`, one or two digits, `-` and a final one or two digits match at the start. */
  lemma HyphenDateText(ys: string, ms: string, ds: string)
    requires AllDigits(ys) && AllDigits(ms) && AllDigits(ds)
    requires |ys| == 4 && 1 <= |ms| <= 2 && 1 <= |ds| <= 2
    ensures HyphenDateAt(ys + "-" + ms + "-" + ds, 0) ==
            Some(Fields(DigitsValue(ys), DigitsValue(ms), DigitsValue(ds)))
  {
    var s := ys + "-" + ms + "-" + ds;
    var j := 5 + |ms| + 1;
    assert forall k :: 0 <= k < 4 ==> s[k] == ys[k];
    assert s[4] == '-';
    assert forall k :: 0 <= k < |ms| ==> s[5 + k] == ms[k];
    assert s[5 + |ms|] == '-';
    assert s[j..] == ds;
    FourAt(s, 0, ys);
    ShortAt(s, 5, ms, '-');
    FinalShortAt(s, j, ds);
  }

  /** One or two digits that end the string are read whole by `ShortNumber`. */
  lemma FinalShortAt(s: string, j: nat, ds: string)
    requires AllDigits(ds) && 1 <= |ds| <= 2 && j <= |s| && s[j..] == ds
    ensures ShortNumber(s, j) == Some(DigitsValue(ds))
  {
    assert s[j] == ds[0];
    if |ds| == 2 {
      assert s[j + 1] == ds[1];
      assert s[j..j + 2] == ds;
    } else {
      assert s[j..j + 1] == ds;
    }
  }

  /** Four digits at `i` are read by `FourDigits`. */
  lemma FourAt(s: string, i: nat, ys: string)
    requires AllDigits(ys) && |ys| == 4 && i + 4 <= |s|
    requires forall k :: 0 <= k < 4 ==> s[i + k] == ys[k]
    ensures FourDigits(s, i) == Some(DigitsValue(ys))
  {
    assert s[i..i + 4] == ys;
  }

  /** One or two digits followed by a non-digit `stop` are read by `ShortNumberBefore`. */
  lemma ShortAt(s: string, i: nat, x: string, stop: char)
    requires AllDigits(x) && 1 <= |x| <= 2 && !IsDigit(stop)
    requires i + |x| < |s| && s[i + |x|] == stop
    requires forall k :: 0 <= k < |x| ==> s[i + k] == x[k]
    ensures ShortNumberBefore(s, i, stop) == Some((DigitsValue(x), i + |x| + 1))
  {
    assert s[i] == x[0];
    if |x| == 2 {
      assert s[i + 1] == x[1];
      assert s[i..i + 2] == x;
    } else {
      assert s[i..i + 1] == x;
    }
  }

  lemma FourDigitRendering(y: nat)
    requires 1000 <= y <= 9999
    ensures |NatToString(y)| == 4
  {
    var a := y / 10;
    var b := a / 10;
    assert |NatToString(b / 10)| == 1;
    assert |NatToString(b)| == 2;
    assert |NatToString(a)| == 3;
  }

  lemma ShortRendering(m: nat)
    requires 1 <= m <= 31
    ensures 1 <= |NatToString(m)| <= 2
  {
  }

  /** An invalid `年月日` date does not stop the search: the hyphenated form is tried next. */
  lemma InvalidChineseFallsThrough(s: string)
    requires SearchFrom(ChineseDate, s, 0).Some?
    requires var f := SearchFrom(ChineseDate, s, 0).value; !ValidDate(f.year, f.month, f.day)
    ensures ExtractDate(s) == Attempt(HyphenDate, s)
  {
  }
}
