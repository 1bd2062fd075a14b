/**
 * `WebCrawler.get_display_size`: an image's declared size, first from its
 * `width`/`height` attributes read as `int(float(...))` after any `px` is
 * removed, then from the first `width:`/`height:` declarations with a digit run
 * in its inline style, else (0, 0).  `float()` is modelled by an exact decimal
 * reader: optional sign, digits with an optional fraction, optional exponent,
 * and the words inf/infinity/nan; `int()` truncates toward zero.
 */
module DisplaySize {
  import opened Wrappers
  import opened Strings
  import opened Dom

  /** What `float(s)` yields, and so what `int(float(s))` does with it. */
  datatype FloatValue =
    | Finite(trunc: int)   // int(float(s)) succeeds with this value
    | Infinite             // int(inf) raises OverflowError, which get_display_size does not catch
    | NotANumber           // int(nan) raises ValueError
    | Invalid              // float(s) raises ValueError

  /** get_display_size either returns a pair or lets OverflowError escape. */
  datatype SizeOutcome = Measured(width: int, height: int) | Raises

  /** The end of the digit run that starts at `i`. */
  function DigitEnd(s: string, i: nat): (e: nat)
    requires i <= |s|
    ensures i <= e <= |s| && AllDigits(s[i..e])
    ensures e < |s| ==> !IsDigit(s[e])
    decreases |s| - i
  {
    if i < |s| && IsDigit(s[i]) then
      var e := DigitEnd(s, i + 1);
      assert forall k :: 0 <= k < e - i ==> s[i..e][k] == (if k == 0 then s[i] else s[i + 1..e][k - 1]);
      e
    else i
  }

  function Pow10(n: nat): (p: nat)
    ensures p >= 1
  {
    if n == 0 then 1 else 10 * Pow10(n - 1)
  }

  /** The integer part, toward zero, of  (-1 if neg) * digits * 10^(exponent - fractionLength). */
  function Scale(digits: string, fractionLength: nat, exponent: int, neg: bool): int
    requires AllDigits(digits)
  {
    var d := DigitsValue(digits);
    var p := exponent - fractionLength;
    var magnitude := if p >= 0 then d * Pow10(p) else d / Pow10(-p);
    if neg then -magnitude else magnitude
  }

  /** The mantissa digits with the decimal point taken out. */
  function MantissaDigits(u: string, a: nat, b: nat, c: nat): (r: string)
    requires a <= b <= c <= |u| && AllDigits(u[..a]) && AllDigits(u[b..c])
    ensures r == u[..a] + u[b..c] && AllDigits(r)
  {
    var r := u[..a] + u[b..c];
    assert forall k :: 0 <= k < |r| ==> r[k] == if k < a then u[..a][k] else u[b..c][k - a];
    r
  }

  /** `[digits][.digits][(e|E)[sign]digits]` with at least one mantissa digit, to the end of `u`. */
  function ParseDecimal(u: string, neg: bool): FloatValue {
    var a := DigitEnd(u, 0);
    var b := if a < |u| && u[a] == '.' then a + 1 else a;
    var c := if b == a + 1 then DigitEnd(u, b) else a;
    if a == 0 && c == b then Invalid
    else if c == |u| then Finite(Scale(MantissaDigits(u, a, b, c), c - b, 0, neg))
    else ParseExponent(u, c, MantissaDigits(u, a, b, c), c - b, neg)
  }

  /** The exponent part `(e|E)[sign]digits`, which must run to the end of `u`. */
  function ParseExponent(u: string, c: nat, digits: string, fractionLength: nat, neg: bool): FloatValue
    requires c < |u| && AllDigits(digits)
  {
    if u[c] == 'e' || u[c] == 'E' then
      var d := c + 1;
      var eneg := d < |u| && u[d] == '-';
      var d' := if d < |u| && (u[d] == '+' || u[d] == '-') then d + 1 else d;
      var g := DigitEnd(u, d');
      if g == d' || g != |u| then Invalid
      else
        var e: int := DigitsValue(u[d'..g]);
        Finite(Scale(digits, fractionLength, if eneg then -e else e, neg))
    else Invalid
  }

  /** Python's `float(s)` as far as `int(float(s))` can tell. */
  function ParseNumber(s: string): FloatValue {
    var t := Strip(s);
    var signed := t != [] && (t[0] == '+' || t[0] == '-');
    var neg := t != [] && t[0] == '-';
    var u := if signed then t[1..] else t;
    if Lower(u) == "inf" || Lower(u) == "infinity" then Infinite
    else if Lower(u) == "nan" then NotANumber
    else ParseDecimal(u, neg)
  }

  /** `s.replace('px', '')`: every non-overlapping "px", scanning left to right, removed. */
  function RemovePx(s: string): (r: string)
    ensures |r| <= |s|
  {
    if |s| < 2 then s
    else if s[..2] == "px" then RemovePx(s[2..])
    else [s[0]] + RemovePx(s[1..])
  }

  /** The attribute value as `float` sees it: `px` removed and stripped when it holds "px". */
  function CleanAttribute(v: string): string {
    if Contains(v, "px") then Strip(RemovePx(v)) else v
  }

  /** The length of the digit run at the front of `t`. */
  function DigitRun(t: string): (n: nat)
    ensures n <= |t| && AllDigits(t[..n])
    ensures n < |t| ==> !IsDigit(t[n])
  {
    DigitEnd(t, 0)
  }

  /** A match of `<key>\s*:\s*(\d+)` at the very front of `t`: the value of the digit run. */
  function DeclarationHere(t: string, key: string): Option<nat> {
    if !StartsWith(t, key) then None
    else
      var afterKey := t[|key|..];
      var colon := afterKey[LeadingSpace(afterKey)..];
      if colon != [] && colon[0] == ':' then
        var afterColon := colon[1..];
        var number := afterColon[LeadingSpace(afterColon)..];
        var n := DigitRun(number);
        if n > 0 then Some(DigitsValue(number[..n])) else None
      else None
  }

  /** The match of `<key>\s*:\s*(\d+)` starting at index `i`, if there is one. */
  function DeclarationAt(s: string, key: string, i: nat): Option<nat> {
    if i <= |s| then DeclarationHere(s[i..], key) else None
  }

  /** `re.search(r'<key>\s*:\s*(\d+)...', s)`: the leftmost match, at or after `from`. */
  function StyleValue(s: string, key: string, from: nat): (r: Option<nat>)
    ensures r.None? ==> forall i :: from <= i ==> DeclarationAt(s, key, i).None?
    ensures r.Some? ==> exists i :: from <= i && DeclarationAt(s, key, i) == r &&
                          forall j :: from <= j < i ==> DeclarationAt(s, key, j).None?
    decreases |s| - from
  {
    if from > |s| then None
    else if DeclarationAt(s, key, from).Some? then DeclarationAt(s, key, from)
    else StyleValue(s, key, from + 1)
  }

  /** The attribute half of get_display_size. */
  datatype AttributeSize = AttrSize(w: int, h: int) | AttrRaises | AttrFails

  function FromAttributes(img: Node): AttributeSize {
    var w, h := Get(img, "width"), Get(img, "height");
    if !(Truthy(w) && Truthy(h)) then AttrFails
    else match ParseNumber(CleanAttribute(w.value))
      case Infinite => AttrRaises
      case Finite(x) =>
        (match ParseNumber(CleanAttribute(h.value))
         case Infinite => AttrRaises
         case Finite(y) => AttrSize(x, y)
         case _ => AttrFails)
      case _ => AttrFails
  }

  /** `get_display_size(img)`: only the attribute half can raise, when a size attribute reads
      as an infinite float that `int` cannot convert. */
  function GetDisplaySize(img: Node): (r: SizeOutcome)
    ensures r.Raises? ==> Truthy(Get(img, "width")) && Truthy(Get(img, "height"))
  {
    match FromAttributes(img)
    case AttrSize(x, y) => Measured(x, y)
    case AttrRaises => Raises
    case AttrFails => StyleSize(if Get(img, "style").Some? then Get(img, "style").value else "")
  }

  /** The style half of get_display_size, ending in the default (0, 0). */
  function StyleSize(style: string): (r: SizeOutcome)
    ensures r.Measured? && r.width >= 0 && r.height >= 0
    ensures r.width > 0 ==> StyleValue(style, "width", 0) == Some(r.width)
    ensures r.height > 0 ==> StyleValue(style, "height", 0) == Some(r.height)
  {
    if style != [] && StyleValue(style, "width", 0).Some? && StyleValue(style, "height", 0).Some? then
      Measured(StyleValue(style, "width", 0).value, StyleValue(style, "height", 0).value)
    else Measured(0, 0)
  }
  /** DigitEnd stops exactly at the end of a known digit run. */
  lemma {:induction false} DigitEndAt(s: string, i: nat, m: nat)
    requires i <= m <= |s|
    requires forall k :: i <= k < m ==> IsDigit(s[k])
    requires m < |s| ==> !IsDigit(s[m])
    ensures DigitEnd(s, i) == m
    decreases m - i
  {
    if i < m { DigitEndAt(s, i + 1, m); }
  }

  lemma ShiftDecimal(x: int, p: int, y: int)
    ensures (x * p + y) * 10 == x * (10 * p) + y * 10
  {
  }

  /** The value of a concatenation of digit strings. */
  lemma {:induction false} DigitsValueAppend(a: string, b: string)
    requires AllDigits(a) && AllDigits(b)
    ensures AllDigits(a + b)
    ensures DigitsValue(a + b) == DigitsValue(a) * Pow10(|b|) + DigitsValue(b)
    ensures DigitsValue(b) < Pow10(|b|)
  {
    if b == [] {
      assert a + b == a;
    } else {
      var b' := b[..|b| - 1];
      var last := DigitValue(b[|b| - 1]);
      assert AllDigits(b') by { assert forall k :: 0 <= k < |b'| ==> b'[k] == b[k]; }
      assert AllDigits(a + b) by {
        assert forall k :: 0 <= k < |a + b| ==> (a + b)[k] == if k < |a| then a[k] else b[k - |a|];
      }
      DigitsValueAppend(a, b');
      var x, y, p := DigitsValue(a), DigitsValue(b'), Pow10(|b'|);
      var v := DigitsValue(a + b' );
      assert DigitsValue(a + b) == v * 10 + last by {
        assert (a + b)[..|a + b| - 1] == a + b';
        assert (a + b)[|a + b| - 1] == b[|b| - 1];
      }
      assert DigitsValue(b) == y * 10 + last;
      assert Pow10(|b|) == 10 * p;
      AppendDigitArith(v, x, p, y, last);
    }
  }

  /** The arithmetic of one more digit: shifting `x * p + y` by a place and adding `l`. */
  lemma AppendDigitArith(v: nat, x: nat, p: nat, y: nat, l: nat)
    requires v == x * p + y && y < p && l < 10
    ensures v * 10 + l == x * (10 * p) + (y * 10 + l)
    ensures y * 10 + l < 10 * p
  {
    ShiftDecimal(x, p, y);
    assert y * 10 <= (p - 1) * 10;
  }

  /** `k * p` is at least `p` for every positive whole `k`. */
  lemma {:induction false} MulAtLeast(k: nat, p: nat)
    requires k >= 1
    ensures k * p >= p
  {
    if k > 1 {
      MulAtLeast(k - 1, p);
      assert k * p == (k - 1) * p + p;
    }
  }

  /** Euclidean division undoes `a * p + r` when `r < p`. */
  lemma DivOfMulAdd(x: nat, a: nat, p: nat, r: nat)
    requires x == a * p + r && r < p
    ensures x / p == a
  {
    var q, m := x / p, x % p;
    assert x == q * p + m && 0 <= m < p;
    if q > a {
      MulAtLeast(q - a, p);
    } else if q < a {
      MulAtLeast(a - q, p);
    }
  }

  /** The decimal reader on digits alone: `float("123")` is 123. */
  lemma ParseDecimalDigits(d: string, neg: bool)
    requires d != [] && AllDigits(d)
    ensures ParseDecimal(d, neg) == Finite(if neg then -(DigitsValue(d) as int) else DigitsValue(d))
  {
    DigitEndAt(d, 0, |d|);
    assert MantissaDigits(d, |d|, |d|, |d|) == d by {
      assert d[..|d|] + d[|d|..|d|] == d;
    }
    assert Scale(d, 0, 0, neg) == if neg then -(DigitsValue(d) * 1) else DigitsValue(d) * 1;
  }

  /** How the scanner splits `digits.fraction`. */
  lemma FractionScan(d: string, f: string)
    requires d != [] && AllDigits(d) && AllDigits(f)
    ensures var u := d + "." + f;
      DigitEnd(u, 0) == |d| && u[|d|] == '.' && DigitEnd(u, |d| + 1) == |u| &&
      u[..|d|] == d && u[|d| + 1..|u|] == f
  {
    var u := d + "." + f;
    DigitEndAt(u, 0, |d|);
    DigitEndAt(u, |d| + 1, |u|);
  }

  /** Scaling digits that hold a fraction of `|f|` places keeps the integer part. */
  lemma ScaleFraction(d: string, f: string, neg: bool)
    requires AllDigits(d) && AllDigits(f)
    ensures AllDigits(d + f)
    ensures Scale(d + f, |f|, 0, neg) == if neg then -(DigitsValue(d) as int) else DigitsValue(d)
  {
    DigitsValueAppend(d, f);
    if f == [] {
      assert d + f == d;
    } else {
      var v := DigitsValue(d + f);
      var q := Pow10(|f|);
      DivOfMulAdd(v, DigitsValue(d), q, DigitsValue(f));
      var m: int := v / q;
      assert Scale(d + f, |f|, 0, neg) == if neg then -m else m;
    }
  }

  /** The decimal reader on `digits.fraction`: the fraction is dropped toward zero. */
  lemma ParseDecimalFraction(d: string, f: string, neg: bool)
    requires d != [] && AllDigits(d) && AllDigits(f)
    ensures ParseDecimal(d + "." + f, neg) == Finite(if neg then -(DigitsValue(d) as int) else DigitsValue(d))
  {
    FractionParse(d, f, neg);
    ScaleFraction(d, f, neg);
  }

  /** The decimal reader on `digits.fraction` scales the digits without the point. */
  lemma FractionParse(d: string, f: string, neg: bool)
    requires d != [] && AllDigits(d) && AllDigits(f)
    ensures AllDigits(d + f)
    ensures ParseDecimal(d + "." + f, neg) == Finite(Scale(d + f, |f|, 0, neg))
  {
    var u := d + "." + f;
    FractionScan(d, f);
    FractionMantissa(d, f);
    assert |u| - (|d| + 1) == |f|;
  }

  /** Taking the point out of `digits.fraction` leaves the digits followed by the fraction. */
  lemma FractionMantissa(d: string, f: string)
    requires d != [] && AllDigits(d) && AllDigits(f)
    ensures var u := d + "." + f;
      AllDigits(u[..|d|]) && AllDigits(u[|d| + 1..|u|]) &&
      MantissaDigits(u, |d|, |d| + 1, |u|) == d + f
  {
    var u := d + "." + f;
    assert u[..|d|] == d && u[|d| + 1..|u|] == f;
  }

  /** No string that starts with a digit is read as a special float word. */
  lemma DigitLedNotWord(u: string)
    requires u != [] && IsDigit(u[0])
    ensures Lower(u) != "inf" && Lower(u) != "infinity" && Lower(u) != "nan"
  {
    var lu := Lower(u);
    assert lu[0] == u[0];
    assert "inf"[0] == 'i' && "infinity"[0] == 'i' && "nan"[0] == 'n';
  }

  /** What `ParseNumber` does with a string that carries no whitespace at its ends and
      starts with a digit after its optional sign. */
  lemma ParseNumberUnsigned(s: string, sign: string, u: string)
    requires sign == "" || sign == "+" || sign == "-"
    requires s == sign + u && u != [] && IsDigit(u[0]) && NoSpaceAtEnds(s)
    ensures ParseNumber(s) == ParseDecimal(u, sign == "-")
  {
    StripTrimmed(s);
    var t := Strip(s);
    var signed := t != [] && (t[0] == '+' || t[0] == '-');
    assert signed == (sign != "") && (t != [] && t[0] == '-') == (sign == "-");
    assert (if signed then t[1..] else t) == u;
    DigitLedNotWord(u);
  }

  /** `int(float(str(n))) == n`: an attribute written as a plain number is read back exactly. */
  lemma ParseNatString(n: nat)
    ensures ParseNumber(NatToString(n)) == Finite(n)
  {
    var s := NatToString(n);
    assert s == "" + s;
    ParseNumberUnsigned(s, "", s);
    ParseDecimalDigits(s, false);
    NatToStringValue(n);
  }

  lemma SignedDecimalTrimmed(sign: string, d: string, f: string)
    requires sign == "" || sign == "+" || sign == "-"
    requires d != [] && AllDigits(d) && AllDigits(f)
    ensures NoSpaceAtEnds(sign + d + "." + f) && IsDigit((d + "." + f)[0])
  {
    var u := d + "." + f;
    var s := sign + d + "." + f;
    assert s == sign + u && u[0] == d[0];
    assert s[0] == (if sign == "" then d[0] else sign[0]);
    assert s[|s| - 1] == if f == [] then '.' else f[|f| - 1];
  }

  /** `int(float(sign + d + '.' + f))` for digit strings `d` and `f` is `int(sign + d)`:
      the fraction is dropped toward zero whatever the sign, so "12.9" gives 12
      and "-12.9" gives -12. */
  lemma ParseTruncatesFraction(sign: string, d: string, f: string)
    requires sign == "" || sign == "+" || sign == "-"
    requires d != [] && AllDigits(d) && AllDigits(f)
    ensures ParseNumber(sign + d + "." + f) == Finite(if sign == "-" then -(DigitsValue(d) as int) else DigitsValue(d))
  {
    var u := d + "." + f;
    var s := sign + d + "." + f;
    JoinSigned(sign, d, f);
    SignedDecimalTrimmed(sign, d, f);
    ParseNumberUnsigned(s, sign, u);
    ParseDecimalFraction(d, f, sign == "-");
  }

  /** Regrouping the signed decimal text. */
  lemma JoinSigned(sign: string, d: string, f: string)
    ensures sign + d + "." + f == sign + (d + "." + f)
  {
    var p := d + ".";
    assert sign + d + "." == sign + p;
    assert (sign + p) + f == sign + (p + f);
  }

  /** `RemovePx(digits + "px")` is the digits: "300px" is read as 300. */
  lemma {:induction false} RemovePxSuffix(d: string)
    requires AllDigits(d)
    ensures RemovePx(d + "px") == d
  {
    if d == [] {
      assert d + "px" == "px";
    } else {
      var s := d + "px";
      assert s[..2] != "px" by { assert s[0] == d[0]; }
      assert s[1..] == d[1..] + "px";
      RemovePxSuffix(d[1..]);
      assert [d[0]] + d[1..] == d;
    }
  }

  lemma CleanNumber(n: nat, px: bool)
    ensures CleanAttribute(NatToString(n) + (if px then "px" else "")) == NatToString(n)
  {
    var d := NatToString(n);
    if px {
      assert OccursAt(d + "px", "px", |d|);
      RemovePxSuffix(d);
      StripTrimmed(d);
    } else {
      assert d + "" == d;
      forall i ensures !OccursAt(d, "px", i) {
        if 0 <= i && i + 2 <= |d| { assert d[i..i + 2][0] == d[i]; }
      }
    }
  }

  /** An image with `width`/`height` attributes written as numbers, each with or without
      a `px` suffix, has exactly those numbers as its display size. */
  lemma NumericAttributesGiveSize(img: Node, w: nat, h: nat, wpx: bool, hpx: bool)
    requires img.Element?
    requires Get(img, "width") == Some(NatToString(w) + (if wpx then "px" else ""))
    requires Get(img, "height") == Some(NatToString(h) + (if hpx then "px" else ""))
    ensures GetDisplaySize(img) == Measured(w, h)
  {
    CleanNumber(w, wpx);
    CleanNumber(h, hpx);
    ParseNatString(w);
    ParseNatString(h);
  }

  /** A run of whitespace followed by a non-space is skipped whole. */
  lemma LeadingSpaceSkip(a: string, b: string)
    requires AllSpace(a) && (b == [] || !IsSpace(b[0]))
    ensures LeadingSpace(a + b) == |a| && (a + b)[|a|..] == b
  {
  }

  /** The digit run at the front of `d + post` is `d` when `post` does not start with a digit. */
  lemma DigitRunPrefix(d: string, post: string)
    requires AllDigits(d) && (post == [] || !IsDigit(post[0]))
    ensures DigitRun(d + post) == |d| && (d + post)[..|d|] == d
  {
    var u := d + post;
    if post != [] { assert u[|d|] == post[0]; }
    DigitEndAt(u, 0, |d|);
  }

  /** A declaration is read the same whatever text stands in front of it. */
  lemma DeclarationShift(pre: string, s: string, key: string, i: nat)
    requires i <= |s|
    ensures DeclarationAt(pre + s, key, |pre| + i) == DeclarationAt(s, key, i)
  {
    assert (pre + s)[|pre| + i..] == s[i..];
  }

  /** The same, for a declaration at the front of the scanned text. */
  lemma DeclarationHereRead(key: string, sp1: string, sp2: string, n: nat, post: string)
    requires AllSpace(sp1) && AllSpace(sp2)
    requires post == [] || !IsDigit(post[0])
    ensures DeclarationHere(key + (sp1 + (":" + (sp2 + (NatToString(n) + post)))), key) == Some(n)
  {
    var d := NatToString(n);
    var number := d + post;
    var afterColon := sp2 + number;
    var colon := ":" + afterColon;
    var afterKey := sp1 + colon;
    var t := key + afterKey;
    assert t[..|key|] == key && t[|key|..] == afterKey;
    LeadingSpaceSkip(sp1, colon);
    assert colon[1..] == afterColon;
    LeadingSpaceSkip(sp2, number);
    DigitRunPrefix(d, post);
    NatToStringValue(n);
  }

  /** A declaration written `<key> : <n>` (any spacing) is read back as n at its position. */
  lemma DeclarationRead(pre: string, key: string, sp1: string, sp2: string, n: nat, post: string)
    requires AllSpace(sp1) && AllSpace(sp2)
    requires post == [] || !IsDigit(post[0])
    ensures DeclarationAt(pre + key + sp1 + ":" + sp2 + NatToString(n) + post, key, |pre|) == Some(n)
  {
    var t := key + (sp1 + (":" + (sp2 + (NatToString(n) + post))));
    JoinDeclaration(pre, key, sp1, sp2, NatToString(n), post);
    DeclarationShift(pre, t, key, 0);
    assert t[0..] == t;
    DeclarationHereRead(key, sp1, sp2, n, post);
  }

  /** Regrouping the text around a declaration. */
  lemma JoinDeclaration(pre: string, key: string, sp1: string, sp2: string, d: string, post: string)
    ensures pre + key + sp1 + ":" + sp2 + d + post == pre + (key + (sp1 + (":" + (sp2 + (d + post)))))
  {
    assert sp2 + d + post == sp2 + (d + post);
  }

  /** A declaration starts only where the key word occurs. */
  lemma DeclarationNeedsKey(s: string, key: string, i: nat)
    ensures DeclarationAt(s, key, i).Some? ==> OccursAt(s, key, i)
  {
    if i <= |s| && |key| <= |s| - i {
      assert s[i..][..|key|] == s[i..i + |key|];
    }
  }

  /** The search returns the declaration at `i` when none starts between `from` and `i`. */
  lemma {:induction false} StyleValueAt(s: string, key: string, from: nat, i: nat)
    requires from <= i && DeclarationAt(s, key, i).Some?
    requires forall j :: from <= j < i ==> DeclarationAt(s, key, j).None?
    ensures StyleValue(s, key, from) == DeclarationAt(s, key, i)
    decreases i - from
  {
    if from < i {
      assert from <= |s| && DeclarationAt(s, key, from).None?;
      assert StyleValue(s, key, from) == StyleValue(s, key, from + 1);
      StyleValueAt(s, key, from + 1, i);
    }
  }

  /** A style whose first occurrence of the key word opens `<key> : <n>` yields n. */
  lemma FirstDeclarationRead(s: string, pre: string, key: string, sp1: string, sp2: string, n: nat, post: string)
    requires s == pre + key + sp1 + ":" + sp2 + NatToString(n) + post
    requires AllSpace(sp1) && AllSpace(sp2) && (post == [] || !IsDigit(post[0]))
    requires IndexOf(s, key) == Some(|pre|)
    ensures StyleValue(s, key, 0) == Some(n)
  {
    DeclarationRead(pre, key, sp1, sp2, n, post);
    forall j | 0 <= j < |pre|
      ensures DeclarationAt(s, key, j).None?
    {
      DeclarationNeedsKey(s, key, j);
    }
    StyleValueAt(s, key, 0, |pre|);
  }

  /** A style that never mentions the key word yields no value for it. */
  lemma NoKeyNoValue(s: string, key: string)
    requires !Contains(s, key)
    ensures StyleValue(s, key, 0).None?
  {
    forall i: nat
      ensures DeclarationAt(s, key, i).None?
    {
      DeclarationNeedsKey(s, key, i);
    }
  }

  /** Without both size attributes the attribute half gives up. */
  lemma MissingAttributesFail(img: Node)
    requires !(Truthy(Get(img, "width")) && Truthy(Get(img, "height")))
    ensures FromAttributes(img) == AttrFails
  {
  }

  /** Without both size attributes, an inline style `... width: <w> ... height: <h> ...`
      (first occurrences, any spacing, any unit after the digits) gives the size (w, h). */
  lemma StyleGivesSize(img: Node, style: string, w: nat, h: nat,
                       pw: string, sw1: string, sw2: string, qw: string,
                       ph: string, sh1: string, sh2: string, qh: string)
    requires !(Truthy(Get(img, "width")) && Truthy(Get(img, "height")))
    requires Get(img, "style") == Some(style)
    requires style == pw + "width" + sw1 + ":" + sw2 + NatToString(w) + qw
    requires style == ph + "height" + sh1 + ":" + sh2 + NatToString(h) + qh
    requires AllSpace(sw1) && AllSpace(sw2) && (qw == [] || !IsDigit(qw[0]))
    requires AllSpace(sh1) && AllSpace(sh2) && (qh == [] || !IsDigit(qh[0]))
    requires IndexOf(style, "width") == Some(|pw|) && IndexOf(style, "height") == Some(|ph|)
    ensures GetDisplaySize(img) == Measured(w, h)
  {
    FirstDeclarationRead(style, pw, "width", sw1, sw2, w, qw);
    FirstDeclarationRead(style, ph, "height", sh1, sh2, h, qh);
    MissingAttributesUseStyle(img);
    StyleSizeRead(style, w, h);
  }

  /** Without both size attributes the size is the style's. */
  lemma MissingAttributesUseStyle(img: Node)
    requires !(Truthy(Get(img, "width")) && Truthy(Get(img, "height")))
    ensures GetDisplaySize(img) == StyleSize(if Get(img, "style").Some? then Get(img, "style").value else "")
  {
    MissingAttributesFail(img);
  }

  /** Two values read from a style make its size. */
  lemma StyleSizeRead(style: string, w: nat, h: nat)
    requires StyleValue(style, "width", 0) == Some(w) && StyleValue(style, "height", 0) == Some(h)
    ensures StyleSize(style) == Measured(w, h)
  {
    EmptyStyleNoValue("width");
  }

  /** An empty style declares nothing. */
  lemma EmptyStyleNoValue(key: string)
    ensures StyleValue("", key, 0).None?
  {
    assert DeclarationAt("", key, 0).None?;
  }

  /** Without both size attributes, a missing style or one lacking either key word gives
      the default size (0, 0). */
  lemma NoSizeGivesZero(img: Node)
    requires !(Truthy(Get(img, "width")) && Truthy(Get(img, "height")))
    requires Get(img, "style").None? || !Contains(Get(img, "style").value, "width") ||
             !Contains(Get(img, "style").value, "height")
    ensures GetDisplaySize(img) == Measured(0, 0)
  {
    MissingAttributesUseStyle(img);
    if Get(img, "style").Some? {
      var style := Get(img, "style").value;
      if !Contains(style, "width") {
        NoKeyNoValue(style, "width");
      } else {
        NoKeyNoValue(style, "height");
      }
    }
  }
}
