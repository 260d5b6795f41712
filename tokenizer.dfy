/** The number tokenizer of the total detector: `re.findall(r'[\d,]+\.?\d*', s)`,
    the comma stripping `num.replace(',', '')`, and `float()` on the cleaned
    token, with amounts as exact decimals. */
module Tokenizer {
  import opened Text

  datatype Option<T> = None | Some(value: T)

  /** A character of the `[\d,]` class. */
  predicate IsRunChar(c: char) { IsDigit(c) || c == ',' }

  /** A character that can occur in a match of the amount pattern. */
  predicate IsNumberChar(c: char) { IsRunChar(c) || c == '.' }

  /** `t` is a whole match of `[\d,]+\.?\d*`: it starts with a digit or comma,
      holds only digits, commas and points, and after a point only digits follow
      (so there is at most one point and no comma after it). */
  predicate MatchesPattern(t: string)
  {
    |t| > 0 && IsRunChar(t[0]) &&
    (forall k :: 0 <= k < |t| ==> IsNumberChar(t[k])) &&
    (forall a, b :: 0 <= a < b < |t| && t[a] == '.' ==> IsDigit(t[b]))
  }

  /** End of the maximal run of `[\d,]` characters that starts at `i`. */
  function RunEnd(s: string, i: nat): (j: nat)
    requires i <= |s|
    ensures i <= j <= |s|
    ensures forall k :: i <= k < j ==> IsRunChar(s[k])
    ensures j < |s| ==> !IsRunChar(s[j])
    decreases |s| - i
  {
    if i < |s| && IsRunChar(s[i]) then RunEnd(s, i + 1) else i
  }

  /** End of the maximal run of digits that starts at `i`. */
  function DigitsEnd(s: string, i: nat): (j: nat)
    requires i <= |s|
    ensures i <= j <= |s|
    ensures forall k :: i <= k < j ==> IsDigit(s[k])
    ensures j < |s| ==> !IsDigit(s[j])
    decreases |s| - i
  {
    if i < |s| && IsDigit(s[i]) then DigitsEnd(s, i + 1) else i
  }

  /** End of the match the regular expression engine takes at `i`: the greedy
      `[\d,]+`, then a point if one follows, then the greedy `\d*`. It is the
      longest match of the pattern that starts at `i`. */
  function MatchEnd(s: string, i: nat): (e: nat)
    requires i < |s| && IsRunChar(s[i])
    ensures i < e <= |s|
    ensures MatchesPattern(s[i..e])
    ensures forall e' :: e < e' <= |s| ==> !MatchesPattern(s[i..e'])
  {
    var j := RunEnd(s, i);
    var e := if j < |s| && s[j] == '.' then DigitsEnd(s, j + 1) else j;
    assert MatchesPattern(s[i..e]) by {
      forall a, b | 0 <= a < b < e - i && s[i..e][a] == '.'
        ensures IsDigit(s[i..e][b])
      {
        assert i + a == j;
      }
    }
    forall e' | e < e' <= |s|
      ensures !MatchesPattern(s[i..e'])
    {
      var t := s[i..e'];
      assert t[e - i] == s[e];
      if e == j {
        assert !IsNumberChar(t[e - i]);
      } else {
        assert t[j - i] == '.' && !IsDigit(t[e - i]);
      }
    }
    e
  }

  /** A match of the pattern, as the half-open index range `[start, end)`. */
  datatype Span = Span(start: nat, end: nat)

  /** The spans `re.findall` reports when it scans `s` from index `i`: at each
      position that can start a match it takes the longest match and resumes
      after it; elsewhere it moves one character on. */
  function Scan(s: string, i: nat): (r: seq<Span>)
    requires i <= |s|
    ensures forall k :: 0 <= k < |r| ==> i <= r[k].start < r[k].end <= |s|
    ensures forall k :: 0 < k < |r| ==> r[k - 1].end <= r[k].start
    decreases |s| - i
  {
    if i == |s| then []
    else if IsRunChar(s[i]) then [Span(i, MatchEnd(s, i))] + Scan(s, MatchEnd(s, i))
    else Scan(s, i + 1)
  }

  /** `re.findall(r'[\d,]+\.?\d*', s)` */
  function Tokens(s: string): seq<string>
  {
    var spans := Scan(s, 0);
    seq(|spans|, k requires 0 <= k < |spans| => s[spans[k].start..spans[k].end])
  }

  /** Every span the scan reports is a match of the pattern. */
  lemma {:induction false} ScanMatches(s: string, i: nat, k: nat)
    requires i <= |s| && k < |Scan(s, i)|
    ensures MatchesPattern(s[Scan(s, i)[k].start..Scan(s, i)[k].end])
    decreases |s| - i
  {
    if i < |s| {
      if IsRunChar(s[i]) {
        if k > 0 { ScanMatches(s, MatchEnd(s, i), k - 1); }
      } else {
        ScanMatches(s, i + 1, k);
      }
    }
  }

  /** Every token `Tokens` reports matches the pattern. */
  lemma TokensMatch(s: string, k: nat)
    requires k < |Tokens(s)|
    ensures MatchesPattern(Tokens(s)[k])
  {
    ScanMatches(s, 0, k);
  }

  /** Every match the scan reports is the longest one at its start. */
  lemma {:induction false} ScanTakesLongest(s: string, i: nat, k: nat)
    requires i <= |s| && k < |Scan(s, i)|
    ensures var sp := Scan(s, i)[k];
      forall e' :: sp.end < e' <= |s| ==> !MatchesPattern(s[sp.start..e'])
    decreases |s| - i
  {
    if i < |s| {
      if IsRunChar(s[i]) {
        if k > 0 { ScanTakesLongest(s, MatchEnd(s, i), k - 1); }
      } else {
        ScanTakesLongest(s, i + 1, k);
      }
    }
  }

  /** No digit or comma escapes the scan: every one of them from `i` on lies
      inside a reported span. */
  lemma {:induction false} ScanCovers(s: string, i: nat, p: nat)
    requires i <= p < |s| && IsRunChar(s[p])
    ensures exists k :: 0 <= k < |Scan(s, i)| && Scan(s, i)[k].start <= p < Scan(s, i)[k].end
    decreases |s| - i
  {
    var r := Scan(s, i);
    if IsRunChar(s[i]) {
      var e := MatchEnd(s, i);
      if p < e {
        assert r[0].start <= p < r[0].end;
      } else {
        ScanCovers(s, e, p);
        var k :| 0 <= k < |Scan(s, e)| && Scan(s, e)[k].start <= p < Scan(s, e)[k].end;
        assert r[k + 1] == Scan(s, e)[k];
      }
    } else {
      ScanCovers(s, i + 1, p);
    }
  }

  /** A string with no digit yields no token holding a digit. */
  lemma TokenDigitsComeFromText(s: string, k: nat)
    requires k < |Tokens(s)| && HasDigit(Tokens(s)[k])
    ensures HasDigit(s)
  {
    var spans := Scan(s, 0);
    var t := Tokens(s)[k];
    var d :| 0 <= d < |t| && IsDigit(t[d]);
    assert t[d] == s[spans[k].start + d];
  }

  /** `num.replace(',', '')` */
  function RemoveCommas(t: string): (r: string)
    ensures |r| <= |t|
    ensures forall k :: 0 <= k < |r| ==> r[k] != ','
    ensures forall c :: c in r <==> c in t && c != ','
    ensures ',' !in t ==> r == t
  {
    if t == [] then []
    else (if t[0] == ',' then [] else [t[0]]) + RemoveCommas(t[1..])
  }

  /** Stripping commas works piece by piece. */
  lemma {:induction false} RemoveCommasAppend(a: string, b: string)
    ensures RemoveCommas(a + b) == RemoveCommas(a) + RemoveCommas(b)
  {
    if a == [] {
      assert a + b == b;
    } else {
      var head := if a[0] == ',' then [] else [a[0]];
      assert (a + b)[0] == a[0];
      assert (a + b)[1..] == a[1..] + b;
      RemoveCommasAppend(a[1..], b);
      assert RemoveCommas(a + b) == head + (RemoveCommas(a[1..]) + RemoveCommas(b));
    }
  }

  /** Number of decimal points in `s`. */
  function DotCount(s: string): nat
  {
    if s == [] then 0 else (if s[0] == '.' then 1 else 0) + DotCount(s[1..])
  }

  lemma {:induction false} DotCountAppend(a: string, b: string)
    ensures DotCount(a + b) == DotCount(a) + DotCount(b)
  {
    if a != [] {
      assert (a + b)[0] == a[0];
      assert (a + b)[1..] == a[1..] + b;
      DotCountAppend(a[1..], b);
    } else {
      assert a + b == b;
    }
  }

  lemma {:induction false} DotCountZero(s: string)
    ensures DotCount(s) == 0 <==> '.' !in s
  {
    if s != [] {
      DotCountZero(s[1..]);
      assert s == [s[0]] + s[1..];
    }
  }

  /** Stripping commas keeps every decimal point. */
  lemma {:induction false} RemoveCommasKeepsDots(t: string)
    ensures DotCount(RemoveCommas(t)) == DotCount(t)
  {
    if t != [] {
      RemoveCommasKeepsDots(t[1..]);
      DotCountAppend(if t[0] == ',' then [] else [t[0]], RemoveCommas(t[1..]));
    }
  }

  /** A string in which only digits follow a point holds at most one point. */
  lemma {:induction false} OnlyDigitsAfterDot(t: string)
    requires forall a, b :: 0 <= a < b < |t| && t[a] == '.' ==> IsDigit(t[b])
    ensures DotCount(t) <= 1
  {
    if t != [] {
      if t[0] == '.' {
        assert '.' !in t[1..] by {
          forall b | 0 <= b < |t[1..]| ensures t[1..][b] != '.' {
            assert IsDigit(t[b + 1]);
          }
        }
        DotCountZero(t[1..]);
      } else {
        OnlyDigitsAfterDot(t[1..]);
      }
    }
  }

  /** A matched token, once its commas are stripped, holds only digits and at
      most one decimal point. */
  lemma CleanedMatch(t: string)
    requires MatchesPattern(t)
    ensures DecimalText(RemoveCommas(t))
    ensures DotCount(RemoveCommas(t)) <= 1
  {
    var c := RemoveCommas(t);
    forall k | 0 <= k < |c| ensures IsDigit(c[k]) || c[k] == '.' {
      assert c[k] in t;
    }
    RemoveCommasKeepsDots(t);
    OnlyDigitsAfterDot(t);
  }

  function DigitValue(c: char): nat
    requires IsDigit(c)
  {
    c as int - '0' as int
  }

  /** Value of a string of decimal digits (0 for the empty string). */
  function DigitsValue(ds: string): nat
    requires forall k :: 0 <= k < |ds| ==> IsDigit(ds[k])
  {
    if ds == [] then 0 else 10 * DigitsValue(ds[..|ds| - 1]) + DigitValue(ds[|ds| - 1])
  }

  /** Value of the fraction digits `ds` read after a point: `0.d1d2...`. */
  function FractionValue(ds: string): (r: real)
    requires forall k :: 0 <= k < |ds| ==> IsDigit(ds[k])
    ensures 0.0 <= r < 1.0
  {
    if ds == [] then 0.0 else (DigitValue(ds[0]) as real + FractionValue(ds[1..])) / 10.0
  }

  /** Index of the first decimal point of `s`, or `|s|` when there is none. */
  function FirstDot(s: string): (d: nat)
    ensures d <= |s|
    ensures d < |s| ==> s[d] == '.'
    ensures '.' !in s[..d]
  {
    if s == [] then 0
    else if s[0] == '.' then 0
    else assert s[..1 + FirstDot(s[1..])] == [s[0]] + s[1..][..FirstDot(s[1..])]; 1 + FirstDot(s[1..])
  }

  /** The integer digits of `s`: everything before its first point. */
  function WholePart(s: string): string
  {
    s[..FirstDot(s)]
  }

  /** The fraction digits of `s`: everything after its first point. */
  function FracPart(s: string): string
  {
    if FirstDot(s) < |s| then s[FirstDot(s) + 1..] else ""
  }

  lemma SplitAround(s: string, d: nat)
    requires d < |s|
    ensures s == s[..d] + [s[d]] + s[d + 1..]
  {
  }

  /** The two parts and the first point put back together give the text. */
  lemma PartsRebuild(s: string)
    ensures FirstDot(s) < |s| ==> s == WholePart(s) + "." + FracPart(s)
    ensures FirstDot(s) == |s| ==> WholePart(s) == s && FracPart(s) == ""
  {
    var d := FirstDot(s);
    if d < |s| {
      SplitAround(s, d);
      assert [s[d]] == ".";
    } else {
      assert s[..d] == s;
    }
  }

  /** Splitting at the first point: the pieces, their digits and their points. */
  lemma SplitAtDot(s: string)
    requires DecimalText(s)
    ensures forall k :: 0 <= k < |WholePart(s)| ==> IsDigit(WholePart(s)[k])
    ensures DotCount(s) <= 1 <==> '.' !in FracPart(s)
    ensures '.' !in FracPart(s) ==> (HasDigit(s) <==> |WholePart(s)| + |FracPart(s)| > 0)
  {
    var whole := WholePart(s);
    forall k | 0 <= k < |whole| ensures IsDigit(whole[k]) {
      assert whole[k] in s[..FirstDot(s)];
    }
    DotCountSplit(s);
    DotCountZero(FracPart(s));
    if '.' !in FracPart(s) {
      NoDotHasDigit(s, FirstDot(s), whole, FracPart(s));
    }
  }

  /** The points of `s` are its first point and the points of its fraction part. */
  lemma {:induction false} DotCountSplit(s: string)
    ensures DotCount(s) == if FirstDot(s) < |s| then 1 + DotCount(FracPart(s)) else 0
  {
    if s != [] && s[0] != '.' {
      DotCountSplit(s[1..]);
      if FirstDot(s[1..]) < |s[1..]| {
        assert FracPart(s) == FracPart(s[1..]);
      }
    }
  }

  lemma NoDotHasDigit(s: string, d: nat, whole: string, frac: string)
    requires DecimalText(s)
    requires d == FirstDot(s) && whole == WholePart(s) && frac == FracPart(s)
    requires '.' !in frac
    ensures HasDigit(s) <==> |whole| + |frac| > 0
  {
    if |whole| > 0 {
      assert IsDigit(s[0]);
    } else if |frac| > 0 {
      assert s[d + 1] == frac[0];
      assert IsDigit(s[d + 1]);
    } else if d < |s| {
      assert s == ".";
    } else {
      assert s == "";
    }
  }

  /** `s` holds only digits and points. */
  predicate DecimalText(s: string)
  {
    forall k :: 0 <= k < |s| ==> IsDigit(s[k]) || s[k] == '.'
  }

  /** Python's `float(s)` on strings of digits and points: it accepts digits
      with at most one point and at least one digit (`"1234."` and `".123"`
      included), and raises `ValueError` (here `None`) otherwise. The value is
      exact: the integer part plus the fraction read digit by digit. */
  function ParseDecimal(s: string): (r: Option<real>)
    ensures r.Some? <==> DecimalText(s) && HasDigit(s) && DotCount(s) <= 1
    ensures r.Some? ==> r.value >= 0.0
  {
    if !DecimalText(s) then None
    else
    SplitAtDot(s);
    var whole, frac := WholePart(s), FracPart(s);
    if '.' in frac || |whole| + |frac| == 0 then None
    else Some(DigitsValue(whole) as real + FractionValue(frac))
  }

  /** `x * 10^n` on naturals, written as `n` multiplications by ten. */
  function TimesPow10(x: nat, n: nat): nat
  {
    if n == 0 then x else 10 * TimesPow10(x, n - 1)
  }

  /** `x * 10^n` on reals, written as `n` multiplications by ten. */
  function RealTimesPow10(x: real, n: nat): real
  {
    if n == 0 then x else 10.0 * RealTimesPow10(x, n - 1)
  }

  lemma {:induction false} RealTimesPow10Add(x: real, y: real, n: nat)
    ensures RealTimesPow10(x + y, n) == RealTimesPow10(x, n) + RealTimesPow10(y, n)
  {
    if n > 0 {
      RealTimesPow10Add(x, y, n - 1);
    }
  }

  /** One more power of ten undoes a division by ten. */
  lemma {:induction false} RealTimesPow10Tenth(x: real, n: nat)
    ensures RealTimesPow10(x / 10.0, n + 1) == RealTimesPow10(x, n)
  {
    if n > 0 {
      RealTimesPow10Tenth(x, n - 1);
    }
  }

  lemma {:induction false} RealTimesPow10Cast(x: nat, n: nat)
    ensures RealTimesPow10(x as real, n) == TimesPow10(x, n) as real
  {
    if n > 0 {
      RealTimesPow10Cast(x, n - 1);
    }
  }

  /** Appending digits `b` shifts the digits `a` left by `|b|` places. */
  lemma {:induction false} DigitsValueAppend(a: string, b: string)
    requires forall k :: 0 <= k < |a| ==> IsDigit(a[k])
    requires forall k :: 0 <= k < |b| ==> IsDigit(b[k])
    ensures forall k :: 0 <= k < |a + b| ==> IsDigit((a + b)[k])
    ensures DigitsValue(a + b) == TimesPow10(DigitsValue(a), |b|) + DigitsValue(b)
  {
    if b == [] {
      assert a + b == a;
    } else {
      var init := b[..|b| - 1];
      assert (a + b)[..|a + b| - 1] == a + init;
      assert (a + b)[|a + b| - 1] == b[|b| - 1];
      DigitsValueAppend(a, init);
    }
  }

  /** Shifting the fraction `0.d1...dn` left by `n` places gives the integer
      `d1...dn`. */
  lemma {:induction false} FractionScaled(ds: string)
    requires forall k :: 0 <= k < |ds| ==> IsDigit(ds[k])
    ensures RealTimesPow10(FractionValue(ds), |ds|) == DigitsValue(ds) as real
  {
    if ds != [] {
      var rest := ds[1..];
      var d := DigitValue(ds[0]);
      FractionScaled(rest);
      RealTimesPow10Tenth(d as real + FractionValue(rest), |rest|);
      RealTimesPow10Add(d as real, FractionValue(rest), |rest|);
      RealTimesPow10Cast(d, |rest|);
      assert [ds[0]] + rest == ds;
      assert [ds[0]][..0] == [];
      DigitsValueAppend([ds[0]], rest);
    }
  }

  /** The value `float()` returns, shifted left by as many places as `s` has
      fraction digits, is the integer spelled by all the digits of `s` once its
      point is removed: `"12.50"` gives 12.5, and 12.5 * 10^2 == 1250. */
  lemma ParseDecimalValue(s: string)
    requires ParseDecimal(s).Some?
    ensures forall k :: 0 <= k < |WholePart(s) + FracPart(s)| ==> IsDigit((WholePart(s) + FracPart(s))[k])
    ensures RealTimesPow10(ParseDecimal(s).value, |FracPart(s)|)
            == DigitsValue(WholePart(s) + FracPart(s)) as real
  {
    SplitAtDot(s);
    var whole, frac := WholePart(s), FracPart(s);
    forall k | 0 <= k < |frac| ensures IsDigit(frac[k]) {
      assert frac[k] in frac;
    }
    DigitsValueAppend(whole, frac);
    FractionScaled(frac);
    RealTimesPow10Add(DigitsValue(whole) as real, FractionValue(frac), |frac|);
    RealTimesPow10Cast(DigitsValue(whole), |frac|);
  }
}
