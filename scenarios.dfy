/** Worked receipts: concrete OCR outputs and what the detector makes of them. */
module Scenarios {
  import opened Text
  import opened Tokenizer
  import opened Extraction
  import opened Selection
  import opened Expenses

  // ---------------------------------------------------------------------------
  // Parsing

  /** A digit string with at most one point parses to its integer digits plus
      its fraction digits. */
  lemma ParseSplit(s: string)
    requires DecimalText(s) && '.' !in FracPart(s) && |WholePart(s)| + |FracPart(s)| > 0
    ensures forall k :: 0 <= k < |WholePart(s)| ==> IsDigit(WholePart(s)[k])
    ensures forall k :: 0 <= k < |FracPart(s)| ==> IsDigit(FracPart(s)[k])
    ensures ParseDecimal(s) == Some(DigitsValue(WholePart(s)) as real + FractionValue(FracPart(s)))
  {
    SplitAtDot(s);
    var frac := FracPart(s);
    forall k | 0 <= k < |frac| ensures IsDigit(frac[k]) {
      assert frac[k] in frac;
    }
  }

  lemma SplitOf4567()
    ensures DecimalText("45.67") && FirstDot("45.67") == 2
    ensures WholePart("45.67") == "45" && FracPart("45.67") == "67"
  {
  }

  lemma ValuesOf4567()
    ensures DigitsValue("45") == 45 && FractionValue("67") == 0.67
  {
    assert DigitsValue("4") == 4;
    assert FractionValue("7") == 0.7;
  }

  /** `float("45.67")` is 45.67. */
  lemma ParseExample()
    ensures ParseDecimal("45.67") == Some(45.67)
  {
    SplitOf4567();
    ValuesOf4567();
    ParseSplit("45.67");
  }

  /** `float("1.2.3")` raises: two points. */
  lemma ParseRejectsTwoPoints()
    ensures ParseDecimal("1.2.3") == None
  {
    assert DotCount("1.2.3") == 2;
  }

  // ---------------------------------------------------------------------------
  // Tokenizing

  const PaidLine: string := "Total: $1,234.50"

  lemma RunsOfPaidLine()
    ensures RunEnd(PaidLine, 8) == 13 && DigitsEnd(PaidLine, 14) == 16
  {
    var s := PaidLine;
    assert s[13] == '.' && |s| == 16;
    assert RunEnd(s, 13) == 13;
    assert RunEnd(s, 11) == 13;
    assert RunEnd(s, 9) == 13;
    assert DigitsEnd(s, 16) == 16;
  }

  lemma MatchOfPaidLine()
    ensures MatchEnd(PaidLine, 8) == 16
  {
    RunsOfPaidLine();
  }

  /** The scan passes over characters that cannot start a match. */
  lemma {:induction false} ScanSkips(s: string, i: nat, j: nat)
    requires i <= j <= |s|
    requires forall k :: i <= k < j ==> !IsRunChar(s[k])
    ensures Scan(s, i) == Scan(s, j)
    decreases j - i
  {
    if i < j {
      ScanSkips(s, i + 1, j);
    }
  }

  /** A text whose scan reports one match has that match as its only token. */
  lemma OneToken(s: string, start: nat, end: nat)
    requires Scan(s, 0) == [Span(start, end)]
    ensures start < end <= |s| && Tokens(s) == [s[start..end]]
  {
    assert Scan(s, 0)[0] == Span(start, end);
  }

  lemma PaidLineLabel()
    ensures forall k :: 0 <= k < 8 ==> !IsRunChar(PaidLine[k])
    ensures PaidLine[8..16] == "1,234.50"
  {
  }

  lemma ScanOfPaidLine()
    ensures Scan(PaidLine, 8) == [Span(8, 16)]
  {
    MatchOfPaidLine();
    assert Scan(PaidLine, 16) == [];
  }

  /** `re.findall` on "Total: $1,234.50" yields the single token "1,234.50". */
  lemma TokenExample()
    ensures Tokens(PaidLine) == ["1,234.50"]
  {
    ScanOfPaidLine();
    PaidLineLabel();
    ScanSkips(PaidLine, 0, 8);
    OneToken(PaidLine, 8, 16);
  }

  // ---------------------------------------------------------------------------
  // Selection

  const RentList: seq<Candidate> :=
    [Candidate(950.0, "950.00", "rent"), Candidate(2400.0, "2400.00", "rent due"),
     Candidate(1200.0, "1200.00", "rent total")]

  lemma RentWords()
    ensures IsRent("monthly rent", "Housing") && !IsRent("monthly rent", "Food")
  {
    assert OccursAt("monthly rent", "rent", 8);
    assert Contains("monthly rent", RentKeywords[0]);
  }

  lemma SortedRentList()
    ensures SortDescending(RentList) == [RentList[1], RentList[2], RentList[0]]
  {
    var cs := RentList;
    assert cs[1..][1..] == [cs[2]] && cs[1..][1..][1..] == [];
    assert SortDescending([cs[2]]) == [cs[2]];
    assert SortDescending(cs[1..]) == InsertDescending(cs[1], [cs[2]]) == [cs[1], cs[2]];
    assert InsertDescending(cs[0], [cs[2]]) == [cs[2], cs[0]];
    assert InsertDescending(cs[0], [cs[1], cs[2]]) == [cs[1], cs[2], cs[0]];
  }

  lemma PicksOfRentList()
    ensures RentPick([RentList[1], RentList[2], RentList[0]]) == 1
    ensures FirstMaxIndex(RentList) == 1
  {
    var sorted := [RentList[1], RentList[2], RentList[0]];
    assert FirstInBand(sorted, 1) == 1;
    assert FirstMaxIndex(RentList[..1]) == 0;
    assert RentList[..2][..1] == RentList[..1];
    assert FirstMaxIndex(RentList[..2]) == 1;
  }

  /** A rent receipt filed under "Housing" with amounts 950, 2400 and 1200:
      the override picks 1200, the largest amount inside the rent band; filed
      elsewhere the same list yields the overall largest, 2400. */
  lemma RentExample()
    ensures Select(RentList, "monthly rent", "Housing") == RentTotal(1200.0)
    ensures Select(RentList, "monthly rent", "Food") == Total(2400.0, "rent due")
  {
    RentWords();
    SortedRentList();
    PicksOfRentList();
  }

  // ---------------------------------------------------------------------------
  // Whole receipts

  const TotalLine: string := "TOTAL 9.99"

  lemma TotalLineText()
    ensures forall k :: 0 <= k < 6 ==> !IsRunChar(TotalLine[k])
    ensures TotalLine[6..10] == "9.99" && |TotalLine| == 10
    ensures Lower(TotalLine) == "total 9.99"
  {
  }

  lemma ScanOfTotalLine()
    ensures Scan(TotalLine, 6) == [Span(6, 10)]
  {
    var s := TotalLine;
    assert s[7] == '.' && |s| == 10;
    assert RunEnd(s, 7) == 7 && RunEnd(s, 6) == 7;
    assert DigitsEnd(s, 10) == 10 && DigitsEnd(s, 8) == 10;
    assert MatchEnd(s, 6) == 10;
    assert Scan(s, 10) == [];
  }

  /** `re.findall` on "TOTAL 9.99" yields "9.99". */
  lemma TokensOfTotalLine()
    ensures Tokens(TotalLine) == ["9.99"]
  {
    TotalLineText();
    ScanOfTotalLine();
    ScanSkips(TotalLine, 0, 6);
    OneToken(TotalLine, 6, 10);
  }

  lemma SplitOf999()
    ensures RemoveCommas("9.99") == "9.99"
    ensures DecimalText("9.99") && FirstDot("9.99") == 1
    ensures WholePart("9.99") == "9" && FracPart("9.99") == "99"
  {
  }

  lemma ValuesOf999()
    ensures DigitsValue("9") == 9 && FractionValue("99") == 0.99
  {
    assert FractionValue("9") == 0.9;
  }

  lemma ParseOf999()
    ensures RemoveCommas("9.99") == "9.99"
    ensures ParseDecimal("9.99") == Some(9.99)
  {
    SplitOf999();
    ValuesOf999();
    ParseSplit("9.99");
  }

  /** The four-character token "9.99" passes every filter of the anchored pass. */
  lemma NineNinetyNineIsCandidate(context: string)
    ensures TokenCandidate("9.99", context, false) == Some(Candidate(9.99, "9.99", context))
  {
    ParseOf999();
  }

  lemma TotalLineNamesTotal()
    ensures ContainsAny("total 9.99", TotalKeywords)
  {
    assert OccursAt("total 9.99", "total", 0);
    assert Contains("total 9.99", TotalKeywords[0]);
  }

  lemma AnchoredOfTotalLine()
    ensures Anchored([TotalLine]) == [Candidate(9.99, "9.99", "total 9.99")]
  {
    TotalLineText();
    TotalLineNamesTotal();
    TokensOfTotalLine();
    NineNinetyNineIsCandidate("total 9.99");
    assert Harvest(["9.99"], "total 9.99", false) == [Candidate(9.99, "9.99", "total 9.99")];
    assert AnchoredFrom(TotalLine) == [Candidate(9.99, "9.99", "total 9.99")];
    assert [TotalLine][..0] == [];
  }

  /** A fragment naming the total: the anchored pass finds 9.99 (the point
      counts towards the four characters) with the lower-cased fragment as
      its context, and outside "Housing" that is the detected total. */
  lemma AnchoredExample()
    ensures Detect([TotalLine], "Food") == Total(9.99, "total 9.99")
  {
    AnchoredOfTotalLine();
  }

  const PriceLine: string := "12.50"

  /** "12.50" names no total keyword. */
  lemma PriceLineNamesNoTotal()
    ensures Lower(PriceLine) == PriceLine
    ensures !ContainsAny(PriceLine, TotalKeywords)
  {
    var s := PriceLine;
    forall k | 0 <= k < |TotalKeywords| ensures !Contains(s, TotalKeywords[k]) {
      if k == 0 {
        forall i | 0 <= i <= |s| - 5 ensures !OccursAt(s, "total", i) {
          assert i == 0 && s[0..5][0] == '1';
        }
      }
    }
  }

  /** `re.findall` on "12.50" yields "12.50". */
  lemma TokensOfPriceLine()
    ensures Tokens(PriceLine) == [PriceLine]
  {
    var s := PriceLine;
    assert s[2] == '.' && |s| == 5 && s[0..5] == s;
    assert RunEnd(s, 2) == 2 && RunEnd(s, 0) == 2;
    assert DigitsEnd(s, 5) == 5 && DigitsEnd(s, 3) == 5;
    assert MatchEnd(s, 0) == 5;
    assert Scan(s, 5) == [];
    assert Scan(s, 0) == [Span(0, 5)];
    OneToken(s, 0, 5);
  }

  lemma SplitOfPriceLine()
    ensures RemoveCommas(PriceLine) == PriceLine
    ensures DecimalText(PriceLine) && FirstDot(PriceLine) == 2
    ensures WholePart(PriceLine) == "12" && FracPart(PriceLine) == "50"
  {
  }

  lemma ValuesOfPriceLine()
    ensures DigitsValue("12") == 12 && FractionValue("50") == 0.5
  {
    assert DigitsValue("1") == 1;
    assert FractionValue("0") == 0.0;
  }

  lemma ParseOfPriceLine()
    ensures RemoveCommas(PriceLine) == PriceLine
    ensures ParseDecimal(PriceLine) == Some(12.5)
  {
    SplitOfPriceLine();
    ValuesOfPriceLine();
    ParseSplit(PriceLine);
  }

  /** The token "12.50" passes every filter of the fallback pass. */
  lemma PriceIsFallbackCandidate()
    ensures TokenCandidate(PriceLine, FallbackContext, true) == Some(Candidate(12.5, PriceLine, FallbackContext))
  {
    ParseOfPriceLine();
  }

  lemma AnchoredOfPriceLine()
    ensures Anchored([PriceLine]) == []
  {
    PriceLineNamesNoTotal();
    assert [PriceLine][..0] == [];
  }

  lemma FallbackOfPriceLine()
    ensures OcrText([PriceLine]) == PriceLine
    ensures Fallback(PriceLine) == [Candidate(12.5, PriceLine, FallbackContext)]
  {
    PriceLineNamesNoTotal();
    TokensOfPriceLine();
    PriceIsFallbackCandidate();
    assert Harvest([PriceLine], FallbackContext, true) == [Candidate(12.5, PriceLine, FallbackContext)];
  }

  /** No fragment names a total, so the fallback pass reads the joined text
      and keeps the decimal amount 12.50 with the fixed context. */
  lemma FallbackExample()
    ensures Detect([PriceLine], "Food") == Total(12.5, "total detected")
  {
    AnchoredOfPriceLine();
    FallbackOfPriceLine();
  }

  // ---------------------------------------------------------------------------
  // The expense list

  /** Ticking the middle of three records removes just that one. */
  lemma DropExample(a: Expense, b: Expense, c: Expense)
    ensures Drop([a, b, c], {1}) == [a, c]
  {
    assert Kept(1, {1}) == [0];
    assert Kept(2, {1}) == [0];
    assert Kept(3, {1}) == [0, 2];
  }
}
