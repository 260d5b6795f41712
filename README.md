# Receipt-total detection of the AI finance tracker, in Dafny

The expense tracker reads a photographed receipt with an OCR engine. It then
guesses the receipt's total from the recognised text fragments and pre-fills
the amount field with that guess. This project models the guessing heuristic
and the session's expense list, and proves what they promise.

- `text.dfy` (`Text`): ASCII lower-casing, digit tests, Python's substring
  test `sub in s`, and `" ".join`.
- `tokenizer.dfy` (`Tokenizer`): `re.findall(r'[\d,]+\.?\d*', s)` as a scan
  that takes the longest match at each start position. Also comma stripping
  and `float()` on digit-and-point strings, with exact values.
- `extraction.dfy` (`Extraction`): the two candidate passes. The anchored
  pass reads only the fragments that name a total keyword. The fallback pass
  reads the whole joined text and runs only when the anchored pass found
  nothing. Each pass is a loop that appends to a list, proved equal to a
  function that specifies it.
- `selection.dfy` (`Selection`): the cascade. The rent override comes first,
  then the first largest candidate, then "no total found". The detector as a
  whole is `Detect` (specification) and `DetectTotal` (the method).
- `expenses.dfy` (`Expenses`): the expense list as a class with a `seq` field.
  `Save` appends only a positive amount. `DeleteSelected` removes the records
  ticked in the "recent" view.
- `scenarios.dfy` (`Scenarios`): worked receipts with their exact results.

Amounts are exact `real`s built from the digit string: the integer digits plus
the fraction digits read one by one. The length filter of both passes counts
the decimal point, as the code does: `"9.99"` has four characters and is kept,
while `"5.0"` and `"123"` are dropped.

## Model

| member | source | states |
|---|---|---|
| Text.JoinSpaceContainsPart | app.py:85 | every fragment occurs as a substring of the space-joined text |
| Text.JoinSpaceHasDigit | app.py:85 | a digit of the joined text comes from some fragment (the separator is a space) |
| Text.LowerHasDigit | app.py:85 | lower-casing neither creates nor removes digits |
| Text.LowerChar | app.py:85 | lower-casing keeps digits and every non-capital character, and maps each capital to the small letter at the same alphabet position |
| Text.Lower | app.py:85 | `str.lower()` keeps the length and the digit positions and leaves no capital letter |
| Text.JoinSpace | app.py:85 | `" ".join` is as long as the parts together plus one space between each two |
| Text.ContainsAny | app.py:94 | defines `any(keyword in s for keyword in keywords)`: some keyword occurs as a contiguous substring |
| Extraction.OcrText | app.py:85 | defines the OCR text: the fragment texts joined with spaces, then lower-cased |
| Tokenizer.RunEnd | app.py:95 | ends the greedy `[\d,]+` run: everything before is a digit or comma, the next character is not |
| Tokenizer.DigitsEnd | app.py:95 | ends the greedy `\d*` run: everything before is a digit, the next character is not |
| Tokenizer.MatchEnd | app.py:95 | the match taken at a start position fits the pattern, and no longer stretch from there does |
| Tokenizer.Tokens | app.py:95 | defines `re.findall`: the text of each span the scan reports, in order (properties in the `Scan…` and `Tokens…` lemmas) |
| Tokenizer.Scan | app.py:95 | reported matches lie inside the text, are non-empty and do not overlap, in text order |
| Tokenizer.ScanMatches | app.py:95 | every reported match fits `[\d,]+\.?\d*` |
| Tokenizer.TokensMatch | app.py:95 | every token of `findall` fits the pattern |
| Tokenizer.ScanTakesLongest | app.py:95 | each reported match is the longest match starting at its position |
| Tokenizer.ScanCovers | app.py:95 | every digit or comma of the text lies inside some reported match |
| Tokenizer.TokenDigitsComeFromText | app.py:95 | a token with a digit comes from a text with a digit |
| Tokenizer.RemoveCommas | app.py:97 | the result has no comma, keeps every other character, is no longer than the token, and is the token itself when it has no comma |
| Tokenizer.RemoveCommasAppend | app.py:97 | stripping commas from a concatenation strips each piece |
| Tokenizer.RemoveCommasKeepsDots | app.py:97 | stripping commas keeps the number of points |
| Tokenizer.DotCountAppend | app.py:97 | points of a concatenation add up |
| Tokenizer.DotCountZero | app.py:97 | no point counted exactly when there is no point |
| Tokenizer.OnlyDigitsAfterDot | app.py:95 | a string with only digits after a point has at most one point |
| Tokenizer.CleanedMatch | app.py:95-97 | a cleaned token holds only digits and at most one point |
| Tokenizer.FractionValue | app.py:100 | the fraction digits are worth at least 0 and less than 1 |
| Tokenizer.FirstDot | app.py:100 | the split position is the first point, or the end when there is none |
| Tokenizer.PartsRebuild | app.py:100 | the integer part, the first point and the fraction part put back together give the text; without a point the integer part is the whole text |
| Tokenizer.SplitAtDot | app.py:100 | the integer part is all digits; the fraction part has no point iff the text has at most one; then a digit exists iff the parts are not both empty |
| Tokenizer.DotCountSplit | app.py:100 | the points are the first one plus those of the fraction part |
| Tokenizer.NoDotHasDigit | app.py:100 | with one point at most, the text has a digit iff the two parts are not both empty |
| Tokenizer.ParseDecimal | app.py:99-104 | `float()` succeeds exactly on digit strings with at least one digit and at most one point, and yields a value of at least 0 |
| Tokenizer.DigitsValueAppend | app.py:100 | the value of digits `a` followed by digits `b` is `a`'s value times 10 to the length of `b`, plus `b`'s value |
| Tokenizer.FractionScaled | app.py:100 | the fraction `0.d1...dn` times 10^n is the integer `d1...dn` |
| Tokenizer.ParseDecimalValue | app.py:100 | the parsed value times 10 to the number of fraction digits is the integer spelled by the integer part followed by the fraction part, which is the text without its point (`PartsRebuild`); `"12.50"` gives 1250 / 100 |
| Scenarios.ParseExample | app.py:100 | `"45.67"` parses to exactly 45.67 |
| Scenarios.ParseRejectsTwoPoints | app.py:99-104 | `"1.2.3"` does not parse |
| Scenarios.ScanSkips | app.py:95 | the scan passes over characters that cannot start a match |
| Scenarios.OneToken | app.py:95 | a scan that reports one match yields that match as the only token |
| Scenarios.TokenExample | app.py:95 | `findall` on `"Total: $1,234.50"` yields exactly `"1,234.50"` |
| Extraction.FilterToken | app.py:97-102 | the loop body (strip, length test, `float()`, range and point tests) returns exactly `TokenCandidate`, whose contract states the filters |
| Extraction.TokenCandidate | app.py:97-102 | a token is kept if and only if its comma-stripped text has at least four characters, parses, has a value strictly between 5 and 5000 and, when the pass demands one, a point; the candidate is then the parsed value, the stripped text and the given context |
| Extraction.Harvest | app.py:96-104 | never more candidates than tokens |
| Extraction.HarvestFilters | app.py:96-104 | every harvested candidate passed the length and range filters, has a digit, carries the pass's context, and holds a point when the pass demands one |
| Extraction.HarvestStep | app.py:96-104 | one more token appends exactly what that token yields |
| Extraction.HarvestSound | app.py:96-104 | every harvested candidate is what some token yields |
| Extraction.HarvestComplete | app.py:96-104 | every token that passes the filters is harvested |
| Extraction.AnchoredFrom | app.py:93-104 | defines what one fragment contributes: its tokens' candidates, with its lower-cased text as context, if that text holds a total keyword, else nothing |
| Extraction.Anchored | app.py:92-104 | defines the anchored list: the fragments' contributions, in fragment order |
| Extraction.Fallback | app.py:108-117 | defines the fallback list: the candidates of the OCR text's tokens that hold a point, with context "total detected" |
| Extraction.Candidates | app.py:107-119 | defines the list selection receives: the anchored list, or the fallback list when that is empty |
| Extraction.HarvestTokens | app.py:96-104 | the token loop appends exactly the harvested candidates, in token order |
| Extraction.AnchoredPlausible | app.py:92-104 | every anchored candidate passed the length and range filters |
| Extraction.AnchoredStep | app.py:92-104 | one more fragment appends exactly what the anchored pass takes from it |
| Extraction.ExtractAnchored | app.py:89-104 | the fragment loop builds exactly the anchored candidate list |
| Extraction.ParseNeverFails | app.py:98-104 | a cleaned token of four or more characters always parses, so the `except` branch is never taken |
| Extraction.AllDotsCount | app.py:98-100 | a string of points only has as many points as characters |
| Extraction.AnchoredProvenance | app.py:93-102 | every anchored candidate is exactly what some token of some fragment yields, where that fragment's lower-cased text holds a total keyword and is the candidate's context |
| Extraction.AnchoredIncludes | app.py:92-102 | what one fragment yields is part of the anchored list |
| Extraction.AnchoredComplete | app.py:93-102 | every filter-passing token of a keyword fragment becomes an anchored candidate |
| Extraction.AnchoredNeedsDigits | app.py:92-104 | fragments without digits yield no anchored candidate |
| Extraction.HarvestNeedsDigits | app.py:95-104 | a text without digits yields no candidate |
| Extraction.CleanedDigitsComeFromToken | app.py:97 | a digit of a comma-stripped token was a digit of the token |
| Extraction.ExtractFallback | app.py:108-119 | the fallback loop builds exactly the fallback candidate list |
| Extraction.ExtractCandidates | app.py:89-119 | the list handed to selection is the anchored list, or the fallback list when that is empty |
| Extraction.FallbackOnlyWithoutAnchored | app.py:107-119 | the fallback pass decides nothing when the anchored pass found a candidate; otherwise each candidate has a point and the context "total detected" |
| Extraction.CandidatesPlausible | app.py:97-102 | every candidate of either pass has a value strictly between 5 and 5000 and a cleaned text of at least four characters |
| Extraction.NoDigitsNoCandidates | app.py:92-119 | OCR output without a digit yields no candidate |
| Selection.IsRent | app.py:123 | defines `is_rent`: a rent word occurs in the OCR text and the category is exactly "Housing" |
| Selection.Select | app.py:125-147 | defines the cascade on a candidate list (its rules are stated by `CascadeRules` and the lemmas after it) |
| Selection.Detect | app.py:85-147 | defines the whole detector: the cascade on the candidates of the fragments, with their OCR text |
| Selection.DetectedAmount | app.py:136-146 | defines the stored amount: the detection's amount, or 0 when no total was found |
| Selection.InsertDescending | app.py:127 | insertion adds exactly the one candidate, which lands ahead of the old head or behind it |
| Selection.InsertKeepsDescending | app.py:127 | inserting into a descending list keeps it descending |
| Selection.SortDescending | app.py:127 | the sorted list is descending and a permutation of the candidates |
| Selection.SortedSameMembers | app.py:127 | sorting keeps exactly the same candidates |
| Selection.FirstInBand | app.py:130-135 | the index found is the first at or after the start whose value lies in [800, 1800] |
| Selection.RentPick | app.py:128-135 | the pick is the first in-band candidate, or the first (largest) when none is in the band |
| Selection.ScanRentBand | app.py:128-135 | the loop that breaks at the first in-band candidate returns the rent pick |
| Selection.RentPickIsLargest | app.py:127-135 | in a descending list the pick is the largest in-band value, or the largest value when none is in the band |
| Selection.FirstMaxIndex | app.py:140 | the index holds the largest value and every earlier index a strictly smaller one |
| Selection.CascadeRules | app.py:123-147 | no total iff no candidate; rent override iff rent word, category "Housing" and a candidate; general rule otherwise |
| Selection.RentPicksLargestInBand | app.py:122-137 | the rent amount is a candidate value; the largest in [800, 1800] when one is there, else the largest overall |
| Selection.GeneralPicksFirstMaximum | app.py:138-144 | the general rule yields the maximum value, ties to the earliest candidate, with its context as the reason |
| Selection.DetectedAmountIsCandidate | app.py:125-147 | the detected amount is 0 iff nothing was found, and otherwise one of the candidate values, strictly between 5 and 5000 |
| Selection.NoDigitsNoTotal | app.py:85-147 | OCR output without a digit never yields a total |
| Selection.DetectTotal | app.py:85-147 | the detection block computes exactly `Detect` on the fragment texts and category |
| Scenarios.SortedRentList | app.py:127 | amounts 950, 2400, 1200 sort to 2400, 1200, 950 |
| Scenarios.RentExample | app.py:122-144 | amounts 950, 2400, 1200 give 1200 under "Housing" and 2400 under another category |
| Scenarios.TokensOfTotalLine | app.py:95 | `findall` on `"TOTAL 9.99"` yields `"9.99"` |
| Scenarios.NineNinetyNineIsCandidate | app.py:97-102 | the four-character token `"9.99"` passes the anchored filters |
| Scenarios.AnchoredOfTotalLine | app.py:92-104 | the anchored pass over "TOTAL 9.99" yields 9.99 with context "total 9.99" |
| Scenarios.AnchoredExample | app.py:88-144 | the fragment "TOTAL 9.99" gives the total 9.99 with context "total 9.99" |
| Scenarios.PriceLineNamesNoTotal | app.py:94 | `"12.50"` names no total keyword |
| Scenarios.TokensOfPriceLine | app.py:108 | `findall` on `"12.50"` yields `"12.50"` |
| Scenarios.PriceIsFallbackCandidate | app.py:111-116 | `"12.50"` passes the fallback filters |
| Scenarios.FallbackOfPriceLine | app.py:107-119 | the fallback pass over "12.50" yields 12.5 with context "total detected" |
| Scenarios.FallbackExample | app.py:107-144 | the lone fragment "12.50" gives the total 12.5 with context "total detected" |
| Expenses.IsRecentView | app.py:219-220 | defines the recent view: the positions of the last ten records (or all of them), each once, newest date first |
| Expenses.RowsToDelete | app.py:243-244 | a position is picked iff some ticked view row shows it; never more positions than rows |
| Expenses.RowsToDeleteDistinct | app.py:243-244 | a view of distinct positions yields distinct picked positions |
| Expenses.Kept | app.py:246 | never more kept positions than records |
| Expenses.KeptMembers | app.py:246 | the kept positions are exactly those below the length that are not removed, in increasing order |
| Expenses.Drop | app.py:246 | the remaining records are the kept positions' records in their order, and there are as many fewer as positions removed |
| Expenses.KeptCount | app.py:246 | removing a set of valid positions leaves the length minus its size |
| Expenses.KeptIgnoresAbove | app.py:246 | only the removed positions inside the list matter |
| Expenses.DistinctCardinality | app.py:246-247 | distinct positions form a set of the same size, so the count reported is the count removed |
| Expenses.NothingRemoved | app.py:246 | dropping nothing keeps the list |
| Expenses.KeptIsAllPositions | app.py:246 | with nothing removed every position is kept, in order |
| Expenses.ExpenseBook.constructor | app.py:16-17 | the session starts with an empty expense list |
| Expenses.ExpenseBook.Save | app.py:168-182 | a record is appended, leaving the others unchanged and in order, iff the amount is positive |
| Expenses.ExpenseBook.DeleteSelected | app.py:239-250 | exactly the ticked rows' positions are removed, the rest keep their order, the count removed is the number ticked, and nothing changes when nothing is ticked |
| Scenarios.DropExample | app.py:246 | removing the middle of three records leaves the first and the last |

## Left out

- The user interface: widgets, columns, messages, reruns, caching, and the
  session-state plumbing beyond the expense list itself.
- The OCR engine and the image pipeline (opening, converting and scaling the
  picture). The model takes the recognised fragment texts as its input. Their
  bounding boxes and confidence scores are not used by the heuristic.
- CSV export, the dashboard metrics, the averages and the pie chart: they are
  library calls over the list, and the metrics read the wall clock.
- The category taxonomy: only the label "Housing" matters to the heuristic.
- Text.Lower: ASCII only. Python's `str.lower()` also maps non-ASCII
  capitals, and `\d` also matches non-ASCII digits; both are left out.
- Tokenizer.ParseDecimal: exact decimal values, not binary floating point. A
  value whose float rounding lands exactly on 5 or 5000 is not modelled. The
  same holds at the ends of the rent band: `"1800.00000000000000001"` rounds
  to 1800.0 and is in the band for the app, but not for the model. It
  handles only strings of digits and points, which is all the cleaned tokens
  can hold.
- Selection.FirstMaxIndex: ties are between exact values. Two different
  decimals that round to the same float tie under `max` in the app, which
  then keeps the earlier one. The model keeps the larger exact value, so the
  app can report a different candidate's context.
- The `.strip()` after comma removal changes nothing, since a token holds
  no whitespace, so it is left out.
- The `len(candidate) >= 2` test in the rent loop always holds for
  three-field candidates, so it is left out.
- The messages show the cleaned token text (`$45.67`); the model keeps the
  value. The cleaned text stays available as `Candidate.raw`.
- Selection.SortDescending: the stability of Python's sort (equal values keep
  their order) is built into the definition but not stated as a contract. No
  property of the rent pick depends on it, because tied candidates share
  their value.
- Expenses.ExpenseBook.DeleteSelected: the recent view is a parameter. It
  lists the positions of the last ten records, newest date first. The date
  sort itself, with its order among equal dates, is not computed.
- Expenses.ExpenseBook.Save: the time stamp comes from the caller instead
  of the clock.
