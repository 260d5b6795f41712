/** The selection cascade of the total detector and the detector as a whole.
    Rules, in order: the rent override (rent words in the OCR text, category
    "Housing", at least one candidate) picks the first candidate, in
    descending value order, whose value lies in the monthly-rent band
    [800, 1800], or else the largest; otherwise the first candidate of largest
    value wins and its context is the reason; with no candidate the detected
    amount is 0. */
module Selection {
  import opened Text
  import opened Tokenizer
  import opened Extraction

  const RentKeywords: seq<string> := ["rent", "rental", "lease", "housing", "apartment"]

  /** The main category that enables the rent override (exact match). */
  const RentCategory: string := "Housing"

  /** The outcome of detection, one variant per rule of the cascade. */
  datatype Detection =
    | RentTotal(amount: real)                 // "SMART RENT TOTAL"
    | Total(amount: real, context: string)    // "DETECTED TOTAL ... (near context)"
    | NoTotal                                 // "No clear total found"

  /** The value stored as the detected amount (it pre-fills the amount field). */
  function DetectedAmount(d: Detection): real
  {
    if d.NoTotal? then 0.0 else d.amount
  }

  /** `is_rent`: a rent word occurs in the joined text and the category is "Housing". */
  predicate IsRent(ocrText: string, category: string)
  {
    ContainsAny(ocrText, RentKeywords) && category == RentCategory
  }

  /** The plausible monthly-rent band, both ends included. */
  predicate InRentBand(v: real)
  {
    800.0 <= v <= 1800.0
  }

  predicate Descending(s: seq<Candidate>)
  {
    forall i, j :: 0 <= i < j < |s| ==> s[i].value >= s[j].value
  }

  /** Inserts `c` into a list ahead of the first candidate whose value is at
      most its own, which keeps the sort stable for candidates met earlier. */
  function InsertDescending(c: Candidate, s: seq<Candidate>): (r: seq<Candidate>)
    ensures |r| == |s| + 1
    ensures multiset(r) == multiset(s) + multiset{c}
    ensures r[0] == c || (s != [] && r[0] == s[0])
  {
    if s == [] then [c]
    else if s[0].value <= c.value then [c] + s
    else
      assert s == [s[0]] + s[1..];
      [s[0]] + InsertDescending(c, s[1..])
  }

  /** Inserting into a descending list keeps it descending. */
  lemma {:induction false} InsertKeepsDescending(c: Candidate, s: seq<Candidate>)
    requires Descending(s)
    ensures Descending(InsertDescending(c, s))
  {
    if s != [] && s[0].value > c.value {
      assert Descending(s[1..]);
      InsertKeepsDescending(c, s[1..]);
    }
  }

  /** `sorted(candidates, key=value, reverse=True)`: a stable sort by value,
      largest first. */
  function SortDescending(cs: seq<Candidate>): (r: seq<Candidate>)
    ensures Descending(r)
    ensures multiset(r) == multiset(cs)
  {
    if cs == [] then []
    else
      assert cs == [cs[0]] + cs[1..];
      InsertKeepsDescending(cs[0], SortDescending(cs[1..]));
      InsertDescending(cs[0], SortDescending(cs[1..]))
  }

  /** Index of the first candidate at or after `i` whose value is in the rent
      band, or `|s|` when there is none. */
  function FirstInBand(s: seq<Candidate>, i: nat): (k: nat)
    requires i <= |s|
    ensures i <= k <= |s|
    ensures k < |s| ==> InRentBand(s[k].value)
    ensures forall j :: i <= j < k ==> !InRentBand(s[j].value)
    decreases |s| - i
  {
    if i == |s| then |s|
    else if InRentBand(s[i].value) then i
    else FirstInBand(s, i + 1)
  }

  /** The rent pick in a descending list: the first candidate in the band, or
      the first (largest) candidate when none is. */
  function RentPick(s: seq<Candidate>): (k: nat)
    requires s != []
    ensures k < |s|
    ensures InRentBand(s[k].value) ==> forall j :: 0 <= j < k ==> !InRentBand(s[j].value)
    ensures !InRentBand(s[k].value) ==> k == 0 && forall j :: 0 <= j < |s| ==> !InRentBand(s[j].value)
  {
    var f := FirstInBand(s, 0);
    if f < |s| then f else 0
  }

  /** `max(candidates, key=value)`: the first candidate of largest value. */
  function FirstMaxIndex(cs: seq<Candidate>): (k: nat)
    requires cs != []
    ensures k < |cs|
    ensures forall j :: 0 <= j < |cs| ==> cs[j].value <= cs[k].value
    ensures forall j :: 0 <= j < k ==> cs[j].value < cs[k].value
  {
    if |cs| == 1 then 0
    else
      var k := FirstMaxIndex(cs[..|cs| - 1]);
      if cs[|cs| - 1].value > cs[k].value then |cs| - 1 else k
  }

  /** The cascade on a candidate list. */
  function Select(candidates: seq<Candidate>, ocrText: string, category: string): Detection
  {
    if IsRent(ocrText, category) && candidates != [] then
      var sorted := SortDescending(candidates);
      RentTotal(sorted[RentPick(sorted)].value)
    else if candidates != [] then
      var best := candidates[FirstMaxIndex(candidates)];
      Total(best.value, best.context)
    else
      NoTotal
  }

  /** The whole detector on the texts of the OCR fragments. */
  function Detect(fragments: seq<string>, category: string): Detection
  {
    Select(Candidates(fragments), OcrText(fragments), category)
  }

  /** The rent refinement as the loop it is: start from the largest candidate
      and stop at the first one in the band. */
  method ScanRentBand(sorted: seq<Candidate>) returns (pick: nat)
    requires sorted != []
    ensures pick == RentPick(sorted)
  {
    pick := 0;
    var i := 0;
    while i < |sorted|
      invariant 0 <= i <= |sorted|
      invariant pick == 0
      invariant forall j :: 0 <= j < i ==> !InRentBand(sorted[j].value)
    {
      if InRentBand(sorted[i].value) {
        pick := i;
        break;
      }
      i := i + 1;
    }
  }

  /** The detection block run on the OCR output of one receipt. */
  method DetectTotal(fragments: seq<string>, category: string) returns (d: Detection)
    ensures d == Detect(fragments, category)
  {
    var ocrText := OcrText(fragments);
    var candidates := ExtractCandidates(fragments);
    var isRent := ContainsAny(ocrText, RentKeywords) && category == RentCategory;
    if isRent && candidates != [] {
      var sorted := SortDescending(candidates);
      var pick := ScanRentBand(sorted);
      d := RentTotal(sorted[pick].value);
    } else if candidates != [] {
      var best := candidates[FirstMaxIndex(candidates)];
      d := Total(best.value, best.context);
    } else {
      d := NoTotal;
    }
  }

  // ---------------------------------------------------------------------------
  // Properties of the cascade

  /** Which rule fires: nothing is found exactly when there is no candidate
      (rent words and "Housing" notwithstanding), and the rent override fires
      exactly when its three conditions hold. */
  lemma CascadeRules(candidates: seq<Candidate>, ocrText: string, category: string)
    ensures Select(candidates, ocrText, category).NoTotal? <==> candidates == []
    ensures Select(candidates, ocrText, category).RentTotal? <==>
      ContainsAny(ocrText, RentKeywords) && category == "Housing" && candidates != []
    ensures Select(candidates, ocrText, category).Total? <==> !IsRent(ocrText, category) && candidates != []
  {
  }

  /** Sorting keeps exactly the same candidates. */
  lemma SortedSameMembers(cs: seq<Candidate>)
    ensures forall c :: c in SortDescending(cs) <==> c in cs
  {
    var sorted := SortDescending(cs);
    forall c ensures c in sorted <==> c in cs {
      assert c in sorted <==> c in multiset(sorted);
      assert c in cs <==> c in multiset(cs);
    }
  }

  /** In a descending list the rent pick is the largest value in the band when
      the band holds one, and the largest value when it does not. */
  lemma RentPickIsLargest(s: seq<Candidate>)
    requires s != [] && Descending(s)
    ensures (exists j :: 0 <= j < |s| && InRentBand(s[j].value)) ==>
      InRentBand(s[RentPick(s)].value) &&
      forall j :: 0 <= j < |s| && InRentBand(s[j].value) ==> s[j].value <= s[RentPick(s)].value
    ensures (forall j :: 0 <= j < |s| ==> !InRentBand(s[j].value)) ==>
      forall j :: 0 <= j < |s| ==> s[j].value <= s[RentPick(s)].value
  {
    var k := RentPick(s);
    if exists j :: 0 <= j < |s| && InRentBand(s[j].value) {
      var j :| 0 <= j < |s| && InRentBand(s[j].value);
      assert InRentBand(s[k].value);
    }
  }

  /** The rent override picks the largest candidate value inside the band
      [800, 1800] when there is one, and the largest value overall otherwise. */
  lemma RentPicksLargestInBand(candidates: seq<Candidate>, ocrText: string, category: string)
    requires IsRent(ocrText, category) && candidates != []
    ensures Select(candidates, ocrText, category).RentTotal?
    ensures Select(candidates, ocrText, category).amount in (set c | c in candidates :: c.value)
    ensures (exists c :: c in candidates && InRentBand(c.value)) ==>
      var a := Select(candidates, ocrText, category).amount;
      InRentBand(a) && forall c :: c in candidates && InRentBand(c.value) ==> c.value <= a
    ensures (forall c :: c in candidates ==> !InRentBand(c.value)) ==>
      forall c :: c in candidates ==> c.value <= Select(candidates, ocrText, category).amount
  {
    var sorted := SortDescending(candidates);
    var k := RentPick(sorted);
    SortedSameMembers(candidates);
    RentPickIsLargest(sorted);
    assert sorted[k] in candidates;
    if exists c :: c in candidates && InRentBand(c.value) {
      var c :| c in candidates && InRentBand(c.value);
      assert c in sorted;
    }
    forall c | c in candidates
      ensures exists j :: 0 <= j < |sorted| && sorted[j] == c
    {
      assert c in sorted;
    }
  }

  /** The general rule: the amount is the largest candidate value, ties go to
      the earliest candidate, and that candidate's context is the reason. */
  lemma GeneralPicksFirstMaximum(candidates: seq<Candidate>, ocrText: string, category: string)
    requires !IsRent(ocrText, category) && candidates != []
    ensures var d := Select(candidates, ocrText, category);
      d.Total? &&
      exists k :: 0 <= k < |candidates| && candidates[k].value == d.amount && candidates[k].context == d.context
        && (forall j :: 0 <= j < |candidates| ==> candidates[j].value <= d.amount)
        && (forall j :: 0 <= j < k ==> candidates[j].value < d.amount)
  {
    var k := FirstMaxIndex(candidates);
    assert candidates[k].value == Select(candidates, ocrText, category).amount;
  }

  /** The detected amount is 0 exactly when nothing was found, and otherwise
      the value of one of the candidates, strictly between 5 and 5000. */
  lemma DetectedAmountIsCandidate(fragments: seq<string>, category: string)
    ensures var d := Detect(fragments, category);
      (DetectedAmount(d) == 0.0 <==> d.NoTotal?) &&
      (d.NoTotal? <==> Candidates(fragments) == []) &&
      (!d.NoTotal? ==> DetectedAmount(d) in (set c | c in Candidates(fragments) :: c.value)
                       && 5.0 < DetectedAmount(d) < 5000.0)
  {
    var candidates := Candidates(fragments);
    var ocrText := OcrText(fragments);
    CandidatesPlausible(fragments);
    if IsRent(ocrText, category) && candidates != [] {
      RentPicksLargestInBand(candidates, ocrText, category);
    } else if candidates != [] {
      var k := FirstMaxIndex(candidates);
      assert candidates[k] in candidates;
    }
  }

  /** OCR output without any digit never yields a total. */
  lemma NoDigitsNoTotal(fragments: seq<string>, category: string)
    requires forall i :: 0 <= i < |fragments| ==> !HasDigit(fragments[i])
    ensures Detect(fragments, category) == NoTotal
  {
    NoDigitsNoCandidates(fragments);
  }
}
