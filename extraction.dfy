/** The two candidate-extraction passes of the total detector: the anchored
    pass over fragments that mention a total keyword, and the fallback pass
    over the whole lower-cased OCR text that runs only when the first finds
    nothing. Each pass is a loop that appends to a list (`ExtractAnchored`,
    `ExtractFallback`), proved equal to the functions that specify it. */
module Extraction {
  import opened Text
  import opened Tokenizer

  /** One entry of the candidate list: the parsed value, the comma-stripped
      token it came from, and the context shown as the reason. */
  datatype Candidate = Candidate(value: real, raw: string, context: string)

  const TotalKeywords: seq<string> := ["total", "subtotal", "balance", "amount due", "grand total", "final total"]

  /** The context of every fallback candidate. */
  const FallbackContext: string := "total detected"

  /** The filters every candidate passed: a cleaned token of at least four
      characters (the point counts) and a value strictly between 5 and 5000. */
  predicate Plausible(c: Candidate)
  {
    |c.raw| >= 4 && 5.0 < c.value < 5000.0
  }

  /** The space-joined, lower-cased text of all fragments. */
  function OcrText(fragments: seq<string>): string
  {
    Lower(JoinSpace(fragments))
  }

  /** The candidate one token yields, if any: strip the commas, demand four
      characters, parse (a parse failure drops the token), demand the range
      and, in the fallback pass, a decimal point. */
  function TokenCandidate(token: string, context: string, needDot: bool): (r: Option<Candidate>)
    ensures r.Some? ==> Plausible(r.value) && r.value.context == context
    ensures r.Some? ==> r.value.raw == RemoveCommas(token) && HasDigit(r.value.raw)
    ensures r.Some? && needDot ==> '.' in r.value.raw
    ensures r.Some? ==> ParseDecimal(RemoveCommas(token)) == Some(r.value.value)
    ensures |RemoveCommas(token)| >= 4 && ParseDecimal(RemoveCommas(token)).Some?
            && 5.0 < ParseDecimal(RemoveCommas(token)).value < 5000.0
            && (!needDot || '.' in RemoveCommas(token))
            ==> r == Some(Candidate(ParseDecimal(RemoveCommas(token)).value, RemoveCommas(token), context))
  {
    var clean := RemoveCommas(token);
    if |clean| >= 4 then
      match ParseDecimal(clean)
      case None => None
      case Some(v) =>
        if 5.0 < v < 5000.0 && (!needDot || '.' in clean) then Some(Candidate(v, clean, context)) else None
    else None
  }

  function OptionToSeq(o: Option<Candidate>): seq<Candidate>
  {
    if o.Some? then [o.value] else []
  }

  /** The candidates a list of tokens yields, in token order. */
  function Harvest(tokens: seq<string>, context: string, needDot: bool): (r: seq<Candidate>)
    ensures |r| <= |tokens|
  {
    if tokens == [] then []
    else Harvest(tokens[..|tokens| - 1], context, needDot)
         + OptionToSeq(TokenCandidate(tokens[|tokens| - 1], context, needDot))
  }

  /** What the anchored pass takes from one fragment: nothing unless its
      lower-cased text contains a total keyword; then the candidates of its
      tokens, with the lower-cased fragment as context. */
  function AnchoredFrom(text: string): seq<Candidate>
  {
    var lower := Lower(text);
    if ContainsAny(lower, TotalKeywords) then Harvest(Tokens(text), lower, false) else []
  }

  /** The anchored pass over all fragments, in fragment order. */
  function Anchored(fragments: seq<string>): seq<Candidate>
  {
    if fragments == [] then []
    else Anchored(fragments[..|fragments| - 1]) + AnchoredFrom(fragments[|fragments| - 1])
  }

  /** The fallback pass over the joined, lower-cased OCR text. */
  function Fallback(ocrText: string): seq<Candidate>
  {
    Harvest(Tokens(ocrText), FallbackContext, true)
  }

  /** The candidate list the selection step receives: the anchored candidates,
      or the fallback candidates when there are none. */
  function Candidates(fragments: seq<string>): seq<Candidate>
  {
    var anchored := Anchored(fragments);
    if anchored != [] then anchored else Fallback(OcrText(fragments))
  }

  /** Harvesting one more token appends what that token yields. */
  lemma HarvestStep(tokens: seq<string>, j: nat, context: string, needDot: bool)
    requires j < |tokens|
    ensures Harvest(tokens[..j + 1], context, needDot)
            == Harvest(tokens[..j], context, needDot) + OptionToSeq(TokenCandidate(tokens[j], context, needDot))
  {
    assert tokens[..j + 1][..j] == tokens[..j];
  }

  /** One more fragment appends what the anchored pass takes from it. */
  lemma AnchoredStep(fragments: seq<string>, i: nat)
    requires i < |fragments|
    ensures Anchored(fragments[..i + 1]) == Anchored(fragments[..i]) + AnchoredFrom(fragments[i])
  {
    assert fragments[..i + 1][..i] == fragments[..i];
  }

  /** The body of the token loop: strip the commas, demand four characters,
      parse, demand the range and, when `needDot`, a point. */
  method FilterToken(num: string, context: string, needDot: bool) returns (kept: Option<Candidate>)
    ensures kept == TokenCandidate(num, context, needDot)
  {
    kept := None;
    var clean := RemoveCommas(num);
    if |clean| >= 4 {
      var parsed := ParseDecimal(clean);
      if parsed.Some? && 5.0 < parsed.value < 5000.0 && (!needDot || '.' in clean) {
        kept := Some(Candidate(parsed.value, clean, context));
      }
    }
  }

  /** The loop both passes run over a list of tokens, appending every token
      that passes the filters. */
  method HarvestTokens(numbers: seq<string>, context: string, needDot: bool) returns (found: seq<Candidate>)
    ensures found == Harvest(numbers, context, needDot)
  {
    found := [];
    var j := 0;
    while j < |numbers|
      invariant 0 <= j <= |numbers|
      invariant found == Harvest(numbers[..j], context, needDot)
    {
      var kept := FilterToken(numbers[j], context, needDot);
      HarvestStep(numbers, j, context, needDot);
      if kept.Some? {
        found := found + [kept.value];
      }
      j := j + 1;
    }
    assert numbers[..j] == numbers;
  }

  /** The anchored pass as the loop it is: for each fragment that mentions a
      total keyword, append the candidates of its tokens. */
  method ExtractAnchored(fragments: seq<string>) returns (found: seq<Candidate>)
    ensures found == Anchored(fragments)
  {
    found := [];
    var i := 0;
    while i < |fragments|
      invariant 0 <= i <= |fragments|
      invariant found == Anchored(fragments[..i])
    {
      var text := fragments[i];
      var textLower := Lower(text);
      if ContainsAny(textLower, TotalKeywords) {
        var fromText := HarvestTokens(Tokens(text), textLower, false);
        found := found + fromText;
      }
      AnchoredStep(fragments, i);
      i := i + 1;
    }
    assert fragments[..i] == fragments;
  }

  /** The fallback pass: the token loop over the joined text, demanding a point. */
  method ExtractFallback(ocrText: string) returns (found: seq<Candidate>)
    ensures found == Fallback(ocrText)
  {
    found := HarvestTokens(Tokens(ocrText), FallbackContext, true);
  }

  /** Both passes: the fallback runs only when the anchored pass found nothing. */
  method ExtractCandidates(fragments: seq<string>) returns (found: seq<Candidate>)
    ensures found == Candidates(fragments)
  {
    found := ExtractAnchored(fragments);
    if found == [] {
      found := ExtractFallback(OcrText(fragments));
    }
  }

  // ---------------------------------------------------------------------------
  // Properties of the passes

  /** A string of points only has as many points as characters. */
  lemma {:induction false} AllDotsCount(s: string)
    requires forall k :: 0 <= k < |s| ==> s[k] == '.'
    ensures DotCount(s) == |s|
  {
    if s != [] { AllDotsCount(s[1..]); }
  }

  /** The `except` branches of both passes are dead: a matched token that
      survives the length filter always parses, because four characters with
      at most one point hold at least three digits. */
  lemma ParseNeverFails(token: string)
    requires MatchesPattern(token) && |RemoveCommas(token)| >= 4
    ensures ParseDecimal(RemoveCommas(token)).Some?
  {
    var clean := RemoveCommas(token);
    CleanedMatch(token);
    if !HasDigit(clean) {
      AllDotsCount(clean);
    }
  }

  /** Every harvested candidate is what some token yields. */
  lemma {:induction false} HarvestSound(tokens: seq<string>, context: string, needDot: bool, c: Candidate)
    requires c in Harvest(tokens, context, needDot)
    ensures exists k :: 0 <= k < |tokens| && TokenCandidate(tokens[k], context, needDot) == Some(c)
  {
    var n := |tokens|;
    var init := tokens[..n - 1];
    if c in Harvest(init, context, needDot) {
      HarvestSound(init, context, needDot, c);
      var k :| 0 <= k < |init| && TokenCandidate(init[k], context, needDot) == Some(c);
      assert tokens[k] == init[k];
    } else {
      assert c in OptionToSeq(TokenCandidate(tokens[n - 1], context, needDot));
      assert TokenCandidate(tokens[n - 1], context, needDot) == Some(c);
    }
  }

  /** Every candidate some token yields is harvested. */
  lemma {:induction false} HarvestComplete(tokens: seq<string>, context: string, needDot: bool, k: nat)
    requires k < |tokens| && TokenCandidate(tokens[k], context, needDot).Some?
    ensures TokenCandidate(tokens[k], context, needDot).value in Harvest(tokens, context, needDot)
  {
    if k < |tokens| - 1 {
      HarvestComplete(tokens[..|tokens| - 1], context, needDot, k);
    }
  }

  /** Every anchored candidate is what some token of some fragment yields,
      where the fragment's lower-cased text holds a total keyword and is the
      candidate's context. */
  lemma {:induction false} AnchoredProvenance(fragments: seq<string>, c: Candidate)
    requires c in Anchored(fragments)
    ensures exists i, k :: 0 <= i < |fragments| && ContainsAny(Lower(fragments[i]), TotalKeywords)
                           && 0 <= k < |Tokens(fragments[i])| && c.context == Lower(fragments[i])
                           && TokenCandidate(Tokens(fragments[i])[k], Lower(fragments[i]), false) == Some(c)
  {
    var n := |fragments|;
    var init := fragments[..n - 1];
    if c in Anchored(init) {
      AnchoredProvenance(init, c);
      var i, k :| 0 <= i < |init| && ContainsAny(Lower(init[i]), TotalKeywords)
                  && 0 <= k < |Tokens(init[i])| && c.context == Lower(init[i])
                  && TokenCandidate(Tokens(init[i])[k], Lower(init[i]), false) == Some(c);
      assert init[i] == fragments[i];
    } else {
      var last := fragments[n - 1];
      assert c in AnchoredFrom(last);
      HarvestSound(Tokens(last), Lower(last), false, c);
      var k :| 0 <= k < |Tokens(last)| && TokenCandidate(Tokens(last)[k], Lower(last), false) == Some(c);
      assert ContainsAny(Lower(fragments[n - 1]), TotalKeywords);
    }
  }

  /** What the anchored pass takes from one fragment is part of its result. */
  lemma {:induction false} AnchoredIncludes(fragments: seq<string>, i: nat, c: Candidate)
    requires i < |fragments| && c in AnchoredFrom(fragments[i])
    ensures c in Anchored(fragments)
  {
    if i < |fragments| - 1 {
      AnchoredIncludes(fragments[..|fragments| - 1], i, c);
    }
  }

  /** Every token of a keyword fragment that passes the filters is an anchored
      candidate. */
  lemma AnchoredComplete(fragments: seq<string>, i: nat, k: nat)
    requires i < |fragments| && ContainsAny(Lower(fragments[i]), TotalKeywords)
    requires k < |Tokens(fragments[i])|
    requires TokenCandidate(Tokens(fragments[i])[k], Lower(fragments[i]), false).Some?
    ensures TokenCandidate(Tokens(fragments[i])[k], Lower(fragments[i]), false).value in Anchored(fragments)
  {
    var text := fragments[i];
    var c := TokenCandidate(Tokens(text)[k], Lower(text), false).value;
    HarvestComplete(Tokens(text), Lower(text), false, k);
    assert c in AnchoredFrom(text);
    AnchoredIncludes(fragments, i, c);
  }

  /** The fallback pass decides nothing when the anchored pass found something;
      otherwise every candidate holds a decimal point and has the fixed context. */
  lemma FallbackOnlyWithoutAnchored(fragments: seq<string>)
    ensures Anchored(fragments) != [] ==> Candidates(fragments) == Anchored(fragments)
    ensures Anchored(fragments) == [] ==>
      forall c :: c in Candidates(fragments) ==> '.' in c.raw && c.context == FallbackContext
  {
    HarvestFilters(Tokens(OcrText(fragments)), FallbackContext, true);
  }

  /** Every harvested candidate passed the filters of its pass and carries
      the pass's context. */
  lemma {:induction false} HarvestFilters(tokens: seq<string>, context: string, needDot: bool)
    ensures forall c :: c in Harvest(tokens, context, needDot) ==>
      Plausible(c) && c.context == context && HasDigit(c.raw) && (needDot ==> '.' in c.raw)
  {
    if tokens != [] {
      HarvestFilters(tokens[..|tokens| - 1], context, needDot);
    }
  }

  /** Every anchored candidate passed the length and range filters. */
  lemma {:induction false} AnchoredPlausible(fragments: seq<string>)
    ensures forall c :: c in Anchored(fragments) ==> Plausible(c)
  {
    if fragments != [] {
      var last := fragments[|fragments| - 1];
      AnchoredPlausible(fragments[..|fragments| - 1]);
      HarvestFilters(Tokens(last), Lower(last), false);
    }
  }

  /** Every candidate of either pass passed the length and range filters. */
  lemma CandidatesPlausible(fragments: seq<string>)
    ensures forall c :: c in Candidates(fragments) ==> Plausible(c)
  {
    AnchoredPlausible(fragments);
    HarvestFilters(Tokens(OcrText(fragments)), FallbackContext, true);
  }

  /** A text without digits yields no candidates in a harvest. */
  lemma HarvestNeedsDigits(text: string, context: string, needDot: bool)
    requires !HasDigit(text)
    ensures Harvest(Tokens(text), context, needDot) == []
  {
    var h := Harvest(Tokens(text), context, needDot);
    if h != [] {
      HarvestSound(Tokens(text), context, needDot, h[0]);
      var k :| 0 <= k < |Tokens(text)| && TokenCandidate(Tokens(text)[k], context, needDot) == Some(h[0]);
      CleanedDigitsComeFromToken(Tokens(text)[k]);
      TokenDigitsComeFromText(text, k);
    }
  }

  /** A digit of a comma-stripped token was a digit of the token. */
  lemma CleanedDigitsComeFromToken(token: string)
    requires HasDigit(RemoveCommas(token))
    ensures HasDigit(token)
  {
    var clean := RemoveCommas(token);
    var d :| 0 <= d < |clean| && IsDigit(clean[d]);
    assert clean[d] in token;
  }

  /** OCR output without any digit yields no candidates at all. */
  lemma {:induction false} NoDigitsNoCandidates(fragments: seq<string>)
    requires forall i :: 0 <= i < |fragments| ==> !HasDigit(fragments[i])
    ensures Candidates(fragments) == []
  {
    AnchoredNeedsDigits(fragments);
    if HasDigit(JoinSpace(fragments)) {
      JoinSpaceHasDigit(fragments);
    }
    LowerHasDigit(JoinSpace(fragments));
    HarvestNeedsDigits(OcrText(fragments), FallbackContext, true);
  }

  lemma {:induction false} AnchoredNeedsDigits(fragments: seq<string>)
    requires forall i :: 0 <= i < |fragments| ==> !HasDigit(fragments[i])
    ensures Anchored(fragments) == []
  {
    if fragments != [] {
      var n := |fragments|;
      AnchoredNeedsDigits(fragments[..n - 1]);
      var last := fragments[n - 1];
      HarvestNeedsDigits(last, Lower(last), false);
    }
  }
}
