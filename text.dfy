/** Character and string helpers the detection heuristic uses: ASCII digit
    tests, lower-casing, substring containment (Python's `in` on strings) and
    the space-joined OCR text. */
module Text {

  predicate IsDigit(c: char) { '0' <= c <= '9' }

  /** Lower-cases an ASCII capital letter and leaves every other character alone. */
  function LowerChar(c: char): (r: char)
    ensures IsDigit(r) <==> IsDigit(c)
    ensures 'A' <= c <= 'Z' ==> 'a' <= r <= 'z'
    ensures 'A' <= c <= 'Z' ==> r as int - 'a' as int == c as int - 'A' as int
    ensures !('A' <= c <= 'Z') ==> r == c
  {
    if 'A' <= c <= 'Z' then (c as int - 'A' as int + 'a' as int) as char else c
  }

  /** `str.lower()` on the ASCII range. */
  function Lower(s: string): (r: string)
    ensures |r| == |s|
    ensures forall k :: 0 <= k < |r| ==> !('A' <= r[k] <= 'Z')
    ensures forall k :: 0 <= k < |r| ==> (IsDigit(r[k]) <==> IsDigit(s[k]))
  {
    seq(|s|, k requires 0 <= k < |s| => LowerChar(s[k]))
  }

  predicate HasDigit(s: string)
  {
    exists k :: 0 <= k < |s| && IsDigit(s[k])
  }

  /** `sub` occurs in `s` starting at index `i`. */
  predicate OccursAt(s: string, sub: string, i: int)
  {
    0 <= i <= |s| - |sub| && s[i..i + |sub|] == sub
  }

  /** Python's `sub in s`: `sub` occurs in `s` as a contiguous substring. */
  predicate Contains(s: string, sub: string)
  {
    exists i :: 0 <= i <= |s| - |sub| && OccursAt(s, sub, i)
  }

  /** `any(keyword in s for keyword in keywords)` */
  predicate ContainsAny(s: string, keywords: seq<string>)
  {
    exists k :: 0 <= k < |keywords| && Contains(s, keywords[k])
  }

  /** Total length of the strings in `parts`. */
  function SumLengths(parts: seq<string>): nat
  {
    if parts == [] then 0 else SumLengths(parts[..|parts| - 1]) + |parts[|parts| - 1]|
  }

  /** `" ".join(parts)` */
  function JoinSpace(parts: seq<string>): (r: string)
    ensures |r| == if parts == [] then 0 else SumLengths(parts) + |parts| - 1
  {
    if |parts| == 0 then ""
    else if |parts| == 1 then parts[0]
    else JoinSpace(parts[..|parts| - 1]) + " " + parts[|parts| - 1]
  }

  /** Lower-casing neither creates nor removes digits. */
  lemma LowerHasDigit(s: string)
    ensures HasDigit(Lower(s)) <==> HasDigit(s)
  {
    if HasDigit(s) {
      var k :| 0 <= k < |s| && IsDigit(s[k]);
      assert IsDigit(Lower(s)[k]);
    }
    if HasDigit(Lower(s)) {
      var k :| 0 <= k < |Lower(s)| && IsDigit(Lower(s)[k]);
      assert IsDigit(s[k]);
    }
  }

  /** A digit of the joined text comes from one of the parts (the separator is a space). */
  lemma {:induction false} JoinSpaceHasDigit(parts: seq<string>)
    requires HasDigit(JoinSpace(parts))
    ensures exists i :: 0 <= i < |parts| && HasDigit(parts[i])
  {
    var n := |parts|;
    if n == 1 {
      assert HasDigit(parts[0]);
    } else {
      var init := JoinSpace(parts[..n - 1]);
      var last := parts[n - 1];
      assert JoinSpace(parts) == init + " " + last;
      var k :| 0 <= k < |JoinSpace(parts)| && IsDigit(JoinSpace(parts)[k]);
      if k < |init| {
        assert IsDigit(init[k]);
        JoinSpaceHasDigit(parts[..n - 1]);
        var i :| 0 <= i < n - 1 && HasDigit(parts[..n - 1][i]);
        assert parts[..n - 1][i] == parts[i];
      } else {
        assert k != |init|;
        assert IsDigit(last[k - |init| - 1]);
        assert HasDigit(parts[n - 1]);
      }
    }
  }

  /** Every part occurs in the joined text. */
  lemma {:induction false} JoinSpaceContainsPart(parts: seq<string>, i: nat)
    requires i < |parts|
    ensures Contains(JoinSpace(parts), parts[i])
  {
    var n := |parts|;
    var joined := JoinSpace(parts);
    if n == 1 {
      assert OccursAt(joined, parts[0], 0);
    } else {
      var init := JoinSpace(parts[..n - 1]);
      assert joined == init + " " + parts[n - 1];
      if i == n - 1 {
        var at := |init| + 1;
        assert joined[at..at + |parts[i]|] == parts[i];
        assert OccursAt(joined, parts[i], at);
      } else {
        JoinSpaceContainsPart(parts[..n - 1], i);
        assert parts[..n - 1][i] == parts[i];
        var at :| 0 <= at <= |init| - |parts[i]| && OccursAt(init, parts[i], at);
        forall k | 0 <= k < |parts[i]|
          ensures joined[at + k] == parts[i][k]
        {
          assert init[at..at + |parts[i]|][k] == parts[i][k];
        }
        assert joined[at..at + |parts[i]|] == parts[i];
        assert OccursAt(joined, parts[i], at);
      }
    }
  }
}
