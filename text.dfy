/** Whitespace trimming, as `strings.TrimSpace` (Go) and `str.strip` (Python)
    do it, over a whitespace predicate that each server supplies. */
module Text {

  /** Number of leading characters of `s` that `space` classifies as whitespace. */
  function LeadingSpaces(s: string, space: char -> bool): (n: nat)
    ensures n <= |s|
    ensures forall k :: 0 <= k < n ==> space(s[k])
    ensures n < |s| ==> !space(s[n])
  {
    if |s| == 0 || !space(s[0]) then 0 else 1 + LeadingSpaces(s[1..], space)
  }

  /** Number of trailing characters of `s` that `space` classifies as whitespace. */
  function TrailingSpaces(s: string, space: char -> bool): (n: nat)
    ensures n <= |s|
    ensures forall k :: |s| - n <= k < |s| ==> space(s[k])
    ensures n < |s| ==> !space(s[|s| - 1 - n])
  {
    if |s| == 0 || !space(s[|s| - 1]) then 0 else 1 + TrailingSpaces(s[..|s| - 1], space)
  }

  /** `s` without its leading and trailing whitespace. */
  function Trim(s: string, space: char -> bool): (r: string)
    ensures |r| <= |s|
    ensures r == "" <==> forall k :: 0 <= k < |s| ==> space(s[k])
    ensures r != "" ==> !space(r[0]) && !space(r[|r| - 1])
    ensures var a := LeadingSpaces(s, space);
      a + |r| <= |s| && r == s[a..a + |r|] &&
      forall k :: a + |r| <= k < |s| ==> space(s[k])
  {
    var a := LeadingSpaces(s, space);
    var rest := s[a..];
    rest[..|rest| - TrailingSpaces(rest, space)]
  }
}
