/**
 * `blendWords`: splices the front half of one word onto the back half of
 * another. It builds two candidates and keeps the shorter, preferring the
 * first on a tie; the second candidate is never the shorter one, so the
 * result is always the first.
 */
module Blend {
  import opened Text

  function Max(a: int, b: int): int { if a < b then b else a }

  function Min(a: int, b: int): int { if a < b then a else b }

  /** `w1.slice(0, mid1) + w2.slice(mid2)`: the front half of `w1` and the back half of `w2`. */
  function FirstCandidate(w1: string, w2: string): (r: string)
    ensures r == w1[..|w1| / 2] + w2[|w2| / 2..]
  {
    Slice(w1, 0, |w1| / 2) + SliceFrom(w2, |w2| / 2)
  }

  /** `w1.slice(0, max(2, mid1)) + w2.slice(-max(2, len2 - mid2))`: at least two characters from each side. */
  function SecondCandidate(w1: string, w2: string): (r: string)
    ensures r == w1[..Min(Max(2, |w1| / 2), |w1|)] + w2[|w2| - Min(Max(2, |w2| - |w2| / 2), |w2|)..]
  {
    Slice(w1, 0, Max(2, |w1| / 2)) + SliceFrom(w2, -Max(2, |w2| - |w2| / 2))
  }

  /** Each part of the second candidate is at least as long as the matching part of the first. */
  lemma SecondCandidateNotShorter(w1: string, w2: string)
    ensures |FirstCandidate(w1, w2)| == |w1| / 2 + (|w2| - |w2| / 2)
    ensures |FirstCandidate(w1, w2)| <= |SecondCandidate(w1, w2)|
  {
    var a, b := Min(Max(2, |w1| / 2), |w1|), Min(Max(2, |w2| - |w2| / 2), |w2|);
    assert |SecondCandidate(w1, w2)| == a + b by {
      assert SecondCandidate(w1, w2) == w1[..a] + w2[|w2| - b..];
    }
    assert |FirstCandidate(w1, w2)| == |w1| / 2 + (|w2| - |w2| / 2) by {
      assert FirstCandidate(w1, w2) == w1[..|w1| / 2] + w2[|w2| / 2..];
    }
  }

  /** `blendWords(word1, word2)`. */
  function BlendWords(word1: string, word2: string): (r: string)
    ensures |r| == |word1| / 2 + (|word2| - |word2| / 2)
    ensures r == Capitalize(ToLower(word1)[..|word1| / 2] + ToLower(word2)[|word2| / 2..])
  {
    var w1, w2 := ToLower(word1), ToLower(word2);
    var blend1, blend2 := FirstCandidate(w1, w2), SecondCandidate(w1, w2);
    SecondCandidateNotShorter(w1, w2);
    var chosen := if |blend1| <= |blend2| then blend1 else blend2;
    Capitalize(chosen)
  }

  /**
   * Over ASCII the blend is in title case: its first character is not a
   * lower-case letter and no later character is an upper-case letter.
   */
  lemma BlendIsTitleCase(word1: string, word2: string)
    ensures var r := BlendWords(word1, word2);
      (r != [] ==> !IsLower(r[0])) && forall i :: 1 <= i < |r| ==> !IsUpper(r[i])
  {
    var l1, l2 := ToLower(word1), ToLower(word2);
    var s := l1[..|word1| / 2] + l2[|word2| / 2..];
    assert NoUpper(s) by {
      forall i | 0 <= i < |s|
        ensures !IsUpper(s[i])
      {
        if i < |word1| / 2 {
          assert s[i] == l1[i];
        } else {
          assert s[i] == l2[|word2| / 2 + i - |word1| / 2];
        }
      }
    }
    CapitalizeNoUpper(s);
  }
}
