/**
 * `_calculate_string_similarity` and `_string_similarity_score`, which both
 * query processors share. Scores are exact rationals.
 *
 * `difflib.get_close_matches(s1, [s2], n=1, cutoff=0.0)` keeps a candidate
 * whose ratios are all at least the cutoff; every difflib ratio is at least
 * 0.0, so the call always returns `[s2]` and the score is taken on `s2`.
 */
module Similarity {
  import opened Text

  /** `sum(c1 == c2 for c1, c2 in zip(s1, s2))`: equal characters at equal positions. */
  function Aligned(s1: string, s2: string): (m: nat)
    ensures m <= |s1| && m <= |s2|
    decreases |s1|
  {
    if s1 == [] || s2 == [] then 0
    else (if s1[0] == s2[0] then 1 else 0) + Aligned(s1[1..], s2[1..])
  }

  function Max(a: nat, b: nat): nat
  {
    if a < b then b else a
  }

  /** `_string_similarity_score`; two empty strings would divide by zero. */
  function Score(s1: string, s2: string): real
    requires s1 != [] || s2 != []
  {
    (Aligned(s1, s2) as real) / (Max(|s1|, |s2|) as real)
  }

  /** `_calculate_string_similarity` */
  function StringSimilarity(s1: string, s2: string): real
  {
    if Contains(s2, s1) || Contains(s1, s2) then 0.9
    else if |s1| < 4 || |s2| < 4 then (if s1 == s2 then 1.0 else 0.0)
    else Score(s1, s2)
  }

  // ---------------------------------------------------------------------------
  // Properties
  // ---------------------------------------------------------------------------

  lemma {:induction false} AlignedSymmetric(s1: string, s2: string)
    ensures Aligned(s1, s2) == Aligned(s2, s1)
    decreases |s1|
  {
    if s1 != [] && s2 != [] {
      AlignedSymmetric(s1[1..], s2[1..]);
    }
  }

  /** All positions agree only when the strings are equal. */
  lemma {:induction false} AlignedFull(s1: string, s2: string)
    requires Aligned(s1, s2) == |s1| == |s2|
    ensures s1 == s2
    decreases |s1|
  {
    if s1 != [] {
      AlignedFull(s1[1..], s2[1..]);
      assert s1 == [s1[0]] + s1[1..];
      assert s2 == [s2[0]] + s2[1..];
    }
  }

  lemma {:induction false} AlignedSelf(s: string)
    ensures Aligned(s, s) == |s|
    decreases |s|
  {
    if s != [] {
      AlignedSelf(s[1..]);
    }
  }

  /** A prefix where the strings disagree everywhere adds nothing to the count. */
  lemma {:induction false} AlignedAfterMismatches(s1: string, s2: string, k: nat)
    requires k <= |s1| && k <= |s2|
    requires forall i :: 0 <= i < k ==> s1[i] != s2[i]
    ensures Aligned(s1, s2) == Aligned(s1[k..], s2[k..])
    decreases k
  {
    if k > 0 {
      AlignedAfterMismatches(s1[1..], s2[1..], k - 1);
      assert s1[1..][k - 1..] == s1[k..];
      assert s2[1..][k - 1..] == s2[k..];
    }
  }

  lemma RatioRange(a: real, b: real)
    requires 0.0 <= a <= b && b > 0.0
    ensures 0.0 <= a / b <= 1.0
    ensures a / b == 1.0 <==> a == b
  {
    assert (a / b) * b == a;
  }

  /** The score lies in [0, 1] and is 1 exactly for equal strings. */
  lemma ScoreRange(s1: string, s2: string)
    requires s1 != [] || s2 != []
    ensures 0.0 <= Score(s1, s2) <= 1.0
    ensures Score(s1, s2) == 1.0 <==> s1 == s2
  {
    var m := Aligned(s1, s2);
    var d := Max(|s1|, |s2|);
    RatioRange(m as real, d as real);
    if s1 == s2 {
      AlignedSelf(s1);
    }
    if Score(s1, s2) == 1.0 {
      assert m as real == d as real;
      AlignedFull(s1, s2);
    }
  }

  lemma ScoreSymmetric(s1: string, s2: string)
    requires s1 != [] || s2 != []
    ensures Score(s1, s2) == Score(s2, s1)
  {
    AlignedSymmetric(s1, s2);
  }

  /**
   * The similarity lies in [0, 1) and is symmetric. It never reaches 1.0:
   * equal strings are caught by the substring rule first, so the `1.0 if
   * s1 == s2` branch for short strings always yields 0.0.
   */
  lemma SimilarityRange(s1: string, s2: string)
    ensures 0.0 <= StringSimilarity(s1, s2) < 1.0
    ensures StringSimilarity(s1, s2) == StringSimilarity(s2, s1)
    ensures Contains(s2, s1) || Contains(s1, s2) ==> StringSimilarity(s1, s2) == 0.9
    ensures !(Contains(s2, s1) || Contains(s1, s2)) && (|s1| < 4 || |s2| < 4) ==> StringSimilarity(s1, s2) == 0.0
  {
    if s1 == s2 {
      ContainsSelf(s1);
    }
    if !(Contains(s2, s1) || Contains(s1, s2)) && |s1| >= 4 && |s2| >= 4 {
      ScoreRange(s1, s2);
      ScoreSymmetric(s1, s2);
    }
  }
}
