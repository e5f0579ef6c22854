/**
 * `np.argsort(similarities)[-3:][::-1]`: the indices of the three highest
 * scores, highest first. Equal scores are ordered by index, lower index
 * first, so the later of two tied diseases ranks higher.
 */
module Ranking {
  /** Index `a` sorts before index `b`: a lower score, or an equal score and a lower index. */
  predicate Before(scores: seq<real>, a: nat, b: nat)
    requires a < |scores| && b < |scores|
  {
    scores[a] < scores[b] || (scores[a] == scores[b] && a < b)
  }

  predicate Indices(scores: seq<real>, xs: seq<nat>)
  {
    forall p :: 0 <= p < |xs| ==> xs[p] < |scores|
  }

  /** Ascending by score: every earlier index sorts before every later one. */
  predicate Ascending(scores: seq<real>, xs: seq<nat>)
    requires Indices(scores, xs)
  {
    forall p, q :: 0 <= p < q < |xs| ==> Before(scores, xs[p], xs[q])
  }

  function InsertIndex(scores: seq<real>, x: nat, xs: seq<nat>): (r: seq<nat>)
    requires x < |scores| && Indices(scores, xs)
    ensures |r| == |xs| + 1 && Indices(scores, r)
    ensures forall y :: y in r <==> y == x || y in xs
    decreases |xs|
  {
    if xs == [] then [x]
    else if Before(scores, x, xs[0]) then [x] + xs
    else [xs[0]] + InsertIndex(scores, x, xs[1..])
  }

  lemma {:induction false} InsertAscending(scores: seq<real>, x: nat, xs: seq<nat>)
    requires x < |scores| && Indices(scores, xs)
    requires Ascending(scores, xs) && x !in xs
    ensures Ascending(scores, InsertIndex(scores, x, xs))
    decreases |xs|
  {
    if xs != [] {
      var r := InsertIndex(scores, x, xs);
      if Before(scores, x, xs[0]) {
        assert forall q :: 0 < q < |r| ==> r[q] == xs[q - 1];
        assert forall q :: 0 < q < |r| ==> Before(scores, x, r[q]);
      } else {
        var rest := xs[1..];
        assert Ascending(scores, rest);
        InsertAscending(scores, x, rest);
        assert forall y :: y in rest ==> Before(scores, xs[0], y);
        assert r == [xs[0]] + InsertIndex(scores, x, rest);
        assert forall q :: 0 < q < |r| ==> r[q] in InsertIndex(scores, x, rest);
      }
    }
  }

  /** The indices `0 .. k-1` in ascending order of score. */
  function ArgSort(scores: seq<real>, k: nat): (r: seq<nat>)
    requires k <= |scores|
    ensures |r| == k && Indices(scores, r) && Ascending(scores, r)
    ensures forall y: nat :: y in r <==> y < k
  {
    if k == 0 then []
    else
      var prev := ArgSort(scores, k - 1);
      InsertAscending(scores, k - 1, prev);
      InsertIndex(scores, k - 1, prev)
  }

  function Reverse(xs: seq<nat>): (r: seq<nat>)
    ensures |r| == |xs| && forall p :: 0 <= p < |xs| ==> r[p] == xs[|xs| - 1 - p]
  {
    if xs == [] then [] else [xs[|xs| - 1]] + Reverse(xs[..|xs| - 1])
  }

  /** `[-3:][::-1]`: at most the last three, last first. */
  function TopThree(scores: seq<real>): seq<nat>
  {
    var sorted := ArgSort(scores, |scores|);
    Reverse(sorted[|sorted| - (if |sorted| < 3 then |sorted| else 3)..])
  }

  /** The top three are the last min(3, n) sorted indices, last first. */
  lemma TopThreeAt(scores: seq<real>)
    ensures var n := |scores|;
            |TopThree(scores)| == (if n < 3 then n else 3)
            && forall p :: 0 <= p < |TopThree(scores)| ==> TopThree(scores)[p] == ArgSort(scores, n)[n - 1 - p]
  {
  }

  /**
   * The selection holds min(3, n) distinct indices, highest score first,
   * and no index left out scores higher than one taken.
   */
  lemma TopThreeSpec(scores: seq<real>)
    ensures |TopThree(scores)| == (if |scores| < 3 then |scores| else 3)
    ensures forall p :: 0 <= p < |TopThree(scores)| ==> TopThree(scores)[p] < |scores|
    ensures forall p, q :: 0 <= p < q < |TopThree(scores)| ==> TopThree(scores)[p] != TopThree(scores)[q]
    ensures forall p, q :: 0 <= p < q < |TopThree(scores)| ==> scores[TopThree(scores)[q]] <= scores[TopThree(scores)[p]]
    ensures forall i, j :: i in TopThree(scores) && 0 <= j < |scores| && j !in TopThree(scores) ==> scores[j] <= scores[i]
  {
    TopThreeDescending(scores);
    TopThreeBeats(scores);
  }

  lemma TopThreeDescending(scores: seq<real>)
    ensures forall p :: 0 <= p < |TopThree(scores)| ==> TopThree(scores)[p] < |scores|
    ensures forall p, q :: 0 <= p < q < |TopThree(scores)| ==> TopThree(scores)[p] != TopThree(scores)[q]
    ensures forall p, q :: 0 <= p < q < |TopThree(scores)| ==> scores[TopThree(scores)[q]] <= scores[TopThree(scores)[p]]
  {
    var sorted := ArgSort(scores, |scores|);
    var n := |sorted|;
    var top := TopThree(scores);
    TopThreeAt(scores);
    forall p, q | 0 <= p < q < |top|
      ensures top[p] != top[q] && scores[top[q]] <= scores[top[p]]
    {
      assert Before(scores, sorted[n - 1 - q], sorted[n - 1 - p]);
    }
  }

  lemma TopThreeBeats(scores: seq<real>)
    ensures forall i, j :: i in TopThree(scores) && 0 <= j < |scores| && j !in TopThree(scores) ==> scores[j] <= scores[i]
  {
    var sorted := ArgSort(scores, |scores|);
    var n := |sorted|;
    var lo := n - (if n < 3 then n else 3);
    var top := TopThree(scores);
    TopThreeAt(scores);
    forall q | lo <= q < n
      ensures sorted[q] in top
    {
      assert top[n - 1 - q] == sorted[q];
    }
    forall i, j | i in top && 0 <= j < |scores| && j !in top
      ensures scores[j] <= scores[i]
    {
      var p :| 0 <= p < |top| && top[p] == i;
      assert j in sorted;
      var q :| 0 <= q < n && sorted[q] == j;
      assert Before(scores, sorted[q], sorted[n - 1 - p]);
    }
  }
}
