/**
 * The high-score table update performed at game over: the run's score is
 * appended to the scores on file, the list is sorted highest first and cut to
 * ten entries, and the run's rank is the 1-based position of the first entry
 * equal to its score.
 */
module HighScores {

  const MAX_HIGH_SCORES: nat := 10

  predicate SortedDescending(s: seq<int>)
  {
    forall i, j | 0 <= i < j < |s| :: s[i] >= s[j]
  }

  /** Inserts x in front of the first entry it is not below. */
  function Insert(x: int, s: seq<int>): (r: seq<int>)
    requires SortedDescending(s)
    ensures SortedDescending(r)
    ensures multiset(r) == multiset(s) + multiset{x}
    ensures |r| == |s| + 1 && r[0] == (if s == [] || x >= s[0] then x else s[0])
  {
    if s == [] then [x]
    else if x >= s[0] then [x] + s
    else
      assert s == [s[0]] + s[1..];
      var rest := Insert(x, s[1..]);
      assert s[0] >= rest[0];
      [s[0]] + rest
  }

  /** The scores highest first (the result of sorting with a greater-than comparison). */
  function SortDescending(s: seq<int>): (r: seq<int>)
    ensures SortedDescending(r)
    ensures multiset(r) == multiset(s)
  {
    if s == [] then []
    else
      assert s == [s[0]] + s[1..];
      Insert(s[0], SortDescending(s[1..]))
  }

  /** The first MAX_HIGH_SCORES entries. */
  function KeepTop(s: seq<int>): (r: seq<int>)
    ensures |r| <= MAX_HIGH_SCORES
    ensures r <= s
    ensures |s| <= MAX_HIGH_SCORES ==> r == s
  {
    if |s| > MAX_HIGH_SCORES then s[..MAX_HIGH_SCORES] else s
  }

  /**
   * Computes the saved list and the run's rank: the list on file plus the
   * run's score, highest first, at most ten entries; the rank is one more
   * than the index of the first entry equal to the run's score, or one past
   * the list when that score was cut off.
   */
  method SaveAndGetRank(onFile: seq<int>, score: int) returns (saved: seq<int>, rank: int)
    ensures saved == KeepTop(SortDescending(onFile + [score]))
    ensures SortedDescending(saved) && |saved| <= MAX_HIGH_SCORES
    ensures 1 <= rank <= |saved| + 1
    ensures rank <= |saved| ==> saved[rank - 1] == score
    ensures forall k | 0 <= k < rank - 1 :: saved[k] != score
  {
    var scores := onFile + [score];
    scores := SortDescending(scores);
    if |scores| > MAX_HIGH_SCORES {
      scores := scores[..MAX_HIGH_SCORES];
    }
    saved := scores;
    rank := RankOf(saved, score);
  }

  /** The 1-based position of the first entry equal to score, counted by a scan; one past the end when there is none. */
  method RankOf(saved: seq<int>, score: int) returns (rank: int)
    ensures 1 <= rank <= |saved| + 1
    ensures rank <= |saved| ==> saved[rank - 1] == score
    ensures forall k | 0 <= k < rank - 1 :: saved[k] != score
  {
    rank := 1;
    var k := 0;
    while k < |saved|
      invariant 0 <= k <= |saved| && rank == k + 1
      invariant forall m | 0 <= m < k :: saved[m] != score
    {
      if saved[k] == score {
        break;
      }
      rank := rank + 1;
      k := k + 1;
    }
  }

  // ----- lemmas -----

  /** The head of a descending list is at least every element of it. */
  lemma HeadIsMaximum(a: seq<int>, x: int)
    requires SortedDescending(a) && x in multiset(a)
    ensures a != [] && a[0] >= x
  {
    var i :| 0 <= i < |a| && a[i] == x;
  }

  /** Two descending lists with the same elements have the same head and the same remaining elements. */
  lemma HeadsAndTailsAgree(a: seq<int>, b: seq<int>)
    requires SortedDescending(a) && SortedDescending(b) && multiset(a) == multiset(b) && a != []
    ensures b != [] && a[0] == b[0] && multiset(a[1..]) == multiset(b[1..])
  {
    HeadIsMaximum(b, a[0]);
    HeadIsMaximum(a, b[0]);
    assert a == [a[0]] + a[1..];
    assert b == [b[0]] + b[1..];
    calc {
      multiset(a[1..]);
      multiset(a) - multiset{a[0]};
      multiset(b) - multiset{b[0]};
      multiset(b[1..]);
    }
  }

  /** Two descending lists with the same elements are equal: the sorted order is determined by the scores alone. */
  lemma {:induction false} SortedPermutationUnique(a: seq<int>, b: seq<int>)
    requires SortedDescending(a) && SortedDescending(b) && multiset(a) == multiset(b)
    ensures a == b
    decreases |a|
  {
    if a == [] {
      assert |b| == |multiset(b)| == 0;
    } else {
      HeadsAndTailsAgree(a, b);
      SortedPermutationUnique(a[1..], b[1..]);
      assert a == [a[0]] + a[1..] && b == [b[0]] + b[1..];
    }
  }

  /** Any descending arrangement of the scores is the one SortDescending produces. */
  lemma SortIsTheDescendingPermutation(s: seq<int>, r: seq<int>)
    requires SortedDescending(r) && multiset(r) == multiset(s)
    ensures SortDescending(s) == r
  {
    SortedPermutationUnique(SortDescending(s), r);
  }

  /** The rank counts the saved entries strictly above the run's score. */
  lemma RankCountsHigherScores(saved: seq<int>, score: int, rank: int)
    requires SortedDescending(saved) && 1 <= rank <= |saved|
    requires saved[rank - 1] == score
    requires forall k | 0 <= k < rank - 1 :: saved[k] != score
    ensures forall k | 0 <= k < |saved| :: saved[k] > score <==> k < rank - 1
  {
  }

  /** With fewer than ten scores on file nothing is cut, so the run's score is always ranked inside the list. */
  lemma RoomMeansRanked(onFile: seq<int>, score: int)
    requires |onFile| < MAX_HIGH_SCORES
    ensures score in KeepTop(SortDescending(onFile + [score]))
    ensures |KeepTop(SortDescending(onFile + [score]))| == |onFile| + 1
  {
    var sorted := SortDescending(onFile + [score]);
    assert score in multiset(onFile + [score]);
    assert |sorted| == |multiset(sorted)| == |multiset(onFile + [score])| == |onFile| + 1;
  }
}
