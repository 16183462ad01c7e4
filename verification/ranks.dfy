/** Confidence ranks (`get_ranks` in nfl_confidence/utils.py) and the shift the scripts
    apply so that the largest rank equals the week's maximum confidence. */
module Ranks {

  /** Entry `j` comes before entry `i` in an ascending sort of `values` that keeps equal
      values in input order. */
  predicate Precedes(values: seq<real>, j: int, i: int)
    requires 0 <= j < |values| && 0 <= i < |values|
  {
    values[j] < values[i] || (values[j] == values[i] && j < i)
  }

  /** How many of the first `m` entries come before entry `i`. */
  function CountPreceding(values: seq<real>, i: int, m: int): nat
    requires 0 <= i < |values| && 0 <= m <= |values|
  {
    if m == 0 then 0
    else CountPreceding(values, i, m - 1) + (if Precedes(values, m - 1, i) then 1 else 0)
  }

  /** The zero-based place of entry `i` in the ascending order of `values`: the value of
      `np.argsort(np.argsort(values))` at `i` when equal values are sorted by position. */
  function Position(values: seq<real>, i: int): nat
    requires 0 <= i < |values|
  {
    CountPreceding(values, i, |values|)
  }

  /** Entry `i` never counts itself, so a prefix of length `m` that contains it counts at
      most `m - 1` entries. */
  lemma {:induction false} CountPrecedingBound(values: seq<real>, i: int, m: int)
    requires 0 <= i < |values| && 0 <= m <= |values|
    ensures CountPreceding(values, i, m) <= (if i < m then m - 1 else m)
  {
    if m > 0 {
      CountPrecedingBound(values, i, m - 1);
    }
  }

  /** If `j` comes before `i`, every entry before `j` is before `i` as well, and `j`
      itself is counted for `i` but not for `j`. */
  lemma {:induction false} CountPrecedingMonotone(values: seq<real>, j: int, i: int, m: int)
    requires 0 <= j < |values| && 0 <= i < |values| && 0 <= m <= |values|
    requires Precedes(values, j, i)
    ensures CountPreceding(values, j, m) + (if j < m then 1 else 0) <= CountPreceding(values, i, m)
  {
    if m > 0 {
      CountPrecedingMonotone(values, j, i, m - 1);
    }
  }

  lemma PositionBound(values: seq<real>, i: int)
    requires 0 <= i < |values|
    ensures Position(values, i) < |values|
  {
    CountPrecedingBound(values, i, |values|);
  }

  lemma PositionOrder(values: seq<real>, j: int, i: int)
    requires 0 <= j < |values| && 0 <= i < |values|
    requires Precedes(values, j, i)
    ensures Position(values, j) < Position(values, i)
  {
    CountPrecedingMonotone(values, j, i, |values|);
  }

  /** The positions of a sequence: each entry's place in its ascending order. */
  function Positions(values: seq<real>): (ps: seq<int>)
    ensures |ps| == |values|
    ensures forall i :: 0 <= i < |values| ==> ps[i] == Position(values, i)
  {
    seq(|values|, i requires 0 <= i < |values| => Position(values, i))
  }

  /** Positions are distinct numbers in 0..n-1, so every number of that range is used
      exactly once, and a smaller value always has a smaller position. */
  lemma PositionsArePermutation(values: seq<real>)
    ensures forall i :: 0 <= i < |values| ==> 0 <= Positions(values)[i] < |values|
    ensures forall i, j :: 0 <= i < |values| && 0 <= j < |values| && i != j ==>
      Positions(values)[i] != Positions(values)[j]
    ensures forall k :: 0 <= k < |values| ==> k in Positions(values)
    ensures forall i, j :: 0 <= i < |values| && 0 <= j < |values| && values[i] < values[j] ==>
      Positions(values)[i] < Positions(values)[j]
  {
    var ps := Positions(values);
    forall i | 0 <= i < |values| ensures 0 <= ps[i] < |values| {
      PositionBound(values, i);
    }
    forall i, j | 0 <= i < |values| && 0 <= j < |values| && i != j
      ensures ps[i] != ps[j]
    {
      if Precedes(values, i, j) {
        PositionOrder(values, i, j);
      } else {
        PositionOrder(values, j, i);
      }
    }
    forall i, j | 0 <= i < |values| && 0 <= j < |values| && values[i] < values[j]
      ensures ps[i] < ps[j]
    {
      PositionOrder(values, i, j);
    }
    DistinctInRangeCoversRange(ps, 0, |values|);
  }

  /** `n` distinct numbers drawn from `lo..lo+n-1` use every number of that range. */
  lemma DistinctInRangeCoversRange(s: seq<int>, lo: int, n: nat)
    requires |s| == n
    requires forall i :: 0 <= i < |s| ==> lo <= s[i] < lo + n
    requires forall i, j :: 0 <= i < |s| && 0 <= j < |s| && i != j ==> s[i] != s[j]
    ensures forall k :: lo <= k < lo + n ==> k in s
  {
    var elems := set x | x in s;
    var range := Range(lo, n);
    DistinctCardinality(s);
    assert elems <= range;
    SubsetOfEqualSize(elems, range);
    forall k | lo <= k < lo + n ensures k in s {
      assert k in range;
      assert k in elems;
    }
  }

  lemma {:induction false} DistinctCardinality(s: seq<int>)
    requires forall i, j :: 0 <= i < |s| && 0 <= j < |s| && i != j ==> s[i] != s[j]
    ensures |set x | x in s| == |s|
  {
    if |s| > 0 {
      var rest := s[1..];
      DistinctCardinality(rest);
      assert (set x | x in s) == {s[0]} + (set x | x in rest);
      assert s[0] !in rest;
    }
  }

  /** The integers `lo..lo+n-1`. */
  function Range(lo: int, n: nat): (r: set<int>)
    ensures forall k :: k in r <==> lo <= k < lo + n
    ensures |r| == n
  {
    if n == 0 then {} else Range(lo, n - 1) + {lo + n - 1}
  }

  lemma SubsetOfEqualSize(a: set<int>, b: set<int>)
    requires a <= b && |a| == |b|
    ensures a == b
  {
    assert b == a + (b - a);
    assert |b - a| == 0;
  }

  /** How many entries of `s` are strictly below `x`. */
  function CountLess(s: seq<real>, x: real): nat
  {
    if |s| == 0 then 0
    else CountLess(s[..|s| - 1], x) + (if s[|s| - 1] < x then 1 else 0)
  }

  /** With no repeated values an entry's position is the number of smaller entries. */
  lemma {:induction false} PositionOfDistinct(values: seq<real>, i: int, m: int)
    requires 0 <= i < |values| && 0 <= m <= |values|
    requires forall a, b :: 0 <= a < |values| && 0 <= b < |values| && a != b ==> values[a] != values[b]
    ensures CountPreceding(values, i, m) == CountLess(values[..m], values[i])
  {
    if m > 0 {
      PositionOfDistinct(values, i, m - 1);
      assert values[..m][..m - 1] == values[..m - 1];
      assert Precedes(values, m - 1, i) <==> values[m - 1] < values[i];
    }
  }

  /** The offset `get_ranks` adds: 0 when zero-indexed, 1 otherwise. */
  function Offset(zeroIndexed: bool): int
  {
    if zeroIndexed then 0 else 1
  }

  /** `get_ranks`: `offset + argsort(argsort(values))`. The ranks are the numbers
      `offset..offset+n-1`, each used once, and a smaller value gets a smaller rank.
      NumPy's default sort does not promise an order for equal values; this model sorts
      them by position, and no contract below relies on that choice except the ones
      about `Position`. */
  function GetRanks(values: seq<real>, zeroIndexed: bool): (ranks: seq<int>)
    ensures |ranks| == |values|
    ensures forall i :: 0 <= i < |values| ==>
      Offset(zeroIndexed) <= ranks[i] < Offset(zeroIndexed) + |values|
    ensures forall i, j :: 0 <= i < |values| && 0 <= j < |values| && i != j ==> ranks[i] != ranks[j]
    ensures forall k :: Offset(zeroIndexed) <= k < Offset(zeroIndexed) + |values| ==> k in ranks
    ensures forall i, j :: 0 <= i < |values| && 0 <= j < |values| && values[i] < values[j] ==>
      ranks[i] < ranks[j]
  {
    var offset := Offset(zeroIndexed);
    var ps := Positions(values);
    PositionsArePermutation(values);
    var ranks := seq(|values|, i requires 0 <= i < |values| => ps[i] + offset);
    ShiftedRange(ps, ranks, 0, |values|, offset);
    ranks
  }

  /** For distinct values the rank is the offset plus the number of smaller values, so it
      does not depend on how equal values would be ordered. */
  lemma GetRanksOfDistinct(values: seq<real>, zeroIndexed: bool, i: int)
    requires 0 <= i < |values|
    requires forall a, b :: 0 <= a < |values| && 0 <= b < |values| && a != b ==> values[a] != values[b]
    ensures GetRanks(values, zeroIndexed)[i] == Offset(zeroIndexed) + CountLess(values, values[i])
  {
    PositionOfDistinct(values, i, |values|);
    assert values[..|values|] == values;
  }

  /** The docstring's example: [3, 7, 9, 1] ranks as [2, 3, 4, 1]. */
  lemma GetRanksExample(values: seq<real>)
    requires values == [3.0, 7.0, 9.0, 1.0]
    ensures GetRanks(values, false) == [2, 3, 4, 1]
  {
    var r := GetRanks(values, false);
    forall i | 0 <= i < 4 ensures r[i] == [2, 3, 4, 1][i] {
      GetRanksOfDistinct(values, false, i);
      CountLessOfFour(values, values[i]);
    }
  }

  lemma CountLessOfFour(s: seq<real>, x: real)
    requires |s| == 4
    ensures CountLess(s, x) ==
      (if s[0] < x then 1 else 0) + (if s[1] < x then 1 else 0) +
      (if s[2] < x then 1 else 0) + (if s[3] < x then 1 else 0)
  {
    var s3, s2, s1 := s[..3], s[..2], s[..1];
    assert s[..|s| - 1] == s3 && s3[..|s3| - 1] == s2 && s2[..|s2| - 1] == s1 && s1[..|s1| - 1] == [];
    assert CountLess(s1, x) == (if s[0] < x then 1 else 0);
    assert CountLess(s2, x) == CountLess(s1, x) + (if s[1] < x then 1 else 0);
    assert CountLess(s3, x) == CountLess(s2, x) + (if s[2] < x then 1 else 0);
  }

  /** The largest entry of a non-empty sequence of ranks (Python's `max`). */
  function MaxRank(ranks: seq<int>): (m: int)
    requires |ranks| > 0
    ensures m in ranks
    ensures forall i :: 0 <= i < |ranks| ==> ranks[i] <= m
  {
    if |ranks| == 1 then ranks[0]
    else
      var rest := MaxRank(ranks[1..]);
      assert forall i :: 1 <= i < |ranks| ==> ranks[i] == ranks[1..][i - 1];
      if ranks[0] >= rest then ranks[0] else rest
  }

  /** Ranks drawn from `lo..lo+n-1` that include `lo+n-1` have that as their maximum. */
  lemma MaxRankOfRange(ranks: seq<int>, lo: int, n: int)
    requires |ranks| > 0
    requires forall i :: 0 <= i < |ranks| ==> ranks[i] < lo + n
    requires lo + n - 1 in ranks
    ensures MaxRank(ranks) == lo + n - 1
  {
  }

  /** `confidence_ranks += max_confidence - max(confidence_ranks)`: every rank moves by
      the same amount, and the largest becomes `maxConfidence`. */
  function ShiftRanks(ranks: seq<int>, maxConfidence: int): (r: seq<int>)
    requires |ranks| > 0
    ensures |r| == |ranks|
    ensures forall i :: 0 <= i < |r| ==> r[i] - ranks[i] == maxConfidence - MaxRank(ranks)
    ensures maxConfidence in r
    ensures forall i :: 0 <= i < |r| ==> r[i] <= maxConfidence
  {
    var shift := maxConfidence - MaxRank(ranks);
    var r := seq(|ranks|, i requires 0 <= i < |ranks| => ranks[i] + shift);
    assert maxConfidence in r by {
      var k :| 0 <= k < |ranks| && ranks[k] == MaxRank(ranks);
      assert r[k] == maxConfidence;
    }
    r
  }

  /** The scripts' confidence scores: ranks shifted so the largest is `maxConfidence`.
      They are exactly the numbers `maxConfidence-n+1..maxConfidence`, each used once, and
      a larger value never gets a smaller score. */
  function ConfidenceScores(values: seq<real>, maxConfidence: int): (r: seq<int>)
    requires |values| > 0
    ensures |r| == |values|
    ensures forall i :: 0 <= i < |r| ==> maxConfidence - |values| < r[i] <= maxConfidence
    ensures forall i, j :: 0 <= i < |r| && 0 <= j < |r| && i != j ==> r[i] != r[j]
    ensures forall k :: maxConfidence - |values| < k <= maxConfidence ==> k in r
    ensures forall i, j :: 0 <= i < |r| && 0 <= j < |r| && values[i] < values[j] ==> r[i] < r[j]
  {
    ShiftedPermutation(values, GetRanks(values, false), maxConfidence);
    ShiftRanks(GetRanks(values, false), maxConfidence)
  }

  /** Shifting one-based ranks of `values` gives the block of scores ending at
      `maxConfidence`, in the same order. */
  lemma ShiftedPermutation(values: seq<real>, ranks: seq<int>, maxConfidence: int)
    requires |ranks| == |values| > 0
    requires forall i :: 0 <= i < |ranks| ==> 1 <= ranks[i] < 1 + |ranks|
    requires forall i, j :: 0 <= i < |ranks| && 0 <= j < |ranks| && i != j ==> ranks[i] != ranks[j]
    requires forall k :: 1 <= k < 1 + |ranks| ==> k in ranks
    requires forall i, j :: 0 <= i < |ranks| && 0 <= j < |ranks| && values[i] < values[j] ==> ranks[i] < ranks[j]
    ensures forall i :: 0 <= i < |ranks| ==>
      maxConfidence - |ranks| < ShiftRanks(ranks, maxConfidence)[i] <= maxConfidence
    ensures forall i, j :: 0 <= i < |ranks| && 0 <= j < |ranks| && i != j ==>
      ShiftRanks(ranks, maxConfidence)[i] != ShiftRanks(ranks, maxConfidence)[j]
    ensures forall k :: maxConfidence - |ranks| < k <= maxConfidence ==> k in ShiftRanks(ranks, maxConfidence)
    ensures forall i, j :: 0 <= i < |ranks| && 0 <= j < |ranks| && values[i] < values[j] ==>
      ShiftRanks(ranks, maxConfidence)[i] < ShiftRanks(ranks, maxConfidence)[j]
  {
    var n := |ranks|;
    MaxRankOfRange(ranks, 1, n);
    var r := ShiftRanks(ranks, maxConfidence);
    ShiftedRange(ranks, r, 1, n, maxConfidence - n);
  }

  /** Moving every entry by the same amount moves a covered range with it and keeps the
      entries' order. */
  lemma ShiftedRange(ranks: seq<int>, r: seq<int>, lo: int, n: int, shift: int)
    requires |r| == |ranks|
    requires forall i :: 0 <= i < |r| ==> r[i] == ranks[i] + shift
    requires forall k :: lo <= k < lo + n ==> k in ranks
    ensures forall k :: lo + shift <= k < lo + n + shift ==> k in r
    ensures forall i, j :: 0 <= i < |r| && 0 <= j < |r| ==> (r[i] < r[j] <==> ranks[i] < ranks[j])
    ensures forall i, j :: 0 <= i < |r| && 0 <= j < |r| ==> (r[i] == r[j] <==> ranks[i] == ranks[j])
  {
    forall k | lo + shift <= k < lo + n + shift ensures k in r {
      assert k - shift in ranks;
      var i :| 0 <= i < |ranks| && ranks[i] == k - shift;
      assert r[i] == k;
    }
  }

  /** After the shift it does not matter whether the ranks were zero-indexed. */
  lemma ShiftForgetsOffset(values: seq<real>, maxConfidence: int)
    requires |values| > 0
    ensures ShiftRanks(GetRanks(values, true), maxConfidence) == ShiftRanks(GetRanks(values, false), maxConfidence)
  {
    var n := |values|;
    var r0, r1 := GetRanks(values, true), GetRanks(values, false);
    MaxRankOfRange(r0, 0, n);
    MaxRankOfRange(r1, 1, n);
    var s0, s1 := ShiftRanks(r0, maxConfidence), ShiftRanks(r1, maxConfidence);
    forall i | 0 <= i < n ensures s0[i] == s1[i] {
      assert r1[i] == r0[i] + 1 by {
        assert r0[i] == Position(values, i);
      }
    }
  }

  /** With 4 games and a ceiling of 4, [3, 7, 9, 1] scores [2, 3, 4, 1]; with the
      scripts' default ceiling of 16 it scores [14, 15, 16, 13]. */
  lemma ConfidenceScoresExample(values: seq<real>)
    requires values == [3.0, 7.0, 9.0, 1.0]
    ensures ConfidenceScores(values, 4) == [2, 3, 4, 1]
    ensures ConfidenceScores(values, 16) == [14, 15, 16, 13]
  {
    GetRanksExample(values);
    ShiftExample(GetRanks(values, false));
  }

  lemma ShiftExample(ranks: seq<int>)
    requires ranks == [2, 3, 4, 1]
    ensures ShiftRanks(ranks, 4) == [2, 3, 4, 1]
    ensures ShiftRanks(ranks, 16) == [14, 15, 16, 13]
  {
    MaxRankOfRange(ranks, 1, 4);
    var r := ShiftRanks(ranks, 16);
    assert r[0] == 14 && r[1] == 15 && r[2] == 16 && r[3] == 13;
  }
}
