/** Integer and boolean sequence aggregates used by the placement constraints:
    the linear sums the model posts (sum of ops, sum of moved flags), value
    counts, and the max/min aggregations of the load-balance objective. */
module Seqs {

  /** Sum of a sequence of integers (a linear expression with unit coefficients). */
  function Sum(s: seq<int>): int
  {
    if |s| == 0 then 0 else s[0] + Sum(s[1..])
  }

  /** Number of true flags (a sum of boolean variables). */
  function CountTrue(s: seq<bool>): (c: nat)
    ensures c <= |s|
  {
    if |s| == 0 then 0 else (if s[0] then 1 else 0) + CountTrue(s[1..])
  }

  /** Number of positions of `s` holding `v`. */
  function CountOf(s: seq<int>, v: int): (c: nat)
    ensures c <= |s|
  {
    if |s| == 0 then 0 else (if s[0] == v then 1 else 0) + CountOf(s[1..], v)
  }

  /** Largest element of a non-empty sequence. */
  function Max(s: seq<int>): (m: int)
    requires |s| > 0
    ensures m in s
    ensures forall k :: 0 <= k < |s| ==> s[k] <= m
  {
    if |s| == 1 then s[0]
    else
      var rest := Max(s[1..]);
      if s[0] >= rest then s[0] else rest
  }

  /** Smallest element of a non-empty sequence. */
  function Min(s: seq<int>): (m: int)
    requires |s| > 0
    ensures m in s
    ensures forall k :: 0 <= k < |s| ==> m <= s[k]
  {
    if |s| == 1 then s[0]
    else
      var rest := Min(s[1..]);
      if s[0] <= rest then s[0] else rest
  }

  /** All flags set: the count is the length. */
  lemma {:induction false} CountTrueAll(s: seq<bool>)
    requires forall k :: 0 <= k < |s| ==> s[k]
    ensures CountTrue(s) == |s|
  {
    if |s| > 0 {
      assert forall k :: 0 <= k < |s[1..]| ==> s[1..][k] == s[k + 1];
      CountTrueAll(s[1..]);
    }
  }

  /** Every element lies in {-1, 0, 1}. */
  predicate UnitSteps(s: seq<int>)
  {
    forall k :: 0 <= k < |s| ==> -1 <= s[k] <= 1
  }

  /** Overwriting one position changes the sum by the difference. */
  lemma {:induction false} SumUpdate(s: seq<int>, i: int, v: int)
    requires 0 <= i < |s|
    ensures Sum(s[i := v]) == Sum(s) - s[i] + v
  {
    if i == 0 {
      assert s[i := v][1..] == s[1..];
    } else {
      assert s[i := v][1..] == s[1..][i - 1 := v];
      SumUpdate(s[1..], i - 1, v);
    }
  }

  /** Overwriting one position changes the count of `w` by at most one, as expected. */
  lemma {:induction false} CountOfUpdate(s: seq<int>, i: int, v: int, w: int)
    requires 0 <= i < |s|
    ensures CountOf(s[i := v], w)
         == CountOf(s, w) - (if s[i] == w then 1 else 0) + (if v == w then 1 else 0)
  {
    if i == 0 {
      assert s[i := v][1..] == s[1..];
    } else {
      assert s[i := v][1..] == s[1..][i - 1 := v];
      CountOfUpdate(s[1..], i - 1, v, w);
    }
  }

  /** A sequence of unit steps sums to its +1 count minus its -1 count. */
  lemma {:induction false} SumOfUnitSteps(s: seq<int>)
    requires UnitSteps(s)
    ensures Sum(s) == CountOf(s, 1) - CountOf(s, -1)
  {
    if |s| > 0 {
      assert UnitSteps(s[1..]) by {
        forall k | 0 <= k < |s[1..]| ensures -1 <= s[1..][k] <= 1 {
          assert s[1..][k] == s[k + 1];
        }
      }
      SumOfUnitSteps(s[1..]);
    }
  }

  /** An occurrence of `v` makes its count positive. */
  lemma {:induction false} CountOfPositive(s: seq<int>, v: int, k: int)
    requires 0 <= k < |s| && s[k] == v
    ensures CountOf(s, v) >= 1
  {
    if k > 0 {
      assert s[1..][k - 1] == v;
      CountOfPositive(s[1..], v, k - 1);
    }
  }

  /** Two distinct occurrences of `v` make its count at least two. */
  lemma {:induction false} CountOfTwo(s: seq<int>, v: int, i: int, j: int)
    requires 0 <= i < |s| && 0 <= j < |s| && i != j
    requires s[i] == v && s[j] == v
    ensures CountOf(s, v) >= 2
  {
    if i == 0 {
      assert s[1..][j - 1] == v;
      CountOfPositive(s[1..], v, j - 1);
    } else if j == 0 {
      assert s[1..][i - 1] == v;
      CountOfPositive(s[1..], v, i - 1);
    } else {
      assert s[1..][i - 1] == v && s[1..][j - 1] == v;
      CountOfTwo(s[1..], v, i - 1, j - 1);
    }
  }

  /** A positive count yields a position holding the value. */
  function IndexOf(s: seq<int>, v: int): (k: nat)
    requires CountOf(s, v) > 0
    ensures k < |s| && s[k] == v
  {
    if s[0] == v then 0 else 1 + IndexOf(s[1..], v)
  }

  /** A value that does not occur has count zero. */
  lemma {:induction false} CountOfNone(s: seq<int>, v: int)
    requires forall k :: 0 <= k < |s| ==> s[k] != v
    ensures CountOf(s, v) == 0
  {
    if |s| > 0 {
      assert forall k :: 0 <= k < |s[1..]| ==> s[1..][k] == s[k + 1];
      CountOfNone(s[1..], v);
    }
  }

  /** A zero count means the value does not occur. */
  lemma CountOfAbsent(s: seq<int>, v: int)
    requires CountOf(s, v) == 0
    ensures forall k :: 0 <= k < |s| ==> s[k] != v
  {
    forall k | 0 <= k < |s| ensures s[k] != v {
      if s[k] == v {
        CountOfPositive(s, v, k);
      }
    }
  }

  /** Counting true flags linked to the non-zero unit steps of `ops`. */
  lemma {:induction false} CountTrueOfNonZero(ops: seq<int>, flags: seq<bool>)
    requires |ops| == |flags| && UnitSteps(ops)
    requires forall k :: 0 <= k < |ops| ==> (flags[k] <==> ops[k] != 0)
    ensures CountTrue(flags) == CountOf(ops, 1) + CountOf(ops, -1)
  {
    if |ops| > 0 {
      assert UnitSteps(ops[1..]) by {
        forall k | 0 <= k < |ops[1..]| ensures -1 <= ops[1..][k] <= 1 {
          assert ops[1..][k] == ops[k + 1];
        }
      }
      forall k | 0 <= k < |ops[1..]| ensures flags[1..][k] <==> ops[1..][k] != 0 {
        assert flags[1..][k] == flags[k + 1] && ops[1..][k] == ops[k + 1];
      }
      CountTrueOfNonZero(ops[1..], flags[1..]);
    }
  }
}
