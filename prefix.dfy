// Prefix sums and their inverse, the adjacent difference.
//
// `CompleteCumsum` is the meaning of both `_cumsum` (a Python loop over a list)
// and the fbgemm kernel `asynchronous_complete_cumsum` (`_to_offsets`): a list
// of n entries becomes n + 1 running totals starting at 0. `ToLengths` is
// `_to_lengths` (`offsets[1:] - offsets[:-1]`).

module Prefix {

  /** Sum of a sequence, accumulated from the back. */
  function Sum(s: seq<int>): int
  {
    if s == [] then 0 else Sum(s[..|s| - 1]) + s[|s| - 1]
  }

  predicate AllNonNeg(s: seq<int>)
  {
    forall i :: 0 <= i < |s| ==> s[i] >= 0
  }

  predicate NonDecreasing(s: seq<int>)
  {
    forall i, j :: 0 <= i <= j < |s| ==> s[i] <= s[j]
  }

  /** `[x] * n` */
  function Repeat<T>(x: T, n: nat): seq<T>
  {
    seq(n, _ => x)
  }

  /** Entry i is the sum of the first i entries of `o`; there are |o| + 1 entries. */
  function CompleteCumsum(o: seq<int>): seq<int>
  {
    seq(|o| + 1, i requires 0 <= i <= |o| => Sum(o[..i]))
  }

  /** `offsets[1:] - offsets[:-1]`; an empty tensor gives an empty tensor. */
  function ToLengths(offsets: seq<int>): seq<int>
  {
    if |offsets| == 0 then []
    else seq(|offsets| - 1, i requires 0 <= i < |offsets| - 1 => offsets[i + 1] - offsets[i])
  }

  /** `_cumsum`: fills `ret = [0] * (len(o) + 1)` with running totals in one pass. */
  method Cumsum(o: seq<int>) returns (r: seq<int>)
    ensures r == CompleteCumsum(o)
  {
    var ret := new int[|o| + 1](_ => 0);
    var i := 0;
    while i < |o|
      invariant 0 <= i <= |o|
      invariant forall j :: 0 <= j <= i ==> ret[j] == Sum(o[..j])
    {
      assert o[..i + 1][..i] == o[..i];
      ret[i + 1] := ret[i] + o[i];
      i := i + 1;
    }
    r := ret[..];
  }

  lemma {:induction false} SumConcat(a: seq<int>, b: seq<int>)
    ensures Sum(a + b) == Sum(a) + Sum(b)
  {
    if b != [] {
      var ab := a + b;
      assert ab[..|ab| - 1] == a + b[..|b| - 1];
      assert ab[|ab| - 1] == b[|b| - 1];
      SumConcat(a, b[..|b| - 1]);
      assert Sum(ab) == Sum(a + b[..|b| - 1]) + b[|b| - 1];
    } else {
      assert a + b == a;
    }
  }

  lemma SumStep(o: seq<int>, i: int)
    requires 0 <= i < |o|
    ensures Sum(o[..i + 1]) == Sum(o[..i]) + o[i]
  {
    assert o[..i + 1][..i] == o[..i];
  }

  lemma {:induction false} SumNonNeg(s: seq<int>)
    requires AllNonNeg(s)
    ensures Sum(s) >= 0
  {
    if s != [] {
      SumNonNeg(s[..|s| - 1]);
    }
  }

  /** The total of a window is a difference of two prefix sums. */
  lemma WindowSum(o: seq<int>, a: int, b: int)
    requires 0 <= a <= b <= |o|
    ensures Sum(o[a..b]) == CompleteCumsum(o)[b] - CompleteCumsum(o)[a]
  {
    assert o[..b] == o[..a] + o[a..b];
    SumConcat(o[..a], o[a..b]);
  }

  /** `_cumsum(o)` has |o|+1 entries, starts at 0, ends at sum(o), and its steps are `o`. */
  lemma CumsumShape(o: seq<int>)
    ensures |CompleteCumsum(o)| == |o| + 1
    ensures CompleteCumsum(o)[0] == 0
    ensures CompleteCumsum(o)[|o|] == Sum(o)
    ensures forall i :: 0 <= i < |o| ==> CompleteCumsum(o)[i + 1] - CompleteCumsum(o)[i] == o[i]
  {
    assert o[..|o|] == o;
    forall i | 0 <= i < |o|
      ensures CompleteCumsum(o)[i + 1] - CompleteCumsum(o)[i] == o[i]
    {
      SumStep(o, i);
    }
  }

  /** Lengths -> offsets -> lengths is the identity: `_to_lengths(_cumsum(l)) == l`. */
  lemma LengthsOfCumsum(l: seq<int>)
    ensures ToLengths(CompleteCumsum(l)) == l
  {
    CumsumShape(l);
    var d := ToLengths(CompleteCumsum(l));
    assert |d| == |l|;
    forall i | 0 <= i < |l|
      ensures d[i] == l[i]
    {
    }
  }

  /** Offsets that start at 0 are the prefix sums of their own adjacent differences. */
  lemma {:induction false} CumsumOfLengths(offsets: seq<int>)
    requires |offsets| >= 1 && offsets[0] == 0
    ensures CompleteCumsum(ToLengths(offsets)) == offsets
  {
    var l := ToLengths(offsets);
    CumsumShape(l);
    var i := 0;
    while i < |offsets| - 1
      invariant 0 <= i <= |offsets| - 1
      invariant forall j :: 0 <= j <= i ==> CompleteCumsum(l)[j] == offsets[j]
    {
      i := i + 1;
    }
  }

  /** The prefix sums start at 0 and end at the total. */
  lemma CumsumEnds(o: seq<int>)
    ensures |CompleteCumsum(o)| == |o| + 1
    ensures CompleteCumsum(o)[0] == 0 && CompleteCumsum(o)[|o|] == Sum(o)
  {
    assert o[..0] == [];
    assert o[..|o|] == o;
  }

  /** Consecutive prefix sums differ by one entry. */
  lemma CumsumStep(o: seq<int>, k: int)
    requires 0 <= k < |o|
    ensures CompleteCumsum(o)[k + 1] - CompleteCumsum(o)[k] == o[k]
  {
    SumStep(o, k);
  }

  /** Over non-negative entries, a later prefix sum is at least an earlier one. */
  lemma CumsumMonotone(o: seq<int>, i: int, j: int)
    requires AllNonNeg(o) && 0 <= i <= j <= |o|
    ensures CompleteCumsum(o)[i] <= CompleteCumsum(o)[j]
  {
    WindowSum(o, i, j);
    var w := o[i..j];
    assert AllNonNeg(w) by {
      forall k | 0 <= k < |w|
        ensures w[k] >= 0
      {
        assert w[k] == o[i + k];
      }
    }
    SumNonNeg(w);
  }

  /** Two prefix sums of non-negative entries, in order and between 0 and the total. */
  lemma CumsumAt(o: seq<int>, i: int, j: int)
    requires AllNonNeg(o) && 0 <= i <= j <= |o|
    ensures 0 <= CompleteCumsum(o)[i] <= CompleteCumsum(o)[j] <= Sum(o)
  {
    CumsumEnds(o);
    CumsumMonotone(o, 0, i);
    CumsumMonotone(o, i, j);
    CumsumMonotone(o, j, |o|);
  }

  /** Over non-negative entries, entry k's window `[cumsum[k], cumsum[k] + o[k]]` lies within `[0, sum(o)]`. */
  lemma CumsumSteps(o: seq<int>)
    requires AllNonNeg(o)
    ensures |CompleteCumsum(o)| == |o| + 1
    ensures forall k :: 0 <= k < |o| ==> 0 <= CompleteCumsum(o)[k] && CompleteCumsum(o)[k] + o[k] <= Sum(o)
  {
    forall k | 0 <= k < |o|
      ensures 0 <= CompleteCumsum(o)[k] && CompleteCumsum(o)[k] + o[k] <= Sum(o)
    {
      CumsumAt(o, k, k + 1);
      CumsumStep(o, k);
    }
  }

  /** Non-negative lengths give non-decreasing offsets bounded by the total. */
  lemma CumsumBounds(o: seq<int>)
    requires AllNonNeg(o)
    ensures forall i, j :: 0 <= i <= j <= |o| ==> 0 <= CompleteCumsum(o)[i] <= CompleteCumsum(o)[j] <= Sum(o)
  {
    forall i, j | 0 <= i <= j <= |o|
      ensures 0 <= CompleteCumsum(o)[i] <= CompleteCumsum(o)[j] <= Sum(o)
    {
      CumsumAt(o, i, j);
    }
  }

  /** Non-decreasing offsets have non-negative adjacent differences. */
  lemma LengthsNonNeg(offsets: seq<int>)
    requires NonDecreasing(offsets)
    ensures AllNonNeg(ToLengths(offsets))
  {
  }

  lemma {:induction false} SumRepeat(x: int, n: nat)
    ensures Sum(Repeat(x, n)) == x * n
  {
    if n > 0 {
      assert Repeat(x, n)[..n - 1] == Repeat(x, n - 1);
      SumRepeat(x, n - 1);
    }
  }
}
