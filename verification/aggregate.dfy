/** Validation and summation over the parsed numbers: the ordered negatives
    and the sum of the values that are at most 1000. */
module Aggregate {

  /** The largest value that still contributes to the sum. */
  const MaxCounted: int := 1000

  predicate IsNegative(n: int) {
    n < 0
  }

  /** Whether the summing loop adds `n`: values above 1000 are skipped. */
  predicate Counted(n: int) {
    n <= MaxCounted
  }

  /** The elements of `xs` that satisfy `keep`, in their original order. */
  function Filter<T>(xs: seq<T>, keep: T -> bool): (ys: seq<T>)
    ensures |ys| <= |xs|
    ensures forall i | 0 <= i < |ys| :: keep(ys[i])
    ensures |ys| == 0 <==> forall i | 0 <= i < |xs| :: !keep(xs[i])
  {
    if |xs| == 0 then []
    else if keep(xs[0]) then [xs[0]] + Filter(xs[1..], keep)
    else Filter(xs[1..], keep)
  }

  /** Plain arithmetic sum. */
  function Total(ns: seq<int>): int {
    if |ns| == 0 then 0 else ns[0] + Total(ns[1..])
  }

  /** The negative values, in the order they appear. */
  function Negatives(ns: seq<int>): seq<int> {
    Filter(ns, IsNegative)
  }

  /** The sum of every value that is at most 1000, and of nothing else. */
  function Sum(ns: seq<int>): int {
    Total(Filter(ns, Counted))
  }

  /** How many of the values are negative, counted by position. */
  function NegativeCount(ns: seq<int>): nat {
    |set i | 0 <= i < |ns| && ns[i] < 0|
  }

  lemma {:induction false} FilterAppend<T>(a: seq<T>, b: seq<T>, keep: T -> bool)
    ensures Filter(a + b, keep) == Filter(a, keep) + Filter(b, keep)
  {
    if |a| == 0 {
      assert a + b == b;
    } else {
      assert (a + b)[1..] == a[1..] + b;
      FilterAppend(a[1..], b, keep);
    }
  }

  lemma {:induction false} TotalAppend(a: seq<int>, b: seq<int>)
    ensures Total(a + b) == Total(a) + Total(b)
  {
    if |a| == 0 {
      assert a + b == b;
    } else {
      assert (a + b)[1..] == a[1..] + b;
      TotalAppend(a[1..], b);
    }
  }

  /** The summing loop of the source: walk the values and add each one that is
      at most 1000. */
  method CalculateSum(ns: seq<int>) returns (sum: int)
    ensures sum == Sum(ns)
  {
    sum := 0;
    var i := 0;
    while i < |ns|
      invariant 0 <= i <= |ns|
      invariant sum == Sum(ns[..i])
    {
      assert ns[..i + 1] == ns[..i] + [ns[i]];
      SumSnoc(ns[..i], ns[i]);
      if ns[i] <= MaxCounted {
        sum := sum + ns[i];
      }
      i := i + 1;
    }
    assert ns[..i] == ns;
  }

  /** Appending one value adds it to the sum exactly when it is counted. */
  lemma SumSnoc(ns: seq<int>, n: int)
    ensures Sum(ns + [n]) == Sum(ns) + (if Counted(n) then n else 0)
  {
    FilterAppend(ns, [n], Counted);
    TotalAppend(Filter(ns, Counted), Filter([n], Counted));
  }

  /** Negatives of a concatenation keep the order of the parts. */
  lemma NegativesAppend(a: seq<int>, b: seq<int>)
    ensures Negatives(a + b) == Negatives(a) + Negatives(b)
  {
    FilterAppend(a, b, IsNegative);
  }

  /** The negatives are exactly the negative values: every reported value is
      negative and none is missing, one entry per negative position. */
  lemma {:induction false} NegativesCount(ns: seq<int>)
    ensures |Negatives(ns)| == NegativeCount(ns)
    ensures forall v :: v in Negatives(ns) <==> v in ns && v < 0
  {
    if |ns| > 0 {
      var p := ns[..|ns| - 1];
      var x := ns[|ns| - 1];
      assert ns == p + [x];
      NegativesAppend(p, [x]);
      NegativesCount(p);
      var before := set i | 0 <= i < |p| && p[i] < 0;
      var after := set i | 0 <= i < |ns| && ns[i] < 0;
      if x < 0 {
        assert after == before + {|p|};
      } else {
        assert after == before;
      }
    }
  }

  /** With every value in 0..1000 the result is the ordinary sum. */
  lemma {:induction false} SumOfSmallValues(ns: seq<int>)
    requires forall i | 0 <= i < |ns| :: 0 <= ns[i] <= MaxCounted
    ensures Sum(ns) == Total(ns)
  {
    if |ns| > 0 {
      SumOfSmallValues(ns[1..]);
    }
  }

  /** A value above 1000 changes nothing, wherever it stands. */
  lemma SumSkipsLarge(a: seq<int>, n: int, b: seq<int>)
    requires n > MaxCounted
    ensures Sum(a + [n] + b) == Sum(a + b)
  {
    FilterAppend(a + [n], b, Counted);
    FilterAppend(a, [n], Counted);
    FilterAppend(a, b, Counted);
    assert Filter([n], Counted) == [];
    assert Filter(a, Counted) + [] == Filter(a, Counted);
  }

  /** Without negatives the sum lies between 0 and 1000 per value. */
  lemma {:induction false} SumBounds(ns: seq<int>)
    requires Negatives(ns) == []
    ensures 0 <= Sum(ns) <= MaxCounted * |ns|
  {
    if |ns| > 0 {
      assert ns == [ns[0]] + ns[1..];
      NegativesAppend([ns[0]], ns[1..]);
      SumBounds(ns[1..]);
    }
  }
}
