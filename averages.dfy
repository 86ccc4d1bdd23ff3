/**
 * The trailing simple moving average the trader computes over a product's
 * price history, with the facts about sums and averages that the trend
 * classification relies on.
 */
module Averages {

  function Min(a: int, b: int): int {
    if a <= b then a else b
  }

  function Sum(s: seq<real>): real {
    if s == [] then 0.0 else s[0] + Sum(s[1..])
  }

  lemma {:induction false} SumAppend(a: seq<real>, b: seq<real>)
    ensures Sum(a + b) == Sum(a) + Sum(b)
  {
    if a == [] {
      assert a + b == b;
    } else {
      assert (a + b)[1..] == a[1..] + b;
      SumAppend(a[1..], b);
    }
  }

  lemma {:induction false} SumAtLeast(s: seq<real>, lo: real)
    requires forall i :: 0 <= i < |s| ==> lo <= s[i]
    ensures |s| as real * lo <= Sum(s)
  {
    if s != [] {
      SumAtLeast(s[1..], lo);
    }
  }

  lemma {:induction false} SumAtMost(s: seq<real>, hi: real)
    requires forall i :: 0 <= i < |s| ==> s[i] <= hi
    ensures Sum(s) <= |s| as real * hi
  {
    if s != [] {
      SumAtMost(s[1..], hi);
    }
  }

  lemma {:induction false} SumBelow(s: seq<real>, hi: real)
    requires |s| > 0
    requires forall i :: 0 <= i < |s| ==> s[i] < hi
    ensures Sum(s) < |s| as real * hi
  {
    SumAtMost(s[1..], hi);
  }

  lemma {:induction false} SumAbove(s: seq<real>, lo: real)
    requires |s| > 0
    requires forall i :: 0 <= i < |s| ==> lo < s[i]
    ensures |s| as real * lo < Sum(s)
  {
    SumAtLeast(s[1..], lo);
  }

  /** The smallest element of a non-empty sequence. */
  function SeqMin(s: seq<real>): (m: real)
    requires |s| > 0
    ensures forall i :: 0 <= i < |s| ==> m <= s[i]
    ensures exists i :: 0 <= i < |s| && s[i] == m
  {
    if |s| == 1 then s[0]
    else
      var rest := SeqMin(s[1..]);
      assert forall i :: 1 <= i < |s| ==> s[i] == s[1..][i - 1];
      if s[0] <= rest then s[0] else rest
  }

  /** The largest element of a non-empty sequence. */
  function SeqMax(s: seq<real>): (m: real)
    requires |s| > 0
    ensures forall i :: 0 <= i < |s| ==> s[i] <= m
    ensures exists i :: 0 <= i < |s| && s[i] == m
  {
    if |s| == 1 then s[0]
    else
      var rest := SeqMax(s[1..]);
      assert forall i :: 1 <= i < |s| ==> s[i] == s[1..][i - 1];
      if s[0] >= rest then s[0] else rest
  }

  /** The last Min(windowSize, |prices|) prices, oldest first. */
  function TrailingWindow(prices: seq<real>, windowSize: int): (w: seq<real>)
    requires windowSize >= 0
    ensures |w| == Min(windowSize, |prices|)
  {
    prices[|prices| - Min(windowSize, |prices|)..]
  }

  /**
   * The mean of the trailing window of Min(windowSize, |prices|) prices, or 0
   * for an empty price list. A window of 0 on a non-empty list divides by zero
   * in the trader, so callers pass a window of at least 1.
   */
  function MovingAverage(prices: seq<real>, windowSize: int): (r: real)
    requires |prices| == 0 || windowSize >= 1
    ensures |prices| == 0 ==> r == 0.0
  {
    if |prices| == 0 then 0.0
    else Sum(TrailingWindow(prices, windowSize)) / Min(windowSize, |prices|) as real
  }

  /**
   * On a non-empty price list the average is the mean of the trailing
   * window: the window is the list's suffix of Min(windowSize, |prices|)
   * prices, and the average times that count is the window's sum.
   */
  lemma MovingAverageIsWindowMean(prices: seq<real>, windowSize: int)
    requires |prices| > 0 && windowSize >= 1
    ensures var w := TrailingWindow(prices, windowSize);
      && |w| == Min(windowSize, |prices|) > 0
      && prices == prices[..|prices| - |w|] + w
      && MovingAverage(prices, windowSize) * (|w| as real) == Sum(w)
  {
    var w := TrailingWindow(prices, windowSize);
    QuotientTimesDivisor(Sum(w), |w| as real);
  }

  /** The mean of a sequence whose every element is at least `lo` is at least `lo`. */
  lemma MeanAtLeast(s: seq<real>, lo: real)
    requires |s| > 0
    requires forall i :: 0 <= i < |s| ==> lo <= s[i]
    ensures lo <= Sum(s) / |s| as real
  {
    SumAtLeast(s, lo);
    LowerBoundOfQuotient(Sum(s), |s| as real, lo);
  }

  /** The mean of a sequence whose every element is at most `hi` is at most `hi`. */
  lemma MeanAtMost(s: seq<real>, hi: real)
    requires |s| > 0
    requires forall i :: 0 <= i < |s| ==> s[i] <= hi
    ensures Sum(s) / |s| as real <= hi
  {
    SumAtMost(s, hi);
    UpperBoundOfQuotient(Sum(s), |s| as real, hi);
  }

  /** The average lies between the smallest and the largest price of its window. */
  lemma AverageWithinWindow(prices: seq<real>, windowSize: int)
    requires |prices| > 0 && windowSize >= 1
    ensures var w := TrailingWindow(prices, windowSize);
      |w| > 0 && SeqMin(w) <= MovingAverage(prices, windowSize) <= SeqMax(w)
  {
    var w := TrailingWindow(prices, windowSize);
    assert MovingAverage(prices, windowSize) == Sum(w) / |w| as real;
    MeanAtLeast(w, SeqMin(w));
    MeanAtMost(w, SeqMax(w));
  }

  /** A trailing window of one repeated price averages to that price. */
  lemma AverageOfConstantWindow(prices: seq<real>, windowSize: int, p: real)
    requires |prices| > 0 && windowSize >= 1
    requires forall x :: x in TrailingWindow(prices, windowSize) ==> x == p
    ensures MovingAverage(prices, windowSize) == p
  {
    var w := TrailingWindow(prices, windowSize);
    AverageWithinWindow(prices, windowSize);
    assert SeqMin(w) in w && SeqMax(w) in w;
  }

  /**
   * When every price of `older` is below `m` and no price of `recent` is,
   * the mean of `recent` exceeds the mean of `older + recent`.
   */
  lemma RecentMeanAbove(older: seq<real>, recent: seq<real>, m: real)
    requires |older| > 0 && |recent| > 0
    requires forall i :: 0 <= i < |older| ==> older[i] < m
    requires forall j :: 0 <= j < |recent| ==> m <= recent[j]
    ensures Sum(older + recent) / (|older + recent| as real) < Sum(recent) / (|recent| as real)
  {
    SumAppend(older, recent);
    SumBelow(older, m);
    SumAtLeast(recent, m);
    MeanBelow(Sum(older), Sum(recent), |older| as real, |recent| as real, m);
  }

  /**
   * When every price of `older` is above `m` and no price of `recent` is,
   * the mean of `recent` is below the mean of `older + recent`.
   */
  lemma RecentMeanBelow(older: seq<real>, recent: seq<real>, m: real)
    requires |older| > 0 && |recent| > 0
    requires forall i :: 0 <= i < |older| ==> m < older[i]
    requires forall j :: 0 <= j < |recent| ==> recent[j] <= m
    ensures Sum(recent) / (|recent| as real) < Sum(older + recent) / (|older + recent| as real)
  {
    SumAppend(older, recent);
    SumAbove(older, m);
    SumAtMost(recent, m);
    MeanAbove(Sum(older), Sum(recent), |older| as real, |recent| as real, m);
  }

  // Facts about real quotients, kept apart from sequences so the solver sees only arithmetic.

  lemma LowerBoundOfQuotient(s: real, n: real, lo: real)
    requires n > 0.0 && n * lo <= s
    ensures lo <= s / n
  {
  }

  lemma UpperBoundOfQuotient(s: real, n: real, hi: real)
    requires n > 0.0 && s <= n * hi
    ensures s / n <= hi
  {
  }

  lemma QuotientTimesDivisor(s: real, n: real)
    requires n > 0.0
    ensures (s / n) * n == s
  {
  }

  lemma QuotientLess(x: real, nx: real, y: real, ny: real)
    requires nx > 0.0 && ny > 0.0
    requires x * ny < y * nx
    ensures x / nx < y / ny
  {
  }

  lemma MeanBelow(x: real, y: real, na: real, ns: real, m: real)
    requires na > 0.0 && ns > 0.0
    requires x < na * m && ns * m <= y
    ensures (x + y) / (na + ns) < y / ns
  {
    assert na * y >= na * (ns * m);
    assert ns * x < ns * (na * m);
    QuotientLess(x + y, na + ns, y, ns);
  }

  lemma MeanAbove(x: real, y: real, na: real, ns: real, m: real)
    requires na > 0.0 && ns > 0.0
    requires na * m < x && y <= ns * m
    ensures y / ns < (x + y) / (na + ns)
  {
    assert na * y <= na * (ns * m);
    assert ns * x > ns * (na * m);
    QuotientLess(y, ns, x + y, na + ns);
  }
}
