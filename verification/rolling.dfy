/**
 The trailing rolling window of `Series.rolling(window=w, min_periods=1)`:
 output position `i` aggregates the inputs at positions
 `max(0, i - w + 1) .. i`, so the first positions use the shorter window
 that is available instead of producing no value.
 */
module Rolling {
  import opened Sums

  /** The window size of a CPU group of `n` rows, `max(n // 100, 1)`: one
      percent of the group, and never below one. */
  function WindowSize(n: nat): (w: nat)
    ensures w >= 1
    ensures n >= 1 ==> w <= n
    ensures n < 200 ==> w == 1
    ensures n >= 100 ==> 100 * w <= n < 100 * (w + 1)
  {
    var q := n / 100;
    if q >= 1 then q else 1
  }

  /** The first position of the trailing window that ends at `i`. */
  function WindowStart(i: nat, w: nat): (lo: nat)
    requires w >= 1
    ensures lo <= i
    ensures i - lo < w
    ensures lo == 0 || i - lo == w - 1
  {
    if i + 1 >= w then i + 1 - w else 0
  }

  /** The largest element of a non-empty sequence. */
  function MaxOf(s: seq<int>): (m: int)
    requires |s| > 0
    ensures m in s
    ensures forall k :: 0 <= k < |s| ==> s[k] <= m
  {
    if |s| == 1 then s[0]
    else
      var m := MaxOf(s[..|s| - 1]);
      assert m in s by {
        var k :| 0 <= k < |s| - 1 && s[..|s| - 1][k] == m;
        assert s[k] == m;
      }
      if s[|s| - 1] > m then s[|s| - 1] else m
  }

  /** The largest input of the trailing window that ends at `i`. */
  function WindowMax(xs: seq<int>, i: nat, w: nat): (m: int)
    requires w >= 1 && i < |xs|
    ensures forall k :: WindowStart(i, w) <= k <= i ==> xs[k] <= m
    ensures exists k :: WindowStart(i, w) <= k <= i && m == xs[k]
  {
    var lo := WindowStart(i, w);
    var window := xs[lo..i + 1];
    var m := MaxOf(window);
    assert forall k :: lo <= k <= i ==> xs[k] == window[k - lo];
    var j :| 0 <= j < |window| && window[j] == m;
    assert xs[lo + j] == m;
    m
  }

  /** `rolling(window=w, min_periods=1).max()`: each output is the largest
      input of its trailing window. */
  function RollingMax(xs: seq<int>, w: nat): (r: seq<int>)
    requires w >= 1
    ensures |r| == |xs|
    ensures forall i, k :: 0 <= i < |xs| && WindowStart(i, w) <= k <= i ==> xs[k] <= r[i]
    ensures forall i :: 0 <= i < |xs| ==> exists k :: WindowStart(i, w) <= k <= i && r[i] == xs[k]
  {
    var r := seq(|xs|, i requires 0 <= i < |xs| => WindowMax(xs, i, w));
    forall i | 0 <= i < |xs|
      ensures exists k :: WindowStart(i, w) <= k <= i && r[i] == xs[k]
    {
      var k :| WindowStart(i, w) <= k <= i && WindowMax(xs, i, w) == xs[k];
      assert r[i] == xs[k];
    }
    r
  }

  /** A window of one position does nothing. */
  lemma RollingMaxWindowOne(xs: seq<int>)
    ensures RollingMax(xs, 1) == xs
  {
    var r := RollingMax(xs, 1);
    forall i | 0 <= i < |xs|
      ensures r[i] == xs[i]
    {
      assert WindowStart(i, 1) == i;
      var k :| WindowStart(i, 1) <= k <= i && r[i] == xs[k];
    }
  }

  /** A constant series is its own rolling maximum, whatever the window. */
  lemma RollingMaxConstant(xs: seq<int>, c: int, w: nat)
    requires w >= 1
    requires forall k :: 0 <= k < |xs| ==> xs[k] == c
    ensures RollingMax(xs, w) == xs
  {
    var r := RollingMax(xs, w);
    forall i | 0 <= i < |xs|
      ensures r[i] == xs[i]
    {
      var k :| WindowStart(i, w) <= k <= i && r[i] == xs[k];
    }
  }

  /** The window maximum depends on the inputs inside the window only. */
  lemma WindowMaxLocal(xs: seq<int>, ys: seq<int>, i: nat, w: nat)
    requires w >= 1 && i < |xs| && i < |ys|
    requires forall k :: WindowStart(i, w) <= k <= i ==> xs[k] == ys[k]
    ensures WindowMax(xs, i, w) == WindowMax(ys, i, w)
  {
    var a := WindowMax(xs, i, w);
    var b := WindowMax(ys, i, w);
    var k :| WindowStart(i, w) <= k <= i && a == xs[k];
    var k' :| WindowStart(i, w) <= k' <= i && b == ys[k'];
    assert xs[k'] <= a && ys[k] <= b;
  }

  /** The window only looks backwards: the rolling maximum of a prefix is the
      prefix of the rolling maximum. */
  lemma RollingMaxPrefix(xs: seq<int>, n: nat, w: nat)
    requires w >= 1
    requires n <= |xs|
    ensures RollingMax(xs[..n], w) == RollingMax(xs, w)[..n]
  {
    forall i | 0 <= i < n
      ensures RollingMax(xs[..n], w)[i] == RollingMax(xs, w)[..n][i]
    {
      var ys := xs[..n];
      assert RollingMax(ys, w)[i] == WindowMax(ys, i, w);
      assert RollingMax(xs, w)[i] == WindowMax(xs, i, w);
      assert forall k :: WindowStart(i, w) <= k <= i ==> ys[k] == xs[k];
      WindowMaxLocal(ys, xs, i, w);
    }
  }

  /** A wider window never gives a smaller value. */
  lemma RollingMaxWiderWindow(xs: seq<int>, w1: nat, w2: nat)
    requires 1 <= w1 <= w2
    ensures forall i :: 0 <= i < |xs| ==> RollingMax(xs, w1)[i] <= RollingMax(xs, w2)[i]
  {
    var a := RollingMax(xs, w1);
    var b := RollingMax(xs, w2);
    forall i | 0 <= i < |xs|
      ensures a[i] <= b[i]
    {
      var k :| WindowStart(i, w1) <= k <= i && a[i] == xs[k];
      assert WindowStart(i, w2) <= WindowStart(i, w1);
    }
  }

  /** The sum of the trailing window ending at `i`. */
  function WindowSum(xs: seq<int>, i: nat, w: nat): int
    requires w >= 1 && i < |xs|
  {
    Sum(xs[WindowStart(i, w)..i + 1])
  }

  /** `rolling(window=w, min_periods=1).mean()`, with exact rational
      arithmetic: the window sum divided by the number of positions in it. */
  function RollingMean(xs: seq<int>, w: nat): (r: seq<real>)
    requires w >= 1
    ensures |r| == |xs|
  {
    seq(|xs|, i requires 0 <= i < |xs| =>
      (WindowSum(xs, i, w) as real) / ((i + 1 - WindowStart(i, w)) as real))
  }

  /** A constant series is its own rolling mean. */
  lemma RollingMeanConstant(xs: seq<int>, c: int, w: nat)
    requires w >= 1
    requires forall k :: 0 <= k < |xs| ==> xs[k] == c
    ensures forall i :: 0 <= i < |xs| ==> RollingMean(xs, w)[i] == c as real
  {
    forall i | 0 <= i < |xs|
      ensures RollingMean(xs, w)[i] == c as real
    {
      var lo := WindowStart(i, w);
      var n := i + 1 - lo;
      SumConstant(xs[lo..i + 1], c);
      assert (n * c) as real == (n as real) * (c as real);
    }
  }

  /** The mean of a window is at most its maximum. */
  lemma WindowMeanAtMostMax(xs: seq<int>, i: nat, w: nat)
    requires w >= 1 && i < |xs|
    ensures (WindowSum(xs, i, w) as real) / ((i + 1 - WindowStart(i, w)) as real)
            <= WindowMax(xs, i, w) as real
  {
    var lo := WindowStart(i, w);
    var m := WindowMax(xs, i, w);
    var window := xs[lo..i + 1];
    forall k | 0 <= k < |window|
      ensures window[k] <= m
    {
      assert window[k] == xs[lo + k];
    }
    SumAtMost(window, m);
    MeanBound(Sum(window), |window|, m);
  }

  /** The rolling mean never exceeds the rolling maximum of the same window. */
  lemma RollingMeanAtMostMax(xs: seq<int>, w: nat)
    requires w >= 1
    ensures forall i :: 0 <= i < |xs| ==> RollingMean(xs, w)[i] <= RollingMax(xs, w)[i] as real
  {
    forall i | 0 <= i < |xs|
      ensures RollingMean(xs, w)[i] <= RollingMax(xs, w)[i] as real
    {
      assert RollingMax(xs, w)[i] == WindowMax(xs, i, w);
      assert RollingMean(xs, w)[i]
          == (WindowSum(xs, i, w) as real) / ((i + 1 - WindowStart(i, w)) as real);
      WindowMeanAtMostMax(xs, i, w);
    }
  }

  /** Dividing a sum of at most `n * m` by `n` gives at most `m`. */
  lemma MeanBound(total: int, n: nat, m: int)
    requires n >= 1
    requires total <= n * m
    ensures (total as real) / (n as real) <= m as real
  {
    assert (n * m) as real == (n as real) * (m as real);
    assert total as real <= (n as real) * (m as real);
  }
}
