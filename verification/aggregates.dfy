/** The statistics the view model derives from a window snapshot: the
    current, lowest, highest and mean temperature, each absent (`null` in
    the source) when the window is empty. */
module Aggregates {
  import opened Wrappers
  import opened Window

  /** `m` is the smallest value in `w` and is attained by some reading. */
  ghost predicate IsLeast(m: real, w: seq<Reading>) {
    && (exists i :: 0 <= i < |w| && w[i].value == m)
    && (forall i :: 0 <= i < |w| ==> m <= w[i].value)
  }

  /** `m` is the largest value in `w` and is attained by some reading. */
  ghost predicate IsGreatest(m: real, w: seq<Reading>) {
    && (exists i :: 0 <= i < |w| && w[i].value == m)
    && (forall i :: 0 <= i < |w| ==> w[i].value <= m)
  }

  /** `currentTemp`: the value of the newest reading, `firstOrNull()?.value`. */
  function Current(w: seq<Reading>): (r: Option<real>)
    ensures r.None? <==> |w| == 0
    ensures r.Some? ==> r.value == w[0].value
  {
    if |w| == 0 then None else Some(w[0].value)
  }

  /** The loop of `minOfOrNull` after its first element: the running
      minimum `acc` is lowered by each later value that is smaller. */
  function MinFrom(acc: real, w: seq<Reading>): (m: real)
    ensures m <= acc
    ensures forall i :: 0 <= i < |w| ==> m <= w[i].value
    ensures m == acc || exists i :: 0 <= i < |w| && w[i].value == m
    decreases |w|
  {
    if |w| == 0 then acc
    else MinFrom(if w[0].value < acc then w[0].value else acc, w[1..])
  }

  /** The loop of `maxOfOrNull` after its first element. */
  function MaxFrom(acc: real, w: seq<Reading>): (m: real)
    ensures acc <= m
    ensures forall i :: 0 <= i < |w| ==> w[i].value <= m
    ensures m == acc || exists i :: 0 <= i < |w| && w[i].value == m
    decreases |w|
  {
    if |w| == 0 then acc
    else MaxFrom(if acc < w[0].value then w[0].value else acc, w[1..])
  }

  /** `minTemp`: `minOfOrNull { it.value }`. */
  function MinOf(w: seq<Reading>): (r: Option<real>)
    ensures r.None? <==> |w| == 0
    ensures r.Some? ==> IsLeast(r.value, w)
  {
    if |w| == 0 then None
    else
      var m := MinFrom(w[0].value, w[1..]);
      assert forall i :: 1 <= i < |w| ==> w[i] == w[1..][i - 1];
      Some(m)
  }

  /** `maxTemp`: `maxOfOrNull { it.value }`. */
  function MaxOf(w: seq<Reading>): (r: Option<real>)
    ensures r.None? <==> |w| == 0
    ensures r.Some? ==> IsGreatest(r.value, w)
  {
    if |w| == 0 then None
    else
      var m := MaxFrom(w[0].value, w[1..]);
      assert forall i :: 1 <= i < |w| ==> w[i] == w[1..][i - 1];
      Some(m)
  }

  /** Sum of the values of `w`. */
  function Sum(w: seq<Reading>): real
    decreases |w|
  {
    if |w| == 0 then 0.0 else w[0].value + Sum(w[1..])
  }

  /** `avgTemp`: `null` for the empty window, otherwise the mean value. */
  function Average(w: seq<Reading>): (r: Option<real>)
    ensures r.None? <==> |w| == 0
    ensures r.Some? ==> r.value * |w| as real == Sum(w)
  {
    if |w| == 0 then None else Some(Sum(w) / |w| as real)
  }

  /** The four published statistics of one window snapshot. */
  datatype Stats = Stats(current: Option<real>, min: Option<real>, max: Option<real>, average: Option<real>)

  function StatsOf(w: seq<Reading>): Stats {
    Stats(Current(w), MinOf(w), MaxOf(w), Average(w))
  }

  /** The sum of values lying in `[lo, hi]` lies in `[n * lo, n * hi]`. */
  lemma {:induction false} SumBounds(w: seq<Reading>, lo: real, hi: real)
    requires forall i :: 0 <= i < |w| ==> lo <= w[i].value <= hi
    ensures |w| as real * lo <= Sum(w) <= |w| as real * hi
    decreases |w|
  {
    if |w| > 0 {
      assert forall i :: 0 <= i < |w| - 1 ==> w[1..][i] == w[i + 1];
      SumBounds(w[1..], lo, hi);
    }
  }

  /** A quotient by a positive count stays within bounds scaled by it. */
  lemma QuotientBetween(s: real, n: real, lo: real, hi: real)
    requires n > 0.0
    requires n * lo <= s <= n * hi
    ensures lo <= s / n <= hi
  {
    var q := s / n;
    assert q * n == s;
  }

  /** The mean lies between the minimum and the maximum. */
  lemma AverageBetween(w: seq<Reading>)
    requires |w| > 0
    ensures MinOf(w).value <= Average(w).value <= MaxOf(w).value
  {
    var lo, hi, n := MinOf(w).value, MaxOf(w).value, |w| as real;
    assert lo <= Sum(w) / n <= hi by {
      SumBounds(w, lo, hi);
      QuotientBetween(Sum(w), n, lo, hi);
    }
    assert Average(w).value == Sum(w) / n;
  }

  /** Right after a push `currentTemp` is the value just pushed. */
  lemma CurrentAfterPush(w: seq<Reading>, r: Reading)
    ensures Current(Push(w, r)) == Some(r.value)
  {
  }

  /** Taken together: every statistic is absent iff the window is empty, and
      otherwise `min <= current <= max` and `min <= average <= max`. */
  lemma StatsConsistent(w: seq<Reading>)
    ensures StatsOf(w) == Stats(None, None, None, None) <==> |w| == 0
    ensures |w| > 0 ==>
      && StatsOf(w).current.Some? && StatsOf(w).min.Some?
      && StatsOf(w).max.Some? && StatsOf(w).average.Some?
      && StatsOf(w).min.value <= StatsOf(w).current.value <= StatsOf(w).max.value
      && StatsOf(w).min.value <= StatsOf(w).average.value <= StatsOf(w).max.value
  {
    if |w| > 0 {
      AverageBetween(w);
    }
  }

  /** Pushes of 70, 72 and 68 give the window [68, 72, 70] with current 68,
      minimum 68, maximum 72 and mean 70. */
  lemma ThreeReadings(t1: string, t2: string, t3: string)
    ensures var w := PushAll([], [Reading(70.0, t1), Reading(72.0, t2), Reading(68.0, t3)]);
      && w == [Reading(68.0, t3), Reading(72.0, t2), Reading(70.0, t1)]
      && StatsOf(w) == Stats(Some(68.0), Some(68.0), Some(72.0), Some(70.0))
  {
    var a, b, c := Reading(70.0, t1), Reading(72.0, t2), Reading(68.0, t3);
    var w := PushAll([], [a, b, c]);
    assert w == [c, b, a] by {
      FromEmptyIsSuffix([a, b, c]);
      assert [a, b, c][0..] == [a, b, c];
    }
    assert Sum([a]) == 70.0 by { assert [a][1..] == []; }
    assert Sum([b, a]) == 142.0 by { assert [b, a][1..] == [a]; }
    assert Sum(w) == 210.0 by { assert w[1..] == [b, a]; }
  }
}
