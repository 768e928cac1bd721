/** Outcomes of a callout, from retained candle closes only. */
module Outcomes {

  type Ms = int
  type Interval = nat

  const BASELINE_GRACE: Ms := 15 * 60_000
  const H1: Ms := 3_600_000
  const H24: Ms := 24 * H1
  const D7: Ms := 7 * H24

  datatype Option<T> = None | Some(value: T)

  datatype Point = Point(t: Ms, close: real)

  /** `fetchT` is when the series was last fetched: no later horizon can be judged from it. */
  datatype Series = Series(interval: Interval, fetchT: Ms, points: seq<Point>)

  datatype Outcome = Outcome(
    ret1h: Option<real>, ret24h: Option<real>, ret7d: Option<real>,
    maxMultiple: Option<real>, drawdown: Option<real>, dead: Option<bool>)

  ghost predicate Increasing(points: seq<Point>)
  {
    forall i, j :: 0 <= i < j < |points| ==> points[i].t < points[j].t
  }

  // ---------------------------------------------------------------- drawdown

  ghost predicate NonNegative(closes: seq<real>)
  {
    forall i :: 0 <= i < |closes| ==> closes[i] >= 0.0
  }

  /** The fall from an earlier peak (or the baseline, position 0) to a later close. */
  ghost predicate IsFall(base: real, closes: seq<real>, i: nat, q: nat, f: real)
  {
    q < |closes| && i <= q + 1 && ([base] + closes)[i] > 0.0 && f == Fall(([base] + closes)[i], closes[q])
  }

  function Fall(peak: real, close: real): real
    requires peak > 0.0
  {
    (peak - close) / peak
  }

  /** The largest fall over all pairs of an earlier peak and a later close; 0 if none is positive. */
  ghost predicate IsMaxDrawdown(base: real, closes: seq<real>, dd: real)
  {
    && (forall i: nat, q: nat, f :: IsFall(base, closes, i, q, f) ==> f <= dd)
    && (dd == 0.0 || exists i: nat, q: nat :: IsFall(base, closes, i, q, dd))
  }

  lemma FallGrows(p: real, q: real, close: real)
    requires 0.0 < p <= q && close >= 0.0
    ensures Fall(p, close) <= Fall(q, close)
  {
    OneMinus(p, close);
    OneMinus(q, close);
    Shrinks(p, q, close);
  }

  lemma OneMinus(p: real, close: real)
    requires p > 0.0
    ensures Fall(p, close) == 1.0 - close / p
  {
    assert (p - close) / p == p / p - close / p;
  }

  lemma Shrinks(p: real, q: real, close: real)
    requires 0.0 < p <= q && close >= 0.0
    ensures close / q <= close / p
  {
    var x, y := close / p, close / q;
    assert x * p == close && y * q == close && y >= 0.0;
    assert y * p <= y * q;
    assert y > x ==> y * p > x * p;
  }

  lemma FallBounds(p: real, close: real)
    requires p > 0.0
    ensures Fall(p, close) <= 1.0 <==> close >= 0.0
    ensures close <= p ==> Fall(p, close) >= 0.0
  {
    OneMinus(p, close);
    var x := close / p;
    assert x * p == close;
    assert x < 0.0 ==> x * p < 0.0;
    assert x >= 0.0 ==> x * p >= 0.0;
    assert x > 1.0 ==> x * p > p;
  }

  /** Running peak and largest fall so far. */
  function Running(base: real, closes: seq<real>): (r: (real, real))
    requires base > 0.0
    ensures r.0 > 0.0
  {
    if closes == [] then (base, 0.0) else Next(Running(base, closes[..|closes| - 1]), closes[|closes| - 1])
  }

  function Next(s: (real, real), close: real): (r: (real, real))
    requires s.0 > 0.0
    ensures r.0 > 0.0
  {
    var top := if close > s.0 then close else s.0;
    (top, if Fall(top, close) > s.1 then Fall(top, close) else s.1)
  }

  lemma {:induction false} RunningSnoc(base: real, closes: seq<real>, n: nat)
    requires base > 0.0 && n < |closes|
    ensures Running(base, closes[..n + 1]) == Next(Running(base, closes[..n]), closes[n])
  {
    assert closes[..n + 1][..n] == closes[..n];
  }

  /** No positive close precedes a negative one. */
  ghost predicate Orderly(closes: seq<real>)
  {
    forall i, j :: 0 <= i < j < |closes| && closes[i] > 0.0 ==> closes[j] >= 0.0
  }

  ghost predicate FallsBounded(base: real, closes: seq<real>, n: nat, dd: real)
  {
    forall i: nat, q: nat, f :: IsFall(base, closes, i, q, f) && q < n ==> f <= dd
  }

  ghost predicate IsPeak(base: real, closes: seq<real>, n: nat, peak: real)
    requires n <= |closes|
  {
    && (exists at :: 0 <= at <= n && peak == ([base] + closes)[at])
    && forall i :: 0 <= i <= n ==> ([base] + closes)[i] <= peak
  }

  /** What the running pair says of the first `n` closes. */
  lemma {:induction false} RunningIs(base: real, closes: seq<real>, n: nat)
    requires base > 0.0 && n <= |closes|
    ensures var (peak, dd) := Running(base, closes[..n]);
      && IsPeak(base, closes, n, peak) && dd >= 0.0 && (dd <= 1.0 <==> NonNegative(closes[..n]))
      && (Orderly(closes) ==> FallsBounded(base, closes, n, dd))
      && (dd == 0.0 || exists i: nat, q: nat :: IsFall(base, closes, i, q, dd))
  {
    if n == 0 {
      assert ([base] + closes)[0] == base;
    } else {
      RunningIs(base, closes, n - 1);
      RunningSnoc(base, closes, n - 1);
      assert closes[..n] == closes[..n - 1] + [closes[n - 1]];
      NextIs(base, closes, n - 1, Running(base, closes[..n - 1]).0, Running(base, closes[..n - 1]).1);
    }
  }

  lemma NextIs(base: real, closes: seq<real>, n: nat, peak: real, dd: real)
    requires base > 0.0 && n < |closes| && peak > 0.0 && IsPeak(base, closes, n, peak) && dd >= 0.0
    requires Orderly(closes) ==> FallsBounded(base, closes, n, dd)
    requires dd == 0.0 || exists i: nat, q: nat :: IsFall(base, closes, i, q, dd)
    ensures var (top, next) := Next((peak, dd), closes[n]);
      && IsPeak(base, closes, n + 1, top) && next >= 0.0 && (next <= 1.0 <==> dd <= 1.0 && closes[n] >= 0.0)
      && (Orderly(closes) ==> FallsBounded(base, closes, n + 1, next))
      && (next == 0.0 || exists i: nat, q: nat :: IsFall(base, closes, i, q, next))
  {
    var close := closes[n];
    var (top, next) := Next((peak, dd), close);
    assert ([base] + closes)[n + 1] == close;
    var at := PeakPosition(base, closes, n, peak, top);
    assert IsFall(base, closes, at, n, Fall(top, close));
    FallBounds(top, close);
    if Orderly(closes) {
      forall i: nat, g | IsFall(base, closes, i, n, g)
        ensures g <= Fall(top, close)
      {
        OrderlyFall(base, closes, n, at, i, top);
      }
    }
  }

  lemma PeakPosition(base: real, closes: seq<real>, n: nat, peak: real, top: real) returns (at: nat)
    requires n < |closes| && IsPeak(base, closes, n, peak) && top == if closes[n] > peak then closes[n] else peak
    ensures at <= n + 1 && top == ([base] + closes)[at] && IsPeak(base, closes, n + 1, top)
  {
    assert ([base] + closes)[n + 1] == closes[n];
    if closes[n] > peak {
      at := n + 1;
    } else {
      var k :| 0 <= k <= n && peak == ([base] + closes)[k];
      at := k;
    }
  }

  lemma OrderlyFall(base: real, closes: seq<real>, n: nat, at: nat, i: nat, top: real)
    requires base > 0.0 && n < |closes| && Orderly(closes) && at <= n + 1 && top == ([base] + closes)[at]
    requires IsPeak(base, closes, n + 1, top) && top > 0.0 && i <= n + 1 && ([base] + closes)[i] > 0.0
    ensures Fall(([base] + closes)[i], closes[n]) <= Fall(top, closes[n])
  {
    var peaks := [base] + closes;
    assert peaks[0] == base && forall k :: 0 < k < |peaks| ==> peaks[k] == closes[k - 1];
    if closes[n] >= 0.0 {
      FallGrows(peaks[i], top, closes[n]);
    }
  }

  /** One pass with a running peak finds the maximum over all pairs as long as no positive close
      precedes a negative one. The result is never negative, and stays within 1 exactly when no
      close is negative. */
  method MaxDrawdown(base: real, closes: seq<real>) returns (dd: real)
    requires base > 0.0
    ensures dd == Running(base, closes).1
    ensures dd >= 0.0 && (dd <= 1.0 <==> NonNegative(closes))
    ensures Orderly(closes) ==> IsMaxDrawdown(base, closes, dd)
  {
    var peak := base;
    dd := 0.0;
    for n := 0 to |closes|
      invariant (peak, dd) == Running(base, closes[..n]) && peak > 0.0
    {
      RunningSnoc(base, closes, n);
      if closes[n] > peak {
        peak := closes[n];
      }
      var f := Fall(peak, closes[n]);
      if f > dd {
        dd := f;
      }
    }
    assert closes[..|closes|] == closes;
    RunningIs(base, closes, |closes|);
  }

  // ---------------------------------------------------------------- exactly when it is the maximum

  ghost predicate Within(closes: seq<real>, bound: real)
  {
    forall i :: 0 <= i < |closes| ==> -bound <= closes[i] <= bound
  }

  lemma {:induction false} BoundOf(closes: seq<real>) returns (bound: real)
    ensures bound > 0.0 && Within(closes, bound)
    decreases |closes|
  {
    if closes == [] {
      bound := 1.0;
    } else {
      var n := |closes| - 1;
      var less := BoundOf(closes[..n]);
      var last := if closes[n] >= 0.0 then closes[n] else -closes[n];
      bound := if last > less then last else less;
      assert forall i :: 0 <= i < n ==> closes[..n][i] == closes[i];
    }
  }

  /** From a baseline above every close the peak stays there, and no fall is far above 1. */
  lemma {:induction false} HighBaseline(base: real, closes: seq<real>, bound: real)
    requires base > 0.0 && 0.0 < bound <= base && Within(closes, bound)
    ensures Running(base, closes).0 == base && Running(base, closes).1 <= 1.0 + bound / base
    decreases |closes|
  {
    Quotient(0.0, bound, base);
    if closes != [] {
      var n := |closes| - 1;
      assert forall i :: 0 <= i < n ==> closes[..n][i] == closes[i];
      HighBaseline(base, closes[..n], bound);
      OneMinus(base, closes[n]);
      Quotient(-closes[n], bound, base);
      Opposite(closes[n], base);
    }
  }

  lemma Opposite(x: real, y: real)
    requires y > 0.0
    ensures -x / y == -(x / y)
  {
    var q, r := x / y, -x / y;
    assert q * y == x && r * y == -x;
    assert (q + r) * y == 0.0;
  }

  lemma Quotient(x: real, y: real, base: real)
    requires x <= y && base > 0.0
    ensures x / base <= y / base
  {
    var a, b := x / base, y / base;
    assert a * base == x && b * base == y;
    assert a > b ==> a * base > b * base;
  }

  /** A positive close before a negative one: from a baseline high enough the fall between the two
      exceeds everything the loop sees. */
  lemma DisorderShows(closes: seq<real>, i: nat, j: nat) returns (base: real)
    requires i < j < |closes| && closes[i] > 0.0 && closes[j] < 0.0
    ensures base > 0.0 && !IsMaxDrawdown(base, closes, Running(base, closes).1)
  {
    var bound := BoundOf(closes);
    var ratio := -closes[j] / closes[i];
    RatioPositive(-closes[j], closes[i]);
    RatioPositive(bound, ratio);
    base := bound / ratio + bound;
    HighBaseline(base, closes, bound);
    SmallShare(bound, ratio, base);
    FallIsRatio(closes[i], closes[j], ratio);
    WorsePair(base, closes, i, j, Running(base, closes).1);
  }

  lemma FallIsRatio(peak: real, close: real, ratio: real)
    requires peak > 0.0 && ratio == -close / peak
    ensures Fall(peak, close) == 1.0 + ratio
  {
    OneMinus(peak, close);
    Opposite(close, peak);
  }

  lemma WorsePair(base: real, closes: seq<real>, i: nat, j: nat, dd: real)
    requires i < j < |closes| && closes[i] > 0.0 && dd < Fall(closes[i], closes[j])
    ensures !IsMaxDrawdown(base, closes, dd)
  {
    assert ([base] + closes)[i + 1] == closes[i];
    assert IsFall(base, closes, i + 1, j, Fall(closes[i], closes[j]));
  }

  lemma RatioPositive(x: real, y: real)
    requires x > 0.0 && y > 0.0
    ensures x / y > 0.0
  {
    var q := x / y;
    assert q * y == x;
    assert q <= 0.0 ==> q * y <= 0.0;
  }

  lemma SmallShare(bound: real, ratio: real, base: real)
    requires bound > 0.0 && ratio > 0.0 && base > bound / ratio && base > 0.0
    ensures bound / base < ratio
  {
    var q, s := bound / ratio, bound / base;
    assert q * ratio == bound && s * base == bound;
    assert s >= ratio ==> s * base >= ratio * base;
    assert ratio * base > ratio * q;
  }

  /** A close below zero after one above the baseline: the running peak is not the worst one. */
  lemma NegativeClosesBreakPairs()
    ensures !IsMaxDrawdown(1.0, [2.0, -1.0], Running(1.0, [2.0, -1.0]).1)
  {
    var closes := [2.0, -1.0];
    assert closes[..1] == [2.0] && [2.0][..0] == [];
    assert Running(1.0, [2.0]) == (2.0, 0.0);
    assert Running(1.0, closes).1 == 1.5;
    assert IsFall(1.0, closes, 0, 1, 2.0);
  }

  /** The loop's result is the maximum over all pairs for every baseline exactly when no positive
      close precedes a negative one. */
  lemma DrawdownExactIff(closes: seq<real>)
    ensures (forall base :: base > 0.0 ==> IsMaxDrawdown(base, closes, Running(base, closes).1)) <==> Orderly(closes)
  {
    if Orderly(closes) {
      forall base | base > 0.0
        ensures IsMaxDrawdown(base, closes, Running(base, closes).1)
      {
        RunningIs(base, closes, |closes|);
        assert closes[..|closes|] == closes;
      }
    } else {
      var i, j :| 0 <= i < j < |closes| && closes[i] > 0.0 && closes[j] < 0.0;
      var base := DisorderShows(closes, i, j);
    }
  }

  // ---------------------------------------------------------------- reading a series

  /** The last listed close at or before `t`. */
  function CloseAt(points: seq<Point>, t: Ms): Option<real>
  {
    if points == [] then None
    else
      var n := |points| - 1;
      if points[n].t <= t then Some(points[n].close) else CloseAt(points[..n], t)
  }

  /** The first listed close in `(from, to]`. */
  function FirstIn(points: seq<Point>, from: Ms, to: Ms): Option<real>
  {
    if points == [] then None
    else if from < points[0].t <= to then Some(points[0].close)
    else FirstIn(points[1..], from, to)
  }

  function Baseline(points: seq<Point>, event: Ms): Option<real>
  {
    var before := CloseAt(points, event);
    if before.Some? then before else FirstIn(points, event, event + BASELINE_GRACE)
  }

  function Ret(s: Series, event: Ms, horizon: Ms): Option<real>
  {
    if s.fetchT < event + horizon then None
    else
      var base, close := Baseline(s.points, event), CloseAt(s.points, event + horizon);
      if base.None? || close.None? || base.value <= 0.0 then None else Some(close.value / base.value - 1.0)
  }

  /** On an increasing series that close is the one whose candle covers `t`. */
  lemma {:induction false} CloseAtIsLast(points: seq<Point>, t: Ms)
    requires Increasing(points)
    ensures CloseAt(points, t).None? <==> forall i :: 0 <= i < |points| ==> points[i].t > t
    ensures forall i :: 0 <= i < |points| && points[i].t <= t && (i + 1 == |points| || points[i + 1].t > t) ==>
      CloseAt(points, t) == Some(points[i].close)
    decreases |points|
  {
    if points != [] {
      var n := |points| - 1;
      CloseAtIsLast(points[..n], t);
      if points[n].t > t {
        forall i | 0 <= i < |points| && points[i].t <= t && (i + 1 == |points| || points[i + 1].t > t)
          ensures CloseAt(points, t) == Some(points[i].close)
        {
          assert i < n && points[..n][i] == points[i];
          assert i + 1 < n ==> points[..n][i + 1] == points[i + 1];
        }
      }
    }
  }

  lemma {:induction false} CloseAtIgnoresLater(points: seq<Point>, more: seq<Point>, t: Ms)
    requires forall i :: 0 <= i < |more| ==> more[i].t > t
    ensures CloseAt(points + more, t) == CloseAt(points, t)
    decreases |more|
  {
    if more == [] {
      assert points + more == points;
    } else {
      var n := |more| - 1;
      assert (points + more)[..|points + more| - 1] == points + more[..n];
      CloseAtIgnoresLater(points, more[..n], t);
    }
  }

  lemma {:induction false} FirstInIgnoresLater(points: seq<Point>, more: seq<Point>, from: Ms, to: Ms)
    requires forall i :: 0 <= i < |more| ==> more[i].t > to
    ensures FirstIn(points + more, from, to) == FirstIn(points, from, to)
    decreases |points| + |more|
  {
    if points != [] {
      assert (points + more)[1..] == points[1..] + more;
      FirstInIgnoresLater(points[1..], more, from, to);
    } else if more != [] {
      assert points + more == more && points + more[1..] == more[1..];
      FirstInIgnoresLater(points, more[1..], from, to);
    }
  }

  /** A return, once judgeable, is final: candles after its horizon never change it. */
  lemma ReturnIsFinal(s: Series, more: seq<Point>, fetchT: Ms, event: Ms, horizon: Ms)
    requires horizon >= BASELINE_GRACE && event + horizon <= s.fetchT <= fetchT
    requires forall i :: 0 <= i < |more| ==> more[i].t > event + horizon
    ensures Ret(Series(s.interval, fetchT, s.points + more), event, horizon) == Ret(s, event, horizon)
  {
    CloseAtIgnoresLater(s.points, more, event);
    CloseAtIgnoresLater(s.points, more, event + horizon);
    FirstInIgnoresLater(s.points, more, event, event + BASELINE_GRACE);
  }

  // ---------------------------------------------------------------- the outcome

  function InsertSeries(s: Series, r: seq<Series>): (q: seq<Series>)
    ensures multiset(q) == multiset(r) + multiset{s}
  {
    if r == [] || s.interval <= r[0].interval then [s] + r
    else
      assert r == [r[0]] + r[1..];
      [r[0]] + InsertSeries(s, r[1..])
  }

  /** `sorted` by interval, ties in order. */
  function ByInterval(series: seq<Series>): (q: seq<Series>)
    ensures multiset(q) == multiset(series)
  {
    if series == [] then []
    else
      assert series == [series[0]] + series[1..];
      InsertSeries(series[0], ByInterval(series[1..]))
  }

  lemma {:induction false} InsertSeriesMembers(s: Series, r: seq<Series>)
    ensures forall x :: x in InsertSeries(s, r) <==> x == s || x in r
    decreases |r|
  {
    if !(r == [] || s.interval <= r[0].interval) {
      InsertSeriesMembers(s, r[1..]);
      assert r == [r[0]] + r[1..];
    }
  }

  lemma ConsFinest(s: Series, r: seq<Series>)
    requires Finest(r) && forall x :: x in r ==> s.interval <= x.interval
    ensures Finest([s] + r)
  {
    assert forall i :: 0 <= i < |r| ==> r[i] in r;
  }

  lemma {:induction false} InsertSeriesSorted(s: Series, r: seq<Series>)
    requires Finest(r)
    ensures Finest(InsertSeries(s, r))
    decreases |r|
  {
    if r == [] || s.interval <= r[0].interval {
      ConsFinest(s, r);
    } else {
      InsertSeriesSorted(s, r[1..]);
      InsertSeriesMembers(s, r[1..]);
      assert forall x :: x in r[1..] ==> r[0].interval <= x.interval;
      ConsFinest(r[0], InsertSeries(s, r[1..]));
    }
  }

  ghost predicate Finest(r: seq<Series>)
  {
    forall i, j :: 0 <= i < j < |r| ==> r[i].interval <= r[j].interval
  }

  lemma {:induction false} ByIntervalSorted(series: seq<Series>)
    ensures Finest(ByInterval(series))
    decreases |series|
  {
    if series != [] {
      ByIntervalSorted(series[1..]);
      InsertSeriesSorted(series[0], ByInterval(series[1..]));
    }
  }

  function FirstRet(series: seq<Series>, event: Ms, horizon: Ms): Option<real>
  {
    if series == [] then None
    else
      var r := Ret(series[0], event, horizon);
      if r.Some? then r else FirstRet(series[1..], event, horizon)
  }

  /** The finest interval that can answer, answers. */
  lemma {:induction false} FinestAnswers(series: seq<Series>, event: Ms, horizon: Ms, k: nat)
    requires k < |series| && Ret(series[k], event, horizon).Some?
    requires forall i :: 0 <= i < k ==> Ret(series[i], event, horizon).None?
    ensures FirstRet(series, event, horizon) == Ret(series[k], event, horizon)
    decreases |series|
  {
    if k > 0 {
      FinestAnswers(series[1..], event, horizon, k - 1);
    }
  }

  lemma {:induction false} NobodyAnswers(series: seq<Series>, event: Ms, horizon: Ms)
    ensures FirstRet(series, event, horizon).None? <==> forall i :: 0 <= i < |series| ==>
      Ret(series[i], event, horizon).None?
    decreases |series|
  {
    if series != [] {
      NobodyAnswers(series[1..], event, horizon);
      assert series == [series[0]] + series[1..];
    }
  }

  /** The answer of a finest series that has one; none if no series has. */
  ghost predicate IsFinestAnswer(series: seq<Series>, event: Ms, horizon: Ms, r: Option<real>)
  {
    && (r.None? <==> forall s :: s in series ==> Ret(s, event, horizon).None?)
    && (r.Some? ==> exists s :: FinestOf(series, event, horizon, s) && Ret(s, event, horizon) == r)
  }

  ghost predicate FinestOf(series: seq<Series>, event: Ms, horizon: Ms, s: Series)
  {
    s in series && forall o :: o in series && Ret(o, event, horizon).Some? ==> s.interval <= o.interval
  }

  lemma FirstRetIsFinest(series: seq<Series>, event: Ms, horizon: Ms)
    ensures IsFinestAnswer(series, event, horizon, FirstRet(ByInterval(series), event, horizon))
  {
    var sorted := ByInterval(series);
    SameMembers(series, sorted);
    ByIntervalSorted(series);
    NobodyAnswers(sorted, event, horizon);
    if FirstRet(sorted, event, horizon).Some? {
      var k := FirstAnswering(sorted, event, horizon);
      FinestAnswers(sorted, event, horizon, k);
      forall o | o in series && Ret(o, event, horizon).Some?
        ensures sorted[k].interval <= o.interval
      {
        assert o in sorted;
        var j :| 0 <= j < |sorted| && sorted[j] == o;
        assert k == j || k < j;
      }
      assert sorted[k] in sorted;
      assert FinestOf(series, event, horizon, sorted[k]);
    } else {
      forall s | s in series ensures Ret(s, event, horizon).None? {
        assert s in sorted;
      }
    }
  }

  lemma {:induction false} FirstAnswering(series: seq<Series>, event: Ms, horizon: Ms) returns (k: nat)
    requires FirstRet(series, event, horizon).Some?
    ensures k < |series| && Ret(series[k], event, horizon).Some?
    ensures forall i :: 0 <= i < k ==> Ret(series[i], event, horizon).None?
    decreases |series|
  {
    if Ret(series[0], event, horizon).Some? {
      k := 0;
    } else {
      k := FirstAnswering(series[1..], event, horizon);
      k := k + 1;
    }
  }

  function Gated(series: seq<Series>, event: Ms): (g: seq<Series>)
    ensures forall s :: s in g <==> s in series && s.fetchT >= event + D7
  {
    if series == [] then []
    else
      assert series == [series[0]] + series[1..];
      (if series[0].fetchT >= event + D7 then [series[0]] else []) + Gated(series[1..], event)
  }

  function Reach(s: Series): int
  {
    if s.points == [] then 0 else s.points[|s.points| - 1].t - s.points[0].t
  }

  function Window(points: seq<Point>, event: Ms): (w: seq<Point>)
    ensures forall p :: p in w <==> p in points && event <= p.t <= event + D7
  {
    if points == [] then []
    else
      assert points == [points[0]] + points[1..];
      (if event <= points[0].t <= event + D7 then [points[0]] else []) + Window(points[1..], event)
  }

  function Closes(points: seq<Point>): (r: seq<real>)
    ensures |r| == |points| && forall i :: 0 <= i < |r| ==> r[i] == points[i].close
  {
    seq(|points|, i requires 0 <= i < |points| => points[i].close)
  }

  /** `max(gated, key=reach)`: the first of the widest. */
  method Widest(gated: seq<Series>) returns (k: nat)
    requires gated != []
    ensures k < |gated|
    ensures forall i :: 0 <= i < |gated| ==> Reach(gated[i]) <= Reach(gated[k])
    ensures forall i :: 0 <= i < k ==> Reach(gated[i]) < Reach(gated[k])
  {
    k := 0;
    for n := 1 to |gated|
      invariant k < n
      invariant forall i :: 0 <= i < n ==> Reach(gated[i]) <= Reach(gated[k])
      invariant forall i :: 0 <= i < k ==> Reach(gated[i]) < Reach(gated[k])
    {
      if Reach(gated[n]) > Reach(gated[k]) {
        k := n;
      }
    }
  }

  method MaxClose(closes: seq<real>) returns (m: real)
    requires closes != []
    ensures m in closes && forall i :: 0 <= i < |closes| ==> closes[i] <= m
  {
    m := closes[0];
    for n := 1 to |closes|
      invariant m in closes && forall i :: 0 <= i < n ==> closes[i] <= m
    {
      if closes[n] > m {
        m := closes[n];
      }
    }
  }

  predicate TradedAfterDay(s: Series, event: Ms)
  {
    exists i :: 0 <= i < |s.points| && s.points[i].t > event + H24
  }

  /** The series the seven-day fields are read from: gated, widest, finest among equals. */
  ghost predicate IsChosen(series: seq<Series>, event: Ms, s: Series)
  {
    && s in series && s.fetchT >= event + D7
    && (forall o :: o in series && o.fetchT >= event + D7 ==> Reach(o) <= Reach(s))
    && (forall o :: o in series && o.fetchT >= event + D7 && Reach(o) == Reach(s) ==> s.interval <= o.interval)
  }

  /** What the seven-day fields say of the chosen series. */
  ghost predicate Judged(s: Series, event: Ms, multiple: Option<real>, drawdown: Option<real>, dead: bool)
  {
    var base, closes := Baseline(s.points, event), Closes(Window(s.points, event));
    && dead == !TradedAfterDay(s, event)
    && (drawdown.Some? <==> base.Some? && base.value > 0.0 && closes != [])
    && (multiple.Some? <==> drawdown.Some?)
    && (drawdown.Some? && Orderly(closes) ==> IsMaxDrawdown(base.value, closes, drawdown.value))
    && (drawdown.Some? ==> (drawdown.value <= 1.0 <==> NonNegative(closes)))
    && (drawdown.Some? ==> drawdown.value >= 0.0)
    && (drawdown.Some? ==> exists m :: IsMaxClose(closes, m) && multiple.value == m / base.value)
  }

  ghost predicate IsMaxClose(closes: seq<real>, m: real)
  {
    m in closes && forall i :: 0 <= i < |closes| ==> closes[i] <= m
  }

  /** `compute`. The row is complete exactly when some series was fetched past seven days. */
  method Compute(event: Ms, series: seq<Series>) returns (r: Outcome)
    ensures IsFinestAnswer(series, event, H1, r.ret1h)
    ensures IsFinestAnswer(series, event, H24, r.ret24h)
    ensures IsFinestAnswer(series, event, D7, r.ret7d)
    ensures r.dead.Some? <==> exists s :: s in series && s.fetchT >= event + D7
    ensures r.dead.None? ==> r.drawdown.None? && r.maxMultiple.None?
    ensures r.dead.Some? ==>
      exists s :: IsChosen(series, event, s) && Judged(s, event, r.maxMultiple, r.drawdown, r.dead.value)
  {
    var byInterval := ByInterval(series);
    SameMembers(series, byInterval);
    ByIntervalSorted(series);
    var multiple, drawdown, dead := SevenDays(byInterval, event);
    r := Outcome(FirstRet(byInterval, event, H1), FirstRet(byInterval, event, H24), FirstRet(byInterval, event, D7),
                 multiple, drawdown, dead);
    ChosenInAnyOrder(series, byInterval, event);
    FirstRetIsFinest(series, event, H1);
    FirstRetIsFinest(series, event, H24);
    FirstRetIsFinest(series, event, D7);
  }

  lemma SameMembers(a: seq<Series>, b: seq<Series>)
    requires multiset(a) == multiset(b)
    ensures forall s :: s in a <==> s in b
  {
    assert forall s :: s in a <==> s in multiset(a);
  }

  lemma ChosenInAnyOrder(a: seq<Series>, b: seq<Series>, event: Ms)
    requires forall s :: s in a <==> s in b
    ensures forall s :: IsChosen(a, event, s) <==> IsChosen(b, event, s)
  {
  }

  method SevenDays(series: seq<Series>, event: Ms)
    returns (multiple: Option<real>, drawdown: Option<real>, dead: Option<bool>)
    requires Finest(series)
    ensures dead.Some? <==> exists s :: s in series && s.fetchT >= event + D7
    ensures dead.None? ==> drawdown.None? && multiple.None?
    ensures dead.Some? ==> exists s :: IsChosen(series, event, s) && Judged(s, event, multiple, drawdown, dead.value)
  {
    multiple, drawdown, dead := None, None, None;
    var gated := Gated(series, event);
    if gated != [] {
      var k := Widest(gated);
      var s := gated[k];
      FirstWidestIsChosen(series, event, gated, k);
      var flag;
      multiple, drawdown, flag := Judge(s, event);
      dead := Some(flag);
    } else {
      assert forall s :: s in series ==> s !in gated;
    }
  }

  lemma {:induction false} GatedFinest(series: seq<Series>, event: Ms)
    requires Finest(series)
    ensures Finest(Gated(series, event))
    decreases |series|
  {
    if series != [] {
      GatedFinest(series[1..], event);
      var g := Gated(series[1..], event);
      assert forall s :: s in series[1..] ==> series[0].interval <= s.interval;
      assert forall i :: 0 <= i < |g| ==> g[i] in g;
    }
  }

  /** The first of the widest is also the finest of them. */
  lemma FirstWidestIsChosen(series: seq<Series>, event: Ms, gated: seq<Series>, k: nat)
    requires Finest(series) && gated == Gated(series, event) && k < |gated|
    requires forall i :: 0 <= i < |gated| ==> Reach(gated[i]) <= Reach(gated[k])
    requires forall i :: 0 <= i < k ==> Reach(gated[i]) < Reach(gated[k])
    ensures IsChosen(series, event, gated[k])
  {
    GatedFinest(series, event);
    assert gated[k] in gated;
    forall o | o in series && o.fetchT >= event + D7
      ensures Reach(o) <= Reach(gated[k]) && (Reach(o) == Reach(gated[k]) ==> gated[k].interval <= o.interval)
    {
      assert o in gated;
      var i :| 0 <= i < |gated| && gated[i] == o;
      assert i < k || i == k || k < i;
    }
  }

  method Judge(s: Series, event: Ms) returns (multiple: Option<real>, drawdown: Option<real>, dead: bool)
    ensures Judged(s, event, multiple, drawdown, dead)
  {
    multiple, drawdown := None, None;
    var base := Baseline(s.points, event);
    var closes := Closes(Window(s.points, event));
    if base.Some? && base.value > 0.0 && closes != [] {
      var m := MaxClose(closes);
      assert IsMaxClose(closes, m);
      multiple := Some(m / base.value);
      var dd := MaxDrawdown(base.value, closes);
      drawdown := Some(dd);
    }
    dead := !TradedAfterDay(s, event);
  }

  // ---------------------------------------------------------------- what "dead" says

  /** No series fetched past the gate holds a candle later than a day after the event: what the
      flag is documented to say. */
  ghost predicate NobodyTraded(series: seq<Series>, event: Ms)
  {
    forall o :: o in series && o.fetchT >= event + D7 ==> !TradedAfterDay(o, event)
  }

  /** Whichever series is chosen, its answer is the answer of all. */
  ghost predicate DeadExact(series: seq<Series>, event: Ms)
  {
    forall s :: IsChosen(series, event, s) ==> (!TradedAfterDay(s, event) <==> NobodyTraded(series, event))
  }

  predicate EndsLate(s: Series, event: Ms)
  {
    s.points != [] && s.points[|s.points| - 1].t > event + H24
  }

  lemma EndsLateIsTraded(s: Series, event: Ms)
    requires Increasing(s.points)
    ensures EndsLate(s, event) <==> TradedAfterDay(s, event)
  {
    if EndsLate(s, event) {
      assert s.points[|s.points| - 1].t > event + H24;
    }
  }

  /** Input by input, from the last stamps: the flag is exact if and only if the chosen series ends
      after the first day or none of the gated series does. "Alive" always has a trade behind it. */
  lemma DeadByLastStamps(series: seq<Series>, event: Ms, s: Series)
    requires IsChosen(series, event, s) && forall o :: o in series ==> Increasing(o.points)
    ensures (!TradedAfterDay(s, event) <==> NobodyTraded(series, event)) <==>
      EndsLate(s, event) || forall o :: o in series && o.fetchT >= event + D7 ==> !EndsLate(o, event)
    ensures TradedAfterDay(s, event) ==> !NobodyTraded(series, event)
  {
    forall o | o in series
      ensures EndsLate(o, event) <==> TradedAfterDay(o, event)
    {
      EndsLateIsTraded(o, event);
    }
  }

  /** An interval and when it was last fetched. */
  datatype Shape = Shape(interval: Interval, fetchT: Ms)

  ghost predicate Contents(shapes: seq<Shape>, contents: seq<seq<Point>>)
  {
    |contents| == |shapes| && forall i :: 0 <= i < |contents| ==> Increasing(contents[i])
  }

  ghost function Fill(shapes: seq<Shape>, contents: seq<seq<Point>>): (r: seq<Series>)
    requires |contents| == |shapes|
    ensures |r| == |shapes|
    ensures forall i :: 0 <= i < |r| ==> r[i] == Series(shapes[i].interval, shapes[i].fetchT, contents[i])
  {
    seq(|shapes|, i requires 0 <= i < |shapes| => Series(shapes[i].interval, shapes[i].fetchT, contents[i]))
  }

  predicate GatedShape(s: Shape, event: Ms) { s.fetchT >= event + D7 }

  predicate AtMostOneGated(shapes: seq<Shape>, event: Ms)
  {
    forall i, j :: 0 <= i < j < |shapes| ==> !(GatedShape(shapes[i], event) && GatedShape(shapes[j], event))
  }

  lemma OneGatedIsExact(shapes: seq<Shape>, contents: seq<seq<Point>>, event: Ms)
    requires Contents(shapes, contents) && AtMostOneGated(shapes, event)
    ensures DeadExact(Fill(shapes, contents), event)
  {
    var series := Fill(shapes, contents);
    forall s, o | s in series && o in series && s.fetchT >= event + D7 && o.fetchT >= event + D7
      ensures s == o
    {
      var i :| 0 <= i < |series| && series[i] == s;
      var j :| 0 <= j < |series| && series[j] == o;
      assert GatedShape(shapes[i], event) && GatedShape(shapes[j], event);
      assert i < j || j < i || i == j;
    }
  }

  /** Two gated intervals: candles at the event in one, a late one in the other, none elsewhere. */
  lemma TwoGatedMissATrade(shapes: seq<Shape>, event: Ms, a: nat, b: nat) returns (contents: seq<seq<Point>>)
    requires a < |shapes| && b < |shapes| && a != b && GatedShape(shapes[a], event) && GatedShape(shapes[b], event)
    ensures Contents(shapes, contents) && !DeadExact(Fill(shapes, contents), event)
  {
    var early, late := [Point(event, 1.0), Point(event + 1, 1.0)], [Point(event + H24 + 1, 1.0)];
    contents := seq<seq<Point>>(|shapes|, i requires 0 <= i < |shapes| =>
      if i == a then early else if i == b then late else []);
    var series := Fill(shapes, contents);
    var wide, other := series[a], series[b];
    assert wide in series && other in series;
    assert other.points[0].t > event + H24;
    assert TradedAfterDay(other, event) && !TradedAfterDay(wide, event);
    forall o | o in series
      ensures Reach(o) <= Reach(wide) && (Reach(o) == Reach(wide) ==> o == wide)
    {
      var i :| 0 <= i < |series| && series[i] == o;
      assert Reach(wide) == 1 && (i != a ==> Reach(o) == 0);
    }
    assert IsChosen(series, event, wide);
  }

  /** For given intervals and fetch times the flag is exact for every candle content if and only if
      at most one interval was fetched past the gate. */
  lemma DeadExactIff(shapes: seq<Shape>, event: Ms)
    ensures AtMostOneGated(shapes, event) <==>
      forall contents :: Contents(shapes, contents) ==> DeadExact(Fill(shapes, contents), event)
  {
    if AtMostOneGated(shapes, event) {
      forall contents | Contents(shapes, contents)
        ensures DeadExact(Fill(shapes, contents), event)
      {
        OneGatedIsExact(shapes, contents, event);
      }
    } else {
      var i, j :| 0 <= i < j < |shapes| && GatedShape(shapes[i], event) && GatedShape(shapes[j], event);
      var contents := TwoGatedMissATrade(shapes, event, i, j);
    }
  }

  // ---------------------------------------------------------------- merging fetches

  /** One retained candle fetch; `None` where the URL, the body or a candle does not parse. */
  datatype Fetch = Fetch(interval: Option<Interval>, body: Option<seq<Option<Point>>>, t: nat)

  predicate Usable(f: Fetch, interval: Interval)
  {
    f.interval == Some(interval) && f.body.Some?
  }

  /** The last close a body gives a stamp. */
  function BodyClose(body: seq<Option<Point>>, ts: Ms): Option<real>
  {
    if body == [] then None
    else
      var last := body[|body| - 1];
      if last.Some? && last.value.t == ts then Some(last.value.close) else BodyClose(body[..|body| - 1], ts)
  }

  function Serves(f: Fetch, interval: Interval, ts: Ms): Option<real>
  {
    if Usable(f, interval) then BodyClose(f.body.value, ts) else None
  }

  /** The close the latest fetch serving the stamp gave it. */
  function Winning(fetches: seq<Fetch>, interval: Interval, ts: Ms): Option<real>
  {
    if fetches == [] then None
    else
      var n := |fetches| - 1;
      var last := Serves(fetches[n], interval, ts);
      if last.Some? then last else Winning(fetches[..n], interval, ts)
  }

  function LastFetch(fetches: seq<Fetch>, interval: Interval): Option<nat>
  {
    if fetches == [] then None
    else
      var n := |fetches| - 1;
      var before := LastFetch(fetches[..n], interval);
      if !Usable(fetches[n], interval) then before
      else if before.Some? && before.value >= fetches[n].t then before
      else Some(fetches[n].t)
  }

  /** With rows ordered by response time, no later fetch serves the stamp anything else. */
  lemma {:induction false} WinningIsLatest(fetches: seq<Fetch>, interval: Interval, ts: Ms) returns (k: nat)
    requires forall i, j :: 0 <= i < j < |fetches| ==> fetches[i].t <= fetches[j].t
    ensures Winning(fetches, interval, ts).None? ==> forall j :: 0 <= j < |fetches| ==>
      Serves(fetches[j], interval, ts).None?
    ensures Winning(fetches, interval, ts).Some? ==>
      LatestServing(fetches, interval, ts, k) && Serves(fetches[k], interval, ts) == Winning(fetches, interval, ts)
    decreases |fetches|
  {
    k := 0;
    if fetches != [] {
      var n := |fetches| - 1;
      var before := fetches[..n];
      k := WinningIsLatest(before, interval, ts);
      if Serves(fetches[n], interval, ts).Some? {
        k := n;
      } else {
        assert forall j :: 0 <= j < n ==> before[j] == fetches[j];
      }
    }
  }

  ghost predicate LatestServing(fetches: seq<Fetch>, interval: Interval, ts: Ms, k: nat)
  {
    k < |fetches| && forall j :: 0 <= j < |fetches| && Serves(fetches[j], interval, ts).Some? ==>
      fetches[j].t <= fetches[k].t
  }

  /** A dictionary of closes by stamp, keys in insertion order. */
  datatype Points = Points(at: map<Ms, real>, keys: seq<Ms>)
  {
    ghost predicate Valid()
    {
      && (forall i, j :: 0 <= i < j < |keys| ==> keys[i] != keys[j])
      && forall ts :: ts in keys <==> ts in at
    }

    function Set(ts: Ms, close: real): (r: Points)
      ensures Valid() ==> r.Valid()
    {
      Points(at[ts := close], if ts in at then keys else keys + [ts])
    }
  }

  const NoPoints := Points(map[], [])

  function Lookup(m: Points, ts: Ms): Option<real>
  {
    if ts in m.at then Some(m.at[ts]) else None
  }

  /** Writing a body's candles over the points known so far. */
  method MergeBody(points: Points, body: seq<Option<Point>>) returns (r: Points)
    requires points.Valid()
    ensures r.Valid()
    ensures forall ts :: Lookup(r, ts) == Either(BodyClose(body, ts), Lookup(points, ts))
  {
    r := points;
    for n := 0 to |body|
      invariant r.Valid()
      invariant forall ts :: Lookup(r, ts) == Either(BodyClose(body[..n], ts), Lookup(points, ts))
    {
      ghost var was := r;
      assert body[..n + 1][..n] == body[..n];
      if body[n].Some? {
        r := r.Set(body[n].value.t, body[n].value.close);
      }
      forall ts ensures Lookup(r, ts) == Either(BodyClose(body[..n + 1], ts), Lookup(points, ts)) {
        assert Lookup(was, ts) == Either(BodyClose(body[..n], ts), Lookup(points, ts));
      }
    }
    assert body[..|body|] == body;
  }

  ghost predicate IsMerged(fetches: seq<Fetch>, interval: Interval, m: map<Interval, Points>, at: map<Interval, nat>)
  {
    && (interval in m <==> LastFetch(fetches, interval).Some?)
    && (interval in at <==> interval in m) && (interval in m ==> m[interval].Valid())
    && (interval in at ==> LastFetch(fetches, interval) == Some(at[interval]))
    && forall ts :: (if interval in m then Lookup(m[interval], ts) else None) == Winning(fetches, interval, ts)
  }

  function Either(newer: Option<real>, older: Option<real>): Option<real>
  {
    if newer.Some? then newer else older
  }

  function Later(known: Option<nat>, t: nat): nat
  {
    if known.Some? && known.value > t then known.value else t
  }

  lemma MergeStep(before: seq<Fetch>, f: Fetch, upto: seq<Fetch>, interval: Interval)
    requires upto == before + [f]
    ensures forall ts :: Winning(upto, interval, ts) == Either(Serves(f, interval, ts), Winning(before, interval, ts))
    ensures !Usable(f, interval) ==> LastFetch(upto, interval) == LastFetch(before, interval)
    ensures Usable(f, interval) ==> LastFetch(upto, interval) == Some(Later(LastFetch(before, interval), f.t))
  {
    assert upto[..|before|] == before;
  }

  /** The merge loop of `load_series`; `order` is the dictionary's insertion order. */
  method Merge(fetches: seq<Fetch>) returns (m: map<Interval, Points>, at: map<Interval, nat>, order: seq<Interval>)
    ensures forall interval :: IsMerged(fetches, interval, m, at)
    ensures (forall i, j :: 0 <= i < j < |order| ==> order[i] != order[j]) && forall i :: i in order <==> i in m
  {
    m, at, order := map[], map[], [];
    for n := 0 to |fetches|
      invariant forall interval :: IsMerged(fetches[..n], interval, m, at)
      invariant (forall i, j :: 0 <= i < j < |order| ==> order[i] != order[j]) && forall i :: i in order <==> i in m
    {
      var f := fetches[n];
      ghost var was, wasAt := m, at;
      assert fetches[..n + 1][..n] == fetches[..n] && fetches[..n + 1][n] == f;
      if f.interval.Some? && f.body.Some? {
        var i := f.interval.value;
        assert IsMerged(fetches[..n], i, m, at);
        var points: Points := if i in m then m[i] else NoPoints;
        order := if i in m then order else order + [i];
        var t := if i in at && at[i] > f.t then at[i] else f.t;
        points := MergeBody(points, f.body.value);
        m, at := m[i := points], at[i := t];
      }
      ghost var upto := fetches[..n + 1];
      forall interval ensures IsMerged(upto, interval, m, at) {
        assert IsMerged(fetches[..n], interval, was, wasAt);
        MergeStep(fetches[..n], f, upto, interval);
        if interval in was {
          assert interval in m;
        }
        forall ts ensures (if interval in m then Lookup(m[interval], ts) else None) == Winning(upto, interval, ts) {
          assert (if interval in was then Lookup(was[interval], ts) else None) == Winning(fetches[..n], interval, ts);
        }
      }
    }
    assert fetches[..|fetches|] == fetches;
  }

  ghost predicate IsItems(m: Points, s: seq<Point>)
  {
    Increasing(s) && forall ts, c :: Point(ts, c) in s <==> Lookup(m, ts) == Some(c)
  }

  /** `load_series`: strictly increasing stamps, the latest fetch's close at each, one series
      per interval. */
  method LoadSeries(fetches: seq<Fetch>) returns (series: seq<Series>)
    ensures forall i, j :: 0 <= i < j < |series| ==> series[i].interval != series[j].interval
    ensures forall interval :: LastFetch(fetches, interval).Some? <==>
      exists k :: 0 <= k < |series| && series[k].interval == interval
    ensures forall k :: 0 <= k < |series| ==> IsSeries(fetches, series[k])
  {
    var m, at, order := Merge(fetches);
    series := [];
    for n := 0 to |order|
      invariant |series| == n
      invariant forall k :: 0 <= k < n ==> series[k].interval == order[k] && IsSeries(fetches, series[k])
    {
      var i := order[n];
      assert i in order && IsMerged(fetches, i, m, at);
      var points := SortedItems(m[i]);
      series := series + [Series(i, at[i], points)];
    }
    forall interval ensures LastFetch(fetches, interval).Some? <==>
      exists k :: 0 <= k < |series| && series[k].interval == interval {
      assert IsMerged(fetches, interval, m, at);
      if interval in m {
        var k :| 0 <= k < |order| && order[k] == interval;
        assert series[k].interval == interval;
      }
    }
  }

  ghost predicate IsSeries(fetches: seq<Fetch>, s: Series)
  {
    && Increasing(s.points)
    && LastFetch(fetches, s.interval) == Some(s.fetchT)
    && forall ts, c :: Point(ts, c) in s.points <==> Winning(fetches, s.interval, ts) == Some(c)
  }

  /** `sorted(points.items())`. */
  method SortedItems(m: Points) returns (s: seq<Point>)
    requires m.Valid()
    ensures IsItems(m, s)
  {
    s := [];
    for n := 0 to |m.keys|
      invariant Increasing(s)
      invariant forall p :: p in s <==> p.t in m.keys[..n] && p.close == m.at[p.t]
    {
      var ts := m.keys[n];
      assert m.keys[..n + 1] == m.keys[..n] + [ts];
      assert ts in m.keys && ts !in m.keys[..n];
      s := InsertPoint(Point(ts, m.at[ts]), s);
    }
    assert m.keys[..|m.keys|] == m.keys;
    forall ts, c ensures Point(ts, c) in s <==> Lookup(m, ts) == Some(c) {
      assert Point(ts, c).t == ts;
    }
  }

  lemma ConsIncreasing(p: Point, s: seq<Point>)
    requires Increasing(s) && forall q :: q in s ==> p.t < q.t
    ensures Increasing([p] + s)
  {
    assert forall i :: 0 <= i < |s| ==> s[i] in s;
  }

  lemma UnconsPoints(s: seq<Point>)
    requires s != [] && Increasing(s)
    ensures Increasing(s[1..]) && (forall q :: q in s[1..] ==> s[0].t < q.t)
    ensures forall q :: q in s <==> q == s[0] || q in s[1..]
  {
    assert s == [s[0]] + s[1..];
  }

  function InsertPoint(p: Point, s: seq<Point>): (r: seq<Point>)
    requires Increasing(s) && forall q :: q in s ==> q.t != p.t
    ensures Increasing(r) && forall q :: q in r <==> q == p || q in s
  {
    if s == [] then [p]
    else
      UnconsPoints(s);
      if p.t < s[0].t then
        ConsIncreasing(p, s);
        [p] + s
      else
        var rest := InsertPoint(p, s[1..]);
        ConsIncreasing(s[0], rest);
        [s[0]] + rest
  }
}
