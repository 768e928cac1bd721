/** What an outcome reads off the candles, told of the candles themselves: which close a moment
    has, what a return is, how the drawdown loop walks, and which fetch a close comes from. */
module OutcomeReadings {
  import opened Outcomes

  // ---------------------------------------------------------------- closes and returns

  /** Candle `i` is the last listed at or before `t`. */
  ghost predicate LastBy(points: seq<Point>, t: Ms, i: nat)
  {
    i < |points| && points[i].t <= t && forall j :: i < j < |points| ==> points[j].t > t
  }

  /** Candle `i` is the first listed after the event and within the grace of a quarter of an hour. */
  ghost predicate FirstWithin(points: seq<Point>, event: Ms, i: nat)
  {
    && i < |points| && event < points[i].t <= event + 15 * 60 * 1000
    && forall j :: 0 <= j < i ==> !(event < points[j].t <= event + 15 * 60 * 1000)
  }

  /** The baseline candle: the last at or before the event, else the first within the grace. */
  ghost predicate BaselineAt(points: seq<Point>, event: Ms, i: nat)
  {
    LastBy(points, event, i) || (FirstWithin(points, event, i) && forall j :: 0 <= j < |points| ==> points[j].t > event)
  }

  lemma {:induction false} CloseAtIff(points: seq<Point>, t: Ms)
    ensures CloseAt(points, t).None? ==> forall j :: 0 <= j < |points| ==> points[j].t > t
    ensures CloseAt(points, t).Some? ==>
      exists i: nat :: LastBy(points, t, i) && points[i].close == CloseAt(points, t).value
    decreases |points|
  {
    if points != [] {
      var n := |points| - 1;
      if points[n].t <= t {
        assert LastBy(points, t, n);
      } else {
        CloseAtIff(points[..n], t);
        if i: nat :| LastBy(points[..n], t, i) && points[..n][i].close == CloseAt(points, t).value {
          assert LastBy(points, t, i);
        } else {
          assert forall j :: 0 <= j < n ==> points[..n][j] == points[j];
        }
      }
    }
  }

  lemma {:induction false} FirstInIff(points: seq<Point>, event: Ms)
    ensures var c := FirstIn(points, event, event + BASELINE_GRACE);
      && (c.None? ==> forall i: nat :: !FirstWithin(points, event, i))
      && (c.Some? ==> exists i: nat :: FirstWithin(points, event, i) && points[i].close == c.value)
    decreases |points|
  {
    var c := FirstIn(points, event, event + BASELINE_GRACE);
    if points != [] {
      if event < points[0].t <= event + BASELINE_GRACE {
        assert FirstWithin(points, event, 0);
      } else {
        FirstInIff(points[1..], event);
        forall i: nat
          ensures FirstWithin(points, event, i) <==> i > 0 && FirstWithin(points[1..], event, i - 1)
        {
          if i > 0 {
            LaterWithin(points, event, i);
          }
        }
        if k: nat :| FirstWithin(points[1..], event, k) && points[1..][k].close == c.value {
          assert FirstWithin(points, event, k + 1);
        }
      }
    }
  }

  lemma LaterWithin(points: seq<Point>, event: Ms, i: nat)
    requires i > 0 && points != [] && !(event < points[0].t <= event + BASELINE_GRACE)
    ensures FirstWithin(points, event, i) <==> FirstWithin(points[1..], event, i - 1)
  {
    assert forall j :: 0 <= j < |points| - 1 ==> points[1..][j] == points[j + 1];
    if FirstWithin(points[1..], event, i - 1) {
      forall j | 0 <= j < i
        ensures !(event < points[j].t <= event + 15 * 60 * 1000)
      {
        if j > 0 {
          assert points[1..][j - 1] == points[j];
        }
      }
    }
  }

  lemma BaselineIff(points: seq<Point>, event: Ms)
    ensures Baseline(points, event).None? ==> forall i: nat :: !BaselineAt(points, event, i)
    ensures Baseline(points, event).Some? ==>
      exists i: nat :: BaselineAt(points, event, i) && points[i].close == Baseline(points, event).value
  {
    CloseAtIff(points, event);
    FirstInIff(points, event);
    if i: nat :| LastBy(points, event, i) && CloseAt(points, event) == Some(points[i].close) {
      assert BaselineAt(points, event, i);
    } else if i: nat :| FirstWithin(points, event, i) && Baseline(points, event) == Some(points[i].close) {
      assert BaselineAt(points, event, i);
    }
  }

  ghost predicate IsReturn(s: Series, event: Ms, horizon: Ms, i: nat, k: nat, r: real)
  {
    && BaselineAt(s.points, event, i) && s.points[i].close > 0.0
    && LastBy(s.points, event + horizon, k) && r == s.points[k].close / s.points[i].close - 1.0
  }

  /** A series answers exactly when it was fetched past the horizon, has a positive baseline close
      and a candle by the horizon; the answer is the growth from the one to the other. */
  lemma ReturnIff(s: Series, event: Ms, horizon: Ms, r: real)
    ensures Ret(s, event, horizon) == Some(r) <==>
      s.fetchT >= event + horizon && exists i: nat, k: nat :: IsReturn(s, event, horizon, i, k, r)
  {
    BaselineIff(s.points, event);
    CloseAtIff(s.points, event + horizon);
    if i: nat, k: nat :| IsReturn(s, event, horizon, i, k, r) {
      OneBaseline(s.points, event, i);
      OneClose(s.points, event + horizon, k);
    }
    if Ret(s, event, horizon) == Some(r) {
      var i: nat :| BaselineAt(s.points, event, i) && s.points[i].close == Baseline(s.points, event).value;
      var k: nat :| LastBy(s.points, event + horizon, k) &&
        s.points[k].close == CloseAt(s.points, event + horizon).value;
      assert IsReturn(s, event, horizon, i, k, r);
    }
  }

  lemma OneClose(points: seq<Point>, t: Ms, i: nat)
    requires LastBy(points, t, i)
    ensures CloseAt(points, t) == Some(points[i].close)
  {
    CloseAtIff(points, t);
    var j: nat :| LastBy(points, t, j) && points[j].close == CloseAt(points, t).value;
    assert i == j;
  }

  lemma OneBaseline(points: seq<Point>, event: Ms, i: nat)
    requires BaselineAt(points, event, i)
    ensures Baseline(points, event) == Some(points[i].close)
  {
    if LastBy(points, event, i) {
      OneClose(points, event, i);
    } else {
      CloseAtIff(points, event);
      FirstInIff(points, event);
      var j: nat :| FirstWithin(points, event, j) && points[j].close == Baseline(points, event).value;
      assert i == j;
    }
  }

  /** The seven-day window keeps the order of the candles. */
  lemma {:induction false} WindowInOrder(points: seq<Point>, event: Ms)
    requires Increasing(points)
    ensures Increasing(Window(points, event))
    decreases |points|
  {
    if points != [] {
      UnconsPoints(points);
      WindowInOrder(points[1..], event);
      ConsIncreasing(points[0], Window(points[1..], event));
    }
  }

  /** A series reaches as far as its two candles that lie furthest apart. */
  lemma ReachSpans(s: Series)
    requires Increasing(s.points)
    ensures forall i, j :: 0 <= i < |s.points| && 0 <= j < |s.points| ==> s.points[j].t - s.points[i].t <= Reach(s)
    ensures s.points == [] ==> Reach(s) == 0
    ensures s.points != [] ==>
      exists i, j :: 0 <= i < |s.points| && 0 <= j < |s.points| && s.points[j].t - s.points[i].t == Reach(s)
  {
    if s.points != [] {
      var n := |s.points| - 1;
      assert s.points[n].t - s.points[0].t == Reach(s);
    }
  }

  // ---------------------------------------------------------------- the drawdown loop

  /** The largest of the baseline and the closes up to and including `q`. */
  ghost predicate IsPeak(base: real, closes: seq<real>, q: int, peak: real)
  {
    && base <= peak && (forall i :: 0 <= i <= q < |closes| ==> closes[i] <= peak)
    && (peak == base || exists i :: 0 <= i <= q < |closes| && closes[i] == peak)
  }

  ghost predicate FallsTo(base: real, closes: seq<real>, q: nat, f: real)
  {
    q < |closes| && exists peak :: peak > 0.0 && IsPeak(base, closes, q, peak) && f == (peak - closes[q]) / peak
  }

  /** For any closes, negative ones included, the loop's result is the largest fall of a close from
      the highest point up to it, or 0 if there is none. */
  lemma {:induction false} RunningFalls(base: real, closes: seq<real>)
    requires base > 0.0
    ensures var (peak, dd) := Running(base, closes);
      && IsPeak(base, closes, |closes| - 1, peak) && dd >= 0.0
      && (forall q: nat, f :: FallsTo(base, closes, q, f) ==> f <= dd)
      && (dd == 0.0 || exists q: nat :: FallsTo(base, closes, q, dd))
    decreases |closes|
  {
    if closes != [] {
      var n, less := |closes| - 1, closes[..|closes| - 1];
      RunningFalls(base, less);
      var (was, before) := Running(base, less);
      var (peak, dd) := Running(base, closes);
      assert forall i :: 0 <= i < n ==> less[i] == closes[i];
      assert IsPeak(base, closes, n, peak);
      forall q: nat, f | q < n
        ensures FallsTo(base, closes, q, f) <==> FallsTo(base, less, q, f)
      {
        FallsToGrows(base, closes, q, f);
      }
      forall q: nat, f | FallsTo(base, closes, q, f)
        ensures f <= dd
      {
        if q < n {
          assert FallsTo(base, less, q, f);
        } else {
          LastFall(base, closes, peak, f);
        }
      }
      if dd != 0.0 {
        if dd == before {
          var q: nat :| FallsTo(base, less, q, dd);
          assert FallsTo(base, closes, q, dd);
        } else {
          LastFall(base, closes, peak, dd);
          assert FallsTo(base, closes, n, dd);
        }
      }
    }
  }

  lemma FallsToGrows(base: real, closes: seq<real>, q: nat, f: real)
    requires q < |closes| - 1
    ensures FallsTo(base, closes, q, f) <==> FallsTo(base, closes[..|closes| - 1], q, f)
  {
    var less := closes[..|closes| - 1];
    assert forall i :: 0 <= i < |less| ==> less[i] == closes[i];
    forall peak
      ensures IsPeak(base, closes, q, peak) <==> IsPeak(base, less, q, peak)
    {
      PeakGrows(base, closes, q, peak);
    }
  }

  lemma PeakGrows(base: real, closes: seq<real>, q: nat, peak: real)
    requires q < |closes| - 1
    ensures IsPeak(base, closes, q, peak) <==> IsPeak(base, closes[..|closes| - 1], q, peak)
  {
    var less := closes[..|closes| - 1];
    assert forall i :: 0 <= i <= q ==> less[i] == closes[i];
  }

  lemma LastFall(base: real, closes: seq<real>, peak: real, f: real)
    requires closes != [] && peak > 0.0 && IsPeak(base, closes, |closes| - 1, peak)
    ensures FallsTo(base, closes, |closes| - 1, f) <==> f == Fall(peak, closes[|closes| - 1])
  {
    if FallsTo(base, closes, |closes| - 1, f) {
      var top :| top > 0.0 && IsPeak(base, closes, |closes| - 1, top) && f == (top - closes[|closes| - 1]) / top;
      assert top == peak;
    }
  }

  // ---------------------------------------------------------------- which fetch a close comes from

  /** Candle `p` of fetch `k` is of this interval and stamp. */
  ghost predicate Candle(fetches: seq<Fetch>, interval: Interval, ts: Ms, k: nat, p: nat)
  {
    && k < |fetches| && fetches[k].interval == Some(interval) && fetches[k].body.Some?
    && p < |fetches[k].body.value| && fetches[k].body.value[p].Some? && fetches[k].body.value[p].value.t == ts
  }

  /** No later fetch holds such a candle, and no later position of this one. */
  ghost predicate LastCandle(fetches: seq<Fetch>, interval: Interval, ts: Ms, k: nat, p: nat)
  {
    && Candle(fetches, interval, ts, k, p)
    && forall j: nat, q: nat :: Candle(fetches, interval, ts, j, q) ==> j < k || (j == k && q <= p)
  }

  ghost predicate LastInBody(body: seq<Option<Point>>, ts: Ms, p: nat, close: real)
  {
    && p < |body| && body[p] == Some(Point(ts, close))
    && forall q :: p < q < |body| && body[q].Some? ==> body[q].value.t != ts
  }

  lemma {:induction false} BodyCloseIff(body: seq<Option<Point>>, ts: Ms)
    ensures BodyClose(body, ts).None? ==> forall q :: 0 <= q < |body| && body[q].Some? ==> body[q].value.t != ts
    ensures BodyClose(body, ts).Some? ==> exists p: nat :: LastInBody(body, ts, p, BodyClose(body, ts).value)
    decreases |body|
  {
    if body != [] {
      var n := |body| - 1;
      BodyCloseIff(body[..n], ts);
      if body[n].Some? && body[n].value.t == ts {
        assert LastInBody(body, ts, n, body[n].value.close);
      } else if BodyClose(body, ts).Some? {
        var p: nat :| LastInBody(body[..n], ts, p, BodyClose(body, ts).value);
        assert LastInBody(body, ts, p, BodyClose(body, ts).value);
      } else {
        assert forall q :: 0 <= q < n ==> body[..n][q] == body[q];
      }
    }
  }

  lemma CandleGrows(fetches: seq<Fetch>, interval: Interval, ts: Ms, k: nat, p: nat)
    requires fetches != [] && k < |fetches| - 1
    ensures Candle(fetches, interval, ts, k, p) <==> Candle(fetches[..|fetches| - 1], interval, ts, k, p)
  {
  }

  /** The close kept for a stamp is that of the last candle there, by fetch and then by position;
      none is kept iff no usable fetch of the interval has one. */
  lemma {:induction false} WinningIff(fetches: seq<Fetch>, interval: Interval, ts: Ms)
    ensures Winning(fetches, interval, ts).None? <==> forall k: nat, p: nat :: !Candle(fetches, interval, ts, k, p)
    ensures forall k: nat, p: nat :: LastCandle(fetches, interval, ts, k, p) ==>
      Winning(fetches, interval, ts) == Some(fetches[k].body.value[p].value.close)
    decreases |fetches|
  {
    if fetches != [] {
      var n, less := |fetches| - 1, fetches[..|fetches| - 1];
      var f := fetches[n];
      WinningIff(less, interval, ts);
      forall k: nat, p: nat | k < n
        ensures Candle(fetches, interval, ts, k, p) <==> Candle(less, interval, ts, k, p)
      {
        CandleGrows(fetches, interval, ts, k, p);
      }
      if Usable(f, interval) {
        BodyCloseIff(f.body.value, ts);
      }
      if Serves(f, interval, ts).Some? {
        var p: nat :| LastInBody(f.body.value, ts, p, Serves(f, interval, ts).value);
        assert Candle(fetches, interval, ts, n, p);
        forall k: nat, q: nat | LastCandle(fetches, interval, ts, k, q)
          ensures k == n && q == p
        {
        }
      } else {
        forall p: nat
          ensures !Candle(fetches, interval, ts, n, p)
        {
        }
        forall k: nat, q: nat | LastCandle(fetches, interval, ts, k, q)
          ensures LastCandle(less, interval, ts, k, q)
        {
        }
      }
    }
  }

  /** A series' fetch time is the latest response of a usable fetch of its interval. */
  lemma {:induction false} LastFetchIsLatest(fetches: seq<Fetch>, interval: Interval)
    ensures LastFetch(fetches, interval).None? <==> forall k :: 0 <= k < |fetches| ==> !Usable(fetches[k], interval)
    ensures LastFetch(fetches, interval).Some? ==>
      && (exists k ::
            0 <= k < |fetches| && Usable(fetches[k], interval) && fetches[k].t == LastFetch(fetches, interval).value)
      && forall k :: 0 <= k < |fetches| && Usable(fetches[k], interval) ==>
           fetches[k].t <= LastFetch(fetches, interval).value
    decreases |fetches|
  {
    if fetches != [] {
      var n := |fetches| - 1;
      LastFetchIsLatest(fetches[..n], interval);
      assert forall k :: 0 <= k < n ==> fetches[..n][k] == fetches[k];
    }
  }
}
