/** Trend analysis over the selected window (BatteryStat.analyze,
    battery-stat.py:280-308).

    When the charges of the window are monotonic, there are at least three
    points, and the time range and the charge change are non-zero, the charge rate is the slope between the first and the
    last point, in percent per hour; the projected lives are the hours that
    85 % (BATTERY_MAX_CHARGE) and 100 % take at that rate; the remaining
    time depends on the status of the last sample of the history file.
    Where the source divides by zero (equal first and last timestamps, or a
    flat charge) AnalyzeAsWritten raises ZeroDivisionError as the code does,
    and Analyze, which the rest of the model uses, reports no trend. */
module Trend {
  import opened Wrappers
  import opened Samples

  /** BATTERY_MAX_CHARGE: the charge cap, in percent. */
  const BatteryMaxCharge: real := 85.0
  /** A full battery, in percent. */
  const FullCharge: real := 100.0

  datatype Stats =
    | NoTrend
    | Projection(rate: real, life: real, fullLife: real, remaining: Option<real>)

  predicate NonDecreasing(c: seq<real>)
  {
    forall i :: 0 <= i < |c| - 1 ==> c[i] <= c[i + 1]
  }

  predicate NonIncreasing(c: seq<real>)
  {
    forall i :: 0 <= i < |c| - 1 ==> c[i] >= c[i + 1]
  }

  /** The test of battery-stat.py:283-287, neighbour by neighbour: it holds
      exactly when the charge is ordered between any two indices. */
  predicate Monotonic(c: seq<real>): (b: bool)
    ensures b <==>
      (forall i, j :: 0 <= i <= j < |c| ==> c[i] <= c[j])
      || (forall i, j :: 0 <= i <= j < |c| ==> c[i] >= c[j])
  {
    MonotonicPairwise(c);
    NonDecreasing(c) || NonIncreasing(c)
  }

  function Abs(x: real): (r: real)
    ensures r >= 0.0 && (r == x || r == -x)
  {
    if x < 0.0 then -x else x
  }

  /** The time the window spans, in hours (battery-stat.py:295). */
  function Hours(timeline: seq<int>): (h: real)
    requires |timeline| > 0
    ensures h == 0.0 <==> timeline[|timeline| - 1] == timeline[0]
    ensures h * SecondsPerHour == (timeline[|timeline| - 1] - timeline[0]) as real
  {
    (timeline[|timeline| - 1] - timeline[0]) as real / SecondsPerHour
  }

  /** The charge gained over the window (negative when discharging). */
  function Rise(charges: seq<real>): real
    requires |charges| > 0
  {
    charges[|charges| - 1] - charges[0]
  }

  /** The remaining time of battery-stat.py:302-308, given the status of the
      last sample of the history and its charge, at `speed` percent per hour. */
  function Remaining(status: string, current: real, speed: real): (r: Option<real>)
    requires speed > 0.0
    ensures r.Some? <==> status == "discharging" || status == "charging"
    ensures status == "discharging" ==> r.Some? && r.value * speed == current
    ensures status == "charging" ==> r.Some? && r.value * speed == BatteryMaxCharge - current
  {
    if status == "discharging" then Some(current / speed)
    else if status == "charging" then Some((BatteryMaxCharge - current) / speed)
    else None
  }

  /** analyze(), with the two divisions by zero reported as no trend. */
  function Analyze(timeline: seq<int>, charges: seq<real>, status: string, current: real): (r: Stats)
    requires |timeline| == |charges|
    ensures r.Projection? <==>
      |timeline| > 2 && Monotonic(charges)
      && timeline[|timeline| - 1] != timeline[0] && charges[|charges| - 1] != charges[0]
    ensures r.Projection? ==> r.rate != 0.0 && r.rate * Hours(timeline) == Rise(charges)
    ensures r.Projection? ==>
      r.life * Abs(r.rate) == BatteryMaxCharge && r.fullLife * Abs(r.rate) == FullCharge
    ensures r.Projection? ==> r.remaining == Remaining(status, current, Abs(r.rate))
  {
    if |timeline| <= 2 || !Monotonic(charges) then NoTrend
    else
      var hours := Hours(timeline);
      if hours == 0.0 || Rise(charges) == 0.0 then NoTrend
      else
        var rate := Rise(charges) / hours;
        var speed := Abs(rate);
        Projection(rate, BatteryMaxCharge / speed, FullCharge / speed, Remaining(status, current, speed))
  }

  /** analyze() as written: battery-stat.py:298 divides by a zero time range,
      battery-stat.py:299 by a zero rate, and both raise. */
  function AnalyzeAsWritten(timeline: seq<int>, charges: seq<real>, status: string, current: real)
    : (r: Result<Stats, Exception>)
    requires |timeline| == |charges|
    ensures r.Failure? ==> r.error == ZeroDivisionError
  {
    if |timeline| <= 2 || !Monotonic(charges) then Success(NoTrend)
    else
      var hours := Hours(timeline);
      if hours == 0.0 then Failure(ZeroDivisionError)
      else
        var rate := Rise(charges) / hours;
        if rate == 0.0 then Failure(ZeroDivisionError)
        else
          var speed := Abs(rate);
          Success(Projection(rate, BatteryMaxCharge / speed, FullCharge / speed, Remaining(status, current, speed)))
  }

  /** Analyze agrees with the code wherever the code returns, and reports no
      trend exactly where the code raises: a monotonic window of three or more
      points whose time range or charge change is zero. */
  lemma AnalyzeCorrectsAsWritten(timeline: seq<int>, charges: seq<real>, status: string, current: real)
    requires |timeline| == |charges|
    ensures AnalyzeAsWritten(timeline, charges, status, current).Success? ==>
      Analyze(timeline, charges, status, current) == AnalyzeAsWritten(timeline, charges, status, current).value
    ensures AnalyzeAsWritten(timeline, charges, status, current).Failure? <==>
      |timeline| > 2 && Monotonic(charges)
      && (timeline[|timeline| - 1] == timeline[0] || charges[|charges| - 1] == charges[0])
    ensures AnalyzeAsWritten(timeline, charges, status, current).Failure? ==>
      Analyze(timeline, charges, status, current) == NoTrend
  {
    if |timeline| > 2 && Monotonic(charges) && Hours(timeline) != 0.0 {
      var hours := Hours(timeline);
      assert Rise(charges) / hours == 0.0 <==> Rise(charges) == 0.0;
    }
  }

  /** A battery held at its 85 % cap for two hours: the code raises, Analyze reports no trend. */
  lemma FlatChargeRaises()
    ensures AnalyzeAsWritten([0, 3600, 7200], [85.0, 85.0, 85.0], "pending-charge", 85.0)
      == Failure(ZeroDivisionError)
    ensures Analyze([0, 3600, 7200], [85.0, 85.0, 85.0], "pending-charge", 85.0) == NoTrend
  {
    assert Monotonic([85.0, 85.0, 85.0]);
  }

  /** Each neighbour-wise monotonic sequence is monotonic between any two indices. */
  lemma {:induction false} NonDecreasingBetween(c: seq<real>, i: nat, j: nat)
    requires NonDecreasing(c) && i <= j < |c|
    ensures c[i] <= c[j]
    decreases j - i
  {
    if i < j {
      NonDecreasingBetween(c, i + 1, j);
    }
  }

  lemma {:induction false} NonIncreasingBetween(c: seq<real>, i: nat, j: nat)
    requires NonIncreasing(c) && i <= j < |c|
    ensures c[i] >= c[j]
    decreases j - i
  {
    if i < j {
      NonIncreasingBetween(c, i + 1, j);
    }
  }

  /** The neighbour-wise tests are the pairwise orders. */
  lemma MonotonicPairwise(c: seq<real>)
    ensures NonDecreasing(c) <==> forall i, j :: 0 <= i <= j < |c| ==> c[i] <= c[j]
    ensures NonIncreasing(c) <==> forall i, j :: 0 <= i <= j < |c| ==> c[i] >= c[j]
  {
    if NonDecreasing(c) {
      forall i, j | 0 <= i <= j < |c|
        ensures c[i] <= c[j]
      {
        NonDecreasingBetween(c, i, j);
      }
    }
    if NonIncreasing(c) {
      forall i, j | 0 <= i <= j < |c|
        ensures c[i] >= c[j]
      {
        NonIncreasingBetween(c, i, j);
      }
    }
  }

  /** On a window that runs forward in time, a charging trend has a positive
      rate and a discharging trend a negative one. */
  lemma RateSign(timeline: seq<int>, charges: seq<real>, status: string, current: real)
    requires |timeline| == |charges|
    requires |timeline| > 0 && timeline[0] < timeline[|timeline| - 1]
    requires Analyze(timeline, charges, status, current).Projection?
    ensures NonDecreasing(charges) ==> Analyze(timeline, charges, status, current).rate > 0.0
    ensures NonIncreasing(charges) ==> Analyze(timeline, charges, status, current).rate < 0.0
  {
    var r := Analyze(timeline, charges, status, current);
    var h := Hours(timeline);
    assert h > 0.0;
    if NonDecreasing(charges) {
      NonDecreasingBetween(charges, 0, |charges| - 1);
      assert r.rate * h > 0.0;
    }
    if NonIncreasing(charges) {
      NonIncreasingBetween(charges, 0, |charges| - 1);
      assert r.rate * h < 0.0;
    }
  }

  /** The projected lives are positive, in the ratio 85 : 100. */
  lemma LivesOrdered(timeline: seq<int>, charges: seq<real>, status: string, current: real)
    requires |timeline| == |charges|
    requires Analyze(timeline, charges, status, current).Projection?
    ensures 0.0 < Analyze(timeline, charges, status, current).life
      < Analyze(timeline, charges, status, current).fullLife
    ensures Analyze(timeline, charges, status, current).life * FullCharge
      == Analyze(timeline, charges, status, current).fullLife * BatteryMaxCharge
  {
    var r := Analyze(timeline, charges, status, current);
    var s := Abs(r.rate);
    assert s > 0.0;
    assert r.life * s == 85.0 && r.fullLife * s == 100.0;
    assert r.life > 0.0;
    assert (r.fullLife - r.life) * s == 15.0;
    assert r.life * 100.0 * s == r.fullLife * 85.0 * s;
  }

  /** With a charge between empty and the cap, the remaining time is at most
      the projected life: both draining and charging take at most the cap life. */
  lemma RemainingWithinLife(timeline: seq<int>, charges: seq<real>, status: string, current: real)
    requires |timeline| == |charges|
    requires Analyze(timeline, charges, status, current).Projection?
    requires 0.0 <= current <= BatteryMaxCharge
    ensures Analyze(timeline, charges, status, current).remaining.Some? ==>
      0.0 <= Analyze(timeline, charges, status, current).remaining.value
        <= Analyze(timeline, charges, status, current).life
  {
    var r := Analyze(timeline, charges, status, current);
    var s := Abs(r.rate);
    assert s > 0.0;
    if r.remaining.Some? {
      var left := r.remaining.value;
      assert r.remaining == Remaining(status, current, s);
      var drained := left * s;
      assert drained == current || drained == BatteryMaxCharge - current;
      assert 0.0 <= drained <= BatteryMaxCharge;
      ScaledNonNegative(left, s);
      ScaledAtMost(left, r.life, s, BatteryMaxCharge);
    }
  }

  /** A quantity whose product with a positive speed is non-negative is non-negative. */
  lemma ScaledNonNegative(x: real, s: real)
    requires s > 0.0 && x * s >= 0.0
    ensures x >= 0.0
  {
    assert x == (x * s) / s;
  }

  /** Of two quantities scaled by the same positive speed, the one with the
      smaller product is the smaller. */
  lemma ScaledAtMost(x: real, y: real, s: real, bound: real)
    requires s > 0.0 && x * s <= bound && y * s == bound
    ensures x <= y
  {
    assert (y - x) * s == y * s - x * s;
    ScaledNonNegative(y - x, s);
  }

  /** 10 % to 30 % over two hours is 10 % per hour. */
  lemma TenPercentPerHour(t0: int)
    ensures Analyze([t0, t0 + 3600, t0 + 7200], [10.0, 20.0, 30.0], "charging", 30.0).Projection?
    ensures Analyze([t0, t0 + 3600, t0 + 7200], [10.0, 20.0, 30.0], "charging", 30.0).rate == 10.0
  {
    var r := Analyze([t0, t0 + 3600, t0 + 7200], [10.0, 20.0, 30.0], "charging", 30.0);
    assert Monotonic([10.0, 20.0, 30.0]);
    assert Hours([t0, t0 + 3600, t0 + 7200]) == 2.0;
    assert r.rate * 2.0 == 20.0;
  }

  /** Two points are too few for a trend. */
  lemma TwoPointsNoTrend(t0: int)
    ensures Analyze([t0, t0 + 3600], [50.0, 50.0], "discharging", 50.0) == NoTrend
  {
  }

  /** A charge that rises and falls is not monotonic. */
  lemma NotMonotonicNoTrend(t0: int)
    ensures Analyze([t0, t0 + 3600, t0 + 7200], [10.0, 20.0, 15.0], "discharging", 15.0) == NoTrend
  {
    assert !NonIncreasing([10.0, 20.0, 15.0]) by {
      assert [10.0, 20.0, 15.0][0] < [10.0, 20.0, 15.0][1];
    }
    assert !NonDecreasing([10.0, 20.0, 15.0]) by {
      assert [10.0, 20.0, 15.0][1] > [10.0, 20.0, 15.0][2];
    }
  }

  // ---------------------------------------------------------------------
  // The status read at battery-stat.py:302 as written.

  /** battery-stat.py:302-308 as written: the status is the last cell of the
      last row of `data_sheet`, compared with the status words. */
  function RemainingAsWritten(statusCell: Cell, current: real, speed: real): (r: Option<real>)
    requires speed > 0.0
    ensures r.Some? <==> statusCell == StrCell("discharging") || statusCell == StrCell("charging")
  {
    if statusCell == StrCell("discharging") then Some(current / speed)
    else if statusCell == StrCell("charging") then Some((BatteryMaxCharge - current) / speed)
    else None
  }

  /** The discrepancy: with the two-cell rows of battery-stat.py:72-77 the
      last cell is the charge, so no remaining time is ever reported, while
      the intended Remaining reports one whenever the last status is charging
      or discharging. */
  lemma RemainingAsWrittenNeverReported(samples: seq<Sample>, current: real, speed: real)
    requires samples != [] && speed > 0.0
    ensures RemainingAsWritten(RowsAsWritten(samples)[|samples| - 1][1], current, speed) == None
    ensures samples[|samples| - 1].status in {"charging", "discharging"} ==>
      Remaining(samples[|samples| - 1].status, current, speed).Some?
  {
  }
}
