/** The view state of the plot: the history prepared once at start-up
    (battery-stat.py:79-93) and the BatteryStat object whose fields the
    widget callbacks update in place (battery-stat.py:217-387).

    Drawing is left to the plotting library and is not modelled; what is
    modelled is the state the drawing reads: the mode flags, the plot range,
    the filtered timeline and charges, the statistics of the title, and the
    "From" slider value that update writes back.  The wall clock that the
    non-compressed views take as "now" is the parameter `clock`. */
module BatteryView {
  import opened Wrappers
  import Samples
  import Compression
  import Window
  import Trend

  /** The data prepared at start-up: the raw timeline, the charges, the
      compressed timeline and the status of the last sample. */
  datatype History = History(timeline: seq<int>, charges: seq<real>, zipped: seq<int>, lastStatus: string)
  {
    predicate Valid()
    {
      |timeline| == |charges| == |zipped| > 0
      && zipped == Compression.Compressed(timeline)
      && lastStatus != Samples.Unknown
    }

    /** current_charge: the charge of the last sample (battery-stat.py:82). */
    function CurrentCharge(): (c: real)
      requires Valid()
      ensures c in charges && c == charges[|charges| - 1]
    {
      charges[|charges| - 1]
    }
  }

  /** battery-stat.py:79-93: drop the unknown-status samples, split the
      columns and compress a copy of the timeline.  With no sample left the
      unpacking at battery-stat.py:81 raises ValueError. */
  method Prepare(rows: seq<Samples.Sample>) returns (r: Result<History, Exception>)
    ensures r.Failure? <==> Samples.KnownSamples(rows) == []
    ensures r.Failure? ==> r.error == ValueError
    ensures r.Success? ==> r.value.Valid()
    ensures r.Success? ==>
      var known := Samples.KnownSamples(rows);
      r.value.timeline == Samples.Timeline(known)
      && r.value.charges == Samples.Charges(known)
      && r.value.lastStatus == known[|known| - 1].status
      && r.value.CurrentCharge() == known[|known| - 1].charge
  {
    var known := Samples.KnownSamples(rows);
    if known == [] {
      return Failure(ValueError);
    }
    assert known[|known| - 1] in known;
    var timeline := Samples.Timeline(known);
    var zipped := new int[|timeline|](i requires 0 <= i < |timeline| => timeline[i]);
    assert zipped[..] == timeline;
    Compression.CompressInPlace(zipped);
    r := Success(History(timeline, Samples.Charges(known), zipped[..], known[|known| - 1].status));
  }

  /** A slider widget, reduced to the value it holds. */
  class Slider {
    var val: real

    constructor (init: real)
      ensures val == init
    {
      val := init;
    }
  }

  class BatteryStat {
    const history: History
    var compress: bool
    var relative: bool
    var plotRange: (real, real)
    var timeline: seq<int>
    var chargeData: seq<real>

    predicate Valid()
      reads this
    {
      history.Valid() && |timeline| == |chargeData|
    }

    /** The fields show the window from `minHistory` to `maxHistory` hours
        back from now, in the current mode. */
    ghost predicate Shows(minHistory: real, maxHistory: real, clock: real)
      reads this
      requires history.Valid()
    {
      var now := Window.Anchor(compress, history.zipped, clock);
      plotRange == Window.Bounds(now, minHistory, maxHistory)
      && (timeline, chargeData)
         == Window.Filter(if compress then history.zipped else history.timeline,
                          history.charges, plotRange.0, plotRange.1)
    }

    /** The statistics the title shows for the current window (analyze). */
    function Stats(): (s: Trend.Stats)
      reads this
      requires Valid()
      ensures s.Projection? <==>
        |timeline| > 2 && Trend.Monotonic(chargeData)
        && timeline[|timeline| - 1] != timeline[0] && chargeData[|chargeData| - 1] != chargeData[0]
      ensures s.Projection? ==> s.rate * Trend.Hours(timeline) == Trend.Rise(chargeData)
      ensures s.Projection? ==>
        s.remaining == Trend.Remaining(history.lastStatus, history.CurrentCharge(), Trend.Abs(s.rate))
    {
      Trend.Analyze(timeline, chargeData, history.lastStatus, history.CurrentCharge())
    }

    /** BatteryStat(): the compressed, relative view of the default window. */
    constructor (h: History, clock: real)
      requires h.Valid()
      ensures Valid() && history == h
      ensures compress && relative
      ensures Shows(Window.DefaultHistoryMin, Window.DefaultHistoryMax, clock)
    {
      history := h;
      compress, relative := true, true;
      plotRange, timeline, chargeData := (0.0, 0.0), [], [];
      new;
      Format(None, None, Window.DefaultHistoryMin, Window.DefaultHistoryMax, clock);
    }

    /** format(): set the flags given, then the plot range and the data in it. */
    method Format(compressArg: Option<bool>, relativeArg: Option<bool>,
                  minHistory: real, maxHistory: real, clock: real)
      requires Valid()
      modifies this
      ensures Valid()
      ensures compress == Window.Apply(compressArg, old(compress))
      ensures relative == Window.Apply(relativeArg, old(relative))
      ensures Shows(minHistory, maxHistory, clock)
    {
      if compressArg.Some? {
        compress := compressArg.value;
      }
      if relativeArg.Some? {
        relative := relativeArg.value;
      }
      var timelineLocal, now;
      if compress {
        timelineLocal := history.zipped;
        now := timelineLocal[|timelineLocal| - 1] as real;
      } else {
        timelineLocal := history.timeline;
        now := clock;
      }
      var tEnd := now - minHistory * Samples.SecondsPerHour;
      var tStart := now - maxHistory * Samples.SecondsPerHour;
      plotRange := (tStart, tEnd);
      var newData := Window.Filter(timelineLocal, history.charges, tStart, tEnd);
      timeline, chargeData := newData.0, newData.1;
    }

    /** update(value): read both sliders, correct and write back "From",
        apply the mode a radio button names, reformat, and analyse. */
    method Update(value: Window.Event, to: Slider, from: Slider, clock: real) returns (stats: Trend.Stats)
      requires Valid() && to != from
      modifies this, from
      ensures Valid()
      ensures compress == Window.Apply(Window.OptionsOf(value).compress, old(compress))
      ensures relative == Window.Apply(Window.OptionsOf(value).relative, old(relative))
      ensures from.val == -Window.CorrectBounds(-to.val, -old(from.val)).1
      ensures Shows(-to.val, -from.val, clock)
      ensures plotRange.0 < plotRange.1
      ensures stats == Stats()
    {
      var minHistory := -to.val;
      var maxHistory := -from.val;
      if minHistory >= maxHistory {
        maxHistory := minHistory + Window.MinWindow;
        from.val := -maxHistory;
      }
      var options := Window.OptionsOf(value);
      Format(options.compress, options.relative, minHistory, maxHistory, clock);
      stats := Trend.Analyze(timeline, chargeData, history.lastStatus, history.CurrentCharge());
    }

    /** reset(): each slider goes back to its initial value, and a slider
        that changes calls update.  "To" is reset before "From". */
    method Reset(to: Slider, from: Slider, clock: real)
      requires Valid() && to != from
      modifies this, to, from
      ensures Valid()
      ensures (to.val, from.val) == Window.Reset(old(to.val), old(from.val))
      ensures to.val == -Window.DefaultHistoryMin && from.val == -Window.DefaultHistoryMax
      ensures compress == old(compress) && relative == old(relative)
      ensures old(to.val) != -Window.DefaultHistoryMin || old(from.val) != -Window.DefaultHistoryMax ==>
        Shows(Window.DefaultHistoryMin, Window.DefaultHistoryMax, clock)
      ensures old(to.val) == -Window.DefaultHistoryMin && old(from.val) == -Window.DefaultHistoryMax ==>
        unchanged(this)
    {
      if to.val != -Window.DefaultHistoryMin {
        to.val := -Window.DefaultHistoryMin;
        var _ := Update(Window.Slid(to.val), to, from, clock);
      }
      if from.val != -Window.DefaultHistoryMax {
        from.val := -Window.DefaultHistoryMax;
        var _ := Update(Window.Slid(from.val), to, from, clock);
      }
    }
  }
}
