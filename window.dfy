/** Window selection: the pure part of BatteryStat.format and
    BatteryStat.update (battery-stat.py:231-278, 353-381).

    The user picks a view mode with the radio buttons and a range of hours
    back from "now" with the two sliders.  The sliders hold negated hours:
    "From" holds -max_history, "To" holds -min_history. */
module Window {
  import opened Wrappers
  import opened Samples

  /** DEFAULT_HISTORY_MIN and DEFAULT_HISTORY_MAX, in hours. */
  const DefaultHistoryMin: real := 0.0
  const DefaultHistoryMax: real := 12.0
  /** The smallest window the slider correction leaves, in hours. */
  const MinWindow: real := 0.1

  /** What a widget passes to update: the label of a radio button, or the
      new value of a slider. */
  datatype Event = Clicked(button: string) | Slid(value: real)

  /** The keyword options update passes on to format: a flag left out is None. */
  datatype Options = Options(compress: Option<bool>, relative: Option<bool>)

  /** battery-stat.py:360-376: the mode flags a widget event asks for. */
  function OptionsOf(e: Event): (o: Options)
    ensures e == Clicked("Compressed") ==> o == Options(Some(true), Some(true))
    ensures e == Clicked("Relative") ==> o == Options(Some(false), Some(true))
    ensures e == Clicked("Absolute") ==> o == Options(Some(false), Some(false))
    ensures e !in {Clicked("Compressed"), Clicked("Relative"), Clicked("Absolute")} ==>
      o == Options(None, None)
  {
    match e
    case Clicked(button) =>
      if button == "Compressed" then Options(Some(true), Some(true))
      else if button == "Relative" then Options(Some(false), Some(true))
      else if button == "Absolute" then Options(Some(false), Some(false))
      else Options(None, None)
    case Slid(_) => Options(None, None)
  }

  /** battery-stat.py:249-251: a flag given is set, a flag left out keeps its value. */
  function Apply(given: Option<bool>, current: bool): (r: bool)
    ensures given.Some? ==> r == given.value
    ensures given.None? ==> r == current
  {
    if given.Some? then given.value else current
  }

  /** A radio button sets both flags to the mode it names; a slider event
      leaves both as they were.  Only three flag pairs can ever result from
      a click. */
  lemma ModeFlags(e: Event, compress: bool, relative: bool)
    ensures e.Slid? ==>
      Apply(OptionsOf(e).compress, compress) == compress
      && Apply(OptionsOf(e).relative, relative) == relative
    ensures e.Clicked? && e.button in {"Compressed", "Relative", "Absolute"} ==>
      (Apply(OptionsOf(e).compress, compress) ==> Apply(OptionsOf(e).relative, relative))
      && (Apply(OptionsOf(e).compress, compress) <==> e.button == "Compressed")
      && (Apply(OptionsOf(e).relative, relative) <==> e.button != "Absolute")
  {
  }

  /** battery-stat.py:354-358: the hours the sliders select, with `max`
      pushed to `min + 0.1` when it is not above `min`. */
  function CorrectBounds(minHistory: real, maxHistory: real): (r: (real, real))
    ensures r.0 == minHistory && r.0 < r.1
    ensures minHistory < maxHistory ==> r.1 == maxHistory
    ensures minHistory >= maxHistory ==> r.1 - r.0 == MinWindow
  {
    if minHistory >= maxHistory then (minHistory, minHistory + MinWindow)
    else (minHistory, maxHistory)
  }

  /** Correcting corrected bounds changes nothing. */
  lemma CorrectBoundsIdempotent(minHistory: real, maxHistory: real)
    ensures CorrectBounds(CorrectBounds(minHistory, maxHistory).0, CorrectBounds(minHistory, maxHistory).1)
      == CorrectBounds(minHistory, maxHistory)
  {
  }

  /** battery-stat.py:254-259: "now" is the last compressed timestamp in the
      compressed view, the wall clock otherwise. */
  function Anchor(compress: bool, zipped: seq<int>, clock: real): (now: real)
    requires |zipped| > 0
    ensures compress ==> now == zipped[|zipped| - 1] as real
    ensures !compress ==> now == clock
  {
    if compress then zipped[|zipped| - 1] as real else clock
  }

  /** battery-stat.py:261-264: the plot range [t_start, t_end], `max` and `min` hours before now. */
  function Bounds(now: real, minHistory: real, maxHistory: real): (r: (real, real))
    ensures now - r.1 == minHistory * SecondsPerHour
    ensures now - r.0 == maxHistory * SecondsPerHour
    ensures r.0 < r.1 <==> minHistory < maxHistory
  {
    (now - maxHistory * SecondsPerHour, now - minHistory * SecondsPerHour)
  }

  /** After the slider correction the window is never empty or reversed:
      a crossed pair becomes exactly 0.1 hours, an ordered pair is kept. */
  lemma CorrectedBoundsOrdered(now: real, minHistory: real, maxHistory: real)
    ensures Bounds(now, CorrectBounds(minHistory, maxHistory).0, CorrectBounds(minHistory, maxHistory).1).0
      < Bounds(now, CorrectBounds(minHistory, maxHistory).0, CorrectBounds(minHistory, maxHistory).1).1
    ensures Bounds(now, CorrectBounds(minHistory, maxHistory).0, CorrectBounds(minHistory, maxHistory).1).1
      - Bounds(now, CorrectBounds(minHistory, maxHistory).0, CorrectBounds(minHistory, maxHistory).1).0
      >= MinWindow * SecondsPerHour || minHistory < maxHistory
  {
  }

  predicate InWindow(t: int, lo: real, hi: real)
  {
    lo <= t as real <= hi
  }

  /** battery-stat.py:270-278: the timestamps inside [lo, hi], each with the
      charge at the same index, in timeline order; both lists are empty when
      nothing is inside. */
  function Filter(times: seq<int>, charges: seq<real>, lo: real, hi: real): (r: (seq<int>, seq<real>))
    requires |times| == |charges|
    ensures |r.0| == |r.1| <= |times|
  {
    if times == [] then ([], [])
    else
      var n := |times|;
      var rest := Filter(times[..n - 1], charges[..n - 1], lo, hi);
      if InWindow(times[n - 1], lo, hi) then (rest.0 + [times[n - 1]], rest.1 + [charges[n - 1]])
      else rest
  }

  /** The indices `enumerate` visits whose timestamp lies in [lo, hi]:
      exactly those, each once, in increasing order. */
  function KeptIndices(times: seq<int>, lo: real, hi: real): (ks: seq<nat>)
    ensures forall k :: 0 <= k < |ks| ==> ks[k] < |times| && InWindow(times[ks[k]], lo, hi)
    ensures forall k, m :: 0 <= k < m < |ks| ==> ks[k] < ks[m]
    ensures forall j :: 0 <= j < |times| && InWindow(times[j], lo, hi) ==> j in ks
  {
    if times == [] then []
    else
      var n := |times|;
      var rest := KeptIndices(times[..n - 1], lo, hi);
      if InWindow(times[n - 1], lo, hi) then rest + [n - 1] else rest
  }

  /** The filter keeps as many entries as there are selected indices. */
  lemma {:induction false} FilterLength(times: seq<int>, charges: seq<real>, lo: real, hi: real)
    requires |times| == |charges|
    ensures |Filter(times, charges, lo, hi).0| == |KeptIndices(times, lo, hi)|
  {
    if times != [] {
      var n := |times|;
      FilterLength(times[..n - 1], charges[..n - 1], lo, hi);
    }
  }

  /** Entry `k` of the filter is the timestamp at the `k`-th selected index,
      with the charge at that same index. */
  lemma {:induction false} FilterAt(times: seq<int>, charges: seq<real>, lo: real, hi: real, k: nat)
    requires |times| == |charges|
    requires k < |KeptIndices(times, lo, hi)|
    ensures |Filter(times, charges, lo, hi).0| == |KeptIndices(times, lo, hi)|
    ensures Filter(times, charges, lo, hi).0[k] == times[KeptIndices(times, lo, hi)[k]]
    ensures Filter(times, charges, lo, hi).1[k] == charges[KeptIndices(times, lo, hi)[k]]
  {
    var n := |times|;
    var t, c := times[..n - 1], charges[..n - 1];
    FilterLength(times, charges, lo, hi);
    FilterLength(t, c, lo, hi);
    var f, ks := Filter(times, charges, lo, hi), KeptIndices(times, lo, hi);
    var f', ks' := Filter(t, c, lo, hi), KeptIndices(t, lo, hi);
    if k < |ks'| {
      FilterAt(t, c, lo, hi, k);
      assert ks[k] == ks'[k] && f.0[k] == f'.0[k] && f.1[k] == f'.1[k];
    } else {
      assert ks == ks' + [n - 1] && f == (f'.0 + [times[n - 1]], f'.1 + [charges[n - 1]]);
    }
  }

  /** The filter keeps exactly the selected indices, and keeps each
      timestamp paired with its own charge. */
  lemma {:induction false} FilterSelects(times: seq<int>, charges: seq<real>, lo: real, hi: real)
    requires |times| == |charges|
    ensures |Filter(times, charges, lo, hi).0| == |KeptIndices(times, lo, hi)|
    ensures forall k :: 0 <= k < |KeptIndices(times, lo, hi)| ==>
      Filter(times, charges, lo, hi).0[k] == times[KeptIndices(times, lo, hi)[k]]
      && Filter(times, charges, lo, hi).1[k] == charges[KeptIndices(times, lo, hi)[k]]
  {
    FilterLength(times, charges, lo, hi);
    forall k | 0 <= k < |KeptIndices(times, lo, hi)|
      ensures Filter(times, charges, lo, hi).0[k] == times[KeptIndices(times, lo, hi)[k]]
      ensures Filter(times, charges, lo, hi).1[k] == charges[KeptIndices(times, lo, hi)[k]]
    {
      FilterAt(times, charges, lo, hi, k);
    }
  }

  /** The window is empty exactly when no timestamp lies inside it. */
  lemma {:induction false} FilterEmpty(times: seq<int>, charges: seq<real>, lo: real, hi: real)
    requires |times| == |charges|
    ensures Filter(times, charges, lo, hi).0 == [] <==>
      forall j :: 0 <= j < |times| ==> !InWindow(times[j], lo, hi)
  {
    FilterSelects(times, charges, lo, hi);
    var ks := KeptIndices(times, lo, hi);
    if ks != [] {
      assert ks[0] < |times| && InWindow(times[ks[0]], lo, hi);
    }
  }

  /** Filtering the result of a wider window with a narrower one is the same
      as filtering the whole timeline with the narrower one. */
  lemma {:induction false} FilterNarrower(times: seq<int>, charges: seq<real>, lo: real, hi: real, lo': real, hi': real)
    requires |times| == |charges|
    requires lo <= lo' && hi' <= hi
    ensures Filter(Filter(times, charges, lo, hi).0, Filter(times, charges, lo, hi).1, lo', hi')
      == Filter(times, charges, lo', hi')
  {
    if times != [] {
      var n := |times|;
      var t, c := times[..n - 1], charges[..n - 1];
      FilterNarrower(t, c, lo, hi, lo', hi');
      var x, y := times[n - 1], charges[n - 1];
      var w, w' := Filter(times, charges, lo, hi), Filter(t, c, lo, hi);
      var narrow, narrow' := Filter(times, charges, lo', hi'), Filter(t, c, lo', hi');
      assert narrow == if InWindow(x, lo', hi') then (narrow'.0 + [x], narrow'.1 + [y]) else narrow';
      if InWindow(x, lo, hi) {
        assert w == (w'.0 + [x], w'.1 + [y]);
        assert w.0[..|w.0| - 1] == w'.0 && w.1[..|w.1| - 1] == w'.1;
        assert w.0[|w.0| - 1] == x && w.1[|w.1| - 1] == y;
        assert Filter(w.0, w.1, lo', hi') == if InWindow(x, lo', hi')
          then (Filter(w'.0, w'.1, lo', hi').0 + [x], Filter(w'.0, w'.1, lo', hi').1 + [y])
          else Filter(w'.0, w'.1, lo', hi');
      } else {
        assert w == w';
      }
    }
  }

  /** Filtering twice with the same window is filtering once. */
  lemma {:induction false} FilterIdempotent(times: seq<int>, charges: seq<real>, lo: real, hi: real)
    requires |times| == |charges|
    ensures Filter(Filter(times, charges, lo, hi).0, Filter(times, charges, lo, hi).1, lo, hi)
      == Filter(times, charges, lo, hi)
  {
    FilterNarrower(times, charges, lo, hi, lo, hi);
  }

  // ---------------------------------------------------------------------
  // The Reset button (battery-stat.py:385-387).
  //
  // Slider.reset() sets a slider back to its initial value when it differs,
  // and setting a value calls update, which reads BOTH sliders.  The values
  // below are slider values (negated hours): "From" starts at -12, "To" at 0.

  /** The "From" slider after update has run with the given slider values
      (battery-stat.py:354-358 write the corrected value back). */
  function FromAfterUpdate(toValue: real, fromValue: real): (r: real)
    ensures fromValue < toValue ==> r == fromValue
    ensures fromValue >= toValue ==> r == toValue - MinWindow
    ensures r < toValue
  {
    -CorrectBounds(-toValue, -fromValue).1
  }

  /** reset() as written: "From" is reset first, and the update this fires
      still sees the old "To" value.  Returns the (To, From) values after.
      "From" misses its default exactly when it had been moved and "To" was
      12 hours back or further; it then ends 0.1 hours behind the old "To". */
  function ResetAsWritten(toValue: real, fromValue: real): (r: (real, real))
    ensures r.0 == -DefaultHistoryMin
    ensures r.1 == if fromValue != -DefaultHistoryMax && toValue <= -DefaultHistoryMax
                   then toValue - MinWindow else -DefaultHistoryMax
    ensures r.1 != -DefaultHistoryMax <==> fromValue != -DefaultHistoryMax && toValue <= -DefaultHistoryMax
  {
    var from1 := if fromValue != -DefaultHistoryMax then FromAfterUpdate(toValue, -DefaultHistoryMax) else fromValue;
    var from2 := if toValue != -DefaultHistoryMin then FromAfterUpdate(-DefaultHistoryMin, from1) else from1;
    (-DefaultHistoryMin, from2)
  }

  /** The discrepancy: with "To" at 20 hours back, Reset leaves "From" at
      20.1 hours back instead of the default 12. */
  lemma ResetAsWrittenMissesDefault()
    ensures ResetAsWritten(-20.0, -24.0) == (0.0, -20.1)
    ensures ResetAsWritten(-20.0, -24.0) != (-DefaultHistoryMin, -DefaultHistoryMax)
  {
  }

  /** reset() with the "To" slider reset first: its update may widen "From"
      by the correction, but resetting "From" afterwards restores it, so both
      sliders end at their defaults whatever they held. */
  function Reset(toValue: real, fromValue: real): (r: (real, real))
    ensures r == (-DefaultHistoryMin, -DefaultHistoryMax)
  {
    var to1 := -DefaultHistoryMin;
    var from1 := if toValue != to1 then FromAfterUpdate(to1, fromValue) else fromValue;
    var from2 := if from1 != -DefaultHistoryMax then FromAfterUpdate(to1, -DefaultHistoryMax) else from1;
    (to1, from2)
  }
}
