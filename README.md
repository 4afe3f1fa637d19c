# battery-stat in Dafny

battery-stat plots the charge history that the power daemon records in
`history-charge-*` files. This project models the logic behind that plot
and proves properties of it. The plotting itself is not modelled. The
modelled logic is:

- **Sample preparation** (`samples.dfy`, `BatteryView.Prepare`). Samples
  whose status is `unknown` are dropped. The timestamp and charge columns are
  then split out, and the status of the last sample is kept for the
  remaining-time estimate.
- **Gap compression** (`compression.dfy`). A loop walks a copy of the
  timeline from left to right. Whenever the gap between two neighbours is
  larger than `MAX_GAP` (0.2 h = 720 s), every earlier timestamp moves
  forward by the excess. The loop is modelled as a method on an `array<int>`
  and proved equal to the recursive function `Compressed`. Its closed form
  is then proved: every gap becomes `min(gap, 720)`, the last timestamp stays
  fixed, and each timestamp moves forward by the total excess of the gaps
  after it.
- **View state and window selection** (`window.dfy`, `BatteryView.BatteryStat`).
  The `BatteryStat` object holds the fields `compress`, `relative`,
  `plotRange`, `timeline` and `chargeData`, and `Format`, `Update` and
  `Reset` update them in place:
  - a radio button sets the mode flags, and a slider event leaves them alone;
  - the slider hours are corrected so that `min < max`;
  - the window is `[now − max·3600, now − min·3600]`;
  - the timeline is filtered to that window, in order, and each kept
    timestamp stays paired with its own charge.
- **Trend analysis** (`trend.dfy`). A window with at least three points,
  monotonic charge, a non-zero time range and a non-zero charge change gets
  a trend:
  - the rate is in %/h;
  - the life is computed against the 85 % cap, and the full life against 100 %;
  - a remaining time is given when the last status is charging or
    discharging.
- **File choice** (`file_choice.dfy`). This is the index rule of the
  start-up prompt.

Timestamps are `int` seconds. Charges, hours and rates are `real`. The
wall clock that the relative and absolute views use as "now" is a parameter
(`clock`).

The model follows the code, except for the corrections listed under
"## Findings": samples keep their status so that the `unknown` filter
works, a window without time range or charge change gets no trend instead
of a division by zero, and Reset resets "To" before "From". Two further
notes:

- `BatteryStat.Update` follows battery-stat.py:356-358. When the sliders
  cross, the code moves the *start* of the window (`max_history` becomes
  `min_history + 0.1`). The end stays where it was.
- `Trend.Remaining` uses the status and the charge of the last sample of the
  whole history (battery-stat.py:82, 302), not of the window.

## Model

| member | source | states |
|---|---|---|
| `Compression.Excess` | battery-stat.py:88-93 | a gap is shortened by a positive amount exactly when it exceeds 720 s, and then down to exactly 720 s |
| `Compression.ClippedGap` | battery-stat.py:88-93 | the gap a gap becomes is at most the original and at most 720 s, and equals one of the two |
| `Compression.Compressed` | battery-stat.py:86-93 | compression keeps the length of the timeline and leaves its last timestamp unchanged |
| `Compression.ShiftPrefix` | battery-stat.py:90-93 | the slice assignment moves the first `idx` timestamps forward by the shift and leaves the rest as they were |
| `Compression.LoopReadsOriginal` | battery-stat.py:87-88 | at each turn the two timestamps the loop compares are still the original ones, so each `delta` is an original gap |
| `Compression.CompressInPlace` | battery-stat.py:85-93 | the in-place loop leaves exactly `Compressed` of the original timeline in the array |
| `Compression.CompressedGaps` | battery-stat.py:87-93 | every gap of the compressed timeline is the original gap when it is at most 720 s, and exactly 720 s otherwise |
| `Compression.CompressedIsTwoPass` | battery-stat.py:87-93 | each compressed timestamp is the original plus the total excess of all gaps after it, so later gaps compound on earlier points |
| `Compression.CompressedMovesLater` | battery-stat.py:89-93 | compression never moves a timestamp earlier |
| `Compression.CompressedGapsBounded` | battery-stat.py:88-93 | no compressed gap exceeds 720 s, and a gap of at most 720 s is kept as it was |
| `Compression.CompressedKeepsOrder` | battery-stat.py:87-93 | a non-decreasing timeline stays non-decreasing |
| `Compression.CompressedIdempotent` | battery-stat.py:87-93 | compressing a compressed timeline changes nothing |
| `Compression.CompressedSingleGap` | battery-stat.py:87-93 | with one gap above 720 s, everything before it moves forward by the gap minus 720 s and everything after it stays |
| `Compression.CompressedFiveHourGap` | battery-stat.py:87-93 | with one 5-hour gap, points before it move forward by 4.8 h and points after it stay |
| `Samples.KnownSamples` | battery-stat.py:79-80 | no kept sample has the status `unknown`, and the result is never longer than the file |
| `Samples.KnownSamplesMembers` | battery-stat.py:79-80 | a sample is kept exactly when it is in the file with a known status |
| `Samples.KnownSamplesAppend` | battery-stat.py:80 | the status filter keeps the file order |
| `Samples.KnownSamplesKeepsKnown` | battery-stat.py:80 | a series with no unknown status passes the filter unchanged |
| `Samples.KnownSamplesIdempotent` | battery-stat.py:80 | filtering twice is filtering once |
| `Samples.Timeline` | battery-stat.py:81 | the timeline column holds each sample's timestamp at the sample's index |
| `Samples.Charges` | battery-stat.py:81 | the charge column holds each sample's charge at the sample's index |
| `Samples.RowsAsWritten` | battery-stat.py:72-77 | as written, each row of the data sheet holds only the timestamp and the charge |
| `Samples.StatusFilterAsWritten` | battery-stat.py:80 | as written, a successful filter never lengthens the data |
| `Samples.StatusFilterAsWrittenRaises` | battery-stat.py:72-80 | on any non-empty history, the status filter as written raises IndexError |
| `Samples.StatusFilterAsWrittenExample` | battery-stat.py:72-80 | one discharging sample makes the code raise, and the intended filter keeps that sample |
| `BatteryView.Prepare` | battery-stat.py:79-93 | preparation fails with ValueError exactly when no known-status sample is left; otherwise it yields the columns of the known samples, their compressed timeline, the last status and, as current charge, the charge of the last known sample |
| `BatteryView.History.CurrentCharge` | battery-stat.py:82 | the current charge is one of the history's charges, the one of its last sample |
| `Window.OptionsOf` | battery-stat.py:360-376 | 'Compressed', 'Relative' and 'Absolute' ask for (true, true), (false, true) and (false, false); any other event asks for nothing |
| `Window.Apply` | battery-stat.py:249-251 | a flag that is given is set to the given value; a flag left out keeps its current value |
| `Window.ModeFlags` | battery-stat.py:249-251 | a slider event leaves both flags unchanged; a radio click sets `compress` only for 'Compressed' and `relative` for all labels except 'Absolute' |
| `Window.CorrectBounds` | battery-stat.py:354-358 | the corrected hours satisfy `min < max`; bounds that are already ordered stay as they are; crossed bounds become a 0.1-hour window starting at `min` |
| `Window.CorrectBoundsIdempotent` | battery-stat.py:354-358 | correcting corrected bounds changes nothing |
| `Window.Anchor` | battery-stat.py:254-259 | now is the last compressed timestamp in compressed mode, otherwise the clock |
| `Window.Bounds` | battery-stat.py:261-266 | `t_end` is `min` hours and `t_start` is `max` hours before now; `t_start < t_end` exactly when `min < max` |
| `Window.CorrectedBoundsOrdered` | battery-stat.py:254-266 | after the correction the plot range is never empty or reversed |
| `Window.Filter` | battery-stat.py:269-278 | the filtered timeline and charges have equal length, at most that of the input |
| `Window.KeptIndices` | battery-stat.py:270-274 | the selected indices are exactly those whose timestamp lies in `[t_start, t_end]` (inclusive), each once, in increasing order |
| `Window.FilterSelects` | battery-stat.py:270-278 | the filter yields the timestamps at the selected indices, each paired with the charge at the same index |
| `Window.FilterEmpty` | battery-stat.py:275-278 | both lists are empty exactly when no timestamp lies in the window |
| `Window.FilterNarrower` | battery-stat.py:270-274 | filtering the result of a wider window with a narrower one equals filtering the whole timeline with the narrower one |
| `Window.FilterIdempotent` | battery-stat.py:270-274 | filtering twice with the same window is filtering once |
| `Window.FromAfterUpdate` | battery-stat.py:354-358 | after update, "From" keeps its value when it lies before "To", and is otherwise moved to 0.1 h before "To"; either way it ends strictly before "To" |
| `Window.ResetAsWritten` | battery-stat.py:385-387 | as written, Reset always returns "To" to 0; "From" misses its default exactly when it had been moved and "To" was 12 h back or further, and then ends at "To" − 0.1 h |
| `Window.ResetAsWrittenMissesDefault` | battery-stat.py:385-387 | as written, Reset leaves "From" at −20.1 h, not −12 h, when "To" was at −20 h |
| `Window.Reset` | battery-stat.py:385-387 | when "To" is reset first, Reset returns both sliders to their defaults (0 and −12 h) whatever they held |
| `BatteryView.BatteryStat.constructor` | battery-stat.py:218-229 | the object starts in the compressed, relative view of the default 0-12 h window |
| `BatteryView.BatteryStat.Format` | battery-stat.py:231-278 | the flags given are set and the others kept; the plot range is the window around the mode's now; timeline and charges are the filter of the mode's timeline to that range |
| `BatteryView.BatteryStat.Stats` | battery-stat.py:280-308 | the statistics of the shown window: a trend exactly when it has 3 or more points, monotonic charge, and non-zero time range and charge change; the rate times the window's hours is its charge change; the remaining time follows the history's last status and current charge |
| `BatteryView.BatteryStat.Update` | battery-stat.py:353-381 | the flags follow the event; "From" is corrected and written back; the view shows the corrected window, which is never empty or reversed; the returned statistics are the analysis of that window |
| `BatteryView.BatteryStat.Reset` | battery-stat.py:385-387 | both sliders end at their defaults; the flags are kept; if a slider moved, the view shows the default window, otherwise nothing changes |
| `Trend.Hours` | battery-stat.py:295 | the window's length in hours times 3600 is the seconds between its first and last timestamp, and it is zero exactly when those two are equal |
| `Trend.Remaining` | battery-stat.py:302-308 | when discharging, the remaining time drains the current charge at this speed; when charging, it fills up to the 85 % cap; for any other status there is none |
| `Trend.Analyze` | battery-stat.py:280-308 | there is a trend exactly when there are 3 or more points, the charge is monotonic, and the time range and the charge change are both non-zero; the rate times the hours is the charge change; life and full life times the speed are 85 and 100; remaining follows the last status |
| `Trend.AnalyzeAsWritten` | battery-stat.py:294-300 | the only exception the code as written raises here is ZeroDivisionError |
| `Trend.AnalyzeCorrectsAsWritten` | battery-stat.py:283-300 | Analyze equals the code wherever the code returns; the code raises exactly on monotonic windows of 3 or more points with zero time range or zero charge change, and Analyze reports no trend there |
| `Trend.FlatChargeRaises` | battery-stat.py:298-300 | a charge held flat at 85 % for two hours makes the code raise; Analyze reports no trend |
| `Trend.Monotonic` | battery-stat.py:283-287 | the neighbour-wise test holds exactly when the charge is non-decreasing between every two indices or non-increasing between every two indices |
| `Trend.MonotonicPairwise` | battery-stat.py:283-287 | each neighbour-wise test is equivalent to the order between every two indices |
| `Trend.NonDecreasingBetween` | battery-stat.py:283-284 | neighbour-wise non-decreasing charge is non-decreasing between any two indices |
| `Trend.NonIncreasingBetween` | battery-stat.py:285-286 | neighbour-wise non-increasing charge is non-increasing between any two indices |
| `Trend.RateSign` | battery-stat.py:295-298 | on a forward window a charging trend has a positive rate and a discharging trend a negative one |
| `Trend.LivesOrdered` | battery-stat.py:299-300 | both projected lives are positive, the cap life is shorter, and the two are in the ratio 85 : 100 |
| `Trend.RemainingWithinLife` | battery-stat.py:302-306 | with a charge between 0 and 85 %, the remaining time lies between 0 and the cap life |
| `Trend.TenPercentPerHour` | battery-stat.py:295-298 | 10, 20, 30 % at hourly steps gives a trend of 10 %/h |
| `Trend.TwoPointsNoTrend` | battery-stat.py:283 | two points give no trend |
| `Trend.NotMonotonicNoTrend` | battery-stat.py:283-292 | charges 10, 20, 15 give no trend |
| `Trend.RemainingAsWritten` | battery-stat.py:302-308 | as written, a remaining time is reported only when the status cell is the word charging or discharging |
| `Trend.RemainingAsWrittenNeverReported` | battery-stat.py:302-306 | as written, the status cell read is the charge, so no remaining time is ever reported; the intended Remaining reports one when charging or discharging |
| `FileChoice.ChooseIndex` | battery-stat.py:50-64 | an empty reply picks the last file; a number n picks file n-1 (0-based) exactly when 1 ≤ n ≤ count; anything else repeats the prompt; a chosen index is always in range |

## Findings

| source | as written | input that shows it | evidently intended | confidence | as-written member | corrected member |
|---|---|---|---|---|---|---|
| battery-stat.py:72-80 | the rows are rebuilt with two cells (timestamp, charge), then the status filter reads `line[2]` | any non-empty history, for example one line `1700000000\t80\tdischarging` | keep the status while parsing and drop the `unknown` rows (comment at line 79, status tests at 303-306) | high, not executed | `Samples.StatusFilterAsWrittenRaises` | `Samples.KnownSamples` |
| battery-stat.py:302 | `data_sheet[-1][-1]` is the last cell of a two-cell row, which is the charge | none on its own: this follows from the two-cell rows of 72-77, and line 80 raises on every non-empty history before line 302 is reached; once the rows keep their status, `[-1]` is the status and the line is right | compare the last sample's status, so that a remaining time is shown | low, not executed | `Trend.RemainingAsWrittenNeverReported` | `Trend.Remaining` |
| battery-stat.py:298-300 | rate and lives divide by the time range and by the rate with no guard | a monotonic window of 3 points with equal charge, for example 85 % at 0, 1 and 2 h | report no trend for a window without charge change or duration | medium, not executed | `Trend.FlatChargeRaises` | `Trend.Analyze` |
| battery-stat.py:385-387 | "From" is reset first; the update that this fires reads the old "To" slider and pushes "From" to "To" + 0.1 h | "To" at −20 h, "From" at −24 h, press Reset (`Window.ResetAsWrittenMissesDefault`); in general any moved "From" with "To" at −12 h or lower | both sliders back at 0 and −12 h | medium, not executed | `Window.ResetAsWritten` | `Window.Reset` |

`BatteryView.Prepare` uses `Samples.KnownSamples`. `Trend.Analyze` uses
`Trend.Remaining` and reports no trend where the code divides by zero.
`BatteryView.BatteryStat.Reset` resets "To" before "From".

## Left out

- File discovery and the start-up messages are not modelled (battery-stat.py:27-49): the directory glob, the printing and `exit(1)` are console I/O. Only the index rule of the file prompt is modelled (`FileChoice.ChooseIndex`), not the prompt loop itself.
- Reading the file, splitting at tabs and converting with `int()`/`float()` are not modelled (battery-stat.py:68-77). Samples arrive already parsed.
- Plotting is not modelled: the figure, widgets, `ax.clear`, `set_xlim`, the scatter and trend lines, titles, `draw_idle` and `plt.show` (battery-stat.py:99-134, 241-242, 267, 310-351, 383, 390-392). These are calls into the plotting library. The statistics the title would show are returned by `Update`, and `BatteryStat.Stats` computes them for the current view.
- `ticks_format`, `midnight_timestamp` and `timestamp_now` are not modelled (battery-stat.py:138-214). They depend on the local time zone and the wall clock. `now` is the parameter `clock`.
- The callbacks registered at battery-stat.py:219-223 are modelled as direct calls to `Update` and `Reset`. A slider event carries its value, and `Update` ignores it, as the source does.
- BatteryView.BatteryStat.Update: does not model the re-entrant `update` fired by `set_val` at battery-stat.py:358. That inner call receives a slider value, so it asks for no flags and formats the corrected hours in the old mode; for a radio click this can be a different window from the final one. The outer `format` then sets every field it touches (the flags, `plotRange`, `timeline`, `chargeData`), so the end state is the outer call's, which is what `Update` states.
- Slider limits (−36 to 0 h, `PLOT_RANGE`) are not modelled. A slider value is any real.
- Floating point is not modelled. Charges, hours and rates are exact `real`. Compressed timestamps stay exact integers, where Python turns them into floats. The `:.1f`/`:.2f` formatting of the title is left out.
- BatteryView.BatteryStat.constructor: requires a prepared, non-empty history. With no known sample, the source raises at battery-stat.py:81, before the object is built; `Prepare` returns that ValueError instead.
