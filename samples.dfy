/** The charge samples read from the history file (battery-stat.py:68-82).

    A sample is one line of the file, already split at its tabs and
    converted: a Unix timestamp, a charge percentage and the daemon's status
    word.  The comment at battery-stat.py:79 and the status tests at
    battery-stat.py:303-306 show that the status is meant to survive
    parsing; the code at battery-stat.py:72-77 drops it, so the filter at
    battery-stat.py:80 cannot run.  StatusFilterAsWritten models the code as
    written; KnownSamples is the intended filter and the one the rest of the
    model uses. */
module Samples {
  import opened Wrappers

  datatype Sample = Sample(timestamp: int, charge: real, status: string)

  /** The status that the history file records when the daemon did not know it. */
  const Unknown: string := "unknown"
  /** Timestamps are in seconds. */
  const SecondsPerHour: real := 3600.0

  /** The samples whose status is known, in file order (battery-stat.py:79-80, as intended). */
  function KnownSamples(rows: seq<Sample>): (r: seq<Sample>)
    ensures |r| <= |rows|
    ensures forall i :: 0 <= i < |r| ==> r[i].status != Unknown
  {
    if rows == [] then []
    else (if rows[0].status != Unknown then [rows[0]] else []) + KnownSamples(rows[1..])
  }

  /** Filtering distributes over concatenation: the kept samples keep their order. */
  lemma {:induction false} KnownSamplesAppend(a: seq<Sample>, b: seq<Sample>)
    ensures KnownSamples(a + b) == KnownSamples(a) + KnownSamples(b)
  {
    if a == [] {
      assert a + b == b;
    } else {
      assert (a + b)[0] == a[0] && (a + b)[1..] == a[1..] + b;
      KnownSamplesAppend(a[1..], b);
    }
  }

  /** A sample is kept exactly when it is in the file with a known status. */
  lemma {:induction false} KnownSamplesMembers(rows: seq<Sample>, s: Sample)
    ensures s in KnownSamples(rows) <==> s in rows && s.status != Unknown
  {
    if rows != [] {
      KnownSamplesMembers(rows[1..], s);
      assert rows == [rows[0]] + rows[1..];
    }
  }

  /** A series with no unknown sample passes the filter unchanged. */
  lemma {:induction false} KnownSamplesKeepsKnown(rows: seq<Sample>)
    requires forall i :: 0 <= i < |rows| ==> rows[i].status != Unknown
    ensures KnownSamples(rows) == rows
  {
    if rows != [] {
      KnownSamplesKeepsKnown(rows[1..]);
    }
  }

  /** Filtering twice is filtering once. */
  lemma {:induction false} KnownSamplesIdempotent(rows: seq<Sample>)
    ensures KnownSamples(KnownSamples(rows)) == KnownSamples(rows)
  {
    KnownSamplesKeepsKnown(KnownSamples(rows));
  }

  /** The timestamp column (battery-stat.py:81). */
  function Timeline(samples: seq<Sample>): (t: seq<int>)
    ensures |t| == |samples|
    ensures forall i :: 0 <= i < |samples| ==> t[i] == samples[i].timestamp
  {
    seq(|samples|, i requires 0 <= i < |samples| => samples[i].timestamp)
  }

  /** The charge column (battery-stat.py:81). */
  function Charges(samples: seq<Sample>): (c: seq<real>)
    ensures |c| == |samples|
    ensures forall i :: 0 <= i < |samples| ==> c[i] == samples[i].charge
  {
    seq(|samples|, i requires 0 <= i < |samples| => samples[i].charge)
  }

  // ---------------------------------------------------------------------
  // The code as written: rows of two cells, and a filter that indexes a third.

  /** A cell of a row of `data_sheet`. */
  datatype Cell = IntCell(i: int) | FloatCell(r: real) | StrCell(s: string)

  /** battery-stat.py:72-77 as written: each row keeps only the timestamp and the charge. */
  function RowsAsWritten(samples: seq<Sample>): (rows: seq<seq<Cell>>)
    ensures |rows| == |samples|
    ensures forall i :: 0 <= i < |rows| ==>
      rows[i] == [IntCell(samples[i].timestamp), FloatCell(samples[i].charge)]
  {
    seq(|samples|, i requires 0 <= i < |samples| =>
      [IntCell(samples[i].timestamp), FloatCell(samples[i].charge)])
  }

  /** battery-stat.py:80 as written: `line[2]` is read from each row in turn,
      and the first row with fewer than three cells raises IndexError. */
  function StatusFilterAsWritten(rows: seq<seq<Cell>>): (r: Result<seq<seq<Cell>>, Exception>)
    ensures r.Success? ==> |r.value| <= |rows|
  {
    if rows == [] then Success([])
    else if |rows[0]| <= 2 then Failure(IndexError)
    else
      match StatusFilterAsWritten(rows[1..])
      case Failure(e) => Failure(e)
      case Success(rest) =>
        Success((if rows[0][2] != StrCell(Unknown) then [rows[0]] else []) + rest)
  }

  /** The discrepancy: on any non-empty history the status filter raises. */
  lemma StatusFilterAsWrittenRaises(samples: seq<Sample>)
    requires samples != []
    ensures StatusFilterAsWritten(RowsAsWritten(samples)) == Failure(IndexError)
  {
  }

  /** A concrete history of one discharging sample shows it. */
  lemma StatusFilterAsWrittenExample()
    ensures StatusFilterAsWritten(RowsAsWritten([Sample(1700000000, 80.0, "discharging")]))
      == Failure(IndexError)
    ensures KnownSamples([Sample(1700000000, 80.0, "discharging")])
      == [Sample(1700000000, 80.0, "discharging")]
  {
    StatusFilterAsWrittenRaises([Sample(1700000000, 80.0, "discharging")]);
  }
}
