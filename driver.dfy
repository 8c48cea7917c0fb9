/**
 * `process_per_year_files` as a whole (scripts/prepare-annual-weather-data.py,
 * lines 53-124): every line of the yearly files goes through `Ingest`, the
 * buffer is drained, and the handles still open are closed.
 */
module Driver {
  import opened Wrappers
  import opened Window
  import opened Order
  import opened Aggregator
  import opened Output

  /** The dates of the observations among `lines`, in input order. */
  function Dates(lines: seq<string>, stations: set<string>, elements: seq<string>, parseDate: string -> Option<int>): (ds: seq<int>)
    ensures |ds| <= |lines|
  {
    if lines == [] then []
    else
      var n := |lines| - 1;
      var rec := ParseRecord(lines[n], stations, elements, parseDate);
      Dates(lines[..n], stations, elements, parseDate) + (if rec.Observation? then [rec.date] else [])
  }

  /** `Dates` one line further. */
  lemma DatesNext(lines: seq<string>, i: int, stations: set<string>, elements: seq<string>, parseDate: string -> Option<int>)
    requires 0 <= i < |lines|
    ensures var rec := ParseRecord(lines[i], stations, elements, parseDate);
      Dates(lines[..i + 1], stations, elements, parseDate)
        == Dates(lines[..i], stations, elements, parseDate) + (if rec.Observation? then [rec.date] else [])
  {
    assert lines[..i + 1][..i] == lines[..i];
  }

  /**
   * The buffer of every observation among `lines` that has an integer
   * value, stored as it arrives (a later value for the same day, station
   * and element replaces the earlier one) and never trimmed.
   */
  function Collected(lines: seq<string>, stations: set<string>, elements: seq<string>, parseDate: string -> Option<int>): Buffer
  {
    if lines == [] then map[]
    else
      var n := |lines| - 1;
      var rec := ParseRecord(lines[n], stations, elements, parseDate);
      var before := Collected(lines[..n], stations, elements, parseDate);
      if rec.Observation? && rec.value.Some? then AddData(before, rec.date, rec.station, rec.element, rec.value.value)
      else before
  }

  /** `Collected` one line further. */
  lemma CollectedNext(lines: seq<string>, i: int, stations: set<string>, elements: seq<string>, parseDate: string -> Option<int>)
    requires 0 <= i < |lines|
    ensures var rec := ParseRecord(lines[i], stations, elements, parseDate);
      var before := Collected(lines[..i], stations, elements, parseDate);
      Collected(lines[..i + 1], stations, elements, parseDate)
        == if rec.Observation? && rec.value.Some? then AddData(before, rec.date, rec.station, rec.element, rec.value.value)
           else before
  {
    assert lines[..i + 1][..i] == lines[..i];
  }

  /**
   * The loop over `lines` from the state `st`: each line is parsed and taken
   * in by `IngestState` until one fails. The outcome is whether every line
   * was taken without error, and the state the last line taken (or the
   * failing one) left.
   */
  ghost function LinesOutcome(lines: seq<string>, stations: set<string>, elements: seq<string>, parseDate: string -> Option<int>,
                              st: State, rowsAt: RowsAt, yearOf: int -> int): (bool, State)
  {
    if lines == [] then (true, st)
    else
      var n := |lines| - 1;
      var (ok, before) := LinesOutcome(lines[..n], stations, elements, parseDate, st, rowsAt, yearOf);
      if !ok then (false, before)
      else IngestState(before, ParseRecord(lines[n], stations, elements, parseDate), rowsAt, yearOf)
  }

  /** `LinesOutcome` one line further. */
  lemma LinesOutcomeNext(lines: seq<string>, i: int, stations: set<string>, elements: seq<string>, parseDate: string -> Option<int>,
                         st: State, rowsAt: RowsAt, yearOf: int -> int)
    requires 0 <= i < |lines|
    requires LinesOutcome(lines[..i], stations, elements, parseDate, st, rowsAt, yearOf).0
    ensures LinesOutcome(lines[..i + 1], stations, elements, parseDate, st, rowsAt, yearOf)
      == IngestState(LinesOutcome(lines[..i], stations, elements, parseDate, st, rowsAt, yearOf).1,
                     ParseRecord(lines[i], stations, elements, parseDate), rowsAt, yearOf)
  {
    assert lines[..i + 1][..i] == lines[..i];
  }

  /** One line of `ReadLines`: the outcome one line further, or, when that line fails, the outcome of all lines. */
  lemma LinesOutcomeStep(lines: seq<string>, i: int, stations: set<string>, elements: seq<string>, parseDate: string -> Option<int>,
                         rowsAt: RowsAt, yearOf: int -> int, st: State, ok: bool, st': State)
    requires 0 <= i < |lines|
    requires LinesOutcome(lines[..i], stations, elements, parseDate, Start, rowsAt, yearOf) == (true, st)
    requires (ok, st') == IngestState(st, ParseRecord(lines[i], stations, elements, parseDate), rowsAt, yearOf)
    ensures ok ==> LinesOutcome(lines[..i + 1], stations, elements, parseDate, Start, rowsAt, yearOf) == (true, st')
    ensures !ok ==> LinesOutcome(lines, stations, elements, parseDate, Start, rowsAt, yearOf) == (false, st')
  {
    LinesOutcomeNext(lines, i, stations, elements, parseDate, Start, rowsAt, yearOf);
    if !ok {
      LinesOutcomeStops(lines, i + 1, stations, elements, parseDate, Start, rowsAt, yearOf);
    }
  }

  /** Once a line fails, the lines after it change nothing: the outcome is that failure. */
  lemma {:induction false} LinesOutcomeStops(lines: seq<string>, k: int, stations: set<string>, elements: seq<string>,
                                             parseDate: string -> Option<int>, st: State, rowsAt: RowsAt, yearOf: int -> int)
    requires 0 <= k <= |lines|
    requires !LinesOutcome(lines[..k], stations, elements, parseDate, st, rowsAt, yearOf).0
    ensures LinesOutcome(lines, stations, elements, parseDate, st, rowsAt, yearOf)
      == LinesOutcome(lines[..k], stations, elements, parseDate, st, rowsAt, yearOf)
    decreases |lines| - k
  {
    if k < |lines| {
      var n := |lines| - 1;
      assert lines[..n][..k] == lines[..k];
      LinesOutcomeStops(lines[..n], k, stations, elements, parseDate, st, rowsAt, yearOf);
    } else {
      assert lines[..k] == lines;
    }
  }

  predicate NonDecreasing(ds: seq<int>)
  {
    forall i, j :: 0 <= i < j < |ds| ==> ds[i] <= ds[j]
  }

  /** A sequence grows without decreasing exactly when its last element is not above the new one. */
  lemma NonDecreasingSnoc(ds: seq<int>, d: int)
    ensures NonDecreasing(ds + [d]) <==> NonDecreasing(ds) && (ds != [] ==> ds[|ds| - 1] <= d)
  {
    var ds' := ds + [d];
    if NonDecreasing(ds) && (ds != [] ==> ds[|ds| - 1] <= d) {
      forall i, j | 0 <= i < j < |ds'|
        ensures ds'[i] <= ds'[j]
      {
        if j == |ds| && i < |ds| - 1 {
          assert ds[i] <= ds[|ds| - 1];
        }
      }
    }
    if NonDecreasing(ds') {
      forall i, j | 0 <= i < j < |ds|
        ensures ds[i] <= ds[j]
      {
        assert ds'[i] <= ds'[j];
      }
      if ds != [] {
        assert ds'[|ds| - 1] <= ds'[|ds|];
      }
    }
  }

  /** The years whose handles `events` close. */
  function Closed(events: seq<Event>): set<int>
  {
    set i | 0 <= i < |events| && events[i].Close? :: events[i].year
  }

  /** A set without elements is the empty set. */
  lemma EmptyOrSome(s: set<int>)
    ensures s == {} || exists y :: y in s
  {
    if forall y :: y !in s {
      assert s == {};
    }
  }

  /**
   * Lines 123-124 of prepare-annual-weather-data.py: close every handle still in the dictionary, in some
   * order: one `Close` per handle, none twice.
   */
  method CloseAll(handles: set<int>) returns (closes: seq<Event>)
    ensures |closes| == |handles|
    ensures forall i :: 0 <= i < |closes| ==> closes[i].Close?
    ensures forall i, j :: 0 <= i < j < |closes| ==> closes[i] != closes[j]
    ensures Closed(closes) == handles
  {
    closes := [];
    var rest := handles;
    while rest != {}
      invariant Closing(closes, rest, handles)
      decreases |rest|
    {
      EmptyOrSome(rest);
      var y :| y in rest;
      CloseNext(closes, rest, handles, y);
      closes := closes + [Close(y)];
      rest := rest - {y};
    }
  }

  /** `closes` closes the handles of `handles` not in `rest`, one each, none twice. */
  ghost predicate Closing(closes: seq<Event>, rest: set<int>, handles: set<int>)
  {
    && rest <= handles
    && |closes| + |rest| == |handles|
    && (forall i :: 0 <= i < |closes| ==> closes[i].Close? && closes[i].year !in rest)
    && (forall i, j :: 0 <= i < j < |closes| ==> closes[i] != closes[j])
    && Closed(closes) + rest == handles
  }

  lemma CloseNext(closes: seq<Event>, rest: set<int>, handles: set<int>, y: int)
    requires Closing(closes, rest, handles)
    requires y in rest
    ensures Closing(closes + [Close(y)], rest - {y}, handles)
  {
    ClosedSnoc(closes, Close(y));
    var closes' := closes + [Close(y)];
    forall i, j | 0 <= i < j < |closes'|
      ensures closes'[i] != closes'[j]
    {
      if j == |closes| {
        assert closes[i].year !in rest;
      } else {
        assert closes[i] != closes[j];
      }
    }
  }

  lemma ClosedSnoc(events: seq<Event>, e: Event)
    ensures Closed(events + [e]) == Closed(events) + (if e.Close? then {e.year} else {})
  {
    var events' := events + [e];
    forall y | y in Closed(events')
      ensures y in Closed(events) + (if e.Close? then {e.year} else {})
    {
      var i :| 0 <= i < |events'| && events'[i].Close? && events'[i].year == y;
      if i < |events| {
        assert events[i] == events'[i];
      }
    }
    forall y | y in Closed(events)
      ensures y in Closed(events')
    {
      var i :| 0 <= i < |events| && events[i].Close? && events[i].year == y;
      assert events'[i] == events[i];
    }
    if e.Close? {
      assert events'[|events|] == e;
    }
  }

  /**
   * Closing open handles, none twice, keeps a well-formed log well formed
   * and leaves exactly the other handles open.
   */
  lemma {:induction false} CloseKeeps(log: seq<Event>, closes: seq<Event>, yearOf: int -> int)
    requires forall i :: 0 <= i < |closes| ==> closes[i].Close?
    requires forall i, j :: 0 <= i < j < |closes| ==> closes[i] != closes[j]
    requires Closed(closes) <= OpenAfter(log)
    ensures OpenAfter(log + closes) == OpenAfter(log) - Closed(closes)
    ensures Opened(log + closes) == Opened(log)
    ensures LogOk(log, yearOf) ==> LogOk(log + closes, yearOf)
    decreases |closes|
  {
    if closes == [] {
      assert log + closes == log;
    } else {
      var n := |closes| - 1;
      var init := closes[..n];
      assert closes == init + [closes[n]];
      ClosedSnoc(init, closes[n]);
      CloseKeeps(log, init, yearOf);
      assert (log + closes)[..|log| + n] == log + init;
      assert closes[n].year !in Closed(init);
    }
  }

  /**
   * The driver over the lines of the yearly files, read one file after the
   * other. It fails where a line fails (`LinesOutcome`: a malformed line,
   * a value or date that does not parse, a day the cursor deletes that has
   * no entry), where no line was accepted at all (the drain then reads an
   * unbound `line_datetime`), or where the drain fails (`DrainFailed`): where
   * some day from the cursor the lines left up to six days before the last
   * accepted date has no entry (`DrainClear`). It fails in no other case;
   * after a failure the handles are left as they were. Whatever happens the
   * handle history is well formed:
   * at most one file open at a time, each year's file created at most once,
   * every row written to the file of its own year. After a run that
   * succeeds no handle is open, and the days finalised, in order, run
   * consecutively from the first accepted date plus six; the rows written
   * are one per finalised day and selected station, days in order and
   * stations sorted within a day. When the accepted dates never decrease
   * the days finalised are exactly those from the first accepted date plus
   * six up to the last accepted date, and the rows written are exactly the
   * rows `process_date` computes for them from all accepted observations.
   */
  method ProcessPerYearFiles(lines: seq<string>, stations: set<string>, elements: seq<string>,
                             yearOf: int -> int, parseDate: string -> Option<int>, ghost rowsAt: RowsAt)
    returns (ok: bool, st: State, ghost processed: seq<int>)
    requires RowsAre(rowsAt, stations, elements)
    requires forall d :: YearStep(yearOf, d)
    ensures LogOk(st.log, yearOf)
    ensures ok ==> RunOk(lines, stations, elements, parseDate, st.log, processed)
    ensures var (read, reached) := LinesOutcome(lines, stations, elements, parseDate, Start, rowsAt, yearOf);
      && (!read || reached.cursor.None? ==> !ok && st == reached)
      && (read && reached.cursor.Some? ==> (ok <==> !DrainFailed(reached, st, rowsAt, yearOf)))
      && (read && reached.cursor.Some? ==> (ok <==> DrainClear(reached)))
  {
    ghost var origin, ordered;
    ok, st, origin, processed, ordered := ReadLines(lines, stations, elements, yearOf, parseDate, rowsAt);
    if !ok {
      return;
    }
    ghost var before, drained := st, processed;
    ok, st, processed := Drain(st, stations, elements, yearOf, rowsAt, origin, processed, ordered);
    if !ok {
      return;
    }
    assert !DrainFailed(before, st, rowsAt, yearOf);
    var closes := CloseAll(st.handles);
    var log := st.log + closes;
    RunDone(yearOf, lines, stations, elements, parseDate, rowsAt, before, origin, drained, ordered, st, processed, closes, log);
    st := State(st.buffer, st.cursor, st.lastDate, st.handles, log);
  }

  /**
   * The loop over the lines (lines 66-102 of prepare-annual-weather-data.py), from the state before the first
   * line: it stops at the first line that fails. Its outcome and the state
   * it leaves are `LinesOutcome`; the handle history stays well formed, and
   * when every line was taken the driver's invariant holds over all of them.
   */
  method ReadLines(lines: seq<string>, stations: set<string>, elements: seq<string>,
                   yearOf: int -> int, parseDate: string -> Option<int>, ghost rowsAt: RowsAt)
    returns (ok: bool, st: State, ghost origin: int, ghost processed: seq<int>, ghost ordered: bool)
    requires RowsAre(rowsAt, stations, elements)
    requires forall d :: YearStep(yearOf, d)
    ensures (ok, st) == LinesOutcome(lines, stations, elements, parseDate, Start, rowsAt, yearOf)
    ensures LogOk(st.log, yearOf)
    ensures ok ==> ReadInv(yearOf, lines, stations, elements, parseDate, st, origin, processed, ordered)
  {
    ok, st := true, Start;
    origin, processed, ordered := 0, [], true;
    for i := 0 to |lines|
      invariant ReadInv(yearOf, lines[..i], stations, elements, parseDate, st, origin, processed, ordered)
      invariant LinesOutcome(lines[..i], stations, elements, parseDate, Start, rowsAt, yearOf) == (true, st)
    {
      ghost var prev := st;
      ok, st, origin, processed, ordered := ReadLine(lines, i, st, stations, elements, yearOf, parseDate, rowsAt, origin, processed, ordered);
      LinesOutcomeStep(lines, i, stations, elements, parseDate, rowsAt, yearOf, prev, ok, st);
      if !ok {
        return;
      }
    }
    assert lines[..|lines|] == lines;
  }

  /**
   * What a run that succeeds leaves, for the accepted dates `ds`: no handle
   * open, at least one date accepted, and the days finalised running
   * consecutively from the first accepted date plus six; when the dates
   * never decreased, none is finalised exactly when the last date is less
   * than six days after the first, and otherwise the last one finalised is
   * the last date.
   */
  ghost predicate RunOk(lines: seq<string>, stations: set<string>, elements: seq<string>, parseDate: string -> Option<int>,
                        log: seq<Event>, processed: seq<int>)
  {
    var ds := Dates(lines, stations, elements, parseDate);
    && RunDays(ds, log, processed)
    && RunOutput(ds, Collected(lines, stations, elements, parseDate), stations, elements, log, processed)
  }

  /** The handles and finalised days part of `RunOk`. */
  ghost predicate RunDays(ds: seq<int>, log: seq<Event>, processed: seq<int>)
  {
    && OpenAfter(log) == {}
    && ds != []
    && (forall i :: 0 <= i < |processed| ==> processed[i] == ds[0] + TrailingDays - 1 + i)
    && (NonDecreasing(ds) ==>
          && (processed == [] <==> ds[|ds| - 1] < ds[0] + TrailingDays - 1)
          && (processed != [] ==> processed[|processed| - 1] == ds[|ds| - 1]))
  }

  /**
   * The rows a run wrote, given the accepted dates `ds`, the buffer `acc` of
   * all accepted observations and the days finalised: one row per finalised
   * day and selected station, days in order and stations sorted within a
   * day; and, when the accepted dates never decreased, exactly the rows
   * `process_date` computes for those days from `acc`.
   */
  ghost predicate RunOutput(ds: seq<int>, acc: Buffer, stations: set<string>, elements: seq<string>,
                            log: seq<Event>, processed: seq<int>)
  {
    ds != [] ==>
      var lo := ds[0] + TrailingDays - 1;
      WroteDays(log, acc, lo, lo + |processed|, stations, elements, NonDecreasing(ds))
  }

  /** After the lines, a drain that succeeds and the closing of the handles, the run succeeded. */
  lemma RunDone(yearOf: int -> int, lines: seq<string>, stations: set<string>, elements: seq<string>, parseDate: string -> Option<int>,
                rowsAt: RowsAt, before: State, origin: int, drained: seq<int>, ordered: bool, after: State, processed: seq<int>,
                closes: seq<Event>, log: seq<Event>)
    requires RowsAre(rowsAt, stations, elements)
    requires ReadInv(yearOf, lines, stations, elements, parseDate, before, origin, drained, ordered)
    requires before.cursor.Some?
    requires Inv(yearOf, after, origin, processed, ordered)
    requires after.cursor == Some(origin + |processed|) && |drained| <= |processed|
    requires after.lastDate == before.lastDate
    requires after.log == before.log + StepsLog(before.buffer, before.cursor.value, after.cursor.value, before.handles, rowsAt, yearOf)
    requires after.cursor.value + TrailingDays - 1 > before.lastDate.value
    requires forall i :: 0 <= i < |closes| ==> closes[i].Close?
    requires forall i, j :: 0 <= i < j < |closes| ==> closes[i] != closes[j]
    requires Closed(closes) == after.handles
    requires log == after.log + closes
    ensures LogOk(log, yearOf)
    ensures RunOk(lines, stations, elements, parseDate, log, processed)
  {
    var ds, acc := Dates(lines, stations, elements, parseDate), Collected(lines, stations, elements, parseDate);
    assert LogOk(log, yearOf) && RunDays(ds, log, processed) by {
      RunDaysDone(yearOf, ds, before, origin, drained, ordered, after, processed, closes, log);
    }
    assert RunOutput(ds, acc, stations, elements, log, processed) by {
      RunOutputDone(ds, acc, stations, elements, rowsAt, yearOf, before, origin, drained, ordered, after, processed, closes, log);
    }
  }

  /** The handles and finalised days once the drain is done and the handles closed. */
  lemma RunDaysDone(yearOf: int -> int, ds: seq<int>,
                    before: State, origin: int, drained: seq<int>, ordered: bool, after: State, processed: seq<int>,
                    closes: seq<Event>, log: seq<Event>)
    requires DatesInv(ds, before, origin, ordered)
    requires before.cursor.Some? && before.lastDate.Some?
    requires Inv(yearOf, after, origin, processed, ordered)
    requires after.cursor.Some? && after.lastDate == before.lastDate
    requires after.cursor.value + TrailingDays - 1 > before.lastDate.value
    requires forall i :: 0 <= i < |closes| ==> closes[i].Close?
    requires forall i, j :: 0 <= i < j < |closes| ==> closes[i] != closes[j]
    requires Closed(closes) == after.handles
    requires log == after.log + closes
    ensures LogOk(log, yearOf)
    ensures RunDays(ds, log, processed)
  {
    DrainedDays(yearOf, after, origin, processed, ordered);
    CloseKeeps(after.log, closes, yearOf);
  }

  /** The rows a run wrote once the drain is done and the handles closed. */
  lemma RunOutputDone(ds: seq<int>, acc: Buffer, stations: set<string>, elements: seq<string>,
                      rowsAt: RowsAt, yearOf: int -> int, before: State, origin: int, drained: seq<int>, ordered: bool,
                      after: State, processed: seq<int>, closes: seq<Event>, log: seq<Event>)
    requires RowsAre(rowsAt, stations, elements)
    requires DatesInv(ds, before, origin, ordered)
    requires OutputInv(acc, stations, elements, before, origin, drained, ordered)
    requires before.cursor.Some? && before.cursor.value == origin + |drained|
    requires after.cursor.Some? && after.cursor.value == origin + |processed| && |drained| <= |processed|
    requires after.log == before.log + StepsLog(before.buffer, before.cursor.value, after.cursor.value, before.handles, rowsAt, yearOf)
    requires forall i :: 0 <= i < |closes| ==> closes[i].Close?
    requires log == after.log + closes
    ensures RunOutput(ds, acc, stations, elements, log, processed)
  {
    if ds != [] {
      var lo, c0, c1 := origin + TrailingDays - 1, before.cursor.value, after.cursor.value;
      var mid, hi := lo + |drained|, lo + |processed|;
      assert lo == ds[0] + TrailingDays - 1 && ordered == NonDecreasing(ds);
      assert WroteDays(before.log, acc, lo, mid, stations, elements, ordered) by {
        OutputParts(acc, stations, elements, before, origin, drained, ordered, lo, mid);
      }
      assert AgreeFrom(before.buffer, acc, c0) by {
        OutputAgree(acc, stations, elements, before, origin, drained, ordered);
      }
      DrainedRun(ds, acc, before.buffer, before.log, before.handles, c0, c1, lo, mid, hi,
                 after.log, closes, log, processed, rowsAt, yearOf, stations, elements, ordered);
    }
  }

  /**
   * The rows a run wrote, once the drain has stepped the cursor from `c0`
   * to `c1` and the handles are closed: those of the days up to `c1 + 5`.
   */
  lemma DrainedRun(ds: seq<int>, acc: Buffer, buf: Buffer, log0: seq<Event>, handles: set<int>,
                   c0: int, c1: int, lo: int, mid: int, hi: int, log1: seq<Event>, closes: seq<Event>, log: seq<Event>,
                   processed: seq<int>, rowsAt: RowsAt, yearOf: int -> int, stations: set<string>, elements: seq<string>, ordered: bool)
    requires RowsAre(rowsAt, stations, elements)
    requires ds != [] && lo == ds[0] + TrailingDays - 1 && hi == lo + |processed| && ordered == NonDecreasing(ds)
    requires c0 <= c1 && mid == c0 + TrailingDays - 1 && hi == c1 + TrailingDays - 1 && lo <= mid
    requires AgreeFrom(buf, acc, c0)
    requires WroteDays(log0, acc, lo, mid, stations, elements, ordered)
    requires log1 == log0 + StepsLog(buf, c0, c1, handles, rowsAt, yearOf)
    requires forall i :: 0 <= i < |closes| ==> closes[i].Close?
    requires log == log1 + closes
    ensures RunOutput(ds, acc, stations, elements, log, processed)
  {
    StepsOutput(acc, buf, log0, lo, c0, mid, c1, hi, handles, rowsAt, yearOf, stations, elements, ordered);
    WroteClosed(log1, closes, log, acc, lo, hi, stations, elements, ordered);
    RunOutputFrom(ds, acc, stations, elements, log, processed, lo, hi, ordered);
  }

  /** Closing handles writes no row. */
  lemma WroteClosed(log1: seq<Event>, closes: seq<Event>, log: seq<Event>, acc: Buffer, lo: int, hi: int,
                    stations: set<string>, elements: seq<string>, ordered: bool)
    requires WroteDays(log1, acc, lo, hi, stations, elements, ordered)
    requires forall i :: 0 <= i < |closes| ==> closes[i].Close?
    requires log == log1 + closes
    ensures WroteDays(log, acc, lo, hi, stations, elements, ordered)
  {
    WrittenAppend(log1, closes);
    WrittenNone(closes);
    assert Written(log) == Written(log1) + [] == Written(log1);
  }

  /** The loop over the lines keeps the driver's invariant and `LinesInv`. */
  ghost predicate ReadInv(yearOf: int -> int, lines: seq<string>, stations: set<string>, elements: seq<string>,
                          parseDate: string -> Option<int>, st: State, origin: int, processed: seq<int>, ordered: bool)
  {
    && Inv(yearOf, st, origin, processed, ordered)
    && LinesInv(lines, stations, elements, parseDate, st, origin, ordered)
    && OutputInv(Collected(lines, stations, elements, parseDate), stations, elements, st, origin, processed, ordered)
  }

  /**
   * One pass of the loop over the lines (lines 66-102 of prepare-annual-weather-data.py): parse line `i` and
   * take it in. The handle history stays well formed, and a line taken
   * without error keeps `ReadInv` one line further.
   */
  method ReadLine(lines: seq<string>, i: int, st: State, stations: set<string>, elements: seq<string>,
                  yearOf: int -> int, parseDate: string -> Option<int>, ghost rowsAt: RowsAt,
                  ghost origin: int, ghost processed: seq<int>, ghost ordered: bool)
    returns (ok: bool, st': State, ghost origin': int, ghost processed': seq<int>, ghost ordered': bool)
    requires 0 <= i < |lines|
    requires RowsAre(rowsAt, stations, elements)
    requires ReadInv(yearOf, lines[..i], stations, elements, parseDate, st, origin, processed, ordered)
    ensures (ok, st') == IngestState(st, ParseRecord(lines[i], stations, elements, parseDate), rowsAt, yearOf)
    ensures LogOk(st'.log, yearOf)
    ensures ok ==> ReadInv(yearOf, lines[..i + 1], stations, elements, parseDate, st', origin', processed', ordered')
  {
    var rec := ParseRecord(lines[i], stations, elements, parseDate);
    InvShape(yearOf, st, origin, processed, ordered);
    origin', processed', ordered' := IngestKeeps(yearOf, st, rec, origin, processed, ordered, rowsAt, stations, elements);
    ok, st' := Ingest(st, rec, stations, elements, yearOf, rowsAt);
    if ok {
      LinesNext(lines, i, stations, elements, parseDate, rec, st, origin, ordered, st', origin', ordered');
      OutputNext(lines, i, stations, elements, parseDate, rowsAt, yearOf, rec, st, origin, processed, ordered, origin', processed', ordered');
    }
  }

  /**
   * What the lines read so far say about the rows written: one per
   * finalised day and station, in order; while the accepted dates never
   * decreased, the rows computed from every observation accepted so far,
   * whose days are all before the last accepted date; and the buffer holds
   * what those observations put there for every day from the cursor on.
   */
  ghost predicate OutputInv(acc: Buffer, stations: set<string>, elements: seq<string>,
                            st: State, origin: int, processed: seq<int>, ordered: bool)
  {
    var lo := origin + TrailingDays - 1;
    && WroteDays(st.log, acc, lo, lo + |processed|, stations, elements, ordered)
    && (ordered && processed != [] ==> st.lastDate.Some? && lo + |processed| <= st.lastDate.value)
    && (st.cursor.None? ==> acc == map[])
    && (st.cursor.Some? ==> AgreeFrom(st.buffer, acc, st.cursor.value))
  }

  /**
   * The rows part of `OutputInv`, spelled out for a given first finalised
   * day `lo`; it only unfolds the invariant, so that callers name the terms
   * the solver should match.
   */
  lemma OutputParts(acc: Buffer, stations: set<string>, elements: seq<string>,
                    st: State, origin: int, processed: seq<int>, ordered: bool, lo: int, hi: int)
    requires OutputInv(acc, stations, elements, st, origin, processed, ordered)
    requires lo == origin + TrailingDays - 1 && hi == lo + |processed|
    ensures WroteDays(st.log, acc, lo, hi, stations, elements, ordered)
  {
  }

  /** The buffer part of `OutputInv`; like `OutputParts`, an unfolding that keeps callers cheap. */
  lemma OutputAgree(acc: Buffer, stations: set<string>, elements: seq<string>,
                    st: State, origin: int, processed: seq<int>, ordered: bool)
    requires OutputInv(acc, stations, elements, st, origin, processed, ordered)
    requires st.cursor.Some?
    ensures AgreeFrom(st.buffer, acc, st.cursor.value)
  {
  }

  /** `RunOutput` from the rows written, for the first finalised day `lo`. */
  lemma RunOutputFrom(ds: seq<int>, acc: Buffer, stations: set<string>, elements: seq<string>,
                      log: seq<Event>, processed: seq<int>, lo: int, hi: int, ordered: bool)
    requires ds != [] && lo == ds[0] + TrailingDays - 1 && hi == lo + |processed| && ordered == NonDecreasing(ds)
    requires WroteDays(log, acc, lo, hi, stations, elements, ordered)
    ensures RunOutput(ds, acc, stations, elements, log, processed)
  {
    assert WroteDays(log, acc, ds[0] + TrailingDays - 1, ds[0] + TrailingDays - 1 + |processed|, stations, elements, NonDecreasing(ds));
  }

  /** The facts of the driver's invariant that `OutputNext` needs. */
  lemma InvShape(yearOf: int -> int, st: State, origin: int, processed: seq<int>, ordered: bool)
    requires Inv(yearOf, st, origin, processed, ordered)
    ensures st.cursor.None? ==> st.buffer == map[] && st.lastDate.None? && processed == [] && st.log == []
    ensures st.cursor.Some? ==> st.cursor.value == origin + |processed| && st.lastDate.Some?
  {
  }

  /** One more line taken without error keeps `OutputInv`. */
  lemma OutputNext(lines: seq<string>, i: int, stations: set<string>, elements: seq<string>, parseDate: string -> Option<int>,
                   rowsAt: RowsAt, yearOf: int -> int, rec: Record, st: State, origin: int, processed: seq<int>, ordered: bool,
                   origin': int, processed': seq<int>, ordered': bool)
    requires 0 <= i < |lines|
    requires RowsAre(rowsAt, stations, elements)
    requires rec == ParseRecord(lines[i], stations, elements, parseDate)
    requires st.cursor.None? ==> st.buffer == map[] && st.lastDate.None? && processed == [] && st.log == []
    requires st.cursor.Some? ==> st.cursor.value == origin + |processed| && st.lastDate.Some?
    requires OutputInv(Collected(lines[..i], stations, elements, parseDate), stations, elements, st, origin, processed, ordered)
    requires origin' == (if st.cursor.None? && rec.Observation? then rec.date else origin)
    requires ordered' == (ordered && (rec.Observation? && st.lastDate.Some? ==> st.lastDate.value <= rec.date))
    requires processed' ==
      if rec.Observation? && Steps(st.cursor, rec.date) then processed + [CursorFor(st.cursor, rec.date) + TrailingDays - 1]
      else processed
    ensures var (ok, st') := IngestState(st, rec, rowsAt, yearOf);
      ok ==> OutputInv(Collected(lines[..i + 1], stations, elements, parseDate), stations, elements, st', origin', processed', ordered')
  {
    var acc := Collected(lines[..i], stations, elements, parseDate);
    var acc' := if rec.Observation? && rec.value.Some? then AddData(acc, rec.date, rec.station, rec.element, rec.value.value) else acc;
    assert Collected(lines[..i + 1], stations, elements, parseDate) == acc' by {
      CollectedNext(lines, i, stations, elements, parseDate);
    }
    OutputCases(acc, acc', stations, elements, rowsAt, yearOf, rec, st, origin, processed, ordered, origin', processed', ordered');
  }

  /** `OutputNext` for the buffer `acc` of the observations before the line and `acc'` of those up to it. */
  lemma OutputCases(acc: Buffer, acc': Buffer, stations: set<string>, elements: seq<string>,
                    rowsAt: RowsAt, yearOf: int -> int, rec: Record, st: State, origin: int, processed: seq<int>, ordered: bool,
                    origin': int, processed': seq<int>, ordered': bool)
    requires RowsAre(rowsAt, stations, elements)
    requires st.cursor.None? ==> st.buffer == map[] && st.lastDate.None? && processed == [] && st.log == []
    requires st.cursor.Some? ==> st.cursor.value == origin + |processed| && st.lastDate.Some?
    requires OutputInv(acc, stations, elements, st, origin, processed, ordered)
    requires acc' == if rec.Observation? && rec.value.Some? then AddData(acc, rec.date, rec.station, rec.element, rec.value.value) else acc
    requires origin' == (if st.cursor.None? && rec.Observation? then rec.date else origin)
    requires ordered' == (ordered && (rec.Observation? && st.lastDate.Some? ==> st.lastDate.value <= rec.date))
    requires processed' ==
      if rec.Observation? && Steps(st.cursor, rec.date) then processed + [CursorFor(st.cursor, rec.date) + TrailingDays - 1]
      else processed
    ensures var (ok, st') := IngestState(st, rec, rowsAt, yearOf);
      ok ==> OutputInv(acc', stations, elements, st', origin', processed', ordered')
  {
    match rec
    case Skip =>
    case Malformed =>
    case Observation(date, station, element, value) =>
      if value.Some? {
        if st.cursor.None? {
          FirstOutput(acc, acc', stations, elements, rowsAt, yearOf, rec, st, date, station, element, value.value, origin', processed', ordered');
        } else if Steps(st.cursor, date) {
          StepCase(acc, acc', stations, elements, rowsAt, yearOf, rec, st, date, station, element, value.value,
                   origin, processed, ordered, origin', processed', ordered');
        } else {
          StayCase(acc, acc', stations, elements, rowsAt, yearOf, rec, st, date, station, element, value.value,
                   origin, processed, ordered, origin', processed', ordered');
        }
      }
  }

  /** `OutputNext` for the first accepted observation. */
  lemma FirstOutput(acc: Buffer, acc': Buffer, stations: set<string>, elements: seq<string>,
                    rowsAt: RowsAt, yearOf: int -> int, rec: Record, st: State, date: int, station: string, element: string, value: int,
                    origin': int, processed': seq<int>, ordered': bool)
    requires st.cursor.None? && st.buffer == map[] && st.log == []
    requires acc == map[]
    requires rec == Observation(date, station, element, Some(value))
    requires acc' == AddData(acc, date, station, element, value) && origin' == date && processed' == []
    ensures var (ok, st') := IngestState(st, rec, rowsAt, yearOf);
      ok ==> OutputInv(acc', stations, elements, st', origin', processed', ordered')
  {
    var st' := State(AddData(map[], date, station, element, value), Some(date), Some(date), st.handles, []);
    assert IngestState(st, Observation(date, station, element, Some(value)), rowsAt, yearOf) == (true, st');
    var lo := date + TrailingDays - 1;
    assert Grid(lo, lo + 0, SortedStrings(stations)) == [];
    assert Finalised(AddData(map[], date, station, element, value), lo, lo + 0, stations, elements) == [];
  }

  /** `OutputNext` for a later observation that steps the cursor. */
  lemma StepCase(acc: Buffer, acc': Buffer, stations: set<string>, elements: seq<string>,
                 rowsAt: RowsAt, yearOf: int -> int, rec: Record, st: State, date: int, station: string, element: string, value: int,
                 origin: int, processed: seq<int>, ordered: bool, origin': int, processed': seq<int>, ordered': bool)
    requires RowsAre(rowsAt, stations, elements)
    requires st.cursor.Some? && st.cursor.value == origin + |processed| && st.lastDate.Some? && Steps(st.cursor, date)
    requires ordered' == (ordered && st.lastDate.value <= date)
    requires OutputInv(acc, stations, elements, st, origin, processed, ordered)
    requires rec == Observation(date, station, element, Some(value))
    requires acc' == AddData(acc, date, station, element, value) && origin' == origin
    requires processed' == processed + [st.cursor.value + TrailingDays - 1]
    ensures var (ok, st') := IngestState(st, rec, rowsAt, yearOf);
      ok ==> OutputInv(acc', stations, elements, st', origin', processed', ordered')
  {
    var c := st.cursor.value;
    var y := yearOf(c + TrailingDays - 1);
    var rows := rowsAt(st.buffer, c + TrailingDays - 1);
    var log' := st.log + (Rotation(st.handles, y) + Writes(y, rows));
    var st' := State(AddData(st.buffer - {c}, date, station, element, value), Some(c + 1), Some(date), Rotated(st.handles, y), log');
    assert IngestState(st, Observation(date, station, element, Some(value)), rowsAt, yearOf)
        == if c in st.buffer then (true, st') else (false, StepState(State(st.buffer, Some(c), Some(date), st.handles, st.log), rows, yearOf));
    StepOutput(acc, st.buffer, st.log, st.handles, c, origin + TrailingDays - 1,
               date, station, element, value, rowsAt, yearOf, stations, elements, ordered, ordered');
  }

  /**
   * The rows and buffer after a step of the cursor `c` and the storing of
   * an observation at least ten days after it: one more day's rows, still
   * those of the observations collected while the dates never decreased,
   * and the buffer still agrees with them from the new cursor on.
   */
  lemma StepOutput(acc: Buffer, buf: Buffer, log: seq<Event>, handles: set<int>, c: int, lo: int,
                   date: int, station: string, element: string, value: int,
                   rowsAt: RowsAt, yearOf: int -> int, stations: set<string>, elements: seq<string>, ordered: bool, ordered': bool)
    requires RowsAre(rowsAt, stations, elements)
    requires lo <= c + TrailingDays - 1 && c + Lookahead <= date
    requires ordered' ==> ordered
    requires AgreeFrom(buf, acc, c)
    requires WroteDays(log, acc, lo, c + TrailingDays - 1, stations, elements, ordered)
    ensures var y := yearOf(c + TrailingDays - 1);
      var log' := log + (Rotation(handles, y) + Writes(y, rowsAt(buf, c + TrailingDays - 1)));
      var acc' := AddData(acc, date, station, element, value);
      && WroteDays(log', acc', lo, c + TrailingDays, stations, elements, ordered')
      && AgreeFrom(AddData(buf - {c}, date, station, element, value), acc', c + 1)
  {
    var y := yearOf(c + TrailingDays - 1);
    assert StepsLog(buf, c, c + 1, handles, rowsAt, yearOf) == Rotation(handles, y) + Writes(y, rowsAt(buf, c + TrailingDays - 1));
    StepsOutput(acc, buf, log, lo, c, c + TrailingDays - 1, c + 1, c + TrailingDays, handles, rowsAt, yearOf, stations, elements, ordered);
    FinalisedAdd(acc, lo, c + TrailingDays, stations, elements, date, station, element, value);
    AgreeDelete(buf, acc, c);
    AgreeAdd(buf - {c}, acc, c + 1, date, station, element, value);
  }

  /** `OutputNext` for a later observation that leaves the cursor where it is. */
  lemma StayCase(acc: Buffer, acc': Buffer, stations: set<string>, elements: seq<string>,
                 rowsAt: RowsAt, yearOf: int -> int, rec: Record, st: State, date: int, station: string, element: string, value: int,
                 origin: int, processed: seq<int>, ordered: bool, origin': int, processed': seq<int>, ordered': bool)
    requires st.cursor.Some? && st.lastDate.Some? && !Steps(st.cursor, date)
    requires ordered' == (ordered && st.lastDate.value <= date)
    requires OutputInv(acc, stations, elements, st, origin, processed, ordered)
    requires rec == Observation(date, station, element, Some(value))
    requires acc' == AddData(acc, date, station, element, value) && origin' == origin && processed' == processed
    ensures var (ok, st') := IngestState(st, rec, rowsAt, yearOf);
      ok ==> OutputInv(acc', stations, elements, st', origin', processed', ordered')
  {
    var lo := origin + TrailingDays - 1;
    var st' := State(AddData(st.buffer, date, station, element, value), st.cursor, Some(date), st.handles, st.log);
    assert IngestState(st, Observation(date, station, element, Some(value)), rowsAt, yearOf) == (true, st');
    if ordered' {
      FinalisedAdd(acc, lo, lo + |processed|, stations, elements, date, station, element, value);
    }
    AgreeAdd(st.buffer, acc, st.cursor.value, date, station, element, value);
  }

  /**
   * What the lines read so far say about the state: the cursor is set once
   * an observation was accepted, the first accepted date is the cursor's
   * first value, the last is the state's last date, and `ordered` says
   * whether the accepted dates never decreased.
   */
  ghost predicate LinesInv(lines: seq<string>, stations: set<string>, elements: seq<string>, parseDate: string -> Option<int>,
                           st: State, origin: int, ordered: bool)
  {
    DatesInv(Dates(lines, stations, elements, parseDate), st, origin, ordered)
  }

  /** `LinesInv` for the accepted dates `ds`. */
  ghost predicate DatesInv(ds: seq<int>, st: State, origin: int, ordered: bool)
  {
    && (st.cursor.None? <==> ds == [])
    && (ds != [] ==> origin == ds[0] && st.lastDate == Some(ds[|ds| - 1]))
    && (ds == [] ==> st.lastDate.None?)
    && ordered == NonDecreasing(ds)
  }

  /** One more line taken without error keeps `LinesInv`. */
  lemma LinesNext(lines: seq<string>, i: int, stations: set<string>, elements: seq<string>, parseDate: string -> Option<int>,
                  rec: Record, st: State, origin: int, ordered: bool, st': State, origin': int, ordered': bool)
    requires 0 <= i < |lines|
    requires rec == ParseRecord(lines[i], stations, elements, parseDate)
    requires LinesInv(lines[..i], stations, elements, parseDate, st, origin, ordered)
    requires origin' == (if st.cursor.None? && rec.Observation? then rec.date else origin)
    requires ordered' == (ordered && (rec.Observation? && st.lastDate.Some? ==> st.lastDate.value <= rec.date))
    requires st'.lastDate == (if rec.Observation? then Some(rec.date) else st.lastDate)
    requires rec.Observation? ==> st'.cursor.Some?
    requires !rec.Observation? ==> st'.cursor == st.cursor
    ensures LinesInv(lines[..i + 1], stations, elements, parseDate, st', origin', ordered')
  {
    DatesNext(lines, i, stations, elements, parseDate);
    var ds := Dates(lines[..i], stations, elements, parseDate);
    if rec.Observation? {
      NonDecreasingSnoc(ds, rec.date);
    } else {
      assert ds + [] == ds;
    }
  }

  /**
   * Once the drain is done, the finalised days end at the last accepted
   * date, and none is finalised exactly when that date is less than six
   * days after the first, provided the accepted dates never decreased.
   */
  lemma DrainedDays(yearOf: int -> int, st: State, origin: int, processed: seq<int>, ordered: bool)
    requires Inv(yearOf, st, origin, processed, ordered)
    requires st.cursor.Some? && st.cursor.value + TrailingDays - 1 > st.lastDate.value
    ensures ordered ==> (processed == [] <==> st.lastDate.value < origin + TrailingDays - 1)
    ensures ordered && processed != [] ==> processed[|processed| - 1] == st.lastDate.value
  {
    if processed != [] {
      assert processed[|processed| - 1] == origin + (TrailingDays - 1) + |processed| - 1;
    }
  }
}
