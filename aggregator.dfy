/**
 * The driver of the rolling 7-day aggregator
 * (scripts/prepare-annual-weather-data.py, lines 53-124): the cursor that
 * trails the incoming dates, the buffer it finalises and trims one day at a
 * time, and the per-year output handles, recorded as a log of events.
 * The input is the lines of the yearly files, read one file after another.
 */
module Aggregator {
  import opened Wrappers
  import opened Order
  import opened Text
  import opened Window

  /** What happens to the per-year output files. */
  datatype Event = Open(year: int) | Close(year: int) | Write(year: int, row: Row)

  /** The years whose handle is open after `log`. */
  function OpenAfter(log: seq<Event>): set<int>
  {
    if log == [] then {}
    else
      var before := OpenAfter(log[..|log| - 1]);
      match log[|log| - 1]
      case Open(y) => before + {y}
      case Close(y) => before - {y}
      case Write(_, _) => before
  }

  /** The years ever opened in `log`. */
  function Opened(log: seq<Event>): set<int>
  {
    if log == [] then {}
    else
      var before := Opened(log[..|log| - 1]);
      match log[|log| - 1]
      case Open(y) => before + {y}
      case _ => before
  }

  /**
   * A well-formed handle history: a year's file is created at most once and
   * only while no other file is open, a handle is closed only while open,
   * and a row goes only to the open handle of its own year.
   */
  ghost predicate LogOk(log: seq<Event>, yearOf: int -> int)
  {
    if log == [] then true
    else
      var before := log[..|log| - 1];
      && LogOk(before, yearOf)
      && match log[|log| - 1]
         case Open(y) => OpenAfter(before) == {} && y !in Opened(before)
         case Close(y) => y in OpenAfter(before)
         case Write(y, row) => y in OpenAfter(before) && y == yearOf(row.date)
  }

  /** The calendar's year rises by at most one from one day to the next. */
  predicate YearStep(yearOf: int -> int, d: int)
  {
    yearOf(d) <= yearOf(d + 1) <= yearOf(d) + 1
  }

  /** The writes of `rows` to the handle of `year`. */
  function Writes(year: int, rows: seq<Row>): (r: seq<Event>)
    ensures |r| == |rows|
  {
    if rows == [] then [] else Writes(year, rows[..|rows| - 1]) + [Write(year, rows[|rows| - 1])]
  }

  /** The i-th write is that of the i-th row. */
  lemma {:induction false} WritesAre(year: int, rows: seq<Row>)
    ensures forall i :: 0 <= i < |rows| ==> Writes(year, rows)[i] == Write(year, rows[i])
  {
    if rows != [] {
      WritesAre(year, rows[..|rows| - 1]);
    }
  }

  /** Lines 88-95 of prepare-annual-weather-data.py: before writing for `year`, close `year - 1` and open `year`, unless `year` is open. */
  function Rotation(handles: set<int>, year: int): seq<Event>
  {
    if year in handles then []
    else (if year - 1 in handles then [Close(year - 1)] else []) + [Open(year)]
  }

  /** The handles left open by `Rotation`. */
  function Rotated(handles: set<int>, year: int): set<int>
  {
    if year in handles then handles else handles - {year - 1} + {year}
  }

  /** The rows finalised for a day, as a function of the buffer and the day. */
  type RowsAt = (Buffer, int) -> seq<Row>

  /**
   * `rowsAt` computes the rows of `process_date` (lines 11-34 of prepare-annual-weather-data.py) for the
   * selected stations and elements. The driver's definitions take the row
   * computation as this parameter, so that what they say about the handles
   * and the cursor does not depend on how the rows are computed.
   */
  ghost predicate RowsAre(rowsAt: RowsAt, stations: set<string>, elements: seq<string>)
  {
    forall buf, p {:trigger Rows(buf, p, stations, elements)} :: rowsAt(buf, p) == Rows(buf, p, stations, elements)
  }

  /** The rows for day `p` are all dated `p`. */
  lemma RowsAtDated(rowsAt: RowsAt, stations: set<string>, elements: seq<string>, buf: Buffer, p: int)
    requires RowsAre(rowsAt, stations, elements)
    ensures forall i :: 0 <= i < |rowsAt(buf, p)| ==> rowsAt(buf, p)[i].date == p
  {
    RowsPerStation(buf, p, stations, elements);
  }

  /** The events of one step of the cursor `c` that finalises day `c + 6`. */
  function StepLog(buf: Buffer, c: int, handles: set<int>, rowsAt: RowsAt, yearOf: int -> int)
    : seq<Event>
  {
    var p := c + TrailingDays - 1;
    Rotation(handles, yearOf(p)) + Writes(yearOf(p), rowsAt(buf, p))
  }

  /** The events of the steps of the cursor from `c0` up to, not including, `c1`. */
  function StepsLog(buf: Buffer, c0: int, c1: int, handles: set<int>, rowsAt: RowsAt, yearOf: int -> int)
    : seq<Event>
    decreases c1 - c0
  {
    if c1 <= c0 then []
    else
      var c := c1 - 1;
      var open := if c == c0 then handles else {yearOf(c + TrailingDays - 2)};
      StepsLog(buf, c0, c, handles, rowsAt, yearOf) + StepLog(buf, c, open, rowsAt, yearOf)
  }

  /** `buf` without the days `c0 .. c1 - 1`. */
  function DropDays(buf: Buffer, c0: int, c1: int): Buffer
  {
    map d | d in buf && !(c0 <= d < c1) :: buf[d]
  }

  lemma {:induction false} WritesKeep(log: seq<Event>, year: int, rows: seq<Row>, yearOf: int -> int)
    ensures OpenAfter(log + Writes(year, rows)) == OpenAfter(log)
    ensures Opened(log + Writes(year, rows)) == Opened(log)
    ensures LogOk(log, yearOf) && year in OpenAfter(log) && (forall i :: 0 <= i < |rows| ==> yearOf(rows[i].date) == year)
      ==> LogOk(log + Writes(year, rows), yearOf)
    decreases |rows|
  {
    if rows != [] {
      var init := rows[..|rows| - 1];
      assert (log + Writes(year, rows))[..|log| + |rows| - 1] == log + Writes(year, init);
      WritesKeep(log, year, init, yearOf);
    } else {
      assert log + Writes(year, rows) == log;
    }
  }

  /** A sequence fact stated once so that the proofs using it need not rediscover it. */
  lemma {:induction false} Snoc(log: seq<Event>, e: Event)
    ensures (log + [e])[..|log|] == log
  {
  }

  /**
   * Rotating to `year` from at most one open handle of the year before
   * leaves exactly `year` open, and no year is created twice.
   */
  lemma {:induction false} RotationKeeps(log: seq<Event>, prev: Option<int>, year: int, yearOf: int -> int)
    requires LogOk(log, yearOf)
    requires prev.None? ==> OpenAfter(log) == {} && Opened(log) == {}
    requires prev.Some? ==>
      && OpenAfter(log) == {prev.value}
      && (forall z :: z in Opened(log) ==> z <= prev.value)
      && prev.value <= year <= prev.value + 1
    ensures var after := log + Rotation(OpenAfter(log), year);
      && OpenAfter(after) == {year}
      && LogOk(after, yearOf)
      && forall z :: z in Opened(after) ==> z <= year
  {
    var handles := OpenAfter(log);
    if year !in handles {
      var mid := if year - 1 in handles then log + [Close(year - 1)] else log;
      if year - 1 in handles {
        Snoc(log, Close(year - 1));
      }
      assert OpenAfter(mid) == {} && LogOk(mid, yearOf) && Opened(mid) == Opened(log);
      Snoc(mid, Open(year));
      assert log + Rotation(handles, year) == mid + [Open(year)];
    } else {
      assert log + Rotation(handles, year) == log;
    }
  }

  /** Associativity of the log's concatenation, stated for the rotation and writes of one step. */
  lemma {:induction false} AppendWrites(log: seq<Event>, rot: seq<Event>, year: int, rows: seq<Row>)
    ensures (log + rot) + Writes(year, rows) == log + (rot + Writes(year, rows))
  {
  }

  /** `[x.strip() for x in line.split(',')]`. */
  function Columns(line: string): (cols: seq<string>)
    ensures |cols| == |Split(line)| >= 1
  {
    var parts := Split(line);
    seq(|parts|, i requires 0 <= i < |parts| => Strip(parts[i]))
  }

  /** What lines 72-101 of prepare-annual-weather-data.py make of one input line before touching any state. */
  datatype Record =
    | Skip                                   // station or element not selected
    | Malformed                              // `cols[2]` or `cols[1]` raises
    | Observation(date: int, station: string, element: string, value: Option<int>)
                                             // `value` is None where `int(cols[3])` raises

  function ParseRecord(line: string, stations: set<string>, elements: seq<string>, parseDate: string -> Option<int>): Record
  {
    var cols := Columns(line);
    if cols[0] !in stations then Skip
    else if |cols| < 3 then Malformed
    else if cols[2] !in elements then Skip
    else
      match parseDate(cols[1])
      case None => Malformed
      case Some(date) => Observation(date, cols[0], cols[2], if |cols| < 4 then None else ParseInt(cols[3]))
  }

  /** The variables of `process_per_year_files` that outlive one line. */
  datatype State = State(
    buffer: Buffer,          // rolling_daily_data_map
    cursor: Option<int>,     // curr_datetime
    lastDate: Option<int>,   // line_datetime
    handles: set<int>,       // the keys of output_file_handles
    log: seq<Event>)         // everything done to the output files so far

  const Start := State(map[], None, None, {}, [])

  /**
   * The invariant of the driver, given the cursor's first value `origin`,
   * the days finalised so far and whether the accepted dates so far never
   * decreased.
   */
  ghost predicate Inv(yearOf: int -> int, st: State, origin: int, processed: seq<int>, ordered: bool)
  {
    && (forall d :: YearStep(yearOf, d))
    && (st.cursor.None? ==> st.buffer == map[] && st.lastDate.None? && processed == [] && st.log == [])
    && CursorInv(st.buffer, st.cursor, st.lastDate, origin, processed, ordered)
    && HandleInv(yearOf, st.handles, st.log, processed)
  }

  /**
   * The finalised days run consecutively from `origin + 6` up to the day
   * before the cursor's plus six, and while the accepted dates never
   * decreased the cursor stays at or before the last accepted date, the
   * last finalised day is not after it, and the buffer holds no day outside
   * that range.
   */
  ghost predicate CursorInv(buffer: Buffer, cursor: Option<int>, lastDate: Option<int>, origin: int, processed: seq<int>, ordered: bool)
  {
    && (cursor.Some? ==> lastDate.Some? && cursor.value == origin + |processed|)
    && (forall i :: 0 <= i < |processed| ==> processed[i] == origin + (TrailingDays - 1) + i)
    && (ordered && cursor.Some? ==>
          && cursor.value <= lastDate.value
          && (processed != [] ==> cursor.value + (TrailingDays - 2) <= lastDate.value)
          && forall d :: d in buffer ==> cursor.value <= d <= lastDate.value)
  }

  /**
   * At most one handle is open, the one of the last finalised day's year;
   * the log is well formed and has created no file of a later year.
   */
  ghost predicate HandleInv(yearOf: int -> int, handles: set<int>, log: seq<Event>, processed: seq<int>)
  {
    && handles == (if processed == [] then {} else {yearOf(processed[|processed| - 1])})
    && OpenAfter(log) == handles
    && LogOk(log, yearOf)
    && (processed == [] ==> Opened(log) == {})
    && (processed != [] ==> forall z :: z in Opened(log) ==> z <= yearOf(processed[|processed| - 1]))
  }

  /**
   * The state after one step of the cursor that writes `rows`, as lines
   * 87-99 and 108-120 leave it: the handles rotated to the year of day
   * `curr + 6`, the rows written to that year's handle and, where `curr` has
   * an entry, that entry deleted and the cursor moved on. Where it has none,
   * the deletion raises after the rows are written.
   */
  function StepState(st: State, rows: seq<Row>, yearOf: int -> int): State
    requires st.cursor.Some?
  {
    var c := st.cursor.value;
    var y := yearOf(c + TrailingDays - 1);
    var log := st.log + (Rotation(st.handles, y) + Writes(y, rows));
    if c in st.buffer then State(st.buffer - {c}, Some(c + 1), st.lastDate, Rotated(st.handles, y), log)
    else State(st.buffer, st.cursor, st.lastDate, Rotated(st.handles, y), log)
  }

  /** The rows a step from `st` writes: those of day `curr + 6`. */
  function StepRows(st: State, rowsAt: RowsAt): seq<Row>
    requires st.cursor.Some?
  {
    rowsAt(st.buffer, st.cursor.value + TrailingDays - 1)
  }

  lemma {:induction false} HandlesAfterStep(yearOf: int -> int, handles: set<int>, log: seq<Event>, processed: seq<int>, p: int, rows: seq<Row>)
    requires HandleInv(yearOf, handles, log, processed)
    requires YearStep(yearOf, p - 1)
    requires processed != [] ==> processed[|processed| - 1] == p - 1
    requires forall i :: 0 <= i < |rows| ==> rows[i].date == p
    ensures Rotated(handles, yearOf(p)) == {yearOf(p)}
    ensures HandleInv(yearOf, {yearOf(p)}, log + (Rotation(handles, yearOf(p)) + Writes(yearOf(p), rows)), processed + [p])
  {
    var y := yearOf(p);
    RotationKeeps(log, if processed == [] then None else Some(yearOf(p - 1)), y, yearOf);
    var rotated := log + Rotation(handles, y);
    WritesKeep(rotated, y, rows, yearOf);
    AppendWrites(log, Rotation(handles, y), y, rows);
    var processed' := processed + [p];
    assert processed'[|processed'| - 1] == p;
  }

  lemma {:induction false} CursorAfterStep(buffer: Buffer, c: int, last: int, origin: int, processed: seq<int>, ordered: bool)
    requires CursorInv(buffer, Some(c), Some(last), origin, processed, ordered)
    requires c + (TrailingDays - 1) <= last
    ensures CursorInv(buffer - {c}, Some(c + 1), Some(last), origin, processed + [c + TrailingDays - 1], ordered)
    ensures processed != [] ==> processed[|processed| - 1] == c + TrailingDays - 2
  {
    var processed' := processed + [c + TrailingDays - 1];
    assert forall i :: 0 <= i < |processed'| ==> processed'[i] == origin + (TrailingDays - 1) + i;
  }

  /**
   * A step that writes rows of day `curr + 6` leaves exactly the handle of
   * that day's year open and the log well formed, and a step that finds
   * `curr` buffered keeps the invariant.
   */
  lemma {:induction false} StepKeeps(yearOf: int -> int, st: State, rows: seq<Row>, origin: int, processed: seq<int>, ordered: bool)
    requires Inv(yearOf, st, origin, processed, ordered)
    requires st.cursor.Some? && st.cursor.value + (TrailingDays - 1) <= st.lastDate.value
    requires forall i :: 0 <= i < |rows| ==> rows[i].date == st.cursor.value + TrailingDays - 1
    ensures var c, st' := st.cursor.value, StepState(st, rows, yearOf);
      && st'.handles == {yearOf(c + TrailingDays - 1)}
      && HandleInv(yearOf, st'.handles, st'.log, processed + [c + TrailingDays - 1])
      && (c in st.buffer ==> Inv(yearOf, st', origin, processed + [c + TrailingDays - 1], ordered))
  {
    var c := st.cursor.value;
    var p := c + TrailingDays - 1;
    assert YearStep(yearOf, p - 1);
    HandlesAfterStep(yearOf, st.handles, st.log, processed, p, rows);
    if c in st.buffer {
      CursorAfterStep(st.buffer, c, st.lastDate.value, origin, processed, ordered);
    }
  }

  /** Lines 88-95 and 109-116 of prepare-annual-weather-data.py. */
  method Rotate(handles: set<int>, log: seq<Event>, year: int) returns (handles': set<int>, log': seq<Event>)
    ensures handles' == Rotated(handles, year)
    ensures log' == log + Rotation(handles, year)
  {
    handles', log' := handles, log;
    if year !in handles' {
      if year - 1 in handles' {
        log' := log' + [Close(year - 1)];
        handles' := handles' - {year - 1};
      }
      log' := log' + [Open(year)];
      handles' := handles' + {year};
    }
  }

  /**
   * One step of the cursor: rotate the handles, write the rows of
   * `curr + 6`, delete `curr` and move on. Fails, after writing, where
   * `curr` has no buffered entry (the `KeyError` of lines 98 and 119 of prepare-annual-weather-data.py).
   */
  method Step(st: State, stations: set<string>, elements: seq<string>, yearOf: int -> int, ghost rowsAt: RowsAt) returns (ok: bool, st': State)
    requires RowsAre(rowsAt, stations, elements)
    requires st.cursor.Some?
    ensures ok == (st.cursor.value in st.buffer)
    ensures st' == StepState(st, StepRows(st, rowsAt), yearOf)
  {
    var c := st.cursor.value;
    var p := c + TrailingDays - 1;
    var y := yearOf(p);
    var handles, log := Rotate(st.handles, st.log, y);
    var rows := ProcessDate(st.buffer, p, stations, elements);
    AppendWrites(st.log, Rotation(st.handles, y), y, rows);
    log := log + Writes(y, rows);
    if c !in st.buffer {
      return false, State(st.buffer, st.cursor, st.lastDate, handles, log);
    }
    return true, State(st.buffer - {c}, Some(c + 1), st.lastDate, handles, log);
  }

  /** The cursor once an observation of `date` is accepted (lines 83-84 of prepare-annual-weather-data.py). */
  function CursorFor(cursor: Option<int>, date: int): int
  {
    if cursor.None? then date else cursor.value
  }

  /** Whether accepting an observation of `date` steps the cursor (line 86 of prepare-annual-weather-data.py). */
  predicate Steps(cursor: Option<int>, date: int)
  {
    date >= CursorFor(cursor, date) + Lookahead
  }

  /**
   * Lines 83-102 of prepare-annual-weather-data.py on one record, where a step writes `rows`: whether the line
   * is taken without error, and the state it leaves.
   */
  function IngestWith(st: State, rec: Record, rows: seq<Row>, yearOf: int -> int): (bool, State)
  {
    match rec
    case Skip => (true, st)
    case Malformed => (false, st)
    case Observation(date, station, element, value) =>
      var c := CursorFor(st.cursor, date);
      var dated := State(st.buffer, Some(c), Some(date), st.handles, st.log);
      var advanced := if Steps(st.cursor, date) then StepState(dated, rows, yearOf) else dated;
      if (Steps(st.cursor, date) && c !in st.buffer) || value.None? then (false, advanced)
      else (true, State(AddData(advanced.buffer, date, station, element, value.value),
                        advanced.cursor, advanced.lastDate, advanced.handles, advanced.log))
  }

  /** Lines 72-102 of prepare-annual-weather-data.py on one record: the step, if any, writes the rows of day `curr + 6`. */
  function IngestState(st: State, rec: Record, rowsAt: RowsAt, yearOf: int -> int): (bool, State)
  {
    var rows := if rec.Observation? then rowsAt(st.buffer, CursorFor(st.cursor, rec.date) + TrailingDays - 1) else [];
    IngestWith(st, rec, rows, yearOf)
  }

  /** The body of the loop over the lines of the yearly files past the parsing (lines 83-102 of prepare-annual-weather-data.py). */
  method Ingest(st: State, rec: Record, stations: set<string>, elements: seq<string>, yearOf: int -> int, ghost rowsAt: RowsAt)
    returns (ok: bool, st': State)
    requires RowsAre(rowsAt, stations, elements)
    ensures (ok, st') == IngestState(st, rec, rowsAt, yearOf)
  {
    match rec
    case Skip =>
      return true, st;
    case Malformed =>
      return false, st;
    case Observation(date, station, element, value) =>
      var cursor := st.cursor;
      if cursor.None? {
        cursor := Some(date);
      }
      st' := State(st.buffer, cursor, Some(date), st.handles, st.log);
      if date >= cursor.value + Lookahead {
        ok, st' := Step(st', stations, elements, yearOf, rowsAt);
        if !ok {
          return;
        }
      }
      if value.None? {
        return false, st';
      }
      st' := State(AddData(st'.buffer, date, station, element, value.value), st'.cursor, st'.lastDate, st'.handles, st'.log);
      ok := true;
  }

  /** Storing an observation keeps the cursor invariant, given that it is not before the cursor when dates never decreased. */
  lemma {:induction false} AddKeeps(buffer: Buffer, c: int, date: int, origin: int, processed: seq<int>, ordered: bool,
                                    station: string, element: string, value: int)
    requires CursorInv(buffer, Some(c), Some(date), origin, processed, ordered)
    requires ordered ==> c <= date
    ensures CursorInv(AddData(buffer, date, station, element, value), Some(c), Some(date), origin, processed, ordered)
  {
  }

  /** Recording a new last date keeps the cursor invariant, for the ordering updated accordingly. */
  lemma {:induction false} LaterDateKeeps(buffer: Buffer, c: int, last: Option<int>, date: int,
                                          origin: int, processed: seq<int>, ordered: bool)
    requires CursorInv(buffer, Some(c), last, origin, processed, ordered)
    requires last.Some?
    ensures var ordered' := ordered && last.value <= date;
      CursorInv(buffer, Some(c), Some(date), origin, processed, ordered')
  {
  }

  /** `IngestKeeps` for the first accepted observation. */
  lemma {:induction false} FirstKeeps(yearOf: int -> int, st: State, date: int, station: string, element: string, value: Option<int>,
                                      rows: seq<Row>, origin: int, processed: seq<int>, ordered: bool)
    requires Inv(yearOf, st, origin, processed, ordered)
    requires st.cursor.None?
    ensures var (ok, st') := IngestWith(st, Observation(date, station, element, value), rows, yearOf);
      && st'.log == st.log
      && st'.lastDate == Some(date)
      && (ok ==> Inv(yearOf, st', date, processed, ordered) && st'.cursor.value <= date)
  {
  }

  /** `IngestKeeps` for a later observation that steps the cursor. */
  lemma {:induction false} StepObservationKeeps(yearOf: int -> int, st: State, date: int, station: string, element: string, value: Option<int>,
                                                rows: seq<Row>, origin: int, processed: seq<int>, ordered: bool)
    requires Inv(yearOf, st, origin, processed, ordered)
    requires st.cursor.Some? && Steps(st.cursor, date)
    requires forall i :: 0 <= i < |rows| ==> rows[i].date == st.cursor.value + TrailingDays - 1
    ensures var ordered' := ordered && st.lastDate.value <= date;
      var (ok, st') := IngestWith(st, Observation(date, station, element, value), rows, yearOf);
      && LogOk(st'.log, yearOf)
      && st'.lastDate == Some(date)
      && (ok ==> Inv(yearOf, st', origin, processed + [st.cursor.value + TrailingDays - 1], ordered'))
      && (ok ==> st'.cursor.value + Lookahead - 1 <= date)
  {
    var c := st.cursor.value;
    var ordered' := ordered && st.lastDate.value <= date;
    LaterDateKeeps(st.buffer, c, st.lastDate, date, origin, processed, ordered);
    var dated := State(st.buffer, Some(c), Some(date), st.handles, st.log);
    StepKeeps(yearOf, dated, rows, origin, processed, ordered');
    var stepped := StepState(dated, rows, yearOf);
    if c in st.buffer && value.Some? {
      AddKeeps(stepped.buffer, c + 1, date, origin, processed + [c + TrailingDays - 1], ordered', station, element, value.value);
    }
  }

  /** `IngestKeeps` for a later observation that leaves the cursor where it is. */
  lemma {:induction false} StayObservationKeeps(yearOf: int -> int, st: State, date: int, station: string, element: string, value: Option<int>,
                                                rows: seq<Row>, origin: int, processed: seq<int>, ordered: bool)
    requires Inv(yearOf, st, origin, processed, ordered)
    requires st.cursor.Some? && !Steps(st.cursor, date)
    ensures var ordered' := ordered && st.lastDate.value <= date;
      var (ok, st') := IngestWith(st, Observation(date, station, element, value), rows, yearOf);
      && st'.log == st.log
      && st'.lastDate == Some(date)
      && (ok ==> Inv(yearOf, st', origin, processed, ordered'))
      && (ok && ordered' ==> st'.cursor.value <= date)
  {
    var c := st.cursor.value;
    var ordered' := ordered && st.lastDate.value <= date;
    LaterDateKeeps(st.buffer, c, st.lastDate, date, origin, processed, ordered);
    if value.Some? {
      AddKeeps(st.buffer, c, date, origin, processed, ordered', station, element, value.value);
    }
  }

  /**
   * One line keeps the driver's invariant: the handle history stays well
   * formed whatever happens, and a line taken without error leaves the
   * invariant for the new first day, finalised days and ordering, with its
   * date as the last one. Once the cursor has stepped it is at least nine
   * days behind the line's date, and while the dates never decreased an
   * observation is never stored under a day the cursor has already passed
   * (and so deleted).
   */
  lemma {:induction false} IngestKeeps(yearOf: int -> int, st: State, rec: Record, origin: int, processed: seq<int>, ordered: bool,
                                       rowsAt: RowsAt, stations: set<string>, elements: seq<string>)
    returns (origin': int, processed': seq<int>, ordered': bool)
    requires RowsAre(rowsAt, stations, elements)
    requires Inv(yearOf, st, origin, processed, ordered)
    ensures origin' == (if st.cursor.None? && rec.Observation? then rec.date else origin)
    ensures ordered' == (ordered && (rec.Observation? && st.lastDate.Some? ==> st.lastDate.value <= rec.date))
    ensures processed' ==
      if rec.Observation? && Steps(st.cursor, rec.date) then processed + [CursorFor(st.cursor, rec.date) + TrailingDays - 1]
      else processed
    ensures var (ok, st') := IngestState(st, rec, rowsAt, yearOf);
      && LogOk(st'.log, yearOf)
      && st'.lastDate == (if rec.Observation? then Some(rec.date) else st.lastDate)
      && (ok ==> Inv(yearOf, st', origin', processed', ordered'))
      && (ok && rec.Observation? && Steps(st.cursor, rec.date) ==> st'.cursor.value + Lookahead - 1 <= rec.date)
      && (ok && rec.Observation? && ordered' ==> st'.cursor.value <= rec.date)
      && (rec.Observation? ==> st'.cursor.Some?)
      && (!rec.Observation? ==> st'.cursor == st.cursor)
  {
    origin', processed', ordered' := origin, processed, ordered;
    match rec
    case Skip =>
    case Malformed =>
    case Observation(date, station, element, value) =>
      var rows := rowsAt(st.buffer, CursorFor(st.cursor, date) + TrailingDays - 1);
      ordered' := ordered && (st.lastDate.Some? ==> st.lastDate.value <= date);
      if st.cursor.None? {
        origin' := date;
        FirstKeeps(yearOf, st, date, station, element, value, rows, origin, processed, ordered);
      } else if Steps(st.cursor, date) {
        processed' := processed + [st.cursor.value + TrailingDays - 1];
        RowsAtDated(rowsAt, stations, elements, st.buffer, st.cursor.value + TrailingDays - 1);
        StepObservationKeeps(yearOf, st, date, station, element, value, rows, origin, processed, ordered);
      } else {
        StayObservationKeeps(yearOf, st, date, station, element, value, rows, origin, processed, ordered);
      }
  }

  /** Dropping the days before `c` leaves the days from `c` on as they were. */
  lemma {:induction false} DropDaysAgree(buf: Buffer, c0: int, c: int, hi: int)
    ensures AgreeOn(DropDays(buf, c0, c), buf, c, hi)
  {
  }

  /** Day `c` is still in `buf` once the days before it are dropped, and dropping it too drops one more day. */
  lemma {:induction false} DropDaysNext(buf: Buffer, c0: int, c: int)
    requires c0 <= c
    ensures c in DropDays(buf, c0, c) <==> c in buf
    ensures c in buf ==> DropDays(buf, c0, c) - {c} == DropDays(buf, c0, c + 1)
  {
    if c in buf {
      assert (DropDays(buf, c0, c) - {c}).Keys == DropDays(buf, c0, c + 1).Keys;
    }
  }

  /** The fields of the state a step leaves. */
  lemma {:induction false} StepStateFields(st: State, rows: seq<Row>, yearOf: int -> int)
    requires st.cursor.Some?
    ensures var c, next := st.cursor.value, StepState(st, rows, yearOf);
      var y := yearOf(c + TrailingDays - 1);
      && next.log == st.log + (Rotation(st.handles, y) + Writes(y, rows))
      && next.lastDate == st.lastDate
      && next.handles == Rotated(st.handles, y)
      && (c in st.buffer ==> next.buffer == st.buffer - {c} && next.cursor == Some(c + 1))
      && (c !in st.buffer ==> next.buffer == st.buffer && next.cursor == st.cursor)
  {
  }

  /** The rows a drain step computes from the shrunk buffer are those of the original buffer. */
  lemma {:induction false} DrainRows(buf: Buffer, c0: int, cur: State, rowsAt: RowsAt, stations: set<string>, elements: seq<string>)
    requires RowsAre(rowsAt, stations, elements)
    requires cur.cursor.Some? && c0 <= cur.cursor.value
    requires cur.buffer == DropDays(buf, c0, cur.cursor.value)
    ensures StepRows(cur, rowsAt) == rowsAt(buf, cur.cursor.value + TrailingDays - 1)
  {
    var p := cur.cursor.value + TrailingDays - 1;
    DropDaysAgree(buf, c0, cur.cursor.value, p);
    RowsLocal(cur.buffer, buf, p, stations, elements);
  }

  /** The buffer, cursor and date a drain step leaves. */
  lemma {:induction false} DrainShape(buf: Buffer, c0: int, cur: State, rows: seq<Row>, yearOf: int -> int)
    requires cur.cursor.Some? && c0 <= cur.cursor.value
    requires cur.buffer == DropDays(buf, c0, cur.cursor.value)
    ensures cur.cursor.value in cur.buffer <==> cur.cursor.value in buf
    ensures StepState(cur, rows, yearOf).lastDate == cur.lastDate
    ensures cur.cursor.value in buf ==>
      && StepState(cur, rows, yearOf).buffer == DropDays(buf, c0, cur.cursor.value + 1)
      && StepState(cur, rows, yearOf).cursor == Some(cur.cursor.value + 1)
    ensures cur.cursor.value !in buf ==>
      && StepState(cur, rows, yearOf).buffer == cur.buffer
      && StepState(cur, rows, yearOf).cursor == cur.cursor
  {
    DropDaysNext(buf, c0, cur.cursor.value);
    StepStateFields(cur, rows, yearOf);
  }

  /** The log a drain step leaves: the steps from `c0` one day further. */
  lemma {:induction false} DrainLog(buf: Buffer, c0: int, handles: set<int>, log: seq<Event>, cur: State, rows: seq<Row>,
                                    rowsAt: RowsAt, yearOf: int -> int)
    requires cur.cursor.Some? && c0 <= cur.cursor.value
    requires cur.log == log + StepsLog(buf, c0, cur.cursor.value, handles, rowsAt, yearOf)
    requires cur.handles == if cur.cursor.value == c0 then handles else {yearOf(cur.cursor.value + TrailingDays - 2)}
    requires rows == rowsAt(buf, cur.cursor.value + TrailingDays - 1)
    ensures StepState(cur, rows, yearOf).log == log + StepsLog(buf, c0, cur.cursor.value + 1, handles, rowsAt, yearOf)
  {
    StepsLogNext(buf, c0, cur.cursor.value, handles, log, cur.handles, rows, rowsAt, yearOf);
    DrainStepLog(buf, c0, handles, log, cur, rows, rowsAt, yearOf);
  }

  /** `DrainLog` once the step one day further is spelt out. */
  lemma {:induction false} DrainStepLog(buf: Buffer, c0: int, handles: set<int>, log: seq<Event>, cur: State, rows: seq<Row>,
                                        rowsAt: RowsAt, yearOf: int -> int)
    requires cur.cursor.Some? && c0 <= cur.cursor.value
    requires cur.log == log + StepsLog(buf, c0, cur.cursor.value, handles, rowsAt, yearOf)
    requires cur.handles == if cur.cursor.value == c0 then handles else {yearOf(cur.cursor.value + TrailingDays - 2)}
    requires log + StepsLog(buf, c0, cur.cursor.value + 1, handles, rowsAt, yearOf)
          == (log + StepsLog(buf, c0, cur.cursor.value, handles, rowsAt, yearOf))
             + (Rotation(cur.handles, yearOf(cur.cursor.value + TrailingDays - 1)) + Writes(yearOf(cur.cursor.value + TrailingDays - 1), rows))
    ensures StepState(cur, rows, yearOf).log == log + StepsLog(buf, c0, cur.cursor.value + 1, handles, rowsAt, yearOf)
  {
    StepStateFields(cur, rows, yearOf);
  }

  /** `StepsLog` one step further, appended to a log. */
  lemma {:induction false} StepsLogNext(buf: Buffer, c0: int, c: int, handles: set<int>, log: seq<Event>, open: set<int>, rows: seq<Row>,
                                        rowsAt: RowsAt, yearOf: int -> int)
    requires c0 <= c
    requires open == if c == c0 then handles else {yearOf(c + TrailingDays - 2)}
    requires rows == rowsAt(buf, c + TrailingDays - 1)
    ensures log + StepsLog(buf, c0, c + 1, handles, rowsAt, yearOf)
         == (log + StepsLog(buf, c0, c, handles, rowsAt, yearOf))
            + (Rotation(open, yearOf(c + TrailingDays - 1)) + Writes(yearOf(c + TrailingDays - 1), rows))
  {
    var before, step := StepsLog(buf, c0, c, handles, rowsAt, yearOf), StepLog(buf, c, open, rowsAt, yearOf);
    assert StepsLog(buf, c0, c + 1, handles, rowsAt, yearOf) == before + step;
    assert step == Rotation(open, yearOf(c + TrailingDays - 1)) + Writes(yearOf(c + TrailingDays - 1), rows);
    AppendAfter(log, before, step, StepsLog(buf, c0, c + 1, handles, rowsAt, yearOf));
  }

  /** Associativity of the log's concatenation, for a log extended by a whole that splits in two. */
  lemma {:induction false} AppendAfter(log: seq<Event>, before: seq<Event>, step: seq<Event>, whole: seq<Event>)
    requires whole == before + step
    ensures log + whole == (log + before) + step
  {
  }

  /**
   * The drain loop of lines 107-120 of prepare-annual-weather-data.py: step the cursor while day `curr + 6`
   * is not after the last accepted date. Without any accepted line there is
   * no date to compare (the loop's `line_datetime` is unbound) and nothing
   * happens. Otherwise the steps from the cursor `c0` up to the final cursor
   * `c1` write what `StepsLog` says and delete the days `c0 .. c1 - 1`; the
   * drain fails, after the rows of the failing step are written, where day
   * `c1` has no entry, and it fails exactly when some day it has to step
   * over has none (`DrainClear`). The log stays well formed; after a drain that
   * succeeds, the cursor is less than six days behind the last date, and if
   * the drain stepped at all the last finalised day is that date.
   */
  method Drain(st: State, stations: set<string>, elements: seq<string>, yearOf: int -> int,
               ghost rowsAt: RowsAt, ghost origin: int, ghost processed: seq<int>, ghost ordered: bool)
    returns (ok: bool, st': State, ghost processed': seq<int>)
    requires RowsAre(rowsAt, stations, elements)
    requires Inv(yearOf, st, origin, processed, ordered)
    ensures st.cursor.None? ==> !ok && st' == st
    ensures LogOk(st'.log, yearOf)
    ensures st.cursor.Some? ==> st'.cursor.Some? && st'.lastDate == st.lastDate && st.cursor.value <= st'.cursor.value
    ensures st.cursor.Some? ==> st'.buffer == DropDays(st.buffer, st.cursor.value, st'.cursor.value)
    ensures st.cursor.Some? && ok ==>
      && st'.log == st.log + StepsLog(st.buffer, st.cursor.value, st'.cursor.value, st.handles, rowsAt, yearOf)
      && st'.cursor.value + TrailingDays - 1 > st.lastDate.value
    ensures st.cursor.Some? && !ok ==> DrainFailed(st, st', rowsAt, yearOf)
    ensures st.cursor.Some? && ok ==> Buffered(st.buffer, st.cursor.value, st'.cursor.value)
    ensures st.cursor.Some? ==> (ok <==> DrainClear(st))
    ensures ok ==> Inv(yearOf, st', origin, processed', ordered)
    ensures ok ==> st'.cursor == Some(origin + |processed'|) && |processed| <= |processed'|
    ensures ok && |processed'| > |processed| ==> processed'[|processed'| - 1] == st.lastDate.value
  {
    if st.cursor.None? {
      return false, st, processed;
    }
    st' := st;
    processed' := processed;
    DrainStart(yearOf, st, rowsAt, origin, processed, ordered);
    while st'.lastDate.value >= st'.cursor.value + TrailingDays - 1
      invariant DrainInv(yearOf, st, st', rowsAt, origin, processed, processed', ordered)
      decreases st.lastDate.value - st'.cursor.value
    {
      ok, st', processed' := DrainStep(st, st', stations, elements, yearOf, rowsAt, origin, processed, processed', ordered);
      if !ok {
        FailedNotClear(st, st', rowsAt, yearOf);
        return;
      }
    }
    DrainDone(yearOf, st, st', rowsAt, origin, processed, processed', ordered);
    BufferedWithin(st.buffer, st.cursor.value, st'.cursor.value, st.lastDate.value - TrailingDays + 2);
    ok := true;
  }

  /** Every day from `lo` up to `hi - 1` has an entry in `buf`. */
  ghost predicate Buffered(buf: Buffer, lo: int, hi: int)
  {
    forall d :: lo <= d < hi ==> d in buf
  }

  /**
   * The drain from `st` finds every day it steps over buffered: each day
   * from the cursor up to six days before the last accepted date has an
   * entry, so that no `del` of the loop raises.
   */
  ghost predicate DrainClear(st: State)
  {
    st.cursor.Some? && st.lastDate.Some? && Buffered(st.buffer, st.cursor.value, st.lastDate.value - TrailingDays + 2)
  }

  lemma {:induction false} BufferedWithin(buf: Buffer, lo: int, hi: int, hi': int)
    requires Buffered(buf, lo, hi) && hi' <= hi
    ensures Buffered(buf, lo, hi')
  {
  }

  lemma {:induction false} BufferedNext(buf: Buffer, lo: int, c: int)
    requires Buffered(buf, lo, c) && c in buf
    ensures Buffered(buf, lo, c + 1)
  {
  }

  /**
   * Accepted dates 0 and 6, with day 0's observations deleted by an earlier
   * step: the drain has to step over day 0, so it fails; with day 0
   * buffered it does not.
   */
  lemma DrainClearExample()
    ensures !DrainClear(State(map[6 := map[]], Some(0), Some(6), {}, []))
    ensures DrainClear(State(map[0 := map[], 6 := map[]], Some(0), Some(6), {}, []))
  {
    var gap: Buffer := map[6 := map[]];
    assert 0 !in gap;
  }

  /** A failed drain stopped at a day it had to step over that has no entry. */
  lemma {:induction false} FailedNotClear(st: State, cur: State, rowsAt: RowsAt, yearOf: int -> int)
    requires DrainFailed(st, cur, rowsAt, yearOf)
    ensures !DrainClear(st)
  {
    var c := cur.cursor.value;
    assert st.cursor.value <= c < st.lastDate.value - TrailingDays + 2 && c !in st.buffer;
  }

  /**
   * A drain from `st` that stopped at `cur`: the steps from the first
   * cursor up to and including the failing one at `cur`'s cursor wrote what
   * `StepsLog` says, and the failing day has no entry though its day plus
   * six is not after the last date, while every day before it from the
   * first cursor on has one: the drain fails at the first missing day.
   */
  ghost predicate DrainFailed(st: State, cur: State, rowsAt: RowsAt, yearOf: int -> int)
  {
    && st.cursor.Some? && st.lastDate.Some? && cur.cursor.Some? && st.cursor.value <= cur.cursor.value
    && cur.log == st.log + StepsLog(st.buffer, st.cursor.value, cur.cursor.value + 1, st.handles, rowsAt, yearOf)
    && Buffered(st.buffer, st.cursor.value, cur.cursor.value)
    && cur.cursor.value !in st.buffer
    && cur.cursor.value + TrailingDays - 1 <= st.lastDate.value
  }

  /**
   * One pass of the drain loop (lines 108-120 of prepare-annual-weather-data.py) from `cur`, a state the loop
   * reached from `st`: a step that finds its day buffered keeps the drain
   * invariant with one more finalised day; one that does not leaves the
   * cursor and buffer where they were, with its rows already written.
   */
  method DrainStep(st: State, cur: State, stations: set<string>, elements: seq<string>, yearOf: int -> int,
                   ghost rowsAt: RowsAt, ghost origin: int, ghost processed: seq<int>, ghost processed': seq<int>, ghost ordered: bool)
    returns (ok: bool, next: State, ghost processed'': seq<int>)
    requires RowsAre(rowsAt, stations, elements)
    requires DrainInv(yearOf, st, cur, rowsAt, origin, processed, processed', ordered)
    requires cur.cursor.value + TrailingDays - 1 <= st.lastDate.value
    ensures processed'' == processed' + [cur.cursor.value + TrailingDays - 1]
    ensures ok ==> DrainInv(yearOf, st, next, rowsAt, origin, processed, processed'', ordered)
    ensures !ok ==> st.cursor.Some? ==> next.cursor.Some? && next.lastDate == st.lastDate && st.cursor.value <= next.cursor.value
    ensures !ok ==> st.cursor.Some? ==> next.buffer == DropDays(st.buffer, st.cursor.value, next.cursor.value)
    ensures !ok ==> DrainFailed(st, next, rowsAt, yearOf)
    ensures !ok ==> LogOk(next.log, yearOf)
  {
    processed'' := processed' + [cur.cursor.value + TrailingDays - 1];
    ok, next := Step(cur, stations, elements, yearOf, rowsAt);
    if ok {
      DrainAdvance(yearOf, st, cur, next, rowsAt, stations, elements, origin, processed, processed', ordered);
    } else {
      DrainFail(yearOf, st, cur, next, rowsAt, stations, elements, origin, processed, processed', ordered);
    }
  }

  /**
   * The invariant of the drain loop started from `st`: `cur` is `st` with
   * the cursor stepped from `c0` to `c`, the days `c0 .. c - 1` dropped and
   * the steps' events appended, and it keeps the driver's invariant.
   */
  ghost predicate DrainInv(yearOf: int -> int, st: State, cur: State, rowsAt: RowsAt,
                           origin: int, processed: seq<int>, processed': seq<int>, ordered: bool)
  {
    && st.cursor.Some? && st.lastDate.Some?
    && cur.cursor.Some? && cur.lastDate == st.lastDate && st.cursor.value <= cur.cursor.value
    && cur.buffer == DropDays(st.buffer, st.cursor.value, cur.cursor.value)
    && cur.log == st.log + StepsLog(st.buffer, st.cursor.value, cur.cursor.value, st.handles, rowsAt, yearOf)
    && cur.handles == (if cur.cursor.value == st.cursor.value then st.handles else {yearOf(cur.cursor.value + TrailingDays - 2)})
    && Inv(yearOf, cur, origin, processed', ordered)
    && |processed'| >= |processed|
    && (|processed'| > |processed| ==> cur.cursor.value + TrailingDays - 2 <= st.lastDate.value)
    && Buffered(st.buffer, st.cursor.value, cur.cursor.value)
  }

  /** A drain step that finds its day buffered keeps the drain invariant. */
  lemma {:induction false} DrainAdvance(yearOf: int -> int, st: State, cur: State, next: State, rowsAt: RowsAt,
                                        stations: set<string>, elements: seq<string>,
                                        origin: int, processed: seq<int>, processed': seq<int>, ordered: bool)
    requires RowsAre(rowsAt, stations, elements)
    requires DrainInv(yearOf, st, cur, rowsAt, origin, processed, processed', ordered)
    requires cur.cursor.value + TrailingDays - 1 <= st.lastDate.value
    requires cur.cursor.value in cur.buffer
    requires next == StepState(cur, StepRows(cur, rowsAt), yearOf)
    ensures DrainInv(yearOf, st, next, rowsAt, origin, processed, processed' + [cur.cursor.value + TrailingDays - 1], ordered)
  {
    var rows := StepRows(cur, rowsAt);
    AdvanceFrame(yearOf, st, cur, rows, rowsAt, stations, elements, origin, processed, processed', ordered);
    AdvanceInv(yearOf, st, cur, rows, rowsAt, stations, elements, origin, processed, processed', ordered);
    BufferedNext(st.buffer, st.cursor.value, cur.cursor.value);
  }

  /** The buffer, cursor, log and handles after a drain step that finds its day buffered. */
  lemma {:induction false} AdvanceFrame(yearOf: int -> int, st: State, cur: State, rows: seq<Row>, rowsAt: RowsAt, stations: set<string>, elements: seq<string>,
                                        origin: int, processed: seq<int>, processed': seq<int>, ordered: bool)
    requires RowsAre(rowsAt, stations, elements)
    requires DrainInv(yearOf, st, cur, rowsAt, origin, processed, processed', ordered)
    requires rows == StepRows(cur, rowsAt)
    requires cur.cursor.value in cur.buffer
    requires cur.cursor.value + TrailingDays - 1 <= st.lastDate.value
    ensures StepState(cur, rows, yearOf).cursor.Some?
    ensures StepState(cur, rows, yearOf).cursor.value == cur.cursor.value + 1
    ensures StepState(cur, rows, yearOf).lastDate == st.lastDate
    ensures st.cursor.value <= StepState(cur, rows, yearOf).cursor.value
    ensures StepState(cur, rows, yearOf).buffer == DropDays(st.buffer, st.cursor.value, StepState(cur, rows, yearOf).cursor.value)
    ensures StepState(cur, rows, yearOf).log
         == st.log + StepsLog(st.buffer, st.cursor.value, StepState(cur, rows, yearOf).cursor.value, st.handles, rowsAt, yearOf)
    ensures StepState(cur, rows, yearOf).handles
         == (if StepState(cur, rows, yearOf).cursor.value == st.cursor.value then st.handles
             else {yearOf(StepState(cur, rows, yearOf).cursor.value + TrailingDays - 2)})
  {
    AdvanceShape(yearOf, st, cur, rows, rowsAt, origin, processed, processed', ordered);
    AdvanceLog(yearOf, st, cur, rows, rowsAt, stations, elements, origin, processed, processed', ordered);
    AdvanceHandles(yearOf, st, cur, rows, rowsAt, stations, elements, origin, processed, processed', ordered);
  }

  lemma {:induction false} AdvanceShape(yearOf: int -> int, st: State, cur: State, rows: seq<Row>, rowsAt: RowsAt,
                                        origin: int, processed: seq<int>, processed': seq<int>, ordered: bool)
    requires DrainInv(yearOf, st, cur, rowsAt, origin, processed, processed', ordered)
    requires rows == StepRows(cur, rowsAt)
    requires cur.cursor.value in cur.buffer
    requires cur.cursor.value + TrailingDays - 1 <= st.lastDate.value
    ensures StepState(cur, rows, yearOf).cursor.Some?
    ensures StepState(cur, rows, yearOf).cursor.value == cur.cursor.value + 1
    ensures StepState(cur, rows, yearOf).lastDate == st.lastDate
    ensures st.cursor.value <= StepState(cur, rows, yearOf).cursor.value
    ensures StepState(cur, rows, yearOf).buffer == DropDays(st.buffer, st.cursor.value, StepState(cur, rows, yearOf).cursor.value)
  {
    DrainShape(st.buffer, st.cursor.value, cur, rows, yearOf);
  }

  lemma {:induction false} AdvanceLog(yearOf: int -> int, st: State, cur: State, rows: seq<Row>, rowsAt: RowsAt, stations: set<string>, elements: seq<string>,
                                        origin: int, processed: seq<int>, processed': seq<int>, ordered: bool)
    requires RowsAre(rowsAt, stations, elements)
    requires DrainInv(yearOf, st, cur, rowsAt, origin, processed, processed', ordered)
    requires rows == StepRows(cur, rowsAt)
    requires cur.cursor.value in cur.buffer
    requires cur.cursor.value + TrailingDays - 1 <= st.lastDate.value
    ensures StepState(cur, rows, yearOf).log
         == st.log + StepsLog(st.buffer, st.cursor.value, cur.cursor.value + 1, st.handles, rowsAt, yearOf)
  {
    DrainRows(st.buffer, st.cursor.value, cur, rowsAt, stations, elements);
    DrainLog(st.buffer, st.cursor.value, st.handles, st.log, cur, rows, rowsAt, yearOf);
  }

  lemma {:induction false} AdvanceHandles(yearOf: int -> int, st: State, cur: State, rows: seq<Row>, rowsAt: RowsAt, stations: set<string>, elements: seq<string>,
                                        origin: int, processed: seq<int>, processed': seq<int>, ordered: bool)
    requires RowsAre(rowsAt, stations, elements)
    requires DrainInv(yearOf, st, cur, rowsAt, origin, processed, processed', ordered)
    requires rows == StepRows(cur, rowsAt)
    requires cur.cursor.value in cur.buffer
    requires cur.cursor.value + TrailingDays - 1 <= st.lastDate.value
    ensures StepState(cur, rows, yearOf).handles == {yearOf(cur.cursor.value + 1 + TrailingDays - 2)}
  {
    var c := cur.cursor.value;
    RowsAtDated(rowsAt, stations, elements, cur.buffer, c + TrailingDays - 1);
    StepKeeps(yearOf, cur, rows, origin, processed', ordered);
    assert c + 1 + TrailingDays - 2 == c + TrailingDays - 1;
  }

  /** The driver's invariant after a drain step that finds its day buffered. */
  lemma {:induction false} AdvanceInv(yearOf: int -> int, st: State, cur: State, rows: seq<Row>, rowsAt: RowsAt, stations: set<string>, elements: seq<string>,
                                      origin: int, processed: seq<int>, processed': seq<int>, ordered: bool)
    requires RowsAre(rowsAt, stations, elements)
    requires DrainInv(yearOf, st, cur, rowsAt, origin, processed, processed', ordered)
    requires rows == StepRows(cur, rowsAt)
    requires cur.cursor.value in cur.buffer
    requires cur.cursor.value + TrailingDays - 1 <= st.lastDate.value
    ensures Inv(yearOf, StepState(cur, rows, yearOf), origin, processed' + [cur.cursor.value + TrailingDays - 1], ordered)
    ensures |processed' + [cur.cursor.value + TrailingDays - 1]| >= |processed|
  {
    RowsAtDated(rowsAt, stations, elements, cur.buffer, cur.cursor.value + TrailingDays - 1);
    StepKeeps(yearOf, cur, rows, origin, processed', ordered);
  }

  /**
   * A drain step whose day has no entry leaves buffer and cursor alone but
   * has already written its rows, as `StepsLog` says, and the log stays
   * well formed.
   */
  lemma {:induction false} DrainFail(yearOf: int -> int, st: State, cur: State, next: State, rowsAt: RowsAt,
                                     stations: set<string>, elements: seq<string>,
                                     origin: int, processed: seq<int>, processed': seq<int>, ordered: bool)
    requires RowsAre(rowsAt, stations, elements)
    requires DrainInv(yearOf, st, cur, rowsAt, origin, processed, processed', ordered)
    requires cur.cursor.value + TrailingDays - 1 <= st.lastDate.value
    requires cur.cursor.value !in cur.buffer
    requires next == StepState(cur, StepRows(cur, rowsAt), yearOf)
    ensures st.cursor.Some? ==> next.cursor.Some? && next.lastDate == st.lastDate && st.cursor.value <= next.cursor.value
    ensures st.cursor.Some? ==> next.buffer == DropDays(st.buffer, st.cursor.value, next.cursor.value)
    ensures DrainFailed(st, next, rowsAt, yearOf)
    ensures LogOk(next.log, yearOf)
  {
    var rows := StepRows(cur, rowsAt);
    FailShape(yearOf, st, cur, rows, rowsAt, origin, processed, processed', ordered);
    FailLog(yearOf, st, cur, rows, rowsAt, stations, elements, origin, processed, processed', ordered);
    FailedAt(st, cur, next, rowsAt, yearOf);
    FailLogOk(yearOf, cur, next, rowsAt, stations, elements, origin, processed', ordered);
  }

  /** `DrainFailed`, assembled from the facts about the failing step. */
  lemma {:induction false} FailedAt(st: State, cur: State, next: State, rowsAt: RowsAt, yearOf: int -> int)
    requires st.cursor.Some? && st.lastDate.Some? && cur.cursor.Some? && st.cursor.value <= cur.cursor.value
    requires Buffered(st.buffer, st.cursor.value, cur.cursor.value)
    requires cur.cursor.value !in st.buffer && cur.cursor.value + TrailingDays - 1 <= st.lastDate.value
    requires next.cursor == cur.cursor
    requires next.log == st.log + StepsLog(st.buffer, st.cursor.value, cur.cursor.value + 1, st.handles, rowsAt, yearOf)
    ensures DrainFailed(st, next, rowsAt, yearOf)
  {
  }

  /** The failing step keeps the log well formed. */
  lemma {:induction false} FailLogOk(yearOf: int -> int, cur: State, next: State, rowsAt: RowsAt,
                                     stations: set<string>, elements: seq<string>,
                                     origin: int, processed': seq<int>, ordered: bool)
    requires RowsAre(rowsAt, stations, elements)
    requires Inv(yearOf, cur, origin, processed', ordered)
    requires cur.cursor.Some? && cur.cursor.value + (TrailingDays - 1) <= cur.lastDate.value
    requires next == StepState(cur, StepRows(cur, rowsAt), yearOf)
    ensures LogOk(next.log, yearOf)
  {
    RowsAtDated(rowsAt, stations, elements, cur.buffer, cur.cursor.value + TrailingDays - 1);
    StepKeeps(yearOf, cur, StepRows(cur, rowsAt), origin, processed', ordered);
  }

  lemma {:induction false} FailShape(yearOf: int -> int, st: State, cur: State, rows: seq<Row>, rowsAt: RowsAt,
                                     origin: int, processed: seq<int>, processed': seq<int>, ordered: bool)
    requires DrainInv(yearOf, st, cur, rowsAt, origin, processed, processed', ordered)
    requires rows == StepRows(cur, rowsAt)
    requires cur.cursor.value !in cur.buffer
    requires cur.cursor.value + TrailingDays - 1 <= st.lastDate.value
    ensures cur.cursor.value !in st.buffer
    ensures StepState(cur, rows, yearOf).cursor == cur.cursor
    ensures StepState(cur, rows, yearOf).buffer == cur.buffer
    ensures StepState(cur, rows, yearOf).lastDate == cur.lastDate
  {
    DrainShape(st.buffer, st.cursor.value, cur, rows, yearOf);
  }

  lemma {:induction false} FailLog(yearOf: int -> int, st: State, cur: State, rows: seq<Row>, rowsAt: RowsAt, stations: set<string>, elements: seq<string>,
                                     origin: int, processed: seq<int>, processed': seq<int>, ordered: bool)
    requires RowsAre(rowsAt, stations, elements)
    requires DrainInv(yearOf, st, cur, rowsAt, origin, processed, processed', ordered)
    requires rows == StepRows(cur, rowsAt)
    requires cur.cursor.value !in cur.buffer
    requires cur.cursor.value + TrailingDays - 1 <= st.lastDate.value
    ensures StepState(cur, rows, yearOf).log
         == st.log + StepsLog(st.buffer, st.cursor.value, cur.cursor.value + 1, st.handles, rowsAt, yearOf)
  {
    DrainRows(st.buffer, st.cursor.value, cur, rowsAt, stations, elements);
    DrainLog(st.buffer, st.cursor.value, st.handles, st.log, cur, rows, rowsAt, yearOf);
  }

  /** The drain invariant holds before the first step. */
  lemma {:induction false} DrainStart(yearOf: int -> int, st: State, rowsAt: RowsAt,
                                      origin: int, processed: seq<int>, ordered: bool)
    requires Inv(yearOf, st, origin, processed, ordered)
    requires st.cursor.Some?
    ensures DrainInv(yearOf, st, st, rowsAt, origin, processed, processed, ordered)
  {
    assert StepsLog(st.buffer, st.cursor.value, st.cursor.value, st.handles, rowsAt, yearOf) == [];
    assert DropDays(st.buffer, st.cursor.value, st.cursor.value) == st.buffer;
  }

  /**
   * Once day `curr + 6` is after the last accepted date, the drain is done:
   * and if it stepped at all, the last finalised day is that date.
   */
  lemma {:induction false} DrainDone(yearOf: int -> int, st: State, cur: State, rowsAt: RowsAt,
                                     origin: int, processed: seq<int>, processed': seq<int>, ordered: bool)
    requires DrainInv(yearOf, st, cur, rowsAt, origin, processed, processed', ordered)
    requires cur.lastDate.value < cur.cursor.value + TrailingDays - 1
    ensures cur.cursor.Some? && cur.lastDate == st.lastDate && st.cursor.value <= cur.cursor.value
    ensures cur.buffer == DropDays(st.buffer, st.cursor.value, cur.cursor.value)
    ensures cur.log == st.log + StepsLog(st.buffer, st.cursor.value, cur.cursor.value, st.handles, rowsAt, yearOf)
    ensures cur.cursor.value + TrailingDays - 1 > st.lastDate.value
    ensures LogOk(cur.log, yearOf)
    ensures Inv(yearOf, cur, origin, processed', ordered)
    ensures |processed'| > |processed| ==> processed'[|processed'| - 1] == st.lastDate.value
  {
  }
}
