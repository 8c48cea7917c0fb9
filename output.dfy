/**
 * What the aggregator of scripts/prepare-annual-weather-data.py puts in its
 * output files, read off the event log: the rows written, in order, their
 * (day, station) slots, and the rows `process_date` computes for a run of
 * consecutive days from one buffer.
 */
module Output {
  import opened Order
  import opened Window
  import opened Aggregator

  /** The rows of the `Write` events of `log`, in the order they were written. */
  function Written(log: seq<Event>): seq<Row>
  {
    if log == [] then []
    else Written(log[..|log| - 1]) + (if log[|log| - 1].Write? then [log[|log| - 1].row] else [])
  }

  /** The rows written by two logs one after the other are those of the first followed by those of the second. */
  lemma {:induction false} WrittenAppend(a: seq<Event>, b: seq<Event>)
    ensures Written(a + b) == Written(a) + Written(b)
    decreases |b|
  {
    if b == [] {
      assert a + b == a;
    } else {
      var n := |b| - 1;
      assert (a + b)[..|a| + n] == a + b[..n];
      WrittenAppend(a, b[..n]);
    }
  }

  /** Opening and closing handles writes no row. */
  lemma {:induction false} WrittenNone(log: seq<Event>)
    requires forall i :: 0 <= i < |log| ==> !log[i].Write?
    ensures Written(log) == []
    decreases |log|
  {
    if log != [] {
      WrittenNone(log[..|log| - 1]);
    }
  }

  /** The writes of `rows` to one handle write exactly `rows`. */
  lemma {:induction false} WrittenWrites(year: int, rows: seq<Row>)
    ensures Written(Writes(year, rows)) == rows
    decreases |rows|
  {
    if rows != [] {
      var n := |rows| - 1;
      var w := Writes(year, rows);
      assert w[..|w| - 1] == Writes(year, rows[..n]);
      WrittenWrites(year, rows[..n]);
      assert rows == rows[..n] + [rows[n]];
    }
  }

  /** The (day, station) slot of each row, in order. */
  function Slots(rows: seq<Row>): (r: seq<(int, string)>)
    ensures |r| == |rows|
  {
    if rows == [] then [] else Slots(rows[..|rows| - 1]) + [(rows[|rows| - 1].date, rows[|rows| - 1].station)]
  }

  lemma {:induction false} SlotsAppend(a: seq<Row>, b: seq<Row>)
    ensures Slots(a + b) == Slots(a) + Slots(b)
    decreases |b|
  {
    if b == [] {
      assert a + b == a;
    } else {
      var n := |b| - 1;
      assert (a + b)[..|a| + n] == a + b[..n];
      SlotsAppend(a, b[..n]);
    }
  }

  /** Day `p`'s slot for each station of `sorted`, in that order. */
  function Block(p: int, sorted: seq<string>): seq<(int, string)>
  {
    if sorted == [] then [] else Block(p, sorted[..|sorted| - 1]) + [(p, sorted[|sorted| - 1])]
  }

  /** The slots of the days `lo .. hi - 1`, day after day, each day's stations in `sorted` order. */
  function Grid(lo: int, hi: int, sorted: seq<string>): seq<(int, string)>
    decreases hi - lo
  {
    if hi <= lo then [] else Grid(lo, hi - 1, sorted) + Block(hi - 1, sorted)
  }

  /** Day `p`'s slot for each station of `sorted`, in order, whatever the buffer holds. */
  lemma {:induction false} RowsOfSlots(buf: Buffer, p: int, sorted: seq<string>, elements: seq<string>)
    ensures Slots(RowsOf(buf, p, sorted, elements)) == Block(p, sorted)
    decreases |sorted|
  {
    if sorted != [] {
      var n := |sorted| - 1;
      var r := RowsOf(buf, p, sorted, elements);
      assert r[..|r| - 1] == RowsOf(buf, p, sorted[..n], elements);
      RowsOfSlots(buf, p, sorted[..n], elements);
    }
  }

  /**
   * The rows `process_date` computes from `buf` for the days `lo .. hi - 1`,
   * one day after the other.
   */
  function Finalised(buf: Buffer, lo: int, hi: int, stations: set<string>, elements: seq<string>): seq<Row>
    decreases hi - lo
  {
    if hi <= lo then [] else Finalised(buf, lo, hi - 1, stations, elements) + Rows(buf, hi - 1, stations, elements)
  }

  /**
   * The rows written to `log` are one per day of `lo .. hi - 1` and station
   * in ascending order, days in order; and, when `ordered`, they are
   * exactly the rows computed from `acc` for those days.
   */
  ghost predicate WroteDays(log: seq<Event>, acc: Buffer, lo: int, hi: int, stations: set<string>, elements: seq<string>, ordered: bool)
  {
    && Slots(Written(log)) == Grid(lo, hi, SortedStrings(stations))
    && (ordered ==> Written(log) == Finalised(acc, lo, hi, stations, elements))
  }

  /**
   * Whatever the buffer, the rows of the days `lo .. hi - 1` fill exactly
   * the grid of those days and the stations in ascending order: one row per
   * day and station, days in order, stations sorted within a day.
   */
  lemma {:induction false} FinalisedSlots(buf: Buffer, lo: int, hi: int, stations: set<string>, elements: seq<string>)
    ensures Slots(Finalised(buf, lo, hi, stations, elements)) == Grid(lo, hi, SortedStrings(stations))
    decreases hi - lo
  {
    if lo < hi {
      FinalisedSlots(buf, lo, hi - 1, stations, elements);
      SlotsAppend(Finalised(buf, lo, hi - 1, stations, elements), Rows(buf, hi - 1, stations, elements));
      RowsOfSlots(buf, hi - 1, SortedStrings(stations), elements);
    }
  }

  /** The rows of `lo .. mid - 1` followed by those of `mid .. hi - 1` are those of `lo .. hi - 1`. */
  lemma {:induction false} FinalisedSplit(buf: Buffer, lo: int, mid: int, hi: int, stations: set<string>, elements: seq<string>)
    requires lo <= mid <= hi
    ensures Finalised(buf, lo, mid, stations, elements) + Finalised(buf, mid, hi, stations, elements)
         == Finalised(buf, lo, hi, stations, elements)
    decreases hi - mid
  {
    if mid == hi {
      assert Finalised(buf, lo, mid, stations, elements) + [] == Finalised(buf, lo, mid, stations, elements);
    } else {
      FinalisedSplit(buf, lo, mid, hi - 1, stations, elements);
      var left, right, last := Finalised(buf, lo, mid, stations, elements), Finalised(buf, mid, hi - 1, stations, elements), Rows(buf, hi - 1, stations, elements);
      assert Finalised(buf, mid, hi, stations, elements) == right + last;
      assert Finalised(buf, lo, hi, stations, elements) == Finalised(buf, lo, hi - 1, stations, elements) + last;
      RowsAfter(left, right, last, Finalised(buf, mid, hi, stations, elements));
    }
  }

  /** Associativity of row concatenation, for rows extended by a whole that splits in two. */
  lemma {:induction false} RowsAfter(left: seq<Row>, right: seq<Row>, last: seq<Row>, whole: seq<Row>)
    requires whole == right + last
    ensures left + whole == (left + right) + last
  {
  }

  /** Two buffers hold the same entries for every day from `lo` on. */
  ghost predicate AgreeFrom(buf: Buffer, other: Buffer, lo: int)
  {
    forall d :: lo <= d ==> (d in buf <==> d in other) && (d in buf ==> buf[d] == other[d])
  }

  /** The rows of `lo .. hi - 1` read no day before `lo - 6` and none after `hi - 1`. */
  lemma {:induction false} FinalisedLocal(buf: Buffer, other: Buffer, lo: int, hi: int, stations: set<string>, elements: seq<string>)
    requires AgreeOn(buf, other, lo - (TrailingDays - 1), hi - 1)
    ensures Finalised(buf, lo, hi, stations, elements) == Finalised(other, lo, hi, stations, elements)
    decreases hi - lo
  {
    if lo < hi {
      FinalisedLocal(buf, other, lo, hi - 1, stations, elements);
      RowsLocal(buf, other, hi - 1, stations, elements);
    }
  }

  /** Storing an observation of a day not before `hi` leaves the rows of the days before `hi` as they were. */
  lemma FinalisedAdd(buf: Buffer, lo: int, hi: int, stations: set<string>, elements: seq<string>,
                     day: int, station: string, element: string, value: int)
    requires hi <= lo || hi <= day
    ensures Finalised(AddData(buf, day, station, element, value), lo, hi, stations, elements)
         == Finalised(buf, lo, hi, stations, elements)
  {
    if lo < hi {
      var added := AddData(buf, day, station, element, value);
      forall d | lo - (TrailingDays - 1) <= d <= hi - 1
        ensures (d in added <==> d in buf) && (d in added ==> added[d] == buf[d])
      {
        assert d != day;
      }
      FinalisedLocal(added, buf, lo, hi, stations, elements);
    }
  }

  /** Storing the same observation in two buffers that agree from `lo` on keeps them in agreement. */
  lemma AgreeAdd(buf: Buffer, other: Buffer, lo: int, day: int, station: string, element: string, value: int)
    requires AgreeFrom(buf, other, lo)
    ensures AgreeFrom(AddData(buf, day, station, element, value), AddData(other, day, station, element, value), lo)
  {
  }

  /** Deleting day `lo` from the first of two buffers that agree from `lo` on keeps them in agreement from `lo + 1` on. */
  lemma AgreeDelete(buf: Buffer, other: Buffer, lo: int)
    requires AgreeFrom(buf, other, lo)
    ensures AgreeFrom(buf - {lo}, other, lo + 1)
  {
  }

  /** One step of the cursor `c` writes the rows of day `c + 6`. */
  lemma StepWritten(buf: Buffer, c: int, open: set<int>, rowsAt: RowsAt, yearOf: int -> int,
                    stations: set<string>, elements: seq<string>)
    requires RowsAre(rowsAt, stations, elements)
    ensures Written(StepLog(buf, c, open, rowsAt, yearOf)) == Rows(buf, c + TrailingDays - 1, stations, elements)
  {
    var p := c + TrailingDays - 1;
    var rotation := Rotation(open, yearOf(p));
    WrittenAppend(rotation, Writes(yearOf(p), rowsAt(buf, p)));
    WrittenNone(rotation);
    WrittenWrites(yearOf(p), rowsAt(buf, p));
    assert rowsAt(buf, p) == Rows(buf, p, stations, elements);
  }

  /**
   * The steps of the cursor from `c0` up to `c1` write the rows of the
   * days `c0 + 6 .. c1 + 5` computed from the buffer they started from.
   */
  lemma {:induction false} StepsWritten(buf: Buffer, c0: int, c1: int, handles: set<int>, rowsAt: RowsAt, yearOf: int -> int,
                                        stations: set<string>, elements: seq<string>)
    requires RowsAre(rowsAt, stations, elements)
    requires c0 <= c1
    ensures Written(StepsLog(buf, c0, c1, handles, rowsAt, yearOf))
         == Finalised(buf, c0 + TrailingDays - 1, c1 + TrailingDays - 1, stations, elements)
    decreases c1 - c0
  {
    if c0 < c1 {
      var c := c1 - 1;
      var open := if c == c0 then handles else {yearOf(c + TrailingDays - 2)};
      var front := StepsLog(buf, c0, c, handles, rowsAt, yearOf);
      var last := StepLog(buf, c, open, rowsAt, yearOf);
      assert StepsLog(buf, c0, c1, handles, rowsAt, yearOf) == front + last;
      StepsWritten(buf, c0, c, handles, rowsAt, yearOf, stations, elements);
      WrittenAppend(front, last);
      StepWritten(buf, c, open, rowsAt, yearOf, stations, elements);
    }
  }

  /** The slots of `lo .. mid - 1` followed by those of `mid .. hi - 1` are those of `lo .. hi - 1`. */
  lemma {:induction false} GridSplit(lo: int, mid: int, hi: int, sorted: seq<string>)
    requires lo <= mid <= hi
    ensures Grid(lo, mid, sorted) + Grid(mid, hi, sorted) == Grid(lo, hi, sorted)
    decreases hi - mid
  {
    if mid == hi {
      assert Grid(lo, mid, sorted) + [] == Grid(lo, mid, sorted);
    } else {
      GridSplit(lo, mid, hi - 1, sorted);
      var a, b, c := Grid(lo, mid, sorted), Grid(mid, hi - 1, sorted), Block(hi - 1, sorted);
      assert Grid(mid, hi, sorted) == b + c;
      assert Grid(lo, hi, sorted) == Grid(lo, hi - 1, sorted) + c;
      assert a + (b + c) == (a + b) + c;
    }
  }

  /** A rotation of the handles writes no row. */
  lemma RotationWritesNothing(handles: set<int>, year: int)
    ensures Written(Rotation(handles, year)) == []
  {
    WrittenNone(Rotation(handles, year));
  }

  /**
   * The log after a run of steps of the cursor from `c0` to `c1`: if the
   * rows written before were those of the days `lo .. c0 + 5`, one per day
   * and station, they now are those of `lo .. c1 + 5`; and if they were the
   * rows computed from `acc`, which agrees with the buffer the steps start
   * from on every day they read, they still are.
   */
  lemma StepsOutput(acc: Buffer, buf: Buffer, log: seq<Event>, lo: int, c0: int, mid: int, c1: int, hi: int, handles: set<int>,
                    rowsAt: RowsAt, yearOf: int -> int, stations: set<string>, elements: seq<string>, ordered: bool)
    requires RowsAre(rowsAt, stations, elements)
    requires c0 <= c1 && mid == c0 + TrailingDays - 1 && hi == c1 + TrailingDays - 1 && lo <= mid
    requires AgreeFrom(buf, acc, c0)
    requires WroteDays(log, acc, lo, mid, stations, elements, ordered)
    ensures WroteDays(log + StepsLog(buf, c0, c1, handles, rowsAt, yearOf), acc, lo, hi, stations, elements, ordered)
  {
    var steps := StepsLog(buf, c0, c1, handles, rowsAt, yearOf);
    WrittenAppend(log, steps);
    StepsWritten(buf, c0, c1, handles, rowsAt, yearOf, stations, elements);
    SlotsAppend(Written(log), Finalised(buf, mid, hi, stations, elements));
    FinalisedSlots(buf, mid, hi, stations, elements);
    GridSplit(lo, mid, hi, SortedStrings(stations));
    forall d | mid - (TrailingDays - 1) <= d <= hi - 1
      ensures (d in buf <==> d in acc) && (d in buf ==> buf[d] == acc[d])
    {
    }
    FinalisedLocal(buf, acc, mid, hi, stations, elements);
    FinalisedSplit(acc, lo, mid, hi, stations, elements);
  }
}
