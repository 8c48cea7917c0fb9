/**
 * `parse_line` and `pick_anomalies` of pick-anomalies.py: the 7-day average
 * lines of every year are parsed, the Sunday rows of the admitted stations are
 * folded into one encoded series per (week of year, station, element), and the
 * groups are then scanned in sorted order for the first anomalous element.
 *
 * Dates are day numbers; `strptime`, `isocalendar()[1]` and `weekday()` are
 * the function parameters `parseDate`, `weekOfYear` and `weekday`.
 */
module Anomalies {
  import opened Wrappers
  import opened Text
  import opened Order
  import opened IntOrder
  import opened Config
  import opened SeriesCodec
  import opened Classifier

  /** The `columns` dictionary of one parsed line; `values` holds the element columns. */
  datatype Columns = Columns(date: int, woy: int, dow: int, station: string, values: map<string, int>)

  /** `ignore_keys`: the columns that are not element series. */
  const IgnoreKeys: set<string> := {"DATE", "WOY", "STATION", "DOW"}

  /** The `weekday()` of a Sunday. */
  const Sunday: int := 6

  predicate Distinct(keys: seq<string>)
  {
    forall i, j :: 0 <= i < j < |keys| ==> keys[i] != keys[j]
  }

  lemma AscendingDistinct(keys: seq<string>)
    requires Ascending(keys)
    ensures Distinct(keys)
  {
    forall i, j | 0 <= i < j < |keys|
      ensures keys[i] != keys[j]
    {
      LessIrreflexive(keys[i]);
    }
  }

  lemma SortedIn(keys: set<string>)
    ensures forall i :: 0 <= i < |SortedStrings(keys)| ==> SortedStrings(keys)[i] in keys
  {
  }

  lemma SortedHas(keys: set<string>, x: string)
    ensures x in SortedStrings(keys) <==> x in keys
  {
  }

  // ---------------------------------------------------------------- parse_line

  /** `int(cols[2 + j])`, the value of the `j`-th element column, or None if it is missing or not a number. */
  function Field(cols: seq<string>, j: nat): Option<int>
  {
    if 2 + j < |cols| then ParseInt(cols[2 + j]) else None
  }

  /** The element columns read in the order of `keys`, or None once one of them fails. */
  function ReadValues(cols: seq<string>, keys: seq<string>): (r: Option<map<string, int>>)
    ensures r.Some? ==> forall k :: k in r.value <==> k in keys
  {
    if keys == [] then Some(map[])
    else
      var j := |keys| - 1;
      match (ReadValues(cols, keys[..j]), Field(cols, j))
      case (Some(m), Some(v)) => Some(m[keys[j] := v])
      case _ => None
  }

  /** Every key gets the value of its own column; reading fails exactly when one of the columns does. */
  lemma {:induction false} ReadValuesSpec(cols: seq<string>, keys: seq<string>)
    requires Distinct(keys)
    ensures ReadValues(cols, keys).Some? <==> forall j :: 0 <= j < |keys| ==> Field(cols, j).Some?
    ensures ReadValues(cols, keys).Some? ==>
              forall j :: 0 <= j < |keys| ==> Field(cols, j) == Some(ReadValues(cols, keys).value[keys[j]])
    decreases |keys|
  {
    if keys != [] {
      var j := |keys| - 1;
      var front := keys[..j];
      ReadValuesSpec(cols, front);
      var r := ReadValues(cols, keys);
      assert r.Some? <==> ReadValues(cols, front).Some? && Field(cols, j).Some?;
      if r.Some? {
        var m := ReadValues(cols, front).value;
        var v := Field(cols, j).value;
        assert r.value == m[keys[j] := v];
        forall i | 0 <= i < |keys|
          ensures Field(cols, i) == Some(r.value[keys[i]])
        {
          if i < j {
            assert keys[i] == front[i] && keys[i] != keys[j];
          }
        }
      }
    }
  }

  /**
   * `parse_line`: the whitespace-separated words are the date, the station and
   * one integer per selected element in sorted order; any failure gives None.
   */
  function ParseLine(line: string, selected: map<string, ElementSpec>, parseDate: string -> Option<int>,
                     weekOfYear: int -> int, weekday: int -> int): (r: Option<Columns>)
    ensures r.Some? ==> r.value.values.Keys == selected.Keys
  {
    var cols := Words(line);
    if |cols| == 0 then None
    else match parseDate(cols[0])
      case None => None
      case Some(d) =>
        if |cols| < 2 then None
        else match ReadValues(cols, SortedStrings(selected.Keys))
          case None => None
          case Some(vs) => Some(Columns(d, weekOfYear(d), weekday(d), cols[1], vs))
  }

  /** A line parses exactly when it has a date, a station and a number for every selected element. */
  lemma ParseLineSpec(line: string, selected: map<string, ElementSpec>, parseDate: string -> Option<int>,
                      weekOfYear: int -> int, weekday: int -> int)
    ensures var cols, keys := Words(line), SortedStrings(selected.Keys);
            var r := ParseLine(line, selected, parseDate, weekOfYear, weekday);
            (r.Some? <==> 2 <= |cols| && parseDate(cols[0]).Some? && forall j :: 0 <= j < |keys| ==> Field(cols, j).Some?) &&
            (r.Some? ==> r.value.date == parseDate(cols[0]).value && r.value.station == cols[1] &&
                         r.value.woy == weekOfYear(r.value.date) && r.value.dow == weekday(r.value.date) &&
                         forall j :: 0 <= j < |keys| ==> Field(cols, j) == Some(r.value.values[keys[j]]))
  {
    var cols, keys := Words(line), SortedStrings(selected.Keys);
    AscendingDistinct(keys);
    ReadValuesSpec(cols, keys);
    var r := ParseLine(line, selected, parseDate, weekOfYear, weekday);
    if |cols| < 2 || parseDate(cols[0]).None? || ReadValues(cols, keys).None? {
      assert r.None?;
    } else {
      var d := parseDate(cols[0]).value;
      assert r == Some(Columns(d, weekOfYear(d), weekday(d), cols[1], ReadValues(cols, keys).value));
    }
  }

  /** Every line, parsed. */
  function ParseLines(lines: seq<string>, selected: map<string, ElementSpec>, parseDate: string -> Option<int>,
                      weekOfYear: int -> int, weekday: int -> int): (r: seq<Option<Columns>>)
    ensures |r| == |lines|
  {
    if lines == [] then []
    else ParseLines(lines[..|lines| - 1], selected, parseDate, weekOfYear, weekday)
         + [ParseLine(lines[|lines| - 1], selected, parseDate, weekOfYear, weekday)]
  }

  // ------------------------------------------------------------------ grouping

  /** The encoded series of one station and week, by element (`data_map`). */
  type Cells = map<string, string>

  /** `_woy_station_data`: week of year to station to element to encoded series. */
  type Groups = map<int, map<string, Cells>>

  /** `data_map.get(element, '')`. */
  function CellOf(cells: Cells, e: string): string
  {
    if e in cells then cells[e] else ""
  }

  /** The encoded series of element `e` at station `s` in week `w`, `''` when there is none. */
  function Cell(groups: Groups, w: int, s: string, e: string): string
  {
    if w in groups && s in groups[w] then CellOf(groups[w][s], e) else ""
  }

  /** The cell of `e` at station `s` in week `w` exists. */
  predicate Present(groups: Groups, w: int, s: string, e: string)
  {
    w in groups && s in groups[w] && e in groups[w][s]
  }

  /** The element loop over `keys`: each element not in `ignore_keys` gets its value appended. */
  function AddValues(cells: Cells, values: map<string, int>, keys: seq<string>): Cells
    requires forall i :: 0 <= i < |keys| ==> keys[i] in values
  {
    if keys == [] then cells
    else
      var front := AddValues(cells, values, keys[..|keys| - 1]);
      var e := keys[|keys| - 1];
      if e in IgnoreKeys then front else front[e := Append(CellOf(front, e), values[e])]
  }

  /** The element loop over the row's columns, in their order. */
  function AddRow(cells: Cells, values: map<string, int>): Cells
  {
    AddValues(cells, values, SortedStrings(values.Keys))
  }

  /** The element loop appends each element value of the row to that element's cell and touches no other cell. */
  lemma {:induction false} AddValuesAt(cells: Cells, values: map<string, int>, keys: seq<string>, e: string)
    requires forall i :: 0 <= i < |keys| ==> keys[i] in values
    requires Distinct(keys)
    ensures var r := AddValues(cells, values, keys);
            var added := e in keys && e !in IgnoreKeys;
            (e in r <==> e in cells || added) &&
            CellOf(r, e) == if added then Append(CellOf(cells, e), values[e]) else CellOf(cells, e)
    decreases |keys|
  {
    if keys != [] {
      AddValuesAt(cells, values, keys[..|keys| - 1], e);
    }
  }

  /** `values` updates the cell of `e` exactly when `e` is one of its elements. */
  predicate Updates(values: map<string, int>, e: string)
  {
    e in values && e !in IgnoreKeys
  }

  lemma AddRowAt(cells: Cells, values: map<string, int>, e: string)
    ensures (e in AddRow(cells, values) <==> e in cells || Updates(values, e)) &&
            CellOf(AddRow(cells, values), e) ==
              if Updates(values, e) then Append(CellOf(cells, e), values[e]) else CellOf(cells, e)
  {
    var keys := SortedStrings(values.Keys);
    AscendingDistinct(keys);
    AddValuesAt(cells, values, keys, e);
  }

  /** The grouping state: `_woy_station_data` and `_tracked_stations`. */
  datatype Collection = Collection(groups: Groups, tracked: set<string>)

  /** The tracking limit admits a row of `station` given the stations tracked so far. */
  predicate Admits(tracked: set<string>, limit: int, station: string)
  {
    limit <= 0 || |tracked| < limit || (|tracked| == limit && station in tracked)
  }

  /** A parsed row contributes: it is a Sunday row and the limit admits its station. */
  predicate Taken(st: Collection, row: Option<Columns>, limit: int)
  {
    row.Some? && row.value.dow == Sunday && Admits(st.tracked, limit, row.value.station)
  }

  /** The state after a contributing row. */
  function Accept(st: Collection, c: Columns, limit: int): Collection
  {
    var stations := if c.woy in st.groups then st.groups[c.woy] else map[];
    var cells := if c.station in stations then stations[c.station] else map[];
    Collection(st.groups[c.woy := stations[c.station := AddRow(cells, c.values)]],
               if limit > 0 then st.tracked + {c.station} else st.tracked)
  }

  /** One pass of the line loop. */
  function Step(st: Collection, row: Option<Columns>, limit: int): Collection
  {
    if Taken(st, row, limit) then Accept(st, row.value, limit) else st
  }

  /** The grouping state after every row. */
  function Collect(rows: seq<Option<Columns>>, limit: int): Collection
  {
    if rows == [] then Collection(map[], {})
    else Step(Collect(rows[..|rows| - 1], limit), rows[|rows| - 1], limit)
  }

  /** The rows that contributed, in order. */
  function Accepted(rows: seq<Option<Columns>>, limit: int): seq<Columns>
  {
    if rows == [] then []
    else
      var front := rows[..|rows| - 1];
      var row := rows[|rows| - 1];
      Accepted(front, limit) + if Taken(Collect(front, limit), row, limit) then [row.value] else []
  }

  /** The parsed Sunday rows, in order. */
  function Sundays(rows: seq<Option<Columns>>): seq<Columns>
  {
    if rows == [] then []
    else
      var row := rows[|rows| - 1];
      Sundays(rows[..|rows| - 1]) + if row.Some? && row.value.dow == Sunday then [row.value] else []
  }

  /** The values of element `e` that contributed to the group of week `w` and station `s`, in order. */
  function Series(accepted: seq<Columns>, w: int, s: string, e: string): seq<int>
  {
    if accepted == [] then []
    else
      var c := accepted[|accepted| - 1];
      Series(accepted[..|accepted| - 1], w, s, e)
        + if c.woy == w && c.station == s && Updates(c.values, e) then [c.values[e]] else []
  }

  /** Only Sunday rows of the input contribute. */
  lemma {:induction false} AcceptedAreSundays(rows: seq<Option<Columns>>, limit: int)
    ensures forall c :: c in Accepted(rows, limit) ==> c.dow == Sunday && Some(c) in rows
    decreases |rows|
  {
    if rows != [] {
      var front := rows[..|rows| - 1];
      AcceptedAreSundays(front, limit);
      assert forall x :: x in front ==> x in rows;
    }
  }

  /** Without a limit every Sunday row contributes and no station is tracked. */
  lemma {:induction false} NoLimitTakesAll(rows: seq<Option<Columns>>, limit: int)
    requires limit <= 0
    ensures Accepted(rows, limit) == Sundays(rows)
    ensures Collect(rows, limit).tracked == {}
    decreases |rows|
  {
    if rows != [] {
      NoLimitTakesAll(rows[..|rows| - 1], limit);
    }
  }

  /**
   * With a positive limit at most `limit` stations are tracked, and every
   * contributing row belongs to a tracked station: once the set is full, rows
   * of other stations are dropped.
   */
  lemma {:induction false} LimitHolds(rows: seq<Option<Columns>>, limit: int)
    requires limit > 0
    ensures |Collect(rows, limit).tracked| <= limit
    ensures forall c :: c in Accepted(rows, limit) ==> c.station in Collect(rows, limit).tracked
    decreases |rows|
  {
    if rows != [] {
      var front := rows[..|rows| - 1];
      LimitHolds(front, limit);
      var st := Collect(front, limit);
      if Taken(st, rows[|rows| - 1], limit) {
        var s := rows[|rows| - 1].value.station;
        if s !in st.tracked {
          assert |st.tracked + {s}| == |st.tracked| + 1;
        } else {
          assert st.tracked + {s} == st.tracked;
        }
      }
    }
  }

  /** Once `limit` stations are tracked, a row of any other station leaves the state unchanged. */
  lemma FullDropsOthers(st: Collection, row: Option<Columns>, limit: int)
    requires limit > 0 && |st.tracked| >= limit
    requires row.Some? && row.value.station !in st.tracked
    ensures !Taken(st, row, limit) && Step(st, row, limit) == st
  {
  }

  /** A contributing row extends the cells of its own week and station by its element values. */
  lemma AcceptOwnCell(st: Collection, c: Columns, limit: int, e: string)
    ensures var g, w, s := Accept(st, c, limit).groups, c.woy, c.station;
            (Present(g, w, s, e) <==> Present(st.groups, w, s, e) || Updates(c.values, e)) &&
            Cell(g, w, s, e) == if Updates(c.values, e) then Append(Cell(st.groups, w, s, e), c.values[e]) else Cell(st.groups, w, s, e)
  {
    var stations := if c.woy in st.groups then st.groups[c.woy] else map[];
    var cells := if c.station in stations then stations[c.station] else map[];
    var updated := AddRow(cells, c.values);
    var g := Accept(st, c, limit).groups;
    assert g[c.woy][c.station] == updated;
    AddRowAt(cells, c.values, e);
    assert CellOf(cells, e) == Cell(st.groups, c.woy, c.station, e);
    assert Present(st.groups, c.woy, c.station, e) <==> e in cells;
  }

  /** A contributing row leaves the groups of other weeks and stations alone. */
  lemma AcceptOtherCell(st: Collection, c: Columns, limit: int, w: int, s: string, e: string)
    requires w != c.woy || s != c.station
    ensures var g := Accept(st, c, limit).groups;
            (Present(g, w, s, e) <==> Present(st.groups, w, s, e)) && Cell(g, w, s, e) == Cell(st.groups, w, s, e)
  {
    var stations := if c.woy in st.groups then st.groups[c.woy] else map[];
    var cells := if c.station in stations then stations[c.station] else map[];
    var updated := AddRow(cells, c.values);
    var g := Accept(st, c, limit).groups;
    assert g == st.groups[c.woy := stations[c.station := updated]];
    if c.woy == w {
      assert s != c.station;
      assert w in g && g[w] == stations[c.station := updated];
      assert s in g[w] <==> s in stations;
      if s in stations {
        assert g[w][s] == stations[s] == st.groups[w][s];
      }
    } else {
      assert w in g <==> w in st.groups;
      if w in g {
        assert g[w] == st.groups[w];
      }
    }
  }

  /** Appending one more value to a series appends it to the series' encoding. */
  lemma EncodeSnoc(vs: seq<int>, v: int)
    ensures Encode(vs + [v]) == Append(Encode(vs), v)
  {
    assert (vs + [v])[..|vs|] == vs;
  }

  /** The contents invariant of `CollectContents` survives a contributing row. */
  lemma AcceptContents(st: Collection, acc: seq<Columns>, c: Columns, limit: int, w: int, s: string, e: string)
    requires (Present(st.groups, w, s, e) <==> Series(acc, w, s, e) != []) && Cell(st.groups, w, s, e) == Encode(Series(acc, w, s, e))
    ensures var g, vs := Accept(st, c, limit).groups, Series(acc + [c], w, s, e);
            (Present(g, w, s, e) <==> vs != []) && Cell(g, w, s, e) == Encode(vs)
  {
    var g := Accept(st, c, limit).groups;
    if c.woy == w && c.station == s {
      AcceptOwnCell(st, c, limit, e);
    } else {
      AcceptOtherCell(st, c, limit, w, s, e);
    }
    assert (acc + [c])[..|acc|] == acc;
    var vs := Series(acc, w, s, e);
    if c.woy == w && c.station == s && Updates(c.values, e) {
      var v := c.values[e];
      assert Series(acc + [c], w, s, e) == vs + [v];
      EncodeSnoc(vs, v);
      assert Cell(g, w, s, e) == Append(Encode(vs), v);
    } else {
      assert Series(acc + [c], w, s, e) == vs + [];
      assert vs + [] == vs;
      assert Cell(g, w, s, e) == Encode(vs);
    }
  }

  /** The contents invariant of `CollectContents` survives one pass of the line loop. */
  lemma StepContents(st: Collection, acc: seq<Columns>, row: Option<Columns>, limit: int, w: int, s: string, e: string)
      returns (next: seq<Columns>)
    requires (Present(st.groups, w, s, e) <==> Series(acc, w, s, e) != []) && Cell(st.groups, w, s, e) == Encode(Series(acc, w, s, e))
    ensures next == acc + if Taken(st, row, limit) then [row.value] else []
    ensures var g, vs := Step(st, row, limit).groups, Series(next, w, s, e);
            (Present(g, w, s, e) <==> vs != []) && Cell(g, w, s, e) == Encode(vs)
  {
    if Taken(st, row, limit) {
      next := acc + [row.value];
      AcceptContents(st, acc, row.value, limit, w, s, e);
    } else {
      next := acc + [];
      assert next == acc;
    }
  }

  /**
   * Every cell holds the encoding of the values its element took in the rows
   * that contributed to its week and station, in order, and a cell exists
   * exactly when there is at least one such value.
   */
  lemma {:induction false} CollectContents(rows: seq<Option<Columns>>, limit: int, w: int, s: string, e: string)
    ensures var g, vs := Collect(rows, limit).groups, Series(Accepted(rows, limit), w, s, e);
            (Present(g, w, s, e) <==> vs != []) && Cell(g, w, s, e) == Encode(vs)
    decreases |rows|
  {
    if rows != [] {
      var front, row := rows[..|rows| - 1], rows[|rows| - 1];
      CollectContents(front, limit, w, s, e);
      var st := Collect(front, limit);
      var acc := Accepted(front, limit);
      assert Collect(rows, limit) == Step(st, row, limit);
      var next := StepContents(st, acc, row, limit, w, s, e);
      assert Accepted(rows, limit) == next;
    }
  }

  // ---------------------------------------------------------- the line loop

  lemma AddValuesSnoc(cells: Cells, values: map<string, int>, keys: seq<string>, i: nat)
    requires i < |keys| && forall j :: 0 <= j < |keys| ==> keys[j] in values
    ensures var front, e := AddValues(cells, values, keys[..i]), keys[i];
            AddValues(cells, values, keys[..i + 1]) ==
              if e in IgnoreKeys then front else front[e := Append(CellOf(front, e), values[e])]
  {
    assert keys[..i + 1][..i] == keys[..i];
  }

  /** One cell update of the element loop, looking runs of stars up in `lookup`. */
  method AppendWithTable(l: string, v: int, lookup: map<string, string>) returns (rep: string)
    requires IsZeroLookup(lookup)
    ensures rep == Append(l, v)
  {
    if v == Unavailable && l in lookup {
      rep := lookup[l];
    } else if |l| == 0 {
      rep := IntToString(v);
    } else {
      rep := l + "," + IntToString(v);
    }
  }

  /** The element loop of `pick_anomalies` for one contributing row, over its columns `keys`. */
  method AppendElements(cells: Cells, values: map<string, int>, keys: seq<string>, lookup: map<string, string>)
      returns (r: Cells)
    requires IsZeroLookup(lookup)
    requires forall j :: 0 <= j < |keys| ==> keys[j] in values
    ensures r == AddValues(cells, values, keys)
  {
    r := cells;
    for i := 0 to |keys|
      invariant r == AddValues(cells, values, keys[..i])
    {
      var e := keys[i];
      AddValuesSnoc(cells, values, keys, i);
      if e !in IgnoreKeys {
        var l := if e in r then r[e] else "";
        var rep := AppendWithTable(l, values[e], lookup);
        r := r[e := rep];
      }
    }
    assert keys[..|keys|] == keys;
  }

  /** The update for a contributing row: its cells are extended and, under a limit, its station tracked. */
  method AcceptRow(groups: Groups, tracked: set<string>, c: Columns, limit: int, lookup: map<string, string>)
      returns (groups': Groups, tracked': set<string>)
    requires IsZeroLookup(lookup)
    ensures Collection(groups', tracked') == Accept(Collection(groups, tracked), c, limit)
  {
    var stations := if c.woy in groups then groups[c.woy] else map[];
    var cells := if c.station in stations then stations[c.station] else map[];
    cells := AppendElements(cells, c.values, SortedStrings(c.values.Keys), lookup);
    stations := stations[c.station := cells];
    groups' := groups[c.woy := stations];
    tracked' := tracked;
    if limit > 0 {
      tracked' := tracked + {c.station};
    }
  }

  /**
   * The line loop of `pick_anomalies` over the lines of every yearly file in
   * turn: it parses each line and folds the Sunday rows admitted by the
   * tracking limit into the groups.
   */
  method CollectSeries(lines: seq<string>, selected: map<string, ElementSpec>, parseDate: string -> Option<int>,
                       weekOfYear: int -> int, weekday: int -> int, limit: int, lookup: map<string, string>)
      returns (groups: Groups, tracked: set<string>)
    requires IsZeroLookup(lookup)
    ensures Collection(groups, tracked) == Collect(ParseLines(lines, selected, parseDate, weekOfYear, weekday), limit)
  {
    groups, tracked := map[], {};
    for i := 0 to |lines|
      invariant Collection(groups, tracked) == Collect(ParseLines(lines[..i], selected, parseDate, weekOfYear, weekday), limit)
    {
      ghost var rows := ParseLines(lines[..i], selected, parseDate, weekOfYear, weekday);
      var columns := ParseLine(lines[i], selected, parseDate, weekOfYear, weekday);
      assert lines[..i + 1][..i] == lines[..i];
      ghost var next := rows + [columns];
      assert ParseLines(lines[..i + 1], selected, parseDate, weekOfYear, weekday) == next;
      assert next[..i] == rows;
      assert Collect(next, limit) == Step(Collection(groups, tracked), columns, limit);
      if columns.None? || columns.value.dow != Sunday {
        continue;
      }
      var c := columns.value;
      if limit <= 0 || |tracked| < limit || (|tracked| == limit && c.station in tracked) {
        groups, tracked := AcceptRow(groups, tracked, c, limit, lookup);
      }
    }
    assert lines[..|lines|] == lines;
  }

  // ------------------------------------------------------------------ the scan

  /** An entry of `anomalies`: `interpretation_details` tagged with `WOY` and `Station`. */
  datatype Anomaly = Anomaly(details: Details, woy: int, station: string)

  /**
   * What the scan makes of a decoded series: a series without a valid point is
   * skipped, any other is given to `interpret`. Success(Some(details)) reports
   * an anomaly, Success(None) moves on, Failure is an exception that escapes.
   */
  function Verdict(e: string, data: seq<int>, selected: map<string, ElementSpec>): Result<Option<Details>, Fault>
  {
    if Trimmed(data) == [] then Success(None)
    else match Interpret(e, data, selected)
      case Success(i) => Success(i.details)
      case Failure(NoValidPoints) => Success(None)
      case Failure(f) => Failure(f)
  }

  /**
   * A series is reported exactly when it holds a valid point and `interpret`
   * finds it anomalous, and an exception escapes exactly when `interpret` raises
   * on such a series; a series of sentinels only never reaches `interpret`.
   */
  lemma VerdictSpec(e: string, data: seq<int>, selected: map<string, ElementSpec>)
    ensures var r, i := Verdict(e, data, selected), Interpret(e, data, selected);
            && (r.Success? && r.value.Some? <==> Trimmed(data) != [] && i.Success? && i.value.anomalous)
            && (r.Success? && r.value.Some? ==> i == Success(Interpretation(true, r.value)))
            && (r.Failure? <==> Trimmed(data) != [] && i.Failure?)
            && ((forall k :: 0 <= k < |data| ==> data[k] == Unavailable) ==> r == Success(None))
  {
    TrimmedEmpty(data);
    if Trimmed(data) != [] && e in selected {
      var spec := selected[e];
      if spec.interval != 0 && (spec.aggType == Average || spec.aggType == Sum) {
        assert Interpret(e, data, selected) == SigmaClassify(e, data, spec);
      }
    }
  }

  /** The scan of one cell: `point_str` decoded, where a ValueError from `int()` skips the cell. */
  function CheckCell(e: string, cell: string, selected: map<string, ElementSpec>): Result<Option<Details>, Fault>
  {
    match Decode(cell)
    case None => Success(None)
    case Some(data) => Verdict(e, data, selected)
  }

  /** On the encoding of a series the scan judges the series itself. */
  lemma CheckEncoded(e: string, vs: seq<int>, selected: map<string, ElementSpec>)
    requires vs != []
    ensures CheckCell(e, Encode(vs), selected) == Verdict(e, vs, selected)
  {
    RoundTrip(vs);
  }

  /** The scan of element `e` in `cells`. */
  function Check(cells: Cells, e: string, selected: map<string, ElementSpec>): Result<Option<Details>, Fault>
  {
    CheckCell(e, CellOf(cells, e), selected)
  }

  /** The check of every element of one group. */
  function Checker(cells: Cells, selected: map<string, ElementSpec>): string -> Result<Option<Details>, Fault>
  {
    e => Check(cells, e, selected)
  }

  /** The element loop of the scan: the first element whose check does not move on decides. */
  function FirstAnomaly(es: seq<string>, check: string -> Result<Option<Details>, Fault>): Result<Option<Details>, Fault>
  {
    if es == [] then Success(None)
    else if check(es[0]) == Success(None) then FirstAnomaly(es[1..], check)
    else check(es[0])
  }

  /** Every element before `i` moves on and element `i` does not: element `i` decides. */
  lemma {:induction false} FirstAnomalyIsFirst(es: seq<string>, check: string -> Result<Option<Details>, Fault>, i: nat)
    requires i < |es| && check(es[i]) != Success(None)
    requires forall j :: 0 <= j < i ==> check(es[j]) == Success(None)
    ensures FirstAnomaly(es, check) == check(es[i])
    decreases i
  {
    if i > 0 {
      var rest := es[1..];
      assert rest[i - 1] == es[i];
      forall j | 0 <= j < i - 1
        ensures check(rest[j]) == Success(None)
      {
        assert rest[j] == es[j + 1];
      }
      FirstAnomalyIsFirst(rest, check, i - 1);
    }
  }

  /** Nothing is found exactly when every element moves on; otherwise some element decides, all before it moving on. */
  lemma {:induction false} FirstAnomalyDecided(es: seq<string>, check: string -> Result<Option<Details>, Fault>)
    ensures var r := FirstAnomaly(es, check);
            && (r == Success(None) <==> forall i :: 0 <= i < |es| ==> check(es[i]) == Success(None))
            && (r != Success(None) ==> exists i :: 0 <= i < |es| && check(es[i]) == r &&
                                         forall j :: 0 <= j < i ==> check(es[j]) == Success(None))
    decreases |es|
  {
    if es != [] {
      var rest := es[1..];
      FirstAnomalyDecided(rest, check);
      var r := FirstAnomaly(es, check);
      if check(es[0]) == Success(None) {
        assert r == FirstAnomaly(rest, check);
        if r == Success(None) {
          forall i | 0 < i < |es|
            ensures check(es[i]) == Success(None)
          {
            assert es[i] == rest[i - 1];
          }
        } else {
          var k :| 0 <= k < |rest| && check(rest[k]) == r && forall j :: 0 <= j < k ==> check(rest[j]) == Success(None);
          assert check(es[k + 1]) == r;
          forall j | 0 <= j < k + 1
            ensures check(es[j]) == Success(None)
          {
            if j > 0 {
              assert es[j] == rest[j - 1];
            }
          }
        }
      }
    }
  }

  /** The verdict of one group: its elements scanned in sorted order. */
  function GroupVerdict(cells: Cells, selected: map<string, ElementSpec>): Result<Option<Details>, Fault>
  {
    FirstAnomaly(SortedStrings(cells.Keys), Checker(cells, selected))
  }

  /** The scan of the stations `ss` of week `w`, in order. */
  function ScanStations(w: int, ss: seq<string>, stations: map<string, Cells>, judge: Cells -> Result<Option<Details>, Fault>)
      : Result<seq<Anomaly>, Fault>
    requires forall i :: 0 <= i < |ss| ==> ss[i] in stations
  {
    if ss == [] then Success([])
    else
      var s := ss[|ss| - 1];
      match ScanStations(w, ss[..|ss| - 1], stations, judge)
      case Failure(f) => Failure(f)
      case Success(found) =>
        match judge(stations[s])
        case Failure(f) => Failure(f)
        case Success(None) => Success(found)
        case Success(Some(d)) => Success(found + [Anomaly(d, w, s)])
  }

  /** The scan of the weeks `ws`, in order, each over its stations in sorted order. */
  function ScanWeeks(ws: seq<int>, groups: Groups, judge: Cells -> Result<Option<Details>, Fault>): Result<seq<Anomaly>, Fault>
    requires forall i :: 0 <= i < |ws| ==> ws[i] in groups
  {
    if ws == [] then Success([])
    else
      var w := ws[|ws| - 1];
      match ScanWeeks(ws[..|ws| - 1], groups, judge)
      case Failure(f) => Failure(f)
      case Success(found) =>
        match WeekScan(w, groups[w], judge)
        case Failure(f) => Failure(f)
        case Success(more) => Success(found + more)
  }

  /** The scan of week `w` over its stations in sorted order. */
  function WeekScan(w: int, stations: map<string, Cells>, judge: Cells -> Result<Option<Details>, Fault>)
      : Result<seq<Anomaly>, Fault>
  {
    ScanStations(w, SortedStrings(stations.Keys), stations, judge)
  }

  /** The verdict on each group. */
  function Judge(selected: map<string, ElementSpec>): Cells -> Result<Option<Details>, Fault>
  {
    cells => GroupVerdict(cells, selected)
  }

  /** The scan of `pick_anomalies`: every week in ascending order. */
  function Scan(groups: Groups, selected: map<string, ElementSpec>): Result<seq<Anomaly>, Fault>
  {
    ScanWeeks(SortedInts(groups.Keys), groups, Judge(selected))
  }

  /** A failing scan of the first `i` stations is the failure of the scan of all of them. */
  lemma {:induction false} StationsFailureSticks(w: int, ss: seq<string>, stations: map<string, Cells>,
                                                 judge: Cells -> Result<Option<Details>, Fault>, i: nat)
    requires i <= |ss| && forall k :: 0 <= k < |ss| ==> ss[k] in stations
    requires ScanStations(w, ss[..i], stations, judge).Failure?
    ensures ScanStations(w, ss, stations, judge) == ScanStations(w, ss[..i], stations, judge)
    decreases |ss|
  {
    if i < |ss| {
      var front := ss[..|ss| - 1];
      assert front[..i] == ss[..i];
      StationsFailureSticks(w, front, stations, judge, i);
    } else {
      assert ss[..i] == ss;
    }
  }

  /** A failing scan of the first `i` weeks is the failure of the scan of all of them. */
  lemma {:induction false} WeeksFailureSticks(ws: seq<int>, groups: Groups, judge: Cells -> Result<Option<Details>, Fault>, i: nat)
    requires i <= |ws| && forall k :: 0 <= k < |ws| ==> ws[k] in groups
    requires ScanWeeks(ws[..i], groups, judge).Failure?
    ensures ScanWeeks(ws, groups, judge) == ScanWeeks(ws[..i], groups, judge)
    decreases |ws|
  {
    if i < |ws| {
      var front := ws[..|ws| - 1];
      assert front[..i] == ws[..i];
      WeeksFailureSticks(front, groups, judge, i);
    } else {
      assert ws[..i] == ws;
    }
  }

  /**
   * The scan of one week fails exactly when one of its groups does; otherwise
   * it reports each station of `ss` whose group has an anomalous element, with
   * the details of the first one, and nothing else.
   */
  lemma {:induction false} ScanStationsSpec(w: int, ss: seq<string>, stations: map<string, Cells>,
                                            judge: Cells -> Result<Option<Details>, Fault>)
    requires forall i :: 0 <= i < |ss| ==> ss[i] in stations
    ensures var r := ScanStations(w, ss, stations, judge);
            && (r.Failure? <==> exists i :: 0 <= i < |ss| && judge(stations[ss[i]]).Failure?)
            && (r.Success? ==> forall a :: a in r.value <==>
                  a.woy == w && a.station in ss && judge(stations[a.station]) == Success(Some(a.details)))
    decreases |ss|
  {
    if ss != [] {
      var front, s := ss[..|ss| - 1], ss[|ss| - 1];
      ScanStationsSpec(w, front, stations, judge);
      var r := ScanStations(w, ss, stations, judge);
      var v := judge(stations[s]);
      assert forall x :: x in ss <==> x in front || x == s;
      if ScanStations(w, front, stations, judge).Failure? {
        var i :| 0 <= i < |front| && judge(stations[front[i]]).Failure?;
        assert ss[i] == front[i];
      } else if v.Failure? {
        assert judge(stations[ss[|ss| - 1]]).Failure?;
      } else {
        forall i | 0 <= i < |ss|
          ensures !judge(stations[ss[i]]).Failure?
        {
          if i < |front| {
            assert ss[i] == front[i];
          }
        }
      }
    }
  }

  /** The stations of one week are reported in ascending order. */
  lemma {:induction false} ScanStationsOrdered(w: int, ss: seq<string>, stations: map<string, Cells>,
                                               judge: Cells -> Result<Option<Details>, Fault>)
    requires forall i :: 0 <= i < |ss| ==> ss[i] in stations
    requires Ascending(ss)
    ensures var r := ScanStations(w, ss, stations, judge);
            r.Success? ==> forall i, j :: 0 <= i < j < |r.value| ==> Less(r.value[i].station, r.value[j].station)
    decreases |ss|
  {
    if ss != [] {
      var front, s := ss[..|ss| - 1], ss[|ss| - 1];
      ScanStationsOrdered(w, front, stations, judge);
      ScanStationsSpec(w, front, stations, judge);
      var r := ScanStations(w, ss, stations, judge);
      if r.Success? {
        var found := ScanStations(w, front, stations, judge).value;
        if r.value != found {
          forall i | 0 <= i < |found|
            ensures Less(found[i].station, s)
          {
            assert found[i] in found;
            var k :| 0 <= k < |front| && front[k] == found[i].station;
            assert ss[k] == front[k];
          }
        }
      }
    }
  }

  /** Some group of the week `stations` raises an escaping exception. */
  predicate WeekFails(stations: map<string, Cells>, judge: Cells -> Result<Option<Details>, Fault>)
  {
    exists s :: s in stations && judge(stations[s]).Failure?
  }

  /** The scan of week `w` over its stations in sorted order fails exactly when one of its groups does. */
  lemma ScanWeekFails(w: int, stations: map<string, Cells>, judge: Cells -> Result<Option<Details>, Fault>)
    ensures WeekScan(w, stations, judge).Failure? <==> WeekFails(stations, judge)
  {
    var ss := SortedStrings(stations.Keys);
    ScanStationsSpec(w, ss, stations, judge);
    if ScanStations(w, ss, stations, judge).Failure? {
      var i :| 0 <= i < |ss| && judge(stations[ss[i]]).Failure?;
    } else {
      forall s | s in stations
        ensures !judge(stations[s]).Failure?
      {
        SortedHas(stations.Keys, s);
      }
    }
  }

  /** The scan of week `w` reports each of its stations whose group is anomalous, in ascending order. */
  lemma ScanWeekReports(w: int, stations: map<string, Cells>, judge: Cells -> Result<Option<Details>, Fault>)
    ensures var r := WeekScan(w, stations, judge);
            && (r.Success? ==> forall a :: a in r.value <==>
                  a.woy == w && a.station in stations && judge(stations[a.station]) == Success(Some(a.details)))
            && (r.Success? ==> forall i, j :: 0 <= i < j < |r.value| ==> Less(r.value[i].station, r.value[j].station))
  {
    var ss := SortedStrings(stations.Keys);
    ScanStationsSpec(w, ss, stations, judge);
    ScanStationsOrdered(w, ss, stations, judge);
    forall s
      ensures s in ss <==> s in stations
    {
      SortedHas(stations.Keys, s);
    }
  }

  /** `a` comes before `b` in the order of the scan: by week, then by station. */
  predicate Before(a: Anomaly, b: Anomaly)
  {
    a.woy < b.woy || (a.woy == b.woy && Less(a.station, b.station))
  }

  /** Some week of `front + [w]` fails iff some week of `front` does or `w` does. */
  lemma SomeWeekFails(front: seq<int>, w: int, groups: Groups, judge: Cells -> Result<Option<Details>, Fault>)
    requires w in groups && forall i :: 0 <= i < |front| ==> front[i] in groups
    ensures (exists i :: 0 <= i < |front + [w]| && WeekFails(groups[(front + [w])[i]], judge)) <==>
            (exists i :: 0 <= i < |front| && WeekFails(groups[front[i]], judge)) || WeekFails(groups[w], judge)
  {
    var ws := front + [w];
    if exists i :: 0 <= i < |front| && WeekFails(groups[front[i]], judge) {
      var i :| 0 <= i < |front| && WeekFails(groups[front[i]], judge);
      assert ws[i] == front[i];
    } else if WeekFails(groups[w], judge) {
      assert ws[|front|] == w;
    } else {
      forall i | 0 <= i < |ws|
        ensures !WeekFails(groups[ws[i]], judge)
      {
        if i < |front| {
          assert ws[i] == front[i];
        }
      }
    }
  }

  /** The scan of `front + [w]` fails iff that of `front` does or that of week `w` does. */
  lemma WeeksFailStep(front: seq<int>, w: int, groups: Groups, judge: Cells -> Result<Option<Details>, Fault>)
    requires w in groups && forall i :: 0 <= i < |front| ==> front[i] in groups
    ensures forall i :: 0 <= i < |front + [w]| ==> (front + [w])[i] in groups
    ensures ScanWeeks(front + [w], groups, judge).Failure? <==>
            ScanWeeks(front, groups, judge).Failure? || WeekScan(w, groups[w], judge).Failure?
  {
    assert (front + [w])[..|front|] == front;
  }

  /** The whole scan fails exactly when some group does. */
  lemma {:induction false} ScanWeeksFails(ws: seq<int>, groups: Groups, judge: Cells -> Result<Option<Details>, Fault>)
    requires forall i :: 0 <= i < |ws| ==> ws[i] in groups
    ensures ScanWeeks(ws, groups, judge).Failure? <==> exists i :: 0 <= i < |ws| && WeekFails(groups[ws[i]], judge)
    decreases |ws|
  {
    if ws != [] {
      var front, w := ws[..|ws| - 1], ws[|ws| - 1];
      assert ws == front + [w];
      ScanWeeksFails(front, groups, judge);
      ScanWeekFails(w, groups[w], judge);
      WeeksFailStep(front, w, groups, judge);
      SomeWeekFails(front, w, groups, judge);
    }
  }

  /**
   * A scan that does not fail reports each (week, station) group of `ws`
   * with an anomalous element, with the details of its first anomalous
   * element, and nothing else.
   */
  lemma {:induction false} ScanWeeksReports(ws: seq<int>, groups: Groups, judge: Cells -> Result<Option<Details>, Fault>)
    requires forall i :: 0 <= i < |ws| ==> ws[i] in groups
    ensures var r := ScanWeeks(ws, groups, judge);
            r.Success? ==> forall a :: a in r.value <==>
              a.woy in ws && a.station in groups[a.woy] && judge(groups[a.woy][a.station]) == Success(Some(a.details))
    decreases |ws|
  {
    if ws != [] {
      var front, w := ws[..|ws| - 1], ws[|ws| - 1];
      ScanWeeksReports(front, groups, judge);
      ScanWeekReports(w, groups[w], judge);
      assert forall x :: x in ws <==> x in front || x == w;
      var r := ScanWeeks(ws, groups, judge);
      if r.Success? {
        var prior := ScanWeeks(front, groups, judge);
        var more := WeekScan(w, groups[w], judge);
        assert r.value == prior.value + more.value;
      }
    }
  }

  /** Ordered reports of earlier weeks followed by ordered reports of week `w` stay ordered. */
  lemma OrderedConcat(found: seq<Anomaly>, more: seq<Anomaly>, w: int)
    requires forall i, j :: 0 <= i < j < |found| ==> Before(found[i], found[j])
    requires forall i :: 0 <= i < |found| ==> found[i].woy < w
    requires forall i :: 0 <= i < |more| ==> more[i].woy == w
    requires forall i, j :: 0 <= i < j < |more| ==> Less(more[i].station, more[j].station)
    ensures forall i, j :: 0 <= i < j < |found + more| ==> Before((found + more)[i], (found + more)[j])
  {
    var r := found + more;
    forall i, j | 0 <= i < j < |r|
      ensures Before(r[i], r[j])
    {
      if i >= |found| {
        assert r[i] == more[i - |found|] && r[j] == more[j - |found|];
      } else if j >= |found| {
        assert r[j] == more[j - |found|];
      }
    }
  }

  /** Reports come out ordered by week and then by station, so each group yields at most one. */
  lemma {:induction false} ScanWeeksOrdered(ws: seq<int>, groups: Groups, judge: Cells -> Result<Option<Details>, Fault>)
    requires forall i :: 0 <= i < |ws| ==> ws[i] in groups
    requires AscendingInts(ws)
    ensures var r := ScanWeeks(ws, groups, judge);
            r.Success? ==> forall i, j :: 0 <= i < j < |r.value| ==> Before(r.value[i], r.value[j])
    decreases |ws|
  {
    if ws != [] {
      var front, w := ws[..|ws| - 1], ws[|ws| - 1];
      ScanWeeksOrdered(front, groups, judge);
      var r := ScanWeeks(ws, groups, judge);
      if r.Success? {
        var found := ScanWeeks(front, groups, judge).value;
        var more := WeekScan(w, groups[w], judge).value;
        assert r.value == found + more;
        ScanWeeksReports(front, groups, judge);
        forall i | 0 <= i < |found|
          ensures found[i].woy < w
        {
          assert found[i] in found;
          var k :| 0 <= k < |front| && front[k] == found[i].woy;
          assert ws[k] == front[k];
        }
        ScanWeekReports(w, groups[w], judge);
        forall i | 0 <= i < |more|
          ensures more[i].woy == w
        {
          assert more[i] in more;
        }
        OrderedConcat(found, more, w);
      }
    }
  }

  /**
   * The scan fails exactly when some group's verdict is an escaping exception;
   * otherwise it reports every (week, station) group with an anomalous
   * element, with the details of the first such element in sorted order,
   * nothing else, ordered by week and then station.
   */
  lemma ScanSpec(groups: Groups, selected: map<string, ElementSpec>)
    ensures var r := Scan(groups, selected);
            && (r.Failure? <==> exists w, s :: w in groups && s in groups[w] && GroupVerdict(groups[w][s], selected).Failure?)
            && (r.Success? ==> forall a :: a in r.value <==>
                  a.woy in groups && a.station in groups[a.woy] &&
                  GroupVerdict(groups[a.woy][a.station], selected) == Success(Some(a.details)))
            && (r.Success? ==> forall i, j :: 0 <= i < j < |r.value| ==> Before(r.value[i], r.value[j]))
  {
    var ws := SortedInts(groups.Keys);
    var judge := Judge(selected);
    assert forall cells :: judge(cells) == GroupVerdict(cells, selected);
    ScanWeeksFails(ws, groups, judge);
    ScanWeeksReports(ws, groups, judge);
    ScanWeeksOrdered(ws, groups, judge);
    var r := Scan(groups, selected);
    if r.Failure? {
      var i :| 0 <= i < |ws| && WeekFails(groups[ws[i]], judge);
      var s :| s in groups[ws[i]] && judge(groups[ws[i]][s]).Failure?;
    } else {
      forall w, s | w in groups && s in groups[w]
        ensures !GroupVerdict(groups[w][s], selected).Failure?
      {
        assert w in ws;
        var i :| 0 <= i < |ws| && ws[i] == w;
        assert !WeekFails(groups[ws[i]], judge);
      }
    }
  }

  /**
   * A reported anomaly is `interpret`'s verdict, anomalous, on exactly the
   * values its element took in the contributing Sunday rows of its week and
   * station, in the order of the input.
   */
  lemma GroupAnomaly(rows: seq<Option<Columns>>, limit: int, selected: map<string, ElementSpec>, w: int, s: string, d: Details)
    requires var g := Collect(rows, limit).groups;
             w in g && s in g[w] && GroupVerdict(g[w][s], selected) == Success(Some(d))
    ensures Interpret(d.element, Series(Accepted(rows, limit), w, s, d.element), selected) == Success(Interpretation(true, Some(d)))
  {
    var g: Groups := Collect(rows, limit).groups;
    var cells: Cells := g[w][s];
    var es := SortedStrings(cells.Keys);
    var check := Checker(cells, selected);
    FirstAnomalyDecided(es, check);
    var i :| 0 <= i < |es| && check(es[i]) == Success(Some(d));
    var e := es[i];
    SortedHas(cells.Keys, e);
    var vs := Series(Accepted(rows, limit), w, s, e);
    CollectContents(rows, limit, w, s, e);
    assert Present(g, w, s, e);
    assert CellOf(cells, e) == Encode(vs);
    CheckEncoded(e, vs, selected);
    VerdictSpec(e, vs, selected);
  }

  /**
   * End to end: every anomaly `pick_anomalies` reports for a week and station
   * is `interpret` finding the series of its element anomalous, where the
   * series is the values of that element on the contributing Sunday rows.
   */
  lemma PickedFromSeries(rows: seq<Option<Columns>>, limit: int, selected: map<string, ElementSpec>)
    ensures var r := Scan(Collect(rows, limit).groups, selected);
            r.Success? ==> forall a :: a in r.value ==>
              Interpret(a.details.element, Series(Accepted(rows, limit), a.woy, a.station, a.details.element), selected)
                == Success(Interpretation(true, Some(a.details)))
  {
    var g := Collect(rows, limit).groups;
    ScanSpec(g, selected);
    var r := Scan(g, selected);
    if r.Success? {
      forall a | a in r.value
        ensures Interpret(a.details.element, Series(Accepted(rows, limit), a.woy, a.station, a.details.element), selected)
                  == Success(Interpretation(true, Some(a.details)))
      {
        GroupAnomaly(rows, limit, selected, a.woy, a.station, a.details);
      }
    }
  }

  /** Two checks that agree on every element of `es` make the same element decide. */
  lemma {:induction false} FirstAnomalySame(es: seq<string>, c1: string -> Result<Option<Details>, Fault>,
                                            c2: string -> Result<Option<Details>, Fault>)
    requires forall i :: 0 <= i < |es| ==> c1(es[i]) == c2(es[i])
    ensures FirstAnomaly(es, c1) == FirstAnomaly(es, c2)
    decreases |es|
  {
    if es != [] {
      var rest := es[1..];
      assert forall i :: 0 <= i < |rest| ==> rest[i] == es[i + 1];
      FirstAnomalySame(rest, c1, c2);
    }
  }

  /** Each element of week `w` and station `s` judged on the values it took in the contributing rows. */
  function SeriesVerdict(rows: seq<Option<Columns>>, limit: int, selected: map<string, ElementSpec>, w: int, s: string)
      : string -> Result<Option<Details>, Fault>
  {
    e => Verdict(e, Series(Accepted(rows, limit), w, s, e), selected)
  }

  /**
   * A group holds exactly the elements that took a value in one of its
   * contributing rows, and its verdict is that of the first of them, in
   * sorted order, whose series is not skipped.
   */
  lemma GroupFromSeries(rows: seq<Option<Columns>>, limit: int, selected: map<string, ElementSpec>, w: int, s: string)
    requires var g := Collect(rows, limit).groups;
             w in g && s in g[w]
    ensures var g := Collect(rows, limit).groups;
            && (forall e :: e in g[w][s] <==> Series(Accepted(rows, limit), w, s, e) != [])
            && GroupVerdict(g[w][s], selected) == FirstAnomaly(SortedStrings(g[w][s].Keys), SeriesVerdict(rows, limit, selected, w, s))
  {
    var g: Groups := Collect(rows, limit).groups;
    var cells: Cells := g[w][s];
    var es := SortedStrings(cells.Keys);
    var bySeries := SeriesVerdict(rows, limit, selected, w, s);
    forall e
      ensures e in cells <==> Series(Accepted(rows, limit), w, s, e) != []
    {
      CollectContents(rows, limit, w, s, e);
    }
    forall i | 0 <= i < |es|
      ensures Checker(cells, selected)(es[i]) == bySeries(es[i])
    {
      var e := es[i];
      var vs := Series(Accepted(rows, limit), w, s, e);
      SortedHas(cells.Keys, e);
      CollectContents(rows, limit, w, s, e);
      CheckEncoded(e, vs, selected);
    }
    FirstAnomalySame(es, Checker(cells, selected), bySeries);
  }

  /**
   * The converse of `PickedFromSeries`, in terms of the input rows: the scan
   * fails exactly when, for some week and station, the first element in
   * sorted order whose series is not skipped makes `interpret` raise; and
   * otherwise a week and station is reported, with given details, exactly
   * when that first element is anomalous on its series with those details.
   */
  lemma ReportedFromSeries(rows: seq<Option<Columns>>, limit: int, selected: map<string, ElementSpec>)
    ensures var g := Collect(rows, limit).groups;
            var r := Scan(g, selected);
            && (r.Failure? <==>
                  exists w, s :: w in g && s in g[w] &&
                    FirstAnomaly(SortedStrings(g[w][s].Keys), SeriesVerdict(rows, limit, selected, w, s)).Failure?)
            && (r.Success? ==> forall a :: a in r.value <==>
                  a.woy in g && a.station in g[a.woy] &&
                  FirstAnomaly(SortedStrings(g[a.woy][a.station].Keys), SeriesVerdict(rows, limit, selected, a.woy, a.station))
                    == Success(Some(a.details)))
  {
    var g: Groups := Collect(rows, limit).groups;
    ScanSpec(g, selected);
    forall w, s | w in g && s in g[w]
      ensures GroupVerdict(g[w][s], selected) == FirstAnomaly(SortedStrings(g[w][s].Keys), SeriesVerdict(rows, limit, selected, w, s))
    {
      GroupFromSeries(rows, limit, selected, w, s);
    }
  }

  // ----------------------------------------------------------- the scan loops

  /** One more station in the scan of a week. */
  lemma StationsSnoc(w: int, ss: seq<string>, stations: map<string, Cells>,
                     judge: Cells -> Result<Option<Details>, Fault>, i: nat, found: seq<Anomaly>)
    requires i < |ss| && forall k :: 0 <= k < |ss| ==> ss[k] in stations
    requires ScanStations(w, ss[..i], stations, judge) == Success(found)
    ensures var v := judge(stations[ss[i]]);
            ScanStations(w, ss[..i + 1], stations, judge) ==
              if v.Failure? then Failure(v.error)
              else if v.value.Some? then Success(found + [Anomaly(v.value.value, w, ss[i])])
              else Success(found)
  {
    assert ss[..i + 1][..i] == ss[..i];
  }

  /** One more week in the scan. */
  lemma WeeksSnoc(ws: seq<int>, groups: Groups, judge: Cells -> Result<Option<Details>, Fault>, i: nat, found: seq<Anomaly>)
    requires i < |ws| && forall k :: 0 <= k < |ws| ==> ws[k] in groups
    requires ScanWeeks(ws[..i], groups, judge) == Success(found)
    ensures var w := ws[i];
            var v := WeekScan(w, groups[w], judge);
            ScanWeeks(ws[..i + 1], groups, judge) == if v.Failure? then Failure(v.error) else Success(found + v.value)
  {
    assert ws[..i + 1][..i] == ws[..i];
  }

  /** The element loop of the scan for one group, stopping at the first anomaly or exception. */
  method ScanGroup(cells: Cells, selected: map<string, ElementSpec>) returns (r: Result<Option<Details>, Fault>)
    ensures r == GroupVerdict(cells, selected)
  {
    var es := SortedStrings(cells.Keys);
    ghost var check := Checker(cells, selected);
    r := Success(None);
    var i := 0;
    while i < |es|
      invariant 0 <= i <= |es|
      invariant FirstAnomaly(es, check) == FirstAnomaly(es[i..], check)
    {
      var e := es[i];
      SortedHas(cells.Keys, e);
      var c := CheckCell(e, cells[e], selected);
      assert c == check(es[i..][0]);
      if c.Failure? {
        return c;
      }
      if c.value.Some? {
        r := c;
        break;
      }
      assert es[i..][1..] == es[i + 1..];
      i := i + 1;
    }
  }

  /** The station loop of the scan for week `w`, over its stations in sorted order. */
  method ScanWeek(w: int, stations: map<string, Cells>, selected: map<string, ElementSpec>)
      returns (r: Result<seq<Anomaly>, Fault>)
    ensures r == WeekScan(w, stations, Judge(selected))
  {
    var ss := SortedStrings(stations.Keys);
    SortedIn(stations.Keys);
    r := ScanStationList(w, ss, stations, selected);
  }

  /** The station loop of the scan for week `w`, over the stations `ss`. */
  method ScanStationList(w: int, ss: seq<string>, stations: map<string, Cells>, selected: map<string, ElementSpec>)
      returns (r: Result<seq<Anomaly>, Fault>)
    requires forall i :: 0 <= i < |ss| ==> ss[i] in stations
    ensures r == ScanStations(w, ss, stations, Judge(selected))
  {
    ghost var judge := Judge(selected);
    var found: seq<Anomaly> := [];
    for i := 0 to |ss|
      invariant ScanStations(w, ss[..i], stations, judge) == Success(found)
    {
      var verdict := ScanGroup(stations[ss[i]], selected);
      assert verdict == judge(stations[ss[i]]);
      StationsSnoc(w, ss, stations, judge, i, found);
      if verdict.Failure? {
        StationsFailureSticks(w, ss, stations, judge, i + 1);
        return Failure(verdict.error);
      }
      if verdict.value.Some? {
        found := found + [Anomaly(verdict.value.value, w, ss[i])];
      }
    }
    assert ss[..|ss|] == ss;
    r := Success(found);
  }

  /** The scan loop of `pick_anomalies`: weeks in ascending order, each over its stations in sorted order. */
  method ScanAll(groups: Groups, selected: map<string, ElementSpec>) returns (r: Result<seq<Anomaly>, Fault>)
    ensures r == Scan(groups, selected)
  {
    var ws := SortedInts(groups.Keys);
    assert forall k :: 0 <= k < |ws| ==> ws[k] in groups;
    r := ScanWeekList(ws, groups, selected);
  }

  /** The week loop of the scan, over the weeks `ws`. */
  method ScanWeekList(ws: seq<int>, groups: Groups, selected: map<string, ElementSpec>)
      returns (r: Result<seq<Anomaly>, Fault>)
    requires forall k :: 0 <= k < |ws| ==> ws[k] in groups
    ensures r == ScanWeeks(ws, groups, Judge(selected))
  {
    ghost var judge := Judge(selected);
    var anomalies: seq<Anomaly> := [];
    for i := 0 to |ws|
      invariant ScanWeeks(ws[..i], groups, judge) == Success(anomalies)
    {
      var w := ws[i];
      var found := ScanWeek(w, groups[w], selected);
      WeeksSnoc(ws, groups, judge, i, anomalies);
      if found.Failure? {
        WeeksFailureSticks(ws, groups, judge, i + 1);
        return Failure(found.error);
      }
      anomalies := anomalies + found.value;
    }
    assert ws[..|ws|] == ws;
    r := Success(anomalies);
  }

  /**
   * `pick_anomalies` over the lines of the yearly files: the lookup table is
   * built, the lines are grouped, and the groups are scanned.
   */
  method PickAnomalies(lines: seq<string>, selected: map<string, ElementSpec>, parseDate: string -> Option<int>,
                       weekOfYear: int -> int, weekday: int -> int, limit: int)
      returns (r: Result<seq<Anomaly>, Fault>)
    ensures r == Scan(Collect(ParseLines(lines, selected, parseDate, weekOfYear, weekday), limit).groups, selected)
  {
    var lookup := GenerateConstZeroList();
    var groups, tracked := CollectSeries(lines, selected, parseDate, weekOfYear, weekday, limit, lookup);
    r := ScanAll(groups, selected);
  }
}
