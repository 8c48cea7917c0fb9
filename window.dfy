/**
 * The pure half of the rolling 7-day aggregator
 * (scripts/prepare-annual-weather-data.py): the in-memory buffer
 * `date -> station -> element -> value`, the trailing-window lookup and the
 * per-station row of rounded averages that `process_date` writes.
 * Dates are day numbers.
 */
module Window {
  import opened Wrappers
  import opened Order

  /** `IN_MEMORY_DATE_LOOKAHEAD_DAYS`. */
  const Lookahead: int := 10
  /** `TRAILING_AVG_DAY_COUNT`. */
  const TrailingDays: int := 7
  /** The GHCN sentinel for an unknown, invalid or uncollected value. */
  const Missing: int := -9999

  /** `rolling_daily_data_map`. */
  type Buffer = map<int, map<string, map<string, int>>>

  /** `buf[day][station][element]`, or None where a key is absent. */
  function Lookup(buf: Buffer, day: int, station: string, element: string): Option<int>
  {
    if day in buf && station in buf[day] && element in buf[day][station] then Some(buf[day][station][element])
    else None
  }

  /**
   * `add_data_to_memory`: the triple now holds `value`, every other triple
   * keeps its value, and `day` becomes a key.
   */
  function AddData(buf: Buffer, day: int, station: string, element: string, value: int): (r: Buffer)
    ensures r.Keys == buf.Keys + {day}
    ensures Lookup(r, day, station, element) == Some(value)
    ensures forall d, s, e :: (d, s, e) != (day, station, element) ==> Lookup(r, d, s, e) == Lookup(buf, d, s, e)
  {
    var dateMap := if day in buf then buf[day] else map[];
    var stationMap := if station in dateMap then dateMap[station] else map[];
    buf[day := dateMap[station := stationMap[element := value]]]
  }

  /** The reading `datediff` days before `p`, if it is present and not the sentinel. */
  function Reading(buf: Buffer, p: int, datediff: int, station: string, element: string): Option<int>
  {
    match Lookup(buf, p - datediff, station, element)
    case Some(v) => if v != Missing then Some(v) else None
    case None => None
  }

  /** `station_element_values` after `datediff` has run over 0 .. n-1. */
  function Trailing(buf: Buffer, p: int, station: string, element: string, n: nat): seq<int>
  {
    if n == 0 then []
    else
      var prior := Trailing(buf, p, station, element, n - 1);
      match Reading(buf, p, n - 1, station, element)
      case Some(v) => prior + [v]
      case None => prior
  }

  /**
   * The trailing values are exactly the readings of the last `n` days: at
   * most one per day, never the sentinel, and each value as many times as
   * there are days that read it.
   */
  lemma {:induction false} TrailingHolds(buf: Buffer, p: int, station: string, element: string, n: nat)
    ensures |Trailing(buf, p, station, element, n)| <= n
    ensures forall v :: v in Trailing(buf, p, station, element, n) <==>
      exists k :: 0 <= k < n && Reading(buf, p, k, station, element) == Some(v)
    ensures Missing !in Trailing(buf, p, station, element, n)
    ensures forall v ::
              multiset(Trailing(buf, p, station, element, n))[v] == |ReadingDays(buf, p, station, element, n, v)|
  {
    TrailingReadings(buf, p, station, element, n);
    forall v
      ensures multiset(Trailing(buf, p, station, element, n))[v] == |ReadingDays(buf, p, station, element, n, v)|
    {
      TrailingCount(buf, p, station, element, n, v);
      DaysCount(buf, p, station, element, n, v);
    }
  }

  /** The membership half of `TrailingHolds`. */
  lemma {:induction false} TrailingReadings(buf: Buffer, p: int, station: string, element: string, n: nat)
    ensures |Trailing(buf, p, station, element, n)| <= n
    ensures forall v :: v in Trailing(buf, p, station, element, n) <==>
      exists k :: 0 <= k < n && Reading(buf, p, k, station, element) == Some(v)
    ensures Missing !in Trailing(buf, p, station, element, n)
  {
    if n > 0 {
      TrailingReadings(buf, p, station, element, n - 1);
    }
  }

  /** The days among the last `n` whose reading is `v`. */
  function ReadingDays(buf: Buffer, p: int, station: string, element: string, n: nat, v: int): set<int>
  {
    set k | 0 <= k < n && Reading(buf, p, k, station, element) == Some(v)
  }

  /** The number of days among the last `n` that read `v`. */
  function Hits(buf: Buffer, p: int, station: string, element: string, n: nat, v: int): nat
  {
    if n == 0 then 0 else Hits(buf, p, station, element, n - 1, v) + Hit(buf, p, station, element, n - 1, v)
  }

  lemma {:induction false} TrailingCount(buf: Buffer, p: int, station: string, element: string, n: nat, v: int)
    ensures multiset(Trailing(buf, p, station, element, n))[v] == Hits(buf, p, station, element, n, v)
  {
    if n > 0 {
      TrailingCount(buf, p, station, element, n - 1, v);
      TrailingStep(buf, p, station, element, n, v);
    }
  }

  lemma {:induction false} DaysCount(buf: Buffer, p: int, station: string, element: string, n: nat, v: int)
    ensures |ReadingDays(buf, p, station, element, n, v)| == Hits(buf, p, station, element, n, v)
  {
    if n > 0 {
      DaysCount(buf, p, station, element, n - 1, v);
      ReadingDaysStep(buf, p, station, element, n, v);
    } else {
      assert ReadingDays(buf, p, station, element, n, v) == {};
    }
  }

  /** One if day `k` reads `v`, zero otherwise. */
  function Hit(buf: Buffer, p: int, station: string, element: string, k: int, v: int): nat
  {
    if Reading(buf, p, k, station, element) == Some(v) then 1 else 0
  }

  /** Day `n - 1` adds one occurrence of `v` to the trailing values iff it reads `v`. */
  lemma TrailingStep(buf: Buffer, p: int, station: string, element: string, n: nat, v: int)
    requires n > 0
    ensures multiset(Trailing(buf, p, station, element, n))[v] ==
            multiset(Trailing(buf, p, station, element, n - 1))[v] + Hit(buf, p, station, element, n - 1, v)
  {
    var prior := Trailing(buf, p, station, element, n - 1);
    match Reading(buf, p, n - 1, station, element)
    case Some(w) =>
      assert multiset(prior + [w]) == multiset(prior) + multiset{w};
    case None =>
  }

  /** Day `n - 1` joins the days reading `v` iff it reads `v`. */
  lemma ReadingDaysStep(buf: Buffer, p: int, station: string, element: string, n: nat, v: int)
    requires n > 0
    ensures |ReadingDays(buf, p, station, element, n, v)| ==
            |ReadingDays(buf, p, station, element, n - 1, v)| + Hit(buf, p, station, element, n - 1, v)
  {
    var front := ReadingDays(buf, p, station, element, n - 1, v);
    if Reading(buf, p, n - 1, station, element) == Some(v) {
      assert ReadingDays(buf, p, station, element, n, v) == front + {n - 1};
    } else {
      assert ReadingDays(buf, p, station, element, n, v) == front;
    }
  }

  /** The trailing values depend only on the readings of the last `n` days. */
  lemma {:induction false} TrailingLocal(buf: Buffer, other: Buffer, p: int, station: string, element: string, n: nat)
    requires forall k :: 0 <= k < n ==> Reading(buf, p, k, station, element) == Reading(other, p, k, station, element)
    ensures Trailing(buf, p, station, element, n) == Trailing(other, p, station, element, n)
  {
    if n > 0 {
      TrailingLocal(buf, other, p, station, element, n - 1);
    }
  }

  function Sum(vs: seq<int>): int
  {
    if vs == [] then 0 else Sum(vs[..|vs| - 1]) + vs[|vs| - 1]
  }

  /**
   * Python's `round(num / den)`: the integer nearest to the exact quotient,
   * ties to the even neighbour.
   */
  function RoundHalfEven(num: int, den: int): (r: int)
    requires den > 0
    ensures -den <= 2 * (r * den - num) <= den
    ensures 2 * (r * den - num) == den || 2 * (r * den - num) == -den ==> r % 2 == 0
  {
    var q, rem := num / den, num % den;
    assert r0: q * den - num == -rem;
    assert r1: (q + 1) * den - num == den - rem;
    if 2 * rem < den then q
    else if 2 * rem > den then q + 1
    else if q % 2 == 0 then q
    else q + 1
  }

  /** The nearest integer, ties to even, is unique. */
  lemma RoundHalfEvenUnique(num: int, den: int, r: int)
    requires den > 0
    requires -den <= 2 * (r * den - num) <= den
    requires 2 * (r * den - num) == den || 2 * (r * den - num) == -den ==> r % 2 == 0
    ensures r == RoundHalfEven(num, den)
  {
    var s := RoundHalfEven(num, den);
    if r < s {
      Spread(num, den, s, r);
    } else if s < r {
      Spread(num, den, r, s);
    }
  }

  /** Two integers within half a step of the same quotient are equal or straddle a tie. */
  lemma Spread(num: int, den: int, hi: int, lo: int)
    requires den > 0 && lo < hi
    requires -den <= 2 * (hi * den - num) <= den
    requires -den <= 2 * (lo * den - num) <= den
    ensures hi == lo + 1
    ensures 2 * (hi * den - num) == den && 2 * (lo * den - num) == -den
  {
    var k := hi - lo;
    assert hi * den == lo * den + den * k;
    MulAtLeast(den, k);
    if k >= 2 {
      MulAtLeast(den, k - 1);
    }
  }

  lemma MulAtLeast(den: int, k: int)
    requires den > 0 && k >= 1
    ensures den * k >= den
  {
  }

  /** The value `process_date` writes for one station and element. */
  function ElementValue(vs: seq<int>): int
  {
    if vs == [] then 0 else RoundHalfEven(Sum(vs), |vs|)
  }

  /** The rounded mean lies between the smallest and the largest value. */
  lemma ElementValueBetween(vs: seq<int>)
    requires vs != []
    ensures exists i :: 0 <= i < |vs| && vs[i] <= ElementValue(vs)
    ensures exists j :: 0 <= j < |vs| && ElementValue(vs) <= vs[j]
  {
    var r, n, total := ElementValue(vs), |vs|, Sum(vs);
    var lo := MinIndex(vs);
    var hi := MaxIndex(vs);
    SumBounds(vs, vs[lo], vs[hi]);
    assert 2 * (r * n - total) >= -n;
    AboveMin(r, n, total, vs[lo]);
    BelowMax(r, n, total, vs[hi]);
  }

  lemma {:induction false} MinIndex(vs: seq<int>) returns (i: int)
    requires vs != []
    ensures 0 <= i < |vs| && forall j :: 0 <= j < |vs| ==> vs[i] <= vs[j]
    decreases |vs|
  {
    if |vs| == 1 {
      i := 0;
    } else {
      var k := MinIndex(vs[1..]);
      i := if vs[0] <= vs[1..][k] then 0 else k + 1;
      forall j | 0 <= j < |vs|
        ensures vs[i] <= vs[j]
      {
        if j > 0 {
          assert vs[j] == vs[1..][j - 1];
        }
      }
    }
  }

  lemma {:induction false} MaxIndex(vs: seq<int>) returns (i: int)
    requires vs != []
    ensures 0 <= i < |vs| && forall j :: 0 <= j < |vs| ==> vs[j] <= vs[i]
    decreases |vs|
  {
    if |vs| == 1 {
      i := 0;
    } else {
      var k := MaxIndex(vs[1..]);
      i := if vs[0] >= vs[1..][k] then 0 else k + 1;
      forall j | 0 <= j < |vs|
        ensures vs[j] <= vs[i]
      {
        if j > 0 {
          assert vs[j] == vs[1..][j - 1];
        }
      }
    }
  }

  lemma {:induction false} SumBounds(vs: seq<int>, lo: int, hi: int)
    requires forall j :: 0 <= j < |vs| ==> lo <= vs[j] <= hi
    ensures |vs| * lo <= Sum(vs) <= |vs| * hi
    decreases |vs|
  {
    if vs != [] {
      var init := vs[..|vs| - 1];
      assert forall j :: 0 <= j < |init| ==> init[j] == vs[j];
      SumBounds(init, lo, hi);
      assert |vs| * lo == |init| * lo + lo;
      assert |vs| * hi == |init| * hi + hi;
    }
  }

  lemma AboveMin(r: int, n: int, total: int, lo: int)
    requires n > 0 && n * lo <= total && -n <= 2 * (r * n - total)
    ensures lo <= r
  {
    if r < lo {
      assert n * lo == n * r + n * (lo - r);
      MulAtLeast(n, lo - r);
    }
  }

  lemma BelowMax(r: int, n: int, total: int, hi: int)
    requires n > 0 && total <= n * hi && 2 * (r * n - total) <= n
    ensures r <= hi
  {
    if r > hi {
      assert r * n == n * hi + n * (r - hi);
      MulAtLeast(n, r - hi);
    }
  }

  /** One output row: the date, the station and one value per element. */
  datatype Row = Row(date: int, station: string, values: seq<int>)

  /** The values of one station's row on day `p`, in element order. */
  function RowValues(buf: Buffer, p: int, station: string, elements: seq<string>): (r: seq<int>)
    ensures |r| == |elements|
  {
    if elements == [] then []
    else
      var n := |elements| - 1;
      RowValues(buf, p, station, elements[..n]) + [ElementValue(Trailing(buf, p, station, elements[n], TrailingDays))]
  }

  /** The rows for day `p` of the stations `sorted`, in that order. */
  function RowsOf(buf: Buffer, p: int, sorted: seq<string>, elements: seq<string>): (r: seq<Row>)
    ensures |r| == |sorted|
  {
    if sorted == [] then []
    else
      var n := |sorted| - 1;
      RowsOf(buf, p, sorted[..n], elements) + [Row(p, sorted[n], RowValues(buf, p, sorted[n], elements))]
  }

  /** The rows `process_date` writes for day `p`. */
  function Rows(buf: Buffer, p: int, stations: set<string>, elements: seq<string>): seq<Row>
  {
    RowsOf(buf, p, SortedStrings(stations), elements)
  }

  lemma {:induction false} RowsOfHolds(buf: Buffer, p: int, sorted: seq<string>, elements: seq<string>)
    ensures forall i :: 0 <= i < |sorted| ==>
      RowsOf(buf, p, sorted, elements)[i] == Row(p, sorted[i], RowValues(buf, p, sorted[i], elements))
  {
    if sorted != [] {
      var n := |sorted| - 1;
      RowsOfHolds(buf, p, sorted[..n], elements);
    }
  }

  /**
   * Day `p` gets exactly one row per station, in ascending station order,
   * each dated `p` with one value per element.
   */
  lemma RowsPerStation(buf: Buffer, p: int, stations: set<string>, elements: seq<string>)
    ensures var r := Rows(buf, p, stations, elements);
      && |r| == |stations|
      && (forall s :: s in stations <==> exists i :: 0 <= i < |r| && r[i].station == s)
      && (forall i, j :: 0 <= i < j < |r| ==> Less(r[i].station, r[j].station))
      && (forall i :: 0 <= i < |r| ==> r[i].date == p && |r[i].values| == |elements|)
  {
    var sorted := SortedStrings(stations);
    RowsOfHolds(buf, p, sorted, elements);
    var r := Rows(buf, p, stations, elements);
    assert forall s :: s in stations <==> s in sorted;
    assert forall i :: 0 <= i < |r| ==> r[i].station == sorted[i];
  }

  /** Two buffers hold the same entries for days `lo .. hi`. */
  ghost predicate AgreeOn(buf: Buffer, other: Buffer, lo: int, hi: int)
  {
    forall d :: lo <= d <= hi ==> (d in buf <==> d in other) && (d in buf ==> buf[d] == other[d])
  }

  /**
   * Rows for day `p` read nothing older than `p - 6`: buffers that agree on
   * the days `p - 6 .. p` give the same rows.
   */
  lemma RowsLocal(buf: Buffer, other: Buffer, p: int, stations: set<string>, elements: seq<string>)
    requires AgreeOn(buf, other, p - (TrailingDays - 1), p)
    ensures Rows(buf, p, stations, elements) == Rows(other, p, stations, elements)
  {
    RowsOfLocal(buf, other, p, SortedStrings(stations), elements);
  }

  lemma {:induction false} RowsOfLocal(buf: Buffer, other: Buffer, p: int, sorted: seq<string>, elements: seq<string>)
    requires AgreeOn(buf, other, p - (TrailingDays - 1), p)
    ensures RowsOf(buf, p, sorted, elements) == RowsOf(other, p, sorted, elements)
  {
    if sorted != [] {
      var n := |sorted| - 1;
      RowsOfLocal(buf, other, p, sorted[..n], elements);
      RowValuesLocal(buf, other, p, sorted[n], elements);
    }
  }

  lemma {:induction false} RowValuesLocal(buf: Buffer, other: Buffer, p: int, station: string, elements: seq<string>)
    requires AgreeOn(buf, other, p - (TrailingDays - 1), p)
    ensures RowValues(buf, p, station, elements) == RowValues(other, p, station, elements)
  {
    if elements != [] {
      var n := |elements| - 1;
      RowValuesLocal(buf, other, p, station, elements[..n]);
      forall k | 0 <= k < TrailingDays
        ensures Reading(buf, p, k, station, elements[n]) == Reading(other, p, k, station, elements[n])
      {
        assert p - (TrailingDays - 1) <= p - k <= p;
      }
      TrailingLocal(buf, other, p, station, elements[n], TrailingDays);
    }
  }

  /** Once the cursor has passed a day, deleting it changes no later row. */
  lemma DeleteOldest(buf: Buffer, day: int, p: int, stations: set<string>, elements: seq<string>)
    requires day < p - (TrailingDays - 1)
    ensures Rows(buf - {day}, p, stations, elements) == Rows(buf, p, stations, elements)
  {
    RowsLocal(buf - {day}, buf, p, stations, elements);
  }

  /** `RowValues` one element further. */
  lemma RowValuesNext(buf: Buffer, p: int, station: string, elements: seq<string>, i: int)
    requires 0 <= i < |elements|
    ensures RowValues(buf, p, station, elements[..i + 1])
         == RowValues(buf, p, station, elements[..i]) + [ElementValue(Trailing(buf, p, station, elements[i], TrailingDays))]
  {
    assert elements[..i + 1][..i] == elements[..i];
  }

  /** `RowsOf` one station further. */
  lemma RowsOfNext(buf: Buffer, p: int, sorted: seq<string>, elements: seq<string>, i: int)
    requires 0 <= i < |sorted|
    ensures RowsOf(buf, p, sorted[..i + 1], elements)
         == RowsOf(buf, p, sorted[..i], elements) + [Row(p, sorted[i], RowValues(buf, p, sorted[i], elements))]
  {
    assert sorted[..i + 1][..i] == sorted[..i];
  }

  /** The loop over `datediff` (lines 16-30 of prepare-annual-weather-data.py). */
  method ComputeElement(buf: Buffer, p: int, station: string, element: string) returns (v: int)
    ensures v == ElementValue(Trailing(buf, p, station, element, TrailingDays))
  {
    var values: seq<int> := [];
    var datediff := 0;
    while datediff < TrailingDays
      invariant 0 <= datediff <= TrailingDays
      invariant values == Trailing(buf, p, station, element, datediff)
    {
      var pick := p - datediff;
      if pick in buf && station in buf[pick] && element in buf[pick][station] {
        var value := buf[pick][station][element];
        if value != Missing {
          values := values + [value];
        }
      }
      datediff := datediff + 1;
    }
    if |values| > 0 {
      v := RoundHalfEven(Sum(values), |values|);
    } else {
      v := 0;
    }
  }

  /** The loop over the elements for one station (lines 15-30 of prepare-annual-weather-data.py). */
  method ComputeRow(buf: Buffer, p: int, station: string, elements: seq<string>) returns (values: seq<int>)
    ensures values == RowValues(buf, p, station, elements)
  {
    values := [];
    for i := 0 to |elements|
      invariant values == RowValues(buf, p, station, elements[..i])
    {
      var v := ComputeElement(buf, p, station, elements[i]);
      RowValuesNext(buf, p, station, elements, i);
      values := values + [v];
    }
    assert elements[..|elements|] == elements;
  }

  /** `process_date` without the writing: the rows for day `p` (lines 11-34 of prepare-annual-weather-data.py). */
  method ProcessDate(buf: Buffer, p: int, stations: set<string>, elements: seq<string>) returns (rows: seq<Row>)
    ensures rows == Rows(buf, p, stations, elements)
  {
    var sorted := SortedStrings(stations);
    rows := [];
    for i := 0 to |sorted|
      invariant rows == RowsOf(buf, p, sorted[..i], elements)
    {
      var values := ComputeRow(buf, p, sorted[i], elements);
      RowsOfNext(buf, p, sorted, elements, i);
      rows := rows + [Row(p, sorted[i], values)];
    }
    assert sorted[..|sorted|] == sorted;
  }
}
