/** The four statistics reporters (`time_stats`, `station_stats`,
    `trip_duration_stats`, `user_stats`) as functions of the filtered frame.
    Each returns the values it would print. */
module Stats {
  import opened Wrappers
  import opened Text
  import opened Seqs
  import opened Loader

  /** `v` is a most common value of `col`: it occurs, and no value occurs
      more often. */
  ghost predicate IsMode<T(!new)>(col: seq<T>, v: T)
  {
    v in col && forall x :: Count(col, x) <= Count(col, v)
  }

  /** `below` is a strict total order: irreflexive, transitive, and any two
      different values are ordered one way or the other. */
  ghost predicate StrictTotal<T(!new)>(below: (T, T) -> bool)
  {
    (forall a :: !below(a, a)) &&
    (forall a, b, c :: below(a, b) && below(b, c) ==> below(a, c)) &&
    (forall a, b :: a != b ==> below(a, b) || below(b, a))
  }

  /** `v` is the value `mode()[0]` gives: a most common value of `col`,
      below every other most common value (pandas sorts the tied values). */
  ghost predicate IsLeastMode<T(!new)>(col: seq<T>, v: T, below: (T, T) -> bool)
  {
    IsMode(col, v) && forall w :: IsMode(col, w) ==> w == v || below(v, w)
  }

  /** A candidate occurring in `col` at least as often as every other
      candidate, and the least of those that tie with it. */
  function MostFrequentAmong<T(==,!new)>(col: seq<T>, candidates: seq<T>, below: (T, T) -> bool): (r: T)
    requires candidates != []
    ensures r in candidates
    ensures forall x :: x in candidates ==> Count(col, x) <= Count(col, r)
    ensures StrictTotal(below) ==>
      forall x :: x in candidates && Count(col, x) == Count(col, r) ==> x == r || below(r, x)
  {
    if |candidates| == 1 then candidates[0]
    else
      var best := MostFrequentAmong(col, candidates[1..], below);
      var c := candidates[0];
      if Count(col, c) > Count(col, best) || (Count(col, c) == Count(col, best) && below(c, best)) then c
      else best
  }

  /** `col.mode()[0]`, with `below` the order pandas sorts the modes by: the
      least most-common value, or None for an empty column, where indexing the
      empty result of `mode()` raises. */
  function Mode<T(==,!new)>(col: seq<T>, below: (T, T) -> bool): (r: Option<T>)
    ensures r.None? <==> col == []
    ensures r.Some? ==> IsMode(col, r.value)
    ensures r.Some? && StrictTotal(below) ==> IsLeastMode(col, r.value, below)
  {
    if col == [] then None else Some(MostFrequentAmong(col, col, below))
  }

  /** Python's `<` on the `hour` column's integers. */
  function HourLess(a: Hour, b: Hour): bool { a < b }

  lemma HourLessStrictTotal()
    ensures StrictTotal(HourLess)
  {
  }

  lemma StringOrderStrictTotal()
    ensures StrictTotal(LexLess)
  {
    forall a: string ensures !LexLess(a, a) {
      LexLessIrreflexive(a);
    }
    forall a: string, b: string, c: string | LexLess(a, b) && LexLess(b, c) ensures LexLess(a, c) {
      LexLessTransitive(a, b, c);
    }
    forall a: string, b: string | a != b ensures LexLess(a, b) || LexLess(b, a) {
      LexLessTotal(a, b);
    }
  }

  /** On a tie, `mode()[0]` is the least tied value, not the first seen:
      `pd.Series(["b", "a"]).mode()[0] == "a"`. */
  lemma ModeTieTakesLeastString()
    ensures Mode(["b", "a"], LexLess) == Some("a")
  {
    var col: seq<string> := ["b", "a"];
    assert col[1..] == ["a"];
    assert Count(col, "a") == 1 && Count(col, "b") == 1;
    assert !LexLess("b", "a");
  }

  /** The same for hours: `pd.Series([7, 3]).mode()[0] == 3`. */
  lemma ModeTieTakesLeastHour()
    ensures var col: seq<Hour> := [7, 3]; Mode(col, HourLess) == Some(3)
  {
    var col: seq<Hour> := [7, 3];
    assert col[1..] == [3];
    assert Count(col, 3) == 1 && Count(col, 7) == 1;
  }

  function MonthColumn(rows: seq<Row>): seq<string>
  {
    seq(|rows|, i requires 0 <= i < |rows| => rows[i].month)
  }

  function DayColumn(rows: seq<Row>): seq<string>
  {
    seq(|rows|, i requires 0 <= i < |rows| => rows[i].day)
  }

  function HourColumn(rows: seq<Row>): seq<Hour>
  {
    seq(|rows|, i requires 0 <= i < |rows| => rows[i].hour)
  }

  function StartColumn(rows: seq<Row>): seq<string>
  {
    seq(|rows|, i requires 0 <= i < |rows| => rows[i].startStation)
  }

  function EndColumn(rows: seq<Row>): seq<string>
  {
    seq(|rows|, i requires 0 <= i < |rows| => rows[i].endStation)
  }

  /** The `Trip Route` value of a row. */
  function Route(r: Row): string
  {
    r.startStation + " to " + r.endStation
  }

  function RouteColumn(rows: seq<Row>): seq<string>
  {
    seq(|rows|, i requires 0 <= i < |rows| => Route(rows[i]))
  }

  datatype TimeReport = TimeReport(month: string, day: string, hour: Hour)

  /** `time_stats`: the most common month, day of week and start hour. */
  function TimeStats(rows: seq<Row>): (r: Option<TimeReport>)
    ensures r.None? <==> rows == []
    ensures r.Some? ==> IsLeastMode(MonthColumn(rows), r.value.month, LexLess)
    ensures r.Some? ==> IsLeastMode(DayColumn(rows), r.value.day, LexLess)
    ensures r.Some? ==> IsLeastMode(HourColumn(rows), r.value.hour, HourLess)
  {
    if rows == [] then None
    else
      StringOrderStrictTotal();
      HourLessStrictTotal();
      Some(TimeReport(Mode(MonthColumn(rows), LexLess).value, Mode(DayColumn(rows), LexLess).value,
                      Mode(HourColumn(rows), HourLess).value))
  }

  datatype StationReport = StationReport(start: string, end: string, route: string)

  /** `station_stats`: the most common start station, end station and route. */
  function StationStats(rows: seq<Row>): (r: Option<StationReport>)
    ensures r.None? <==> rows == []
    ensures r.Some? ==> IsLeastMode(StartColumn(rows), r.value.start, LexLess)
    ensures r.Some? ==> IsLeastMode(EndColumn(rows), r.value.end, LexLess)
    ensures r.Some? ==> IsLeastMode(RouteColumn(rows), r.value.route, LexLess)
  {
    if rows == [] then None
    else
      StringOrderStrictTotal();
      Some(StationReport(Mode(StartColumn(rows), LexLess).value, Mode(EndColumn(rows), LexLess).value,
                         Mode(RouteColumn(rows), LexLess).value))
  }

  /** A route reads as its start station, " to ", and its end station. */
  lemma RouteParts(r: Row)
    ensures |Route(r)| == |r.startStation| + 4 + |r.endStation|
    ensures Route(r)[..|r.startStation|] == r.startStation
    ensures Route(r)[|r.startStation|..|r.startStation| + 4] == " to "
    ensures Route(r)[|r.startStation| + 4..] == r.endStation
  {
  }

  /** Route strings do not identify station pairs: a station name containing
      " to " makes two different trips share one route string. */
  lemma RouteCollision()
    ensures Route(Row("A to B", "C", 0, "", "", "", 0)) == Route(Row("A", "B to C", 0, "", "", "", 0))
  {
  }

  /** Number of trips from `start` to `end`. */
  function PairCount(rows: seq<Row>, start: string, end: string): nat
  {
    if rows == [] then 0
    else (if rows[0].startStation == start && rows[0].endStation == end then 1 else 0)
         + PairCount(rows[1..], start, end)
  }

  lemma {:induction false} PairCountAtMostRouteCount(rows: seq<Row>, start: string, end: string)
    ensures PairCount(rows, start, end) <= Count(RouteColumn(rows), start + " to " + end)
  {
    if rows != [] {
      PairCountAtMostRouteCount(rows[1..], start, end);
      assert RouteColumn(rows) == [Route(rows[0])] + RouteColumn(rows[1..]);
    }
  }

  /** The reported route is at least as frequent as the trips between any
      one pair of stations. */
  lemma MostCommonRouteBeatsEveryPair(rows: seq<Row>, start: string, end: string)
    requires rows != []
    ensures PairCount(rows, start, end) <= Count(RouteColumn(rows), StationStats(rows).value.route)
  {
    PairCountAtMostRouteCount(rows, start, end);
  }

  /** Sum of the trip durations. */
  function TotalDuration(rows: seq<Row>): (r: int)
    ensures (forall k :: 0 <= k < |rows| ==> rows[k].duration >= 0) ==> r >= 0
  {
    if rows == [] then 0 else rows[0].duration + TotalDuration(rows[1..])
  }

  lemma {:induction false} TotalDurationAppend(a: seq<Row>, b: seq<Row>)
    ensures TotalDuration(a + b) == TotalDuration(a) + TotalDuration(b)
  {
    if a == [] {
      assert a + b == b;
    } else {
      assert (a + b)[1..] == a[1..] + b;
      TotalDurationAppend(a[1..], b);
    }
  }

  /** Splitting the trips by any condition splits the total between the
      rows that meet it and those that do not. */
  lemma {:induction false} TotalDurationSplits(rows: seq<Row>, p: Row -> bool)
    ensures TotalDuration(Where(rows, p)) + TotalDuration(Where(rows, r => !p(r))) == TotalDuration(rows)
  {
    if rows != [] {
      TotalDurationSplits(rows[1..], p);
      var q := r => !p(r);
      assert Where(rows, p) == (if p(rows[0]) then [rows[0]] + Where(rows[1..], p) else Where(rows[1..], p));
      assert Where(rows, q) == (if q(rows[0]) then [rows[0]] + Where(rows[1..], q) else Where(rows[1..], q));
    }
  }

  /** With non-negative durations, the total bounds every trip's duration. */
  lemma {:induction false} TotalDurationBoundsEach(rows: seq<Row>, i: nat)
    requires forall k :: 0 <= k < |rows| ==> rows[k].duration >= 0
    requires i < |rows|
    ensures rows[i].duration <= TotalDuration(rows)
  {
    if i > 0 {
      TotalDurationBoundsEach(rows[1..], i - 1);
    } else {
      assert TotalDuration(rows[1..]) >= 0;
    }
  }

  /** The total travel time and the number of trips it is spread over. */
  datatype DurationReport = DurationReport(total: int, trips: nat)

  function DurationStats(rows: seq<Row>): DurationReport
  {
    DurationReport(TotalDuration(rows), |rows|)
  }

  /** The report counts every trip, and with non-negative durations its total
      is non-negative and at least each trip's duration. */
  lemma DurationStatsBounds(rows: seq<Row>)
    requires forall k :: 0 <= k < |rows| ==> rows[k].duration >= 0
    ensures DurationStats(rows).trips == |rows|
    ensures DurationStats(rows).total >= 0
    ensures forall k :: 0 <= k < |rows| ==> rows[k].duration <= DurationStats(rows).total
  {
    forall k | 0 <= k < |rows| ensures rows[k].duration <= TotalDuration(rows) {
      TotalDurationBoundsEach(rows, k);
    }
  }

  /** Three trips of 600, 300 and 900 seconds take 1800 seconds in total. */
  lemma DurationStatsExample(a: Row, b: Row, c: Row)
    requires a.duration == 600 && b.duration == 300 && c.duration == 900
    ensures DurationStats([a, b, c]) == DurationReport(1800, 3)
  {
    assert [a, b, c][1..] == [b, c] && [b, c][1..] == [c] && [c][1..] == [];
    assert TotalDuration([c]) == 900;
    assert TotalDuration([b, c]) == 1200;
  }

  /** Whether a field group's statistics are printed or replaced by the
      "not available in this data frame" notice. */
  datatype Section = Shown | NotAvailable

  datatype UserReport = UserReport(gender: Section, birthYear: Section)

  /** `user_stats`: the user-type counts are always printed; the gender and
      birth-year groups only when the frame has the column. */
  function UserStats(f: Frame): (r: UserReport)
    ensures r.gender == Shown <==> "Gender" in f.columns
    ensures r.birthYear == Shown <==> "Birth Year" in f.columns
  {
    UserReport(if "Gender" in f.columns then Shown else NotAvailable,
               if "Birth Year" in f.columns then Shown else NotAvailable)
  }

  /** With a month filter in force, the most common month of a non-empty
      frame is the requested month, in title case. */
  lemma FilteredMonthIsMostCommon(rows: seq<Row>, month: string, day: string)
    requires month != "all" && Selected(rows, month, day) != []
    ensures TimeStats(Selected(rows, month, day)).value.month == Title(month)
  {
    var kept := Selected(rows, month, day);
    var m := TimeStats(kept).value.month;
    var i :| 0 <= i < |MonthColumn(kept)| && MonthColumn(kept)[i] == m;
    assert Matches(month, day, kept[i]);
  }

  /** The same for the day filter and the most common day. */
  lemma FilteredDayIsMostCommon(rows: seq<Row>, month: string, day: string)
    requires day != "all" && Selected(rows, month, day) != []
    ensures TimeStats(Selected(rows, month, day)).value.day == Title(day)
  {
    var kept := Selected(rows, month, day);
    var d := TimeStats(kept).value.day;
    var i :| 0 <= i < |DayColumn(kept)| && DayColumn(kept)[i] == d;
    assert Matches(month, day, kept[i]);
  }

  /** The "Gender" and "Birth Year" branches depend on the city's file only:
      adding the derived columns and filtering rows never changes them. */
  lemma UserStatsIgnoresFilters(raw: Frame, month: string, day: string)
    ensures UserStats(Loaded(raw, month, day)) == UserStats(raw)
  {
  }
}
