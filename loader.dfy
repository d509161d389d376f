/** The table loader (`load_data`): a city's trips, annotated with the
    fields derived from the start time, then restricted to the chosen month
    and day. Reading the CSV file and parsing timestamps are outside the
    model: each row arrives with its derived month name, day name and hour. */
module Loader {
  import opened Wrappers
  import opened Text
  import opened Seqs
  import opened Filters

  type Hour = h: int | 0 <= h <= 23

  /** One trip. `month`, `day` and `hour` are what `dt.month_name()`,
      `dt.day_name()` and `dt.hour` give for its start time; `duration` is
      the trip duration in whole seconds. */
  datatype Row = Row(
    startStation: string,
    endStation: string,
    duration: int,
    userType: string,
    month: string,
    day: string,
    hour: Hour)

  /** A data frame: its column names and its rows. */
  datatype Frame = Frame(columns: set<string>, rows: seq<Row>)

  /** The data files that can be read, by file name. */
  type Store = map<string, Frame>

  /** The columns `load_data` adds. */
  const DerivedColumns: set<string> := {"month", "day_of_week", "hour"}

  /** The month filter `df['month'] == month.title()`. */
  predicate InMonth(month: string, r: Row) { r.month == Title(month) }

  /** The day filter `df['day_of_week'] == day.title()`. */
  predicate OnDay(day: string, r: Row) { r.day == Title(day) }

  /** The row condition a selection stands for; "all" switches a filter off. */
  predicate Matches(month: string, day: string, r: Row)
  {
    (month == "all" || InMonth(month, r)) && (day == "all" || OnDay(day, r))
  }

  /** The rows of a frame that a selection keeps, as one selection. */
  function Selected(rows: seq<Row>, month: string, day: string): seq<Row>
  {
    Where(rows, r => Matches(month, day, r))
  }

  /** The frame `load_data` returns when the city's file exists: its columns
      plus the derived ones, and the rows the selection keeps. */
  function Loaded(raw: Frame, month: string, day: string): Frame
  {
    Frame(raw.columns + DerivedColumns, Selected(raw.rows, month, day))
  }

  /** `load_data(city, month, day)`: read the city's file, add the derived
      columns, then filter by month unless it is "all" and by day unless it is
      "all". A missing file is the storage failure that the program does not
      recover from; it is reported with the file's name. */
  method LoadData(store: Store, city: string, month: string, day: string) returns (r: Result<Frame, string>)
    requires city in CityData
    ensures CityData[city] !in store ==> r == Failure(CityData[city])
    ensures CityData[city] in store ==>
      r == Success(Loaded(store[CityData[city]], month, day))
  {
    var file := CityData[city];
    if file !in store {
      return Failure(file);
    }
    var df := store[file];
    df := df.(columns := df.columns + DerivedColumns);
    if month != "all" {
      df := df.(rows := Where(df.rows, r => InMonth(month, r)));
    }
    if day != "all" {
      df := df.(rows := Where(df.rows, r => OnDay(day, r)));
    }
    FilterSteps(store[file].rows, month, day);
    return Success(df);
  }

  /** The two filter steps, each done only when its value is not "all",
      give the rows of the single conjunctive selection. */
  lemma FilterSteps(rows: seq<Row>, month: string, day: string)
    ensures var m := if month != "all" then Where(rows, r => InMonth(month, r)) else rows;
            (if day != "all" then Where(m, r => OnDay(day, r)) else m) == Selected(rows, month, day)
  {
    var sel := r => Matches(month, day, r);
    if month != "all" && day != "all" {
      WhereWhere(rows, r => InMonth(month, r), r => OnDay(day, r), sel);
    } else if month != "all" {
      WhereSame(rows, r => InMonth(month, r), sel);
    } else if day != "all" {
      WhereSame(rows, r => OnDay(day, r), sel);
    } else {
      WhereAll(rows, sel);
    }
  }

  /** Month "all" and day "all" keep every row, in order. */
  lemma SelectAllKeepsEverything(rows: seq<Row>)
    ensures Selected(rows, "all", "all") == rows
  {
    WhereAll(rows, r => Matches("all", "all", r));
  }

  /** The loaded rows are an order-preserving subsequence of the file's rows;
      each kept row has the requested month and day (unless "all"), and every
      row that has them is kept, as often as it occurs in the file. */
  lemma SelectedSpec(rows: seq<Row>, month: string, day: string)
    ensures IsSubsequence(Selected(rows, month, day), rows)
    ensures forall i :: 0 <= i < |Selected(rows, month, day)| ==>
      var r := Selected(rows, month, day)[i];
      (month != "all" ==> r.month == Title(month)) && (day != "all" ==> r.day == Title(day))
    ensures forall r :: Matches(month, day, r) ==> Count(Selected(rows, month, day), r) == Count(rows, r)
    ensures forall r :: !Matches(month, day, r) ==> Count(Selected(rows, month, day), r) == 0
  {
    WhereIsSubsequence(rows, r => Matches(month, day, r));
    forall r {
      WhereCount(rows, x => Matches(month, day, x), r);
    }
  }

  /** Filtering by month then by day, by day then by month, or by both at
      once keeps the same rows. */
  lemma FilterOrderIrrelevant(rows: seq<Row>, month: string, day: string)
    requires month != "all" && day != "all"
    ensures Where(Where(rows, r => InMonth(month, r)), r => OnDay(day, r)) == Selected(rows, month, day)
    ensures Where(Where(rows, r => OnDay(day, r)), r => InMonth(month, r)) == Selected(rows, month, day)
  {
    WhereWhere(rows, r => InMonth(month, r), r => OnDay(day, r), r => Matches(month, day, r));
    WhereWhere(rows, r => OnDay(day, r), r => InMonth(month, r), r => Matches(month, day, r));
  }

  /** The filter is case-insensitive in the month and day it is given: an
      accepted month is compared in title case, `"march"` against `"March"`. */
  lemma MonthFilterIsTitleCase(month: string, r: Row)
    requires IsLowerWord(month)
    ensures InMonth(month, r) <==> r.month == [UpperChar(month[0])] + month[1..]
  {
    TitleOfLowerWord(month);
  }
}
