/** Trip records after `load_data` has added the fields it derives from the start
    time, and the columns the reports read. */
module Trips {
  import opened Common

  /** One row of a city's trip table. `month`, `dayOfWeek` and `hour` are the
      fields derived from `Start Time`; `None` in `gender` or `birthYear` is a
      missing (NaN) cell. */
  datatype Trip = Trip(
    startStation: string,
    endStation: string,
    userType: string,
    duration: int,
    gender: Option<string>,
    birthYear: Option<int>,
    month: int,
    dayOfWeek: string,
    hour: int)

  /** Which of the optional columns the city's file has (`'Gender' in df`,
      `'Birth Year' in df`). */
  datatype Schema = Schema(hasGender: bool, hasBirthYear: bool)

  datatype Table = Table(schema: Schema, rows: seq<Trip>)

  /** The names `dt.day_name()` produces. */
  const WEEKDAY_NAMES: seq<string> :=
    ["Monday", "Tuesday", "Wednesday", "Thursday", "Friday", "Saturday", "Sunday"]

  /** The derived fields are in range. */
  ghost predicate DerivedInRange(t: Trip) {
    && 1 <= t.month <= 12
    && t.dayOfWeek in WEEKDAY_NAMES
    && 0 <= t.hour <= 23
  }

  /** The derived fields are in range and absent columns hold no values. */
  ghost predicate WellFormedTrip(s: Schema, t: Trip) {
    && DerivedInRange(t)
    && (!s.hasGender ==> t.gender.None?)
    && (!s.hasBirthYear ==> t.birthYear.None?)
  }

  ghost predicate WellFormed(t: Table) {
    forall x :: x in t.rows ==> WellFormedTrip(t.schema, x)
  }

  function Months(rows: seq<Trip>): (r: seq<int>)
    ensures |r| == |rows| && forall i :: 0 <= i < |rows| ==> r[i] == rows[i].month
  {
    seq(|rows|, i requires 0 <= i < |rows| => rows[i].month)
  }

  function Days(rows: seq<Trip>): (r: seq<string>)
    ensures |r| == |rows| && forall i :: 0 <= i < |rows| ==> r[i] == rows[i].dayOfWeek
  {
    seq(|rows|, i requires 0 <= i < |rows| => rows[i].dayOfWeek)
  }

  function Hours(rows: seq<Trip>): (r: seq<int>)
    ensures |r| == |rows| && forall i :: 0 <= i < |rows| ==> r[i] == rows[i].hour
  {
    seq(|rows|, i requires 0 <= i < |rows| => rows[i].hour)
  }

  function StartStations(rows: seq<Trip>): (r: seq<string>)
    ensures |r| == |rows| && forall i :: 0 <= i < |rows| ==> r[i] == rows[i].startStation
  {
    seq(|rows|, i requires 0 <= i < |rows| => rows[i].startStation)
  }

  function EndStations(rows: seq<Trip>): (r: seq<string>)
    ensures |r| == |rows| && forall i :: 0 <= i < |rows| ==> r[i] == rows[i].endStation
  {
    seq(|rows|, i requires 0 <= i < |rows| => rows[i].endStation)
  }

  /** The (start station, end station) key of each row, as `groupby` sees it. */
  function StationPairs(rows: seq<Trip>): (r: seq<(string, string)>)
    ensures |r| == |rows|
    ensures forall i :: 0 <= i < |rows| ==> r[i] == (rows[i].startStation, rows[i].endStation)
  {
    seq(|rows|, i requires 0 <= i < |rows| => (rows[i].startStation, rows[i].endStation))
  }

  function Durations(rows: seq<Trip>): (r: seq<int>)
    ensures |r| == |rows| && forall i :: 0 <= i < |rows| ==> r[i] == rows[i].duration
  {
    seq(|rows|, i requires 0 <= i < |rows| => rows[i].duration)
  }

  lemma DurationsCons(x: Trip, rows: seq<Trip>)
    ensures Durations([x] + rows) == [x.duration] + Durations(rows)
  {
  }

  function UserTypes(rows: seq<Trip>): (r: seq<string>)
    ensures |r| == |rows| && forall i :: 0 <= i < |rows| ==> r[i] == rows[i].userType
  {
    seq(|rows|, i requires 0 <= i < |rows| => rows[i].userType)
  }

  function Genders(rows: seq<Trip>): (r: seq<Option<string>>)
    ensures |r| == |rows| && forall i :: 0 <= i < |rows| ==> r[i] == rows[i].gender
  {
    seq(|rows|, i requires 0 <= i < |rows| => rows[i].gender)
  }

  function BirthYears(rows: seq<Trip>): (r: seq<Option<int>>)
    ensures |r| == |rows| && forall i :: 0 <= i < |rows| ==> r[i] == rows[i].birthYear
  {
    seq(|rows|, i requires 0 <= i < |rows| => rows[i].birthYear)
  }
}
