/** The four statistic groups of `time_stats`, `station_stats`,
    `trip_duration_stats` and `user_stats`, each a read-only pass over the
    filtered rows. Printing and timing are not modelled; each group returns
    what it prints. */
module Reports {
  import opened Common
  import opened Order
  import opened Stats
  import opened Trips
  import opened Loader

  /** `mode()[0]` on an empty column raises: the report cannot be produced. */
  datatype StatError = EmptyColumn

  datatype TimeReport = TimeReport(commonMonth: int, commonDay: string, commonHour: int)

  /** `time_stats` (lines 82-99): the modes of month, weekday and start hour. */
  function TimeStats(rows: seq<Trip>): (r: Result<TimeReport, StatError>)
    ensures r.Failure? <==> rows == []
    ensures r.Success? ==>
      && IsLeastMode(Months(rows), IntLe, r.value.commonMonth)
      && IsLeastMode(Days(rows), StrLe, r.value.commonDay)
      && IsLeastMode(Hours(rows), IntLe, r.value.commonHour)
    ensures r.Success? && (forall x :: x in rows ==> DerivedInRange(x)) ==>
      && 1 <= r.value.commonMonth <= 12
      && r.value.commonDay in WEEKDAY_NAMES
      && 0 <= r.value.commonHour <= 23
  {
    if rows == [] then Failure(EmptyColumn)
    else
      IntLeTotalOrder();
      StrLeTotalOrder();
      var m, d, h := Mode(Months(rows), IntLe), Mode(Days(rows), StrLe), Mode(Hours(rows), IntLe);
      DerivedModesInRange(rows, m, d, h);
      Success(TimeReport(m, d, h))
  }

  lemma DerivedModesInRange(rows: seq<Trip>, m: int, d: string, h: int)
    requires m in Months(rows) && d in Days(rows) && h in Hours(rows)
    ensures (forall x :: x in rows ==> DerivedInRange(x)) ==>
      1 <= m <= 12 && d in WEEKDAY_NAMES && 0 <= h <= 23
  {
    if forall x :: x in rows ==> DerivedInRange(x) {
      var i :| 0 <= i < |rows| && Months(rows)[i] == m;
      var j :| 0 <= j < |rows| && Days(rows)[j] == d;
      var k :| 0 <= k < |rows| && Hours(rows)[k] == h;
      assert DerivedInRange(rows[i]) && DerivedInRange(rows[j]) && DerivedInRange(rows[k]);
    }
  }

  /** The most frequent (start, end) combination with its count, as
      `groupby([...]).size().sort_values(ascending=False).head(1)`; `head(1)` of an
      empty grouping is empty. Ties are broken by the pair order here, but only
      maximality is promised. */
  function TopPair(rows: seq<Trip>): (r: Option<((string, string), nat)>)
    ensures r.None? <==> rows == []
    ensures r.Some? ==> r.value.1 == Count(StationPairs(rows), r.value.0) && r.value.1 > 0
    ensures r.Some? ==> forall p :: Count(StationPairs(rows), p) <= r.value.1
  {
    if rows == [] then None
    else
      PairLeTotalOrder();
      var p := Mode(StationPairs(rows), PairLe);
      Some((p, Count(StationPairs(rows), p)))
  }

  /** The size of a group of `groupby(['Start Station', 'End Station'])` is the
      number of rows with exactly that start and that end. */
  lemma {:induction false} GroupSize(rows: seq<Trip>, start: string, end: string)
    ensures |Where(rows, (x: Trip) => x.startStation == start && x.endStation == end)|
         == Count(StationPairs(rows), (start, end))
  {
    if rows != [] {
      assert StationPairs(rows)[1..] == StationPairs(rows[1..]);
      GroupSize(rows[1..], start, end);
    }
  }

  /** (S1,E1), (S1,E1), (S1,E2): the top combination is (S1,E1), twice. */
  lemma TopPairExample(a: Trip, b: Trip, c: Trip)
    requires a.startStation == b.startStation == c.startStation == "S1"
    requires a.endStation == b.endStation == "E1" && c.endStation == "E2"
    ensures TopPair([a, b, c]) == Some((("S1", "E1"), 2))
  {
    var pairs := StationPairs([a, b, c]);
    assert pairs == [("S1", "E1"), ("S1", "E1"), ("S1", "E2")];
    var r := TopPair([a, b, c]).value;
    assert Count(pairs, ("S1", "E1")) == 2;
    assert r.0 in pairs;
  }

  datatype StationReport = StationReport(
    commonStart: string, commonEnd: string, topPair: (string, string), topPairCount: nat)

  /** `station_stats` (lines 102-122): the modes of start and end station and the
      most frequent combination of the two. */
  function StationStats(rows: seq<Trip>): (r: Result<StationReport, StatError>)
    ensures r.Failure? <==> rows == []
    ensures r.Success? ==>
      && IsLeastMode(StartStations(rows), StrLe, r.value.commonStart)
      && IsLeastMode(EndStations(rows), StrLe, r.value.commonEnd)
      && r.value.topPairCount == Count(StationPairs(rows), r.value.topPair) > 0
      && forall p :: Count(StationPairs(rows), p) <= r.value.topPairCount
  {
    if rows == [] then Failure(EmptyColumn)
    else
      StrLeTotalOrder();
      var top := TopPair(rows).value;
      Success(StationReport(Mode(StartStations(rows), StrLe), Mode(EndStations(rows), StrLe), top.0, top.1))
  }

  datatype DurationReport = DurationReport(total: int, mean: Option<real>)

  /** `trip_duration_stats` (lines 125-139): the total and the mean trip duration;
      the mean of no rows is NaN in pandas, `None` here. */
  function TripDurationStats(rows: seq<Trip>): (r: DurationReport)
    ensures r.total == Sum(Durations(rows))
    ensures r.mean.Some? <==> rows != []
    ensures r.mean.Some? ==> r.mean.value * |rows| as real == r.total as real
    ensures (forall x :: x in rows ==> x.duration >= 0) ==>
      r.total >= 0 && forall x :: x in rows ==> x.duration <= r.total
  {
    var ds := Durations(rows);
    DurationsBounded(rows);
    DurationReport(Sum(ds), Mean(ds))
  }

  lemma DurationsBounded(rows: seq<Trip>)
    ensures (forall x :: x in rows ==> x.duration >= 0) ==>
      Sum(Durations(rows)) >= 0 && forall x :: x in rows ==> x.duration <= Sum(Durations(rows))
  {
    var ds := Durations(rows);
    if forall x :: x in rows ==> x.duration >= 0 {
      SumBounds(ds);
      assert forall x :: x in rows ==> exists i :: 0 <= i < |rows| && ds[i] == x.duration;
    }
  }

  /** The total duration of a table is the total of the rows a mask keeps plus the
      total of the rows its complement keeps. */
  lemma {:induction false} TotalDurationPartition(rows: seq<Trip>, keep: Trip -> bool, drop: Trip -> bool)
    requires forall x :: drop(x) <==> !keep(x)
    ensures TripDurationStats(rows).total
         == TripDurationStats(Where(rows, keep)).total + TripDurationStats(Where(rows, drop)).total
  {
    if rows != [] {
      var x, rest := rows[0], rows[1..];
      TotalDurationPartition(rest, keep, drop);
      assert rows == [x] + rest;
      DurationsCons(x, rest);
      WhereCons(x, rest, keep);
      WhereCons(x, rest, drop);
      if keep(x) {
        DurationsCons(x, Where(rest, keep));
      } else {
        DurationsCons(x, Where(rest, drop));
      }
    }
  }

  /** The durations 100, 200 and 300 seconds total 600 with mean 200. */
  lemma DurationStatsExample(a: Trip, b: Trip, c: Trip)
    requires a.duration == 100 && b.duration == 200 && c.duration == 300
    ensures TripDurationStats([a, b, c]) == DurationReport(600, Some(200.0))
  {
    assert Durations([a, b, c]) == [100, 200, 300];
    DurationExample();
  }

  /** The statistics of an optional column: absent from the city's file, or computed. */
  datatype Availability<T> = Unavailable | Available(value: T)

  datatype BirthYearReport = BirthYearReport(recent: int, common: int, earliest: int)

  datatype UserReport = UserReport(
    userTypes: map<string, nat>,
    genders: Availability<map<string, nat>>,
    birthYears: Availability<BirthYearReport>)

  /** `user_stats` (lines 143-179): the user-type counts; the gender counts when the
      city has that column; the latest, most common and earliest birth year when it
      has that one. Missing cells are dropped first. `mode()[0]` of a birth-year
      column with no values raises. */
  function UserStats(t: Table): (r: Result<UserReport, StatError>)
    ensures r.Failure? <==> t.schema.hasBirthYear && Present(BirthYears(t.rows)) == []
    ensures r.Success? ==>
      && (forall u :: u in r.value.userTypes <==> u in UserTypes(t.rows))
      && (forall u :: u in r.value.userTypes ==> r.value.userTypes[u] == Count(UserTypes(t.rows), u))
      && Total(r.value.userTypes) == |t.rows|
    ensures r.Success? ==> (r.value.genders.Unavailable? <==> !t.schema.hasGender)
    ensures r.Success? && r.value.genders.Available? ==>
      var g := r.value.genders.value;
      && (forall v :: v in g <==> Some(v) in Genders(t.rows))
      && (forall v :: v in g ==> g[v] == Count(Genders(t.rows), Some(v)))
    ensures r.Success? ==> (r.value.birthYears.Unavailable? <==> !t.schema.hasBirthYear)
    ensures r.Success? && r.value.birthYears.Available? ==>
      var b, ys := r.value.birthYears.value, Present(BirthYears(t.rows));
      && b.earliest <= b.common <= b.recent
      && b.earliest in ys && b.recent in ys
      && (forall y :: y in ys ==> b.earliest <= y <= b.recent)
      && IsLeastMode(ys, IntLe, b.common)
  {
    var ys := Present(BirthYears(t.rows));
    if t.schema.hasBirthYear && ys == [] then Failure(EmptyColumn)
    else
      FrequenciesTotal(UserTypes(t.rows));
      var genders :=
        if t.schema.hasGender then
          var gs := Present(Genders(t.rows));
          assert forall v :: v in gs <==> Some(v) in Genders(t.rows) by {
            forall v ensures v in gs <==> Some(v) in Genders(t.rows) {
              assert Count(gs, v) == Count(Genders(t.rows), Some(v));
            }
          }
          Available(Frequencies(gs))
        else Unavailable;
      var births :=
        if t.schema.hasBirthYear then
          IntLeTotalOrder();
          Available(BirthYearReport(Max(ys), Mode(ys, IntLe), Min(ys)))
        else Unavailable;
      Success(UserReport(Frequencies(UserTypes(t.rows)), genders, births))
  }

  /** A city whose file has no birth-year column reports those statistics as
      unavailable rather than failing, whatever its rows. */
  lemma NoBirthYearColumn(t: Table)
    requires !t.schema.hasBirthYear
    ensures UserStats(t).Success? && UserStats(t).value.birthYears == Unavailable
  {
  }
}
