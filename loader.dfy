/** `load_data` (bikeshare_project.py:59-79) after the CSV has been read and the
    derived fields added: the optional month filter, then the optional day filter. */
module Loader {
  import opened Common
  import opened Order
  import opened Stats
  import opened Trips
  import opened Selectors

  /** `s` is `t` with some elements left out and the rest in their order. */
  ghost predicate IsSubsequence<T>(s: seq<T>, t: seq<T>)
    decreases |t|
  {
    if s == [] then true
    else if t == [] then false
    else (s[0] == t[0] && IsSubsequence(s[1..], t[1..])) || IsSubsequence(s, t[1..])
  }

  lemma {:induction false} IsSubsequenceTransitive<T>(a: seq<T>, b: seq<T>, c: seq<T>)
    requires IsSubsequence(a, b) && IsSubsequence(b, c)
    ensures IsSubsequence(a, c)
    decreases |c|
  {
    if a != [] {
      assert b != [] && c != [];
      if b[0] == c[0] && IsSubsequence(b[1..], c[1..]) {
        if a[0] == b[0] && IsSubsequence(a[1..], b[1..]) {
          IsSubsequenceTransitive(a[1..], b[1..], c[1..]);
        } else {
          IsSubsequenceTransitive(a, b[1..], c[1..]);
        }
      } else {
        IsSubsequenceTransitive(a, b, c[1..]);
      }
    }
  }

  lemma {:induction false} IsSubsequenceReflexive<T>(s: seq<T>)
    ensures IsSubsequence(s, s)
  {
    if s != [] {
      IsSubsequenceReflexive(s[1..]);
    }
  }

  /** `df[mask]`: the rows for which `keep` holds, in their order and unchanged. */
  function Where<T(!new)>(xs: seq<T>, keep: T -> bool): (r: seq<T>)
    ensures IsSubsequence(r, xs)
    ensures forall x :: Count(r, x) == if keep(x) then Count(xs, x) else 0
    ensures forall x :: x in r <==> x in xs && keep(x)
  {
    if xs == [] then []
    else if keep(xs[0]) then [xs[0]] + Where(xs[1..], keep)
    else Where(xs[1..], keep)
  }

  lemma WhereCons<T(!new)>(x: T, rest: seq<T>, keep: T -> bool)
    ensures Where([x] + rest, keep) == if keep(x) then [x] + Where(rest, keep) else Where(rest, keep)
  {
    assert ([x] + rest)[1..] == rest;
  }

  /** A mask that keeps every row keeps the table as it is. */
  lemma {:induction false} WhereAll<T(!new)>(xs: seq<T>, keep: T -> bool)
    requires forall x :: x in xs ==> keep(x)
    ensures Where(xs, keep) == xs
  {
    if xs != [] {
      WhereAll(xs[1..], keep);
    }
  }

  /** Applying the same mask twice is applying it once. */
  lemma WhereIdempotent<T(!new)>(xs: seq<T>, keep: T -> bool)
    ensures Where(Where(xs, keep), keep) == Where(xs, keep)
  {
    WhereAll(Where(xs, keep), keep);
  }

  /** The rows `load_data` keeps, given the resolved month (`None` for "all") and
      the title-cased day (`None` for "all"). */
  predicate Selected(t: Trip, month: Option<int>, day: Option<string>) {
    && (month.None? || t.month == month.value)
    && (day.None? || t.dayOfWeek == day.value)
  }

  /** The errors `load_data` can raise on a selector. */
  datatype LoadError = UnknownMonth(month: string)

  /** `load_data` with the month resolved through MONTH_DATA: the month filter (if
      `month` is not "all") and then the day filter (if `day` is not "all"). The
      result is the input's rows that both filters accept, in order and unchanged. */
  method LoadData(t: Table, month: string, day: string) returns (res: Result<Table, LoadError>)
    ensures res.Failure? <==> month != "all" && !ValidMonth(month)
    ensures res.Success? ==> res.value.schema == t.schema
    ensures res.Success? ==> IsSubsequence(res.value.rows, t.rows)
    ensures res.Success? ==>
      var m := if month == "all" then None else ResolveMonth(month);
      var d := if day == "all" then None else Some(Title(day));
      forall x :: Count(res.value.rows, x) == if Selected(x, m, d) then Count(t.rows, x) else 0
    ensures res.Success? && month != "all" ==>
      forall x :: x in res.value.rows ==> x.month == MONTH_DATA[month]
    ensures res.Success? && day != "all" ==>
      forall x :: x in res.value.rows ==> x.dayOfWeek == Title(day)
    ensures res.Success? && month == "all" && day != "all" ==>
      forall x :: x in t.rows && x.dayOfWeek == Title(day) ==> x in res.value.rows
    ensures month == "all" && day == "all" ==> res == Success(t)
    ensures res.Success? && WellFormed(t) ==> WellFormed(res.value)
  {
    var df := t.rows;
    ghost var afterMonth := df;
    var m: Option<int> := None;
    if month != "all" {
      m := ResolveMonth(month);
      if m.None? {
        return Failure(UnknownMonth(month));
      }
      var target := m.value;
      df := Where(df, (r: Trip) => r.month == target);
      afterMonth := df;
    }
    var d: Option<string> := None;
    if day != "all" {
      var name := Title(day);
      d := Some(name);
      df := Where(df, (r: Trip) => r.dayOfWeek == name);
    }
    assert IsSubsequence(afterMonth, t.rows) by {
      if month == "all" {
        IsSubsequenceReflexive(t.rows);
      }
    }
    if day != "all" {
      IsSubsequenceTransitive(df, afterMonth, t.rows);
    }
    assert forall x :: Count(df, x) == if Selected(x, m, d) then Count(t.rows, x) else 0;
    assert forall x :: x in df ==> x in t.rows;
    res := Success(Table(t.schema, df));
  }

  /** Lines 71-73 as written: the month filter with `month.index(month) + 1`. */
  function MonthFilterAsWritten(rows: seq<Trip>, month: string): (r: seq<Trip>)
    ensures month == "all" ==> r == rows
  {
    if month == "all" then rows
    else
      match ResolveMonthAsWritten(month)
      case Some(target) => Where(rows, (r: Trip) => r.month == target)
      case None => rows
  }

  /** As written, any month selector other than "all" keeps exactly the January rows. */
  lemma MonthFilterAsWrittenKeepsJanuary(rows: seq<Trip>, month: string)
    requires month != "all"
    ensures forall x :: Count(MonthFilterAsWritten(rows, month), x) == if x.month == 1 then Count(rows, x) else 0
  {
    AsWrittenAlwaysJanuary(month);
  }

  /** A February trip: the intended filter for "feb" keeps it, the written one drops it. */
  lemma FebruaryTripDroppedAsWritten(t: Trip)
    requires t.month == 2
    ensures t in Where([t], (r: Trip) => Some(r.month) == ResolveMonth("feb"))
    ensures MonthFilterAsWritten([t], "feb") == []
  {
    AsWrittenAlwaysJanuary("feb");
  }
}
