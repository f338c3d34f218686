/** The pandas Series operations the reports apply to one column:
    `mode()[0]`, `value_counts()`, `sum()`, `mean()`, `min()`, `max()`, and the
    dropping of missing values that precedes each of them. */
module Stats {
  import opened Common
  import opened Order

  /** Number of occurrences of `v` in `xs`. */
  function Count<T(==)>(xs: seq<T>, v: T): (n: nat)
    ensures n <= |xs|
    ensures n > 0 <==> v in xs
  {
    if xs == [] then 0 else (if xs[0] == v then 1 else 0) + Count(xs[1..], v)
  }

  /** `dropna()`: the present values of a column, in order. */
  function Present<T(!new)>(xs: seq<Option<T>>): (r: seq<T>)
    ensures |r| <= |xs|
    ensures forall v :: Count(r, v) == Count(xs, Some(v))
  {
    if xs == [] then []
    else if xs[0].Some? then [xs[0].value] + Present(xs[1..])
    else Present(xs[1..])
  }

  /** `m` is what `mode()[0]` returns for `xs`: a value of `xs` that occurs at least
      as often as any other, and the least in `le` among those that occur as often. */
  ghost predicate IsLeastMode<T(!new)>(xs: seq<T>, le: (T, T) -> bool, m: T) {
    && m in xs
    && (forall v :: Count(xs, v) <= Count(xs, m))
    && (forall v :: v in xs && Count(xs, v) == Count(xs, m) ==> le(m, v))
  }

  /** The best of `cands`: highest count in `xs`, least in `le` among equal counts. */
  function BestOf<T(==,!new)>(xs: seq<T>, cands: seq<T>, le: (T, T) -> bool): (r: T)
    requires |cands| > 0
    requires TotalOrder(le)
    ensures r in cands
    ensures forall v :: v in cands ==> Count(xs, v) <= Count(xs, r)
    ensures forall v :: v in cands && Count(xs, v) == Count(xs, r) ==> le(r, v)
    decreases |cands|
  {
    if |cands| == 1 then cands[0]
    else
      var c, b := cands[0], BestOf(xs, cands[1..], le);
      assert forall v :: v in cands ==> v == c || v in cands[1..];
      if Count(xs, c) > Count(xs, b) || (Count(xs, c) == Count(xs, b) && le(c, b)) then c else b
  }

  /** `Series.mode()[0]` on a column without missing values; `[0]` of an empty
      result raises, so the column must not be empty. */
  function Mode<T(==,!new)>(xs: seq<T>, le: (T, T) -> bool): (m: T)
    requires |xs| > 0
    requires TotalOrder(le)
    ensures IsLeastMode(xs, le, m)
  {
    BestOf(xs, xs, le)
  }

  /** The characterisation of the mode determines it. */
  lemma ModeUnique<T(!new)>(xs: seq<T>, le: (T, T) -> bool, m: T)
    requires TotalOrder(le)
    requires IsLeastMode(xs, le, m)
    ensures |xs| > 0 && Mode(xs, le) == m
  {
    var r := Mode(xs, le);
    assert Count(xs, r) == Count(xs, m);
    assert le(r, m) && le(m, r);
  }

  /** A tie between two values that each occur twice goes to the lesser one. */
  lemma ModeOfTie()
    ensures TotalOrder(StrLe) && Mode(["A", "A", "B", "B"], StrLe) == "A"
  {
    StrLeTotalOrder();
    var xs := ["A", "A", "B", "B"];
    var m := Mode(xs, StrLe);
    assert Count(xs, "A") == 2 && Count(xs, "B") == 2;
    assert m == "A" || m == "B";
  }

  /** `value_counts()`: each distinct value of the column mapped to its number of
      occurrences (the order of the resulting Series is not modelled). */
  function Frequencies<T(==,!new)>(xs: seq<T>): (m: map<T, nat>)
    ensures forall v :: v in m <==> v in xs
    ensures forall v :: v in m ==> m[v] == Count(xs, v)
  {
    if xs == [] then map[]
    else
      var m := Frequencies(xs[1..]);
      m[xs[0] := if xs[0] in m then m[xs[0]] + 1 else 1]
  }

  /** The sum of the counts of a frequency map. */
  ghost function Total<T>(m: map<T, nat>): nat
    decreases |m|
  {
    if m == map[] then 0
    else
      var k :| k in m;
      assert (m - {k}).Keys == m.Keys - {k};
      m[k] + Total(m - {k})
  }

  lemma {:induction false} TotalRemove<T>(m: map<T, nat>, k: T)
    requires k in m
    ensures Total(m) == m[k] + Total(m - {k})
    decreases |m|
  {
    var j :| j in m && Total(m) == m[j] + Total(m - {j});
    if j != k {
      assert (m - {j}).Keys == m.Keys - {j};
      assert (m - {k}).Keys == m.Keys - {k};
      TotalRemove(m - {j}, k);
      TotalRemove(m - {k}, j);
      assert (m - {j}) - {k} == (m - {k}) - {j};
    }
  }

  lemma TotalUpdate<T>(m: map<T, nat>, k: T, c: nat)
    ensures Total(m[k := c]) == c + Total(m - {k})
    ensures k in m ==> Total(m) == m[k] + Total(m - {k})
    ensures k !in m ==> m - {k} == m
  {
    TotalRemove(m[k := c], k);
    assert m[k := c] - {k} == m - {k};
    if k in m {
      TotalRemove(m, k);
    }
  }

  /** The counts of `value_counts()` add up to the number of rows. */
  lemma {:induction false} FrequenciesTotal<T(!new)>(xs: seq<T>)
    ensures Total(Frequencies(xs)) == |xs|
  {
    if xs != [] {
      var m := Frequencies(xs[1..]);
      FrequenciesTotal(xs[1..]);
      TotalUpdate(m, xs[0], if xs[0] in m then m[xs[0]] + 1 else 1);
    }
  }

  /** `sum()` of an integer column; the sum of no values is 0. */
  function Sum(xs: seq<int>): int {
    if xs == [] then 0 else xs[0] + Sum(xs[1..])
  }

  /** A sum of non-negative values bounds each of them. */
  lemma {:induction false} SumBounds(xs: seq<int>)
    requires forall i :: 0 <= i < |xs| ==> xs[i] >= 0
    ensures Sum(xs) >= 0
    ensures forall i :: 0 <= i < |xs| ==> xs[i] <= Sum(xs)
  {
    if xs != [] {
      SumBounds(xs[1..]);
      assert forall i :: 1 <= i < |xs| ==> xs[i] == xs[1..][i - 1];
    }
  }

  /** `mean()`: the sum divided by the number of values; pandas gives NaN for an
      empty column, here `None`. */
  function Mean(xs: seq<int>): (r: Option<real>)
    ensures r.Some? <==> |xs| > 0
    ensures r.Some? ==> r.value * |xs| as real == Sum(xs) as real
  {
    if xs == [] then None else Some(Sum(xs) as real / |xs| as real)
  }

  /** `min()` of a non-empty integer column. */
  function Min(xs: seq<int>): (r: int)
    requires |xs| > 0
    ensures r in xs
    ensures forall v :: v in xs ==> r <= v
  {
    if |xs| == 1 then xs[0]
    else
      var m := Min(xs[1..]);
      assert forall v :: v in xs ==> v == xs[0] || v in xs[1..];
      if xs[0] <= m then xs[0] else m
  }

  /** `max()` of a non-empty integer column. */
  function Max(xs: seq<int>): (r: int)
    requires |xs| > 0
    ensures r in xs
    ensures forall v :: v in xs ==> v <= r
  {
    if |xs| == 1 then xs[0]
    else
      var m := Max(xs[1..]);
      assert forall v :: v in xs ==> v == xs[0] || v in xs[1..];
      if xs[0] >= m then xs[0] else m
  }

  /** The sum and mean of the durations 100, 200 and 300 seconds. */
  lemma DurationExample()
    ensures Sum([100, 200, 300]) == 600
    ensures Mean([100, 200, 300]) == Some(200.0)
  {
  }
}
