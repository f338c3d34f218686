/** The selector tables of `get_filters` and the resolution of a selector into a
    filter value. */
module Selectors {
  import opened Common
  import opened Trips

  /** City name to the CSV file `load_data` reads. */
  const CITY_DATA: map<string, string> :=
    map["chicago" := "chicago.csv", "new york city" := "new_york_city.csv", "washington" := "washington.csv"]

  /** The month tokens and their month numbers; "all" is the wildcard. */
  const MONTH_DATA: map<string, int> :=
    map["jan" := 1, "feb" := 2, "mar" := 3, "apr" := 4, "may" := 5, "june" := 6, "all" := 7]

  /** The month tokens in calendar order, as the prompt lists them. */
  const MONTH_TOKENS: seq<string> := ["jan", "feb", "mar", "apr", "may", "june"]

  const DAY_LIST: seq<string> :=
    ["all", "monday", "tuesday", "wednesday", "thursday", "friday", "saturday", "sunday"]

  /** The loop conditions of `get_filters`: a selector is accepted once it is one of these. */
  predicate ValidCity(city: string) {
    city in CITY_DATA
  }

  predicate ValidMonth(month: string) {
    month in MONTH_DATA
  }

  predicate ValidDay(day: string) {
    day in DAY_LIST
  }

  /** `sub` occurs in `s` starting at position `j`. */
  predicate OccursAt(s: string, sub: string, j: int) {
    0 <= j && j + |sub| <= |s| && s[j..j + |sub|] == sub
  }

  /** `CITY_DATA[city]` (line 61): the file of a known city; `None` stands for the
      KeyError of any other name, which is case-sensitive. */
  function CityFile(city: string): (r: Option<string>)
    ensures r.Some? <==> ValidCity(city)
    ensures r.Some? ==> r.value == CITY_DATA[city]
  {
    if city in CITY_DATA then Some(CITY_DATA[city]) else None
  }

  /** The three cities, in lower case only: `get_filters` lower-cases its input
      before it checks it. */
  lemma KnownCities()
    ensures forall c :: ValidCity(c) <==> c == "chicago" || c == "new york city" || c == "washington"
    ensures CityFile("chicago") == Some("chicago.csv")
    ensures CityFile("new york city") == Some("new_york_city.csv")
    ensures CityFile("washington") == Some("washington.csv")
    ensures CityFile("Chicago") == None
  {
  }

  /** Each known city reads a file of its own: no two cities share one. */
  lemma CityFilesDistinct(a: string, b: string)
    requires ValidCity(a) && ValidCity(b) && a != b
    ensures CityFile(a) != CityFile(b)
  {
  }

  /** The lists the prompts print (line 9-10) against what the loops accept: every
      month token offered is accepted, but five of the day tokens offered are not. */
  lemma PromptListsAgainstValidators()
    ensures forall m :: m in ["jan", "feb", "mar", "apr", "may", "june", "all"] <==> ValidMonth(m)
    ensures forall d :: d in ["sun", "mon", "tue", "wed", "thu"] ==> !ValidDay(d)
    ensures ValidDay("friday") && ValidDay("saturday") && ValidDay("all")
  {
  }

  /** Python's `s.index(sub)`: the lowest position at which `sub` occurs in `s`;
      `None` stands for the ValueError it raises when there is none. */
  function Index(s: string, sub: string): (r: Option<nat>)
    ensures r.Some? ==> OccursAt(s, sub, r.value)
    ensures r.Some? ==> forall j :: 0 <= j < r.value ==> !OccursAt(s, sub, j)
    ensures r.None? ==> forall j :: !OccursAt(s, sub, j)
  {
    IndexFrom(s, sub, 0)
  }

  function IndexFrom(s: string, sub: string, i: nat): (r: Option<nat>)
    requires forall j :: 0 <= j < i ==> !OccursAt(s, sub, j)
    ensures r.Some? ==> i <= r.value && OccursAt(s, sub, r.value)
    ensures r.Some? ==> forall j :: 0 <= j < r.value ==> !OccursAt(s, sub, j)
    ensures r.None? ==> forall j :: !OccursAt(s, sub, j)
    decreases |s| - i
  {
    if i + |sub| > |s| then None
    else if s[i..i + |sub|] == sub then Some(i)
    else IndexFrom(s, sub, i + 1)
  }

  /** Line 72 as written: `month.index(month) + 1`, the position of the selector
      inside itself. */
  function ResolveMonthAsWritten(month: string): Option<int> {
    match Index(month, month)
    case Some(i) => Some(i + 1)
    case None => None
  }

  /** A string occurs in itself first at position 0, so every selector resolves to January. */
  lemma AsWrittenAlwaysJanuary(month: string)
    ensures ResolveMonthAsWritten(month) == Some(1)
  {
    assert month[0..|month|] == month;
  }

  /** The intended resolution: the selector's entry in MONTH_DATA; `None` stands for
      the KeyError of a token that is not a key. */
  function ResolveMonth(month: string): (r: Option<int>)
    ensures r.Some? <==> ValidMonth(month)
    ensures r.Some? && month != "all" ==> 1 <= r.value <= 6
  {
    if month in MONTH_DATA then Some(MONTH_DATA[month]) else None
  }

  /** The intended resolution is positional: the k-th month token (from 1) resolves to k,
      and the tokens accepted besides "all" are exactly those six. */
  lemma ResolveMonthPositional()
    ensures forall k :: 0 <= k < |MONTH_TOKENS| ==> ResolveMonth(MONTH_TOKENS[k]) == Some(k + 1)
    ensures forall m :: ValidMonth(m) && m != "all" <==> m in MONTH_TOKENS
  {
  }

  /** The February selector: the intended filter value is 2, the written one 1. */
  lemma FebruaryResolution()
    ensures ResolveMonth("feb") == Some(2)
    ensures ResolveMonthAsWritten("feb") == Some(1)
  {
    AsWrittenAlwaysJanuary("feb");
  }

  function IsUpper(c: char): bool { 'A' <= c <= 'Z' }
  function IsLower(c: char): bool { 'a' <= c <= 'z' }
  function ToUpper(c: char): char { if IsLower(c) then (c as int - 32) as char else c }
  function ToLower(c: char): char { if IsUpper(c) then (c as int + 32) as char else c }

  /** Python's `str.title()` on ASCII text: a letter is upper-cased when it does not
      follow a letter and lower-cased when it does. */
  function Title(s: string): (r: string)
    ensures |r| == |s|
  {
    TitleAfter(s, false)
  }

  function TitleAfter(s: string, afterLetter: bool): (r: string)
    ensures |r| == |s|
  {
    if s == [] then []
    else
      var c := s[0];
      var isLetter := IsUpper(c) || IsLower(c);
      [if !isLetter then c else if afterLetter then ToLower(c) else ToUpper(c)]
        + TitleAfter(s[1..], isLetter)
  }

  predicate AllLetters(s: string) {
    forall i :: 0 <= i < |s| ==> IsUpper(s[i]) || IsLower(s[i])
  }

  function LowerAll(s: string): (r: string)
    ensures |r| == |s| && forall i :: 0 <= i < |s| ==> r[i] == ToLower(s[i])
  {
    seq(|s|, i requires 0 <= i < |s| => ToLower(s[i]))
  }

  lemma {:induction false} TitleAfterLetters(s: string)
    requires AllLetters(s)
    ensures TitleAfter(s, true) == LowerAll(s)
  {
    if s != [] {
      TitleAfterLetters(s[1..]);
    }
  }

  /** A single word of letters comes out with its first letter upper-case and the
      rest lower-case. */
  lemma TitleOfWord(w: string)
    requires |w| > 0 && AllLetters(w)
    ensures Title(w) == [ToUpper(w[0])] + LowerAll(w[1..])
  {
    TitleAfterLetters(w[1..]);
  }

  /** `title()` does not depend on the case of its input. */
  lemma {:induction false} TitleIgnoresCase(s: string, afterLetter: bool)
    ensures TitleAfter(LowerAll(s), afterLetter) == TitleAfter(s, afterLetter)
  {
    if s != [] {
      assert LowerAll(s)[1..] == LowerAll(s[1..]);
      TitleIgnoresCase(s[1..], IsUpper(s[0]) || IsLower(s[0]));
    }
  }

  lemma LowerAllOfLowercase(s: string)
    requires forall i :: 0 <= i < |s| ==> IsLower(s[i])
    ensures LowerAll(s) == s
  {
  }

  /** A lower-case weekday selector title-cases to the capitalised name. */
  lemma TitleOfLowerWord(w: string)
    requires |w| > 0 && forall i :: 0 <= i < |w| ==> IsLower(w[i])
    ensures Title(w) == [ToUpper(w[0])] + w[1..]
  {
    TitleOfWord(w);
    LowerAllOfLowercase(w[1..]);
  }

  /** The k-th weekday selector of DAY_LIST title-cases to the k-th weekday name. */
  lemma DayTitle(k: nat)
    requires 1 <= k < |DAY_LIST|
    ensures Title(DAY_LIST[k]) == WEEKDAY_NAMES[k - 1]
  {
    var w := DAY_LIST[k];
    TitleOfLowerWord(w);
    assert ToUpper(w[0]) == WEEKDAY_NAMES[k - 1][0];
    assert w[1..] == WEEKDAY_NAMES[k - 1][1..];
  }

  /** Every weekday selector that passes the day check title-cases to a name that
      `day_name()` produces. */
  lemma DaySelectorsMatchWeekdayNames(d: string)
    requires ValidDay(d) && d != "all"
    ensures Title(d) in WEEKDAY_NAMES
  {
    var k :| 0 <= k < |DAY_LIST| && DAY_LIST[k] == d;
    DayTitle(k);
  }
}
