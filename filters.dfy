/** The filter selector (`get_filters`): three prompts, each repeated until
    the lower-cased answer is in a fixed set. Console input is a scripted
    sequence of answers read from a position onwards. */
module Filters {
  import opened Wrappers
  import opened Text

  /** `CITY_DATA`: the three cities and their data files. */
  const CityData: map<string, string> :=
    map["chicago" := "chicago.csv",
        "new york city" := "new_york_city.csv",
        "washington" := "washington.csv"]

  const MonthChoices: set<string> :=
    {"january", "february", "march", "april", "may", "june", "all"}

  const DayChoices: set<string> :=
    {"sunday", "monday", "tuesday", "wednesday", "thursday", "friday", "saturday", "all"}

  /** Whether one typed answer is accepted by a prompt whose allowed set is
      `allowed`: the answer is lower-cased and looked up. */
  predicate Accepts(allowed: set<string>, answer: string)
  {
    Lower(answer) in allowed
  }

  predicate AcceptsCity(answer: string) { Accepts(CityData.Keys, answer) }

  predicate AcceptsMonth(answer: string) { Accepts(MonthChoices, answer) }

  predicate AcceptsDay(answer: string) { Accepts(DayChoices, answer) }

  /** A city is accepted exactly when it is one of the three names in any
      mixture of cases. */
  lemma AcceptsCityExactly(answer: string)
    ensures AcceptsCity(answer) <==>
      SameUpToCase(answer, "chicago") || SameUpToCase(answer, "new york city") || SameUpToCase(answer, "washington")
  {
    assert CityData.Keys == {"chicago", "new york city", "washington"};
    LowerIsCaseInsensitiveMatch(answer, "chicago");
    LowerIsCaseInsensitiveMatch(answer, "new york city");
    LowerIsCaseInsensitiveMatch(answer, "washington");
  }

  /** Position of the first answer at or after `from` that the prompt
      accepts; None when the script runs out first (`input()` would then
      raise EOFError). */
  function FirstAccepted(allowed: set<string>, answers: seq<string>, from: nat): (r: Option<nat>)
    decreases |answers| - from
    ensures r.Some? ==> from <= r.value < |answers| && Accepts(allowed, answers[r.value])
    ensures r.Some? ==> forall j :: from <= j < r.value ==> !Accepts(allowed, answers[j])
    ensures r.None? ==> forall j :: from <= j < |answers| ==> !Accepts(allowed, answers[j])
  {
    if from >= |answers| then None
    else if Accepts(allowed, answers[from]) then Some(from)
    else FirstAccepted(allowed, answers, from + 1)
  }

  /** One `while True: x = input().lower(); if x in allowed: break` loop. */
  method Prompt(allowed: set<string>, answers: seq<string>, from: nat) returns (r: Option<nat>)
    ensures r == FirstAccepted(allowed, answers, from)
  {
    var i := from;
    while i < |answers|
      invariant from <= i
      invariant FirstAccepted(allowed, answers, from) == FirstAccepted(allowed, answers, i)
      decreases |answers| - i
    {
      var answer := Lower(answers[i]);
      if answer in allowed {
        return Some(i);
      }
      i := i + 1;
    }
    return None;
  }

  /** The triple `get_filters` returns, already lower-cased. */
  datatype Selection = Selection(city: string, month: string, day: string)

  predicate ValidSelection(s: Selection)
  {
    s.city in CityData && s.month in MonthChoices && s.day in DayChoices
  }

  /** A value obtained from the script, and the position of the next
      unread answer. */
  datatype Read<T> = Read(value: T, next: nat)

  /** City, then month, then day, each the first accepted answer after the
      previous one. */
  function SelectFilters(answers: seq<string>, from: nat): (r: Option<Read<Selection>>)
    ensures r.Some? ==> ValidSelection(r.value.value) && from + 3 <= r.value.next <= |answers|
  {
    match FirstAccepted(CityData.Keys, answers, from)
    case None => None
    case Some(i) =>
      match FirstAccepted(MonthChoices, answers, i + 1)
      case None => None
      case Some(j) =>
        match FirstAccepted(DayChoices, answers, j + 1)
        case None => None
        case Some(k) =>
          Some(Read(Selection(Lower(answers[i]), Lower(answers[j]), Lower(answers[k])), k + 1))
  }

  /** The three answers a session's selection is made of: the first
      accepted city answer at or after `from`, the first accepted month answer
      after it and the first accepted day answer after that, every answer
      skipped on the way having been rejected by its prompt. */
  predicate ChosenAt(answers: seq<string>, from: nat, i: nat, j: nat, k: nat)
  {
    from <= i < j < k < |answers| &&
    AcceptsCity(answers[i]) && AcceptsMonth(answers[j]) && AcceptsDay(answers[k]) &&
    (forall n :: from <= n < i ==> !AcceptsCity(answers[n])) &&
    (forall n :: i < n < j ==> !AcceptsMonth(answers[n])) &&
    (forall n :: j < n < k ==> !AcceptsDay(answers[n]))
  }

  /** Every selection comes from such positions ... */
  lemma SelectFiltersIsChosen(answers: seq<string>, from: nat)
    requires SelectFilters(answers, from).Some?
    ensures exists i: nat, j: nat ::
      (var k := SelectFilters(answers, from).value.next - 1;
       ChosenAt(answers, from, i, j, k) &&
       SelectFilters(answers, from).value.value == Selection(Lower(answers[i]), Lower(answers[j]), Lower(answers[k])))
  {
    var i := FirstAccepted(CityData.Keys, answers, from).value;
    var j := FirstAccepted(MonthChoices, answers, i + 1).value;
    var k := FirstAccepted(DayChoices, answers, j + 1).value;
    assert SelectFilters(answers, from).value ==
      Read(Selection(Lower(answers[i]), Lower(answers[j]), Lower(answers[k])), k + 1);
    assert ChosenAt(answers, from, i, j, k);
  }

  /** ... and such positions always yield that selection. */
  lemma {:induction false} ChosenIsSelected(answers: seq<string>, from: nat, i: nat, j: nat, k: nat)
    requires ChosenAt(answers, from, i, j, k)
    ensures SelectFilters(answers, from) ==
      Some(Read(Selection(Lower(answers[i]), Lower(answers[j]), Lower(answers[k])), k + 1))
  {
    FirstAcceptedAt(CityData.Keys, answers, from, i);
    FirstAcceptedAt(MonthChoices, answers, i + 1, j);
    FirstAcceptedAt(DayChoices, answers, j + 1, k);
  }

  lemma {:induction false} FirstAcceptedAt(allowed: set<string>, answers: seq<string>, from: nat, i: nat)
    requires from <= i < |answers| && Accepts(allowed, answers[i])
    requires forall n :: from <= n < i ==> !Accepts(allowed, answers[n])
    ensures FirstAccepted(allowed, answers, from) == Some(i)
    decreases i - from
  {
    if from < i {
      FirstAcceptedAt(allowed, answers, from + 1, i);
    }
  }

  /** The returned city, month and day each pass their own validator again:
      they are already lower-cased. */
  lemma SelectionPassesValidators(answers: seq<string>, from: nat)
    requires SelectFilters(answers, from).Some?
    ensures var s := SelectFilters(answers, from).value.value;
      AcceptsCity(s.city) && AcceptsMonth(s.month) && AcceptsDay(s.day)
  {
    var s := SelectFilters(answers, from).value.value;
    LowerNormalises(s.city);
    LowerNormalises(s.month);
    LowerNormalises(s.day);
    assert Lower(s.city) == s.city by {
      var i := FirstAccepted(CityData.Keys, answers, from).value;
      LowerNormalises(answers[i]);
    }
    assert Lower(s.month) == s.month by {
      var i := FirstAccepted(CityData.Keys, answers, from).value;
      var j := FirstAccepted(MonthChoices, answers, i + 1).value;
      LowerNormalises(answers[j]);
    }
    assert Lower(s.day) == s.day by {
      var i := FirstAccepted(CityData.Keys, answers, from).value;
      var j := FirstAccepted(MonthChoices, answers, i + 1).value;
      var k := FirstAccepted(DayChoices, answers, j + 1).value;
      LowerNormalises(answers[k]);
    }
  }

  /** `get_filters()`. */
  method GetFilters(answers: seq<string>, from: nat) returns (r: Option<Read<Selection>>)
    ensures r == SelectFilters(answers, from)
    ensures r.Some? ==> ValidSelection(r.value.value)
  {
    var i := Prompt(CityData.Keys, answers, from);
    if i.None? {
      return None;
    }
    var city := Lower(answers[i.value]);
    var j := Prompt(MonthChoices, answers, i.value + 1);
    if j.None? {
      return None;
    }
    var month := Lower(answers[j.value]);
    var k := Prompt(DayChoices, answers, j.value + 1);
    if k.None? {
      return None;
    }
    var day := Lower(answers[k.value]);
    return Some(Read(Selection(city, month, day), k.value + 1));
  }
}
