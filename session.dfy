/** The session loop (`main`): select filters, load the frame, run the four
    reporters, offer the raw data, then ask whether to restart. */
module Session {
  import opened Wrappers
  import opened Text
  import opened Seqs
  import opened Filters
  import opened Loader
  import opened Stats
  import opened Pager

  /** The restart test `restart.lower() != 'yes'`, negated. */
  predicate Restart(answer: string)
  {
    Lower(answer) == "yes"
  }

  /** Only "yes", in any of its eight spellings by case, restarts. */
  lemma RestartExactly(answer: string)
    ensures Restart(answer) <==> SameUpToCase(answer, "yes")
  {
    LowerIsCaseInsensitiveMatch(answer, "yes");
  }

  /** What one pass of the loop reports. */
  datatype SessionReport = SessionReport(
    selection: Selection,
    time: TimeReport,
    stations: StationReport,
    durations: DurationReport,
    users: UserReport,
    rawPages: seq<seq<Row>>)

  /** The ways the program ends that the model covers: the user declined to
      restart; the scripted input ran out (`input()` raises EOFError); the
      filtered frame was empty, so `mode()[0]` in `time_stats` raised; or a
      city's data file was missing. Rows have no missing values, so the
      crashes those cause are not among them. */
  datatype Halt = Quit | EndOfInput | NoData | MissingFile(file: string)

  /** One pass of the loop up to, not including, the restart question. */
  function OneSession(store: Store, answers: seq<string>, from: nat): (r: Result<Read<SessionReport>, Halt>)
    ensures r.Success? ==> from < r.value.next <= |answers|
  {
    match SelectFilters(answers, from)
    case None => Failure(EndOfInput)
    case Some(chosen) =>
      var file := CityData[chosen.value.city];
      if file !in store then Failure(MissingFile(file))
      else
        var df := Loaded(store[file], chosen.value.month, chosen.value.day);
        if df.rows == [] then Failure(NoData)
        else
          match DisplayRaw(store[file].rows, answers, chosen.next)
          case None => Failure(EndOfInput)
          case Some(run) =>
            Success(Read(SessionReport(chosen.value, TimeStats(df.rows).value, StationStats(df.rows).value,
                                       DurationStats(df.rows), UserStats(df), run.pages),
                         run.next))
  }

  /** The reports of the completed passes and how the program ended. */
  datatype Outcome = Outcome(sessions: seq<SessionReport>, halt: Halt)

  /** `sessions` completed before the outcome `o` of the remaining passes. */
  function Then(sessions: seq<SessionReport>, o: Outcome): Outcome
  {
    Outcome(sessions + o.sessions, o.halt)
  }

  /** The body of `main`'s loop up to the restart question. */
  method Pass(store: Store, answers: seq<string>, from: nat) returns (r: Result<Read<SessionReport>, Halt>)
    ensures r == OneSession(store, answers, from)
  {
    var chosen := GetFilters(answers, from);
    if chosen.None? {
      return Failure(EndOfInput);
    }
    var s := chosen.value.value;
    var loaded := LoadData(store, s.city, s.month, s.day);
    if loaded.Failure? {
      return Failure(MissingFile(loaded.error));
    }
    var df := loaded.value;
    if df.rows == [] {
      return Failure(NoData);
    }
    var time := TimeStats(df.rows).value;
    var stations := StationStats(df.rows).value;
    var durations := DurationStats(df.rows);
    var users := UserStats(df);
    var run := DisplayRawData(store[CityData[s.city]].rows, answers, chosen.value.next);
    if run.None? {
      return Failure(EndOfInput);
    }
    return Success(Read(SessionReport(s, time, stations, durations, users, run.value.pages), run.value.next));
  }

  /** What one pass of the loop, restart question included, leads to: the
      program stops with the outcome `tail`, or goes on at position `next`
      after a "yes" to the restart question. */
  datatype Step = Stop(tail: Outcome) | Continue(report: SessionReport, next: nat)

  /** The restart decision after a pass that ended with `r`: stop on a halt,
      on the end of the script or on an answer other than "yes"; otherwise go
      on after that answer. */
  function Next(answers: seq<string>, r: Result<Read<SessionReport>, Halt>): (st: Step)
    ensures st.Continue? <==> r.Success? && r.value.next < |answers| && Restart(answers[r.value.next])
    ensures st.Continue? ==> st == Continue(r.value.value, r.value.next + 1)
    ensures st.Stop? && r.Success? ==> st.tail.sessions == [r.value.value]
    ensures st.Stop? && r.Failure? ==> st.tail == Outcome([], r.error)
  {
    match r
    case Failure(h) => Stop(Outcome([], h))
    case Success(s) =>
      if s.next >= |answers| then Stop(Outcome([s.value], EndOfInput))
      else if !Restart(answers[s.next]) then Stop(Outcome([s.value], Quit))
      else Continue(s.value, s.next + 1)
  }

  /** The whole run from position `from` of the script. */
  function Run(store: Store, answers: seq<string>, from: nat): Outcome
    decreases |answers| - from
  {
    match Next(answers, OneSession(store, answers, from))
    case Stop(tail) => tail
    case Continue(report, next) => Then([report], Run(store, answers, next))
  }

  /** `st` is how the run from `pos` begins. */
  ghost predicate Begins(store: Store, answers: seq<string>, pos: nat, st: Step)
  {
    match st
    case Stop(tail) => Run(store, answers, pos) == tail
    case Continue(report, next) =>
      pos < next <= |answers| && Run(store, answers, pos) == Then([report], Run(store, answers, next))
  }

  lemma NextBegins(store: Store, answers: seq<string>, pos: nat)
    ensures Begins(store, answers, pos, Next(answers, OneSession(store, answers, pos)))
  {
  }

  /** One pass of `main`'s loop followed by the restart test. */
  method Iterate(store: Store, answers: seq<string>, pos: nat) returns (st: Step)
    ensures st == Next(answers, OneSession(store, answers, pos))
    ensures Begins(store, answers, pos, st)
  {
    var r := Pass(store, answers, pos);
    NextBegins(store, answers, pos);
    if r.Failure? {
      return Stop(Outcome([], r.error));
    }
    var done := r.value;
    if done.next >= |answers| {
      return Stop(Outcome([done.value], EndOfInput));
    }
    var restart := answers[done.next];
    if Lower(restart) != "yes" {
      return Stop(Outcome([done.value], Quit));
    }
    return Continue(done.value, done.next + 1);
  }

  lemma ThenTwice(a: seq<SessionReport>, b: seq<SessionReport>, o: Outcome)
    ensures Then(a, Then(b, o)) == Then(a + b, o)
  {
    assert a + (b + o.sessions) == (a + b) + o.sessions;
  }

  /** `main()`: passes until the restart answer is not "yes". */
  method MainLoop(store: Store, answers: seq<string>) returns (out: Outcome)
    ensures out == Run(store, answers, 0)
  {
    ghost var goal := Run(store, answers, 0);
    var sessions: seq<SessionReport> := [];
    var pos := 0;
    assert Then([], goal) == goal;
    while true
      invariant pos <= |answers|
      invariant goal == Then(sessions, Run(store, answers, pos))
      decreases |answers| - pos
    {
      var st := Iterate(store, answers, pos);
      if st.Stop? {
        return Then(sessions, st.tail);
      }
      ThenTwice(sessions, [st.report], Run(store, answers, st.next));
      sessions := sessions + [st.report];
      pos := st.next;
    }
  }

  /** What every completed pass satisfies: its selection passed the three
      validators, its statistics cover at least one trip, and a month or day
      filter in force is the most common month or day reported. */
  predicate Consistent(rep: SessionReport)
  {
    ValidSelection(rep.selection) && rep.durations.trips > 0 &&
    (rep.selection.month != "all" ==> rep.time.month == Title(rep.selection.month)) &&
    (rep.selection.day != "all" ==> rep.time.day == Title(rep.selection.day))
  }

  lemma OneSessionConsistent(store: Store, answers: seq<string>, from: nat)
    requires OneSession(store, answers, from).Success?
    ensures Consistent(OneSession(store, answers, from).value.value)
  {
    var chosen := SelectFilters(answers, from).value.value;
    var raw := store[CityData[chosen.city]];
    if chosen.month != "all" {
      FilteredMonthIsMostCommon(raw.rows, chosen.month, chosen.day);
    }
    if chosen.day != "all" {
      FilteredDayIsMostCommon(raw.rows, chosen.month, chosen.day);
    }
  }

  /** Every pass of a whole run is consistent. */
  lemma {:induction false} RunConsistent(store: Store, answers: seq<string>, from: nat)
    ensures forall i :: 0 <= i < |Run(store, answers, from).sessions| ==> Consistent(Run(store, answers, from).sessions[i])
    decreases |answers| - from
  {
    var r := OneSession(store, answers, from);
    var st := Next(answers, r);
    var out := Run(store, answers, from);
    if r.Success? {
      OneSessionConsistent(store, answers, from);
    }
    if st.Continue? {
      var rest := Run(store, answers, st.next).sessions;
      RunConsistent(store, answers, st.next);
      assert out.sessions == [st.report] + rest;
      forall i | 0 < i < |out.sessions| ensures Consistent(out.sessions[i]) {
        assert out.sessions[i] == rest[i - 1];
      }
    }
  }
}
