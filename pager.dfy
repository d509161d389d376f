/** The raw-data pager (`display_raw_data`): a yes/no prompt, then the
    city's file in pages of five rows, one more page per further "yes". */
module Pager {
  import opened Wrappers
  import opened Text
  import opened Filters
  import opened Loader

  const YesNo: set<string> := {"yes", "no"}

  function Min(a: int, b: int): int { if a <= b then a else b }

  /** The pages shown, and the position of the next unread answer. */
  datatype PagerRun = PagerRun(pages: seq<seq<Row>>, next: nat)

  /** `pages` shown before the run `o` of the rest of the file. */
  function Prepend(pages: seq<seq<Row>>, o: Option<PagerRun>): Option<PagerRun>
  {
    match o
    case None => None
    case Some(run) => Some(PagerRun(pages + run.pages, run.next))
  }

  lemma PrependNothing(o: Option<PagerRun>)
    ensures Prepend([], o) == o
  {
    if o.Some? {
      assert [] + o.value.pages == o.value.pages;
    }
  }

  lemma PrependTwice(a: seq<seq<Row>>, b: seq<seq<Row>>, o: Option<PagerRun>)
    ensures Prepend(a, Prepend(b, o)) == Prepend(a + b, o)
  {
    if o.Some? {
      assert a + (b + o.value.pages) == (a + b) + o.value.pages;
    }
  }

  /** The `for data in pd.read_csv(..., chunksize=5)` loop over the rows not
      yet shown: show the next page, read an answer, go on only on "yes".
      None when the script runs out before the loop ends. */
  function Paging(rest: seq<Row>, answers: seq<string>, p: nat): (r: Option<PagerRun>)
    decreases |rest|
    ensures r.Some? ==> p <= r.value.next <= |answers|
  {
    if rest == [] then (if p <= |answers| then Some(PagerRun([], p)) else None)
    else if p >= |answers| then None
    else
      var page := rest[..Min(5, |rest|)];
      if Lower(answers[p]) == "yes" then Prepend([page], Paging(rest[|page|..], answers, p + 1))
      else Some(PagerRun([page], p + 1))
  }

  /** The whole of `display_raw_data`: the first yes/no answer at or after
      `from` decides whether paging starts at all. */
  function DisplayRaw(raw: seq<Row>, answers: seq<string>, from: nat): (r: Option<PagerRun>)
    ensures r.Some? ==> from < r.value.next <= |answers|
  {
    match FirstAccepted(YesNo, answers, from)
    case None => None
    case Some(v) =>
      if Lower(answers[v]) == "yes" then Paging(raw, answers, v + 1)
      else Some(PagerRun([], v + 1))
  }

  /** Page `j` of a file: rows 5j to 5j+4, or fewer at the end. */
  function PageOf(rows: seq<Row>, j: nat): seq<Row>
    requires 5 * j < |rows|
  {
    rows[5 * j .. Min(5 * j + 5, |rows|)]
  }

  /** What a completed paging run shows: consecutive pages from the start of
      the rows, one per answer read; every answer but the last was "yes"; it
      stopped because the last answer was not "yes" or the rows ran out. */
  ghost predicate PagedBy(rest: seq<Row>, answers: seq<string>, p: nat, run: PagerRun)
  {
    var n := |run.pages|;
    run.next == p + n && p + n <= |answers| &&
    (forall j :: 0 <= j < n ==> 5 * j < |rest| && run.pages[j] == PageOf(rest, j)) &&
    (forall j :: p <= j < p + n - 1 ==> Lower(answers[j]) == "yes") &&
    (rest != [] ==> n > 0) &&
    (n > 0 ==> Lower(answers[p + n - 1]) != "yes" || |rest| <= 5 * n)
  }

  lemma PageOfTail(rest: seq<Row>, j: nat)
    requires |rest| > 5 && 5 * j < |rest| - 5
    ensures PageOf(rest[5..], j) == PageOf(rest, j + 1)
  {
  }

  /** A run shows consecutive pages from the start of the rows, one per
      answer read. */
  lemma {:induction false} PagingPages(rest: seq<Row>, answers: seq<string>, p: nat, run: PagerRun)
    requires Paging(rest, answers, p) == Some(run)
    ensures run.next == p + |run.pages|
    ensures forall j :: 0 <= j < |run.pages| ==> 5 * j < |rest| && run.pages[j] == PageOf(rest, j)
    decreases |rest|
  {
    if rest != [] && Lower(answers[p]) == "yes" {
      var page := rest[..Min(5, |rest|)];
      var tail := rest[|page|..];
      var sub := Paging(tail, answers, p + 1).value;
      PagingPages(tail, answers, p + 1, sub);
      assert run.pages == [page] + sub.pages;
      forall j | 0 < j < |run.pages|
        ensures 5 * j < |rest| && run.pages[j] == PageOf(rest, j)
      {
        PageOfTail(rest, j - 1);
      }
    }
  }

  /** Every answer read but the last was "yes"; the run stopped because the
      last one was not, or because the rows ran out. */
  lemma {:induction false} PagingAnswers(rest: seq<Row>, answers: seq<string>, p: nat, run: PagerRun)
    requires Paging(rest, answers, p) == Some(run)
    ensures p + |run.pages| <= |answers|
    ensures forall j :: p <= j < p + |run.pages| - 1 ==> Lower(answers[j]) == "yes"
    ensures rest != [] ==> |run.pages| > 0
    ensures |run.pages| > 0 ==> Lower(answers[p + |run.pages| - 1]) != "yes" || |rest| <= 5 * |run.pages|
    decreases |rest|
  {
    if rest != [] && Lower(answers[p]) == "yes" {
      var page := rest[..Min(5, |rest|)];
      var tail := rest[|page|..];
      var sub := Paging(tail, answers, p + 1).value;
      PagingAnswers(tail, answers, p + 1, sub);
      PagingPages(tail, answers, p + 1, sub);
      assert run.pages == [page] + sub.pages;
    }
  }

  lemma PagingSome(rest: seq<Row>, answers: seq<string>, p: nat, run: PagerRun)
    requires Paging(rest, answers, p) == Some(run)
    ensures PagedBy(rest, answers, p, run)
  {
    PagingPages(rest, answers, p, run);
    PagingAnswers(rest, answers, p, run);
  }

  /** The pager fails only by running out of answers: every answer left was
      "yes", and they were too few to reach the end of the rows. */
  lemma {:induction false} PagingNone(rest: seq<Row>, answers: seq<string>, p: nat)
    requires p <= |answers|
    requires Paging(rest, answers, p).None?
    ensures 5 * (|answers| - p) < |rest|
    ensures forall j :: p <= j < |answers| ==> Lower(answers[j]) == "yes"
    decreases |rest|
  {
    if p < |answers| {
      var page := rest[..Min(5, |rest|)];
      PagingNone(rest[|page|..], answers, p + 1);
    }
  }

  /** The paging loop, the file read as a position in the rows. */
  method PageRows(raw: seq<Row>, answers: seq<string>, from: nat) returns (r: Option<PagerRun>)
    requires from <= |answers|
    ensures r == Paging(raw, answers, from)
  {
    var pages: seq<seq<Row>> := [];
    var offset := 0;
    var p := from;
    assert raw[offset..] == raw;
    PrependNothing(Paging(raw, answers, from));
    while offset < |raw|
      invariant 0 <= offset <= |raw|
      invariant from <= p <= |answers|
      invariant Paging(raw, answers, from) == Prepend(pages, Paging(raw[offset..], answers, p))
      decreases |raw| - offset
    {
      var page := raw[offset..Min(offset + 5, |raw|)];
      assert page == raw[offset..][..Min(5, |raw| - offset)];
      pages := pages + [page];
      if p >= |answers| {
        return None;
      }
      var display := Lower(answers[p]);
      p := p + 1;
      if display != "yes" {
        return Some(PagerRun(pages, p));
      }
      assert raw[offset..][|page|..] == raw[offset + |page|..];
      PrependTwice(pages[..|pages| - 1], [page], Paging(raw[offset + |page|..], answers, p));
      assert pages[..|pages| - 1] + [page] == pages;
      offset := offset + |page|;
    }
    assert raw[offset..] == [];
    assert pages + [] == pages;
    return Some(PagerRun(pages, p));
  }

  /** `display_raw_data`. Its outer `while display_raw == 'yes'` loop ends
      with `break` after one pass of the paging loop, so it is an `if` here. */
  method DisplayRawData(raw: seq<Row>, answers: seq<string>, from: nat) returns (r: Option<PagerRun>)
    ensures r == DisplayRaw(raw, answers, from)
  {
    var v := Prompt(YesNo, answers, from);
    if v.None? {
      return None;
    }
    var display := Lower(answers[v.value]);
    if display == "yes" {
      r := PageRows(raw, answers, v.value + 1);
    } else {
      r := Some(PagerRun([], v.value + 1));
    }
  }

  /** The yes/no prompt lets only "yes" or "no" (in any case) through: paging
      starts on the first such answer, which is "yes", and every answer before
      it was neither. */
  lemma DisplayRawStartsOnYes(raw: seq<Row>, answers: seq<string>, from: nat)
    requires DisplayRaw(raw, answers, from).Some?
    requires DisplayRaw(raw, answers, from).value.pages != []
    ensures exists v ::
      (from <= v < |answers| && Lower(answers[v]) == "yes" &&
       (forall j :: from <= j < v ==> Lower(answers[j]) !in YesNo) &&
       PagedBy(raw, answers, v + 1, DisplayRaw(raw, answers, from).value))
  {
    var v := FirstAccepted(YesNo, answers, from).value;
    PagingSome(raw, answers, v + 1, DisplayRaw(raw, answers, from).value);
  }

  /** Conversely, when the first yes/no answer is "yes", paging starts right
      after it, and a completed run pages the file as `PagedBy` describes. */
  lemma DisplayRawOnYes(raw: seq<Row>, answers: seq<string>, from: nat, v: nat)
    requires from <= v < |answers| && Lower(answers[v]) == "yes"
    requires forall j :: from <= j < v ==> Lower(answers[j]) !in YesNo
    ensures DisplayRaw(raw, answers, from) == Paging(raw, answers, v + 1)
    ensures DisplayRaw(raw, answers, from).Some? ==>
      PagedBy(raw, answers, v + 1, DisplayRaw(raw, answers, from).value)
  {
    FirstAcceptedAt(YesNo, answers, from, v);
    if Paging(raw, answers, v + 1).Some? {
      PagingSome(raw, answers, v + 1, Paging(raw, answers, v + 1).value);
    }
  }

  /** When the first yes/no answer is "no", nothing is shown and the pager
      ends right after that answer. */
  lemma DisplayRawOnNo(raw: seq<Row>, answers: seq<string>, from: nat, v: nat)
    requires from <= v < |answers| && Lower(answers[v]) == "no"
    requires forall j :: from <= j < v ==> Lower(answers[j]) !in YesNo
    ensures DisplayRaw(raw, answers, from) == Some(PagerRun([], v + 1))
  {
    FirstAcceptedAt(YesNo, answers, from, v);
  }

  /** Without any yes/no answer left, `input()` runs out inside the
      validation loop. */
  lemma DisplayRawOnEnd(raw: seq<Row>, answers: seq<string>, from: nat)
    requires forall j :: from <= j < |answers| ==> Lower(answers[j]) !in YesNo
    ensures DisplayRaw(raw, answers, from) == None
  {
  }

  /** Answering "yes" and then "no" shows exactly the first five rows. */
  lemma YesThenNoShowsOnePage(raw: seq<Row>)
    requires |raw| >= 5
    ensures DisplayRaw(raw, ["yes", "no"], 0) == Some(PagerRun([raw[..5]], 2))
  {
    var answers := ["yes", "no"];
    assert Lower(answers[0]) == "yes";
    assert Lower(answers[1]) == "no";
    assert FirstAccepted(YesNo, answers, 0) == Some(0);
  }
}
