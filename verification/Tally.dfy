/** What the probe of real tasks adds up for each run from its events. */
module Tally {
  import opened Options
  import opened Percentiles
  import opened Probe
  import opened Sequences

  /** One event; figures missing from its payload count as zero. */
  datatype Event =
    | ModelRound(runId: string, latencyMs: int, input: int, output: int, cached: int)
    | ToolCalled(runId: string, durationMs: int, outcome: string, exitCode: Option<int>)
    | RunFailed(runId: string, reason: Option<string>)

  datatype Counts = Counts(
    rounds: int,
    modelMs: int,
    toolCalls: int,
    toolMs: int,
    inputTokens: int,
    outputTokens: int,
    cachedTokens: int,
    failedCalls: int
  )

  /** `otherMs` is there for a run with both times; `failure` is what the last failure event said. */
  datatype Row = Row(status: string, execution: Option<real>, counts: Counts, failure: Option<Option<string>>,
                     otherMs: Option<int>)

  const NOTHING := Counts(0, 0, 0, 0, 0, 0, 0, 0)

  function Plus(a: Counts, b: Counts): Counts {
    Counts(a.rounds + b.rounds, a.modelMs + b.modelMs, a.toolCalls + b.toolCalls, a.toolMs + b.toolMs,
           a.inputTokens + b.inputTokens, a.outputTokens + b.outputTokens, a.cachedTokens + b.cachedTokens,
           a.failedCalls + b.failedCalls)
  }

  predicate CallFailed(outcome: string, exitCode: Option<int>) {
    outcome != "ok" || (exitCode.Some? && exitCode.value != 0)
  }

  /** What one event adds. */
  function Adds(e: Event): Counts {
    match e
    case ModelRound(_, latency, input, output, cached) => Counts(1, latency, 0, 0, input, output, cached, 0)
    case ToolCalled(_, duration, outcome, exitCode) =>
      Counts(0, 0, 1, duration, 0, 0, 0, if CallFailed(outcome, exitCode) then 1 else 0)
    case RunFailed(_, _) => NOTHING
  }

  /** What an event adds to the runs wanted. */
  function AddsTo(e: Event, wanted: set<string>): Counts {
    if e.runId in wanted then Adds(e) else NOTHING
  }

  /** The sum over the events of the runs wanted. */
  function Sum(events: seq<Event>, wanted: set<string>): Counts {
    if events == [] then NOTHING
    else
      Plus(Sum(events[..|events| - 1], wanted), AddsTo(events[|events| - 1], wanted))
  }

  function Execution(run: RunTimes): Option<real> {
    if run.started.None? || run.finished.None? then None else Some(run.finished.value - run.started.value)
  }

  function Ids(runs: seq<RunTimes>): set<string> {
    set run | run in runs :: run.id
  }

  function Fresh(run: RunTimes): Row {
    Row(run.status, Execution(run), NOTHING, None, None)
  }

  /** The last failure reason of a run. */
  function LastFailure(events: seq<Event>, id: string): Option<Option<string>> {
    if events == [] then None
    else
      match events[|events| - 1]
      case RunFailed(run, reason) => if run == id then Some(reason) else LastFailure(events[..|events| - 1], id)
      case _ => LastFailure(events[..|events| - 1], id)
  }

  /** A later run of the same id takes the place of an earlier one. */
  function LastRun(runs: seq<RunTimes>, id: string): Option<RunTimes> {
    if runs == [] then None
    else if runs[|runs| - 1].id == id then Some(runs[|runs| - 1])
    else LastRun(runs[..|runs| - 1], id)
  }

  /** The row of a run, before the remainder is worked out. */
  ghost predicate Read(row: Row, id: string, runs: seq<RunTimes>, events: seq<Event>) {
    && LastRun(runs, id).Some?
    && row.status == LastRun(runs, id).value.status && row.execution == Execution(LastRun(runs, id).value)
    && row.counts == Sum(events, {id})
    && row.failure == LastFailure(events, id)
  }

  /** Model, tool and other time make up the execution time, in whole milliseconds. */
  predicate AddsUp(row: Row) {
    match row.execution
    case None => row.otherMs.None?
    case Some(seconds) =>
      row.otherMs.Some? && row.counts.modelMs + row.counts.toolMs + row.otherMs.value == Truncate(seconds * 1000.0)
  }

  // ---- the figures, one by one ---------------------------------------------

  function Total(events: seq<Event>, id: string, figure: (Event, string) -> int): int {
    if events == [] then 0
    else Total(events[..|events| - 1], id, figure) + figure(events[|events| - 1], id)
  }

  function Round(e: Event, id: string): int {
    if e.ModelRound? && e.runId == id then 1 else 0
  }

  function RoundMs(e: Event, id: string): int {
    if e.ModelRound? && e.runId == id then e.latencyMs else 0
  }

  function Input(e: Event, id: string): int {
    if e.ModelRound? && e.runId == id then e.input else 0
  }

  function Output(e: Event, id: string): int {
    if e.ModelRound? && e.runId == id then e.output else 0
  }

  function Cached(e: Event, id: string): int {
    if e.ModelRound? && e.runId == id then e.cached else 0
  }

  function Call(e: Event, id: string): int {
    if e.ToolCalled? && e.runId == id then 1 else 0
  }

  function CallMs(e: Event, id: string): int {
    if e.ToolCalled? && e.runId == id then e.durationMs else 0
  }

  function FailedCall(e: Event, id: string): int {
    if e.ToolCalled? && e.runId == id && !(e.outcome == "ok" && (e.exitCode.None? || e.exitCode == Some(0))) then 1
    else 0
  }

  /** Every figure is the sum of its own field over the events of its kind, for this run alone. */
  ghost predicate AreFigures(c: Counts, id: string, events: seq<Event>) {
    && c.rounds == Total(events, id, Round) && c.modelMs == Total(events, id, RoundMs)
    && c.inputTokens == Total(events, id, Input) && c.outputTokens == Total(events, id, Output)
    && c.cachedTokens == Total(events, id, Cached)
    && c.toolCalls == Total(events, id, Call) && c.toolMs == Total(events, id, CallMs)
    && c.failedCalls == Total(events, id, FailedCall)
  }

  lemma {:induction false} SumsAreFigures(events: seq<Event>, id: string)
    ensures AreFigures(Sum(events, {id}), id, events)
  {
    if events != [] {
      SumsAreFigures(events[..|events| - 1], id);
    }
  }

  /** The execution time of the last run of an id, when it has both times. */
  predicate IsExecution(row: Row, id: string, runs: seq<RunTimes>) {
    && LastRun(runs, id).Some?
    && var run := LastRun(runs, id).value;
       if run.started.Some? && run.finished.Some?
       then row.execution == Some(run.finished.value - run.started.value) else row.execution == None
  }

  /** The row tells of the last run of its id, and of its last failure. */
  ghost predicate TellsOfLast(row: Row, id: string, runs: seq<RunTimes>, events: seq<Event>) {
    && (exists i ::
          && 0 <= i < |runs| && runs[i].id == id && row.status == runs[i].status
          && forall j :: i < j < |runs| ==> runs[j].id != id)
    && match row.failure
       case None => forall i :: 0 <= i < |events| && events[i].RunFailed? ==> events[i].runId != id
       case Some(reason) =>
         exists i ::
           && 0 <= i < |events| && events[i] == RunFailed(id, reason)
           && forall j :: i < j < |events| && events[j].RunFailed? ==> events[j].runId != id
  }

  lemma {:induction false} LastRunIsLast(runs: seq<RunTimes>, id: string)
    ensures match LastRun(runs, id)
            case None => forall i :: 0 <= i < |runs| ==> runs[i].id != id
            case Some(run) =>
              exists i ::
                0 <= i < |runs| && runs[i] == run && run.id == id && forall j :: i < j < |runs| ==> runs[j].id != id
  {
    if runs != [] && runs[|runs| - 1].id != id {
      var front := runs[..|runs| - 1];
      LastRunIsLast(front, id);
      assert forall i :: 0 <= i < |front| ==> front[i] == runs[i];
    }
  }

  lemma {:induction false} LastFailureIsLast(events: seq<Event>, id: string)
    ensures match LastFailure(events, id)
            case None => forall i :: 0 <= i < |events| && events[i].RunFailed? ==> events[i].runId != id
            case Some(reason) =>
              exists i ::
                && 0 <= i < |events| && events[i] == RunFailed(id, reason)
                && forall j :: i < j < |events| && events[j].RunFailed? ==> events[j].runId != id
  {
    if events != [] {
      var front, n := events[..|events| - 1], |events| - 1;
      LastFailureIsLast(front, id);
      assert forall i :: 0 <= i < |front| ==> front[i] == events[i];
      if events[n].RunFailed? && events[n].runId == id {
        assert events[n] == RunFailed(id, events[n].reason);
      }
    }
  }

  lemma Regroup(a: Counts, b: Counts, c: Counts, d: Counts)
    ensures Plus(Plus(a, b), c) == Plus(Plus(a, c), b)
    ensures Plus(Plus(a, b), Plus(c, d)) == Plus(Plus(a, c), Plus(b, d))
    ensures Plus(a, NOTHING) == a == Plus(NOTHING, a)
  {}

  lemma SumOfLast(events: seq<Event>, e: Event, wanted: set<string>)
    ensures Sum(events + [e], wanted) == Plus(Sum(events, wanted), AddsTo(e, wanted))
  {
    hide Plus, AddsTo;
    assert (events + [e])[..|events|] == events;
  }

  /** One event more: its own run's row takes it in, the others stay. */
  method TakeIn(row: Row, event: Event, ghost runs: seq<RunTimes>, ghost events: seq<Event>) returns (now: Row)
    requires Read(row, event.runId, runs, events) && row.otherMs.None?
    ensures Read(now, event.runId, runs, events + [event]) && now.otherMs.None?
  {
    match event {
      case RunFailed(_, reason) => now := row.(failure := Some(reason));
      case ModelRound(_, latency, input, output, cached) =>
        now := row.(counts := row.counts.(
          rounds := row.counts.rounds + 1,
          modelMs := row.counts.modelMs + latency,
          inputTokens := row.counts.inputTokens + input,
          outputTokens := row.counts.outputTokens + output,
          cachedTokens := row.counts.cachedTokens + cached));
      case ToolCalled(_, duration, outcome, exitCode) =>
        now := row.(counts := row.counts.(
          toolCalls := row.counts.toolCalls + 1,
          toolMs := row.counts.toolMs + duration,
          failedCalls := row.counts.failedCalls + if CallFailed(outcome, exitCode) then 1 else 0));
    }
    hide Sum;
    SumOfLast(events, event, {event.runId});
    LastFailureOfLast(events, event, event.runId);
  }

  lemma LastFailureOfLast(events: seq<Event>, e: Event, id: string)
    ensures LastFailure(events + [e], id)
         == if e.RunFailed? && e.runId == id then Some(e.reason) else LastFailure(events, id)
  {
    assert (events + [e])[..|events|] == events;
  }

  lemma OthersStay(row: Row, id: string, event: Event, runs: seq<RunTimes>, events: seq<Event>)
    requires Read(row, id, runs, events) && event.runId != id
    ensures Read(row, id, runs, events + [event])
  {
    hide Sum, LastFailure, Plus, Adds;
    SumOfLast(events, event, {id});
    LastFailureOfLast(events, event, id);
    Regroup(Sum(events, {id}), NOTHING, NOTHING, NOTHING);
  }

  lemma Started(runs: seq<RunTimes>, run: RunTimes)
    ensures Read(Fresh(run), run.id, runs + [run], [])
    ensures forall row, id :: Read(row, id, runs, []) && id != run.id ==> Read(row, id, runs + [run], [])
  {
    assert (runs + [run])[..|runs|] == runs;
  }

  /** `tally`: a row for each run and no other, with what its own events add and a remainder that makes
      the times add up. */
  method Tally(runs: seq<RunTimes>, events: seq<Event>) returns (rows: map<string, Row>)
    ensures rows.Keys == Ids(runs)
    ensures forall id :: id in rows ==> Read(rows[id], id, runs, events) && AddsUp(rows[id])
    ensures forall id :: id in rows ==> AreFigures(rows[id].counts, id, events) && IsExecution(rows[id], id, runs)
    ensures forall id :: id in rows ==> TellsOfLast(rows[id], id, runs, events)
  {
    hide Read, AreFigures, IsExecution, TellsOfLast;
    rows := map[];
    for i := 0 to |runs|
      invariant rows.Keys == Ids(runs[..i])
      invariant forall id :: id in rows ==> Read(rows[id], id, runs[..i], []) && rows[id].otherMs.None?
    {
      assert runs[..i + 1] == runs[..i] + [runs[i]];
      Started(runs[..i], runs[i]);
      rows := rows[runs[i].id := Fresh(runs[i])];
    }
    assert runs[..|runs|] == runs;
    assert events[..0] == [];
    for i := 0 to |events|
      invariant rows.Keys == Ids(runs)
      invariant forall id :: id in rows ==> Read(rows[id], id, runs, events[..i]) && rows[id].otherMs.None?
    {
      var event := events[i];
      assert events[..i + 1] == events[..i] + [event];
      forall id | id in rows && id != event.runId ensures Read(rows[id], id, runs, events[..i + 1]) {
        OthersStay(rows[id], id, event, runs, events[..i]);
      }
      if event.runId in rows {
        var row := TakeIn(rows[event.runId], event, runs, events[..i]);
        rows := rows[event.runId := row];
      }
    }
    assert events[..|events|] == events;
    rows := WithRemainders(rows, runs, events);
    forall id | id in rows
      ensures AreFigures(rows[id].counts, id, events) && IsExecution(rows[id], id, runs)
      ensures TellsOfLast(rows[id], id, runs, events)
    {
      ReadFigures(rows[id], id, runs, events);
    }
  }

  lemma ReadFigures(row: Row, id: string, runs: seq<RunTimes>, events: seq<Event>)
    requires Read(row, id, runs, events)
    ensures AreFigures(row.counts, id, events) && IsExecution(row, id, runs)
    ensures TellsOfLast(row, id, runs, events)
  {
    SumsAreFigures(events, id);
    LastRunIsLast(runs, id);
    LastFailureIsLast(events, id);
  }

  /** The loop over the rows at the end. */
  method WithRemainders(rows: map<string, Row>, ghost runs: seq<RunTimes>, ghost events: seq<Event>)
    returns (done: map<string, Row>)
    requires forall id :: id in rows ==> Read(rows[id], id, runs, events) && rows[id].otherMs.None?
    ensures done.Keys == rows.Keys
    ensures forall id :: id in done ==> Read(done[id], id, runs, events) && AddsUp(done[id])
  {
    hide Sum, LastFailure;
    done := rows;
    var left := rows.Keys;
    while left != {}
      invariant done.Keys == rows.Keys && left <= rows.Keys
      invariant forall id :: id in done ==> Read(done[id], id, runs, events)
      invariant forall id :: id in left ==> done[id].otherMs.None?
      invariant forall id :: id in done && id !in left ==> AddsUp(done[id])
      decreases left
    {
      var id :| id in left;
      var row := done[id];
      if row.execution.Some? {
        var execution := Truncate(row.execution.value * 1000.0);
        done := done[id := row.(otherMs := Some(execution - row.counts.modelMs - row.counts.toolMs))];
      }
      left := left - {id};
    }
  }

  // ---- what the sums do not depend on, and what they add up to --------------

  lemma {:induction false} SumWithout(events: seq<Event>, i: nat, wanted: set<string>)
    requires i < |events|
    ensures Sum(events, wanted) == Plus(Sum(events[..i] + events[i + 1..], wanted), AddsTo(events[i], wanted))
  {
    hide Sum, Plus, AddsTo;
    var n := |events| - 1;
    assert events == events[..n] + [events[n]];
    SumOfLast(events[..n], events[n], wanted);
    if i < n {
      SumWithout(events[..n], i, wanted);
      var less := events[..n][..i] + events[..n][i + 1..];
      SumOfLast(less, events[n], wanted);
      assert events[..i] + events[i + 1..] == less + [events[n]];
      Regroup(Sum(less, wanted), AddsTo(events[i], wanted), AddsTo(events[n], wanted), NOTHING);
    } else {
      assert events[..i] + events[i + 1..] == events[..n];
    }
  }

  /** The order of the events changes no count, time or token. */
  lemma {:induction false} OrderDoesNotMatter(a: seq<Event>, b: seq<Event>, wanted: set<string>)
    requires multiset(a) == multiset(b)
    ensures Sum(a, wanted) == Sum(b, wanted)
    decreases |a|
  {
    hide Sum, Plus, AddsTo;
    if a == [] {
      assert |multiset(b)| == |b| == 0;
      assert a == b;
    } else {
      var i := TakeOut(a, b);
      OrderDoesNotMatter(a[1..], b[..i] + b[i + 1..], wanted);
      SumWithout(a, 0, wanted);
      assert a[..0] + a[1..] == a[1..];
      SumWithout(b, i, wanted);
    }
  }

  lemma {:induction false} SumOfTwo(events: seq<Event>, a: set<string>, b: set<string>)
    requires a !! b
    ensures Sum(events, a + b) == Plus(Sum(events, a), Sum(events, b))
  {
    hide Plus, Adds;
    if events != [] {
      var front, last := events[..|events| - 1], events[|events| - 1];
      SumOfTwo(front, a, b);
      assert AddsTo(last, a + b) == Plus(AddsTo(last, a), AddsTo(last, b)) by {
        Regroup(Adds(last), NOTHING, NOTHING, NOTHING);
        Regroup(NOTHING, NOTHING, NOTHING, NOTHING);
      }
      Regroup(Sum(front, a), Sum(front, b), AddsTo(last, a), AddsTo(last, b));
    } else {
      Regroup(NOTHING, NOTHING, NOTHING, NOTHING);
    }
  }

  /** The totals over the rows of some ids. */
  function Totals(ids: seq<string>, rows: map<string, Row>): Counts
    requires forall id :: id in ids ==> id in rows
  {
    if ids == [] then NOTHING else Plus(rows[ids[0]].counts, Totals(ids[1..], rows))
  }

  /** Each id once, the totals over the rows of all runs are the totals over the events of known runs: none
      is counted twice, and none that belongs to a run is left out. */
  lemma {:induction false} TotalsAgree(ids: seq<string>, rows: map<string, Row>, runs: seq<RunTimes>,
                                       events: seq<Event>)
    requires forall id :: id in ids ==> id in rows && Read(rows[id], id, runs, events)
    requires forall i, j :: 0 <= i < j < |ids| ==> ids[i] != ids[j]
    ensures Totals(ids, rows) == Sum(events, set id | id in ids)
  {
    hide Sum, Plus, LastRun, LastFailure;
    var all := set id | id in ids;
    if ids == [] {
      SumOfNone(events);
      assert all == {};
    } else {
      var rest := set id | id in ids[1..];
      TotalsAgree(ids[1..], rows, runs, events);
      assert ids == [ids[0]] + ids[1..];
      assert all == {ids[0]} + rest;
      SumOfTwo(events, {ids[0]}, rest);
      assert rows[ids[0]].counts == Sum(events, {ids[0]});
    }
  }

  /** Two tallies of the same events in different orders: but for the failure reason they are the same. */
  method TallyPermuted(runs: seq<RunTimes>, a: seq<Event>, b: seq<Event>)
    returns (rows: map<string, Row>, others: map<string, Row>)
    requires multiset(a) == multiset(b)
    ensures rows.Keys == others.Keys == Ids(runs)
    ensures forall id :: id in rows ==> rows[id].(failure := None) == others[id].(failure := None)
  {
    hide Sum, LastRun, LastFailure, AreFigures, IsExecution, TellsOfLast;
    rows := Tally(runs, a);
    others := Tally(runs, b);
    forall id | id in rows ensures rows[id].(failure := None) == others[id].(failure := None) {
      OrderDoesNotMatter(a, b, {id});
      assert Read(rows[id], id, runs, a) && Read(others[id], id, runs, b);
    }
  }

  lemma {:induction false} SumOfNone(events: seq<Event>)
    ensures Sum(events, {}) == NOTHING
  {
    if events != [] { SumOfNone(events[..|events| - 1]); }
  }
}
