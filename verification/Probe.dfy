/** The summary a concurrency probe writes of the runs it watched. */
module Probe {
  import opened Options
  import opened Percentiles
  import opened Sequences
  import Sweep

  datatype RunTimes = RunTimes(id: string, status: string, created: real, started: Option<real>, finished: Option<real>)

  datatype Spread = Spread(n: nat, p50: real, p95: real, max: real)

  datatype Summary = Summary(
    submitted: nat,
    completed: nat,
    failed: nat,
    unfinished: nat,
    neverStarted: nat,
    statusCounts: map<string, nat>,
    window: real,
    queueWait: Spread,
    service: Spread,
    endToEnd: Spread,
    throughput: real,
    peakRunning: int,
    meanRunning: real
  )

  function ValueOr(o: Option<real>, otherwise: real): real {
    match o case Some(v) => v case None => otherwise
  }

  predicate Completed(run: RunTimes) {
    run.status == "completed"
  }

  predicate Failed(run: RunTimes) {
    run.status in {"failed", "cancelled"}
  }

  predicate Unfinished(run: RunTimes) {
    run.finished.None?
  }

  predicate NeverStarted(run: RunTimes) {
    run.started.None?
  }

  function First(runs: seq<RunTimes>, observed: real): real {
    if runs == [] then observed
    else if |runs| == 1 then runs[0].created
    else Least(runs[0].created, First(runs[1..], observed))
  }

  function Least(a: real, b: real): real {
    if a <= b then a else b
  }

  function Greatest(s: seq<real>): real
    requires s != []
  {
    if |s| == 1 || s[0] >= Greatest(s[1..]) then s[0] else Greatest(s[1..])
  }

  function Window(runs: seq<RunTimes>, observed: real): real {
    if observed - First(runs, observed) >= 0.0 then observed - First(runs, observed) else 0.0
  }

  /** The mean number running over the window. */
  function Mean(total: real, window: real): real {
    if window != 0.0 then total / window else 0.0
  }

  /** How long each run waited; one still queued has waited until the probe stopped. */
  function Waits(runs: seq<RunTimes>, observed: real): seq<real> {
    if runs == [] then [] else [ValueOr(runs[0].started, observed) - runs[0].created] + Waits(runs[1..], observed)
  }

  /** When each run that started was running. */
  function Busy(runs: seq<RunTimes>, observed: real): seq<Sweep.Interval> {
    if runs == [] then []
    else
      var rest := Busy(runs[1..], observed);
      if runs[0].started.Some?
      then [Sweep.Interval(runs[0].started.value, ValueOr(runs[0].finished, observed))] + rest
      else rest
  }

  function Services(runs: seq<RunTimes>): seq<real> {
    if runs == [] then []
    else
      var run, rest := runs[0], Services(runs[1..]);
      if Completed(run) && run.started.Some? && run.finished.Some?
      then [run.finished.value - run.started.value] + rest
      else rest
  }

  function EndToEnds(runs: seq<RunTimes>): seq<real> {
    if runs == [] then []
    else
      var run, rest := runs[0], EndToEnds(runs[1..]);
      if Completed(run) && run.finished.Some? then [run.finished.value - run.created] + rest else rest
  }

  function CountOf(runs: seq<RunTimes>, wanted: RunTimes -> bool): nat {
    if runs == [] then 0 else (if wanted(runs[0]) then 1 else 0) + CountOf(runs[1..], wanted)
  }

  /** How many runs have each status there is. */
  function StatusCounts(runs: seq<RunTimes>): map<string, nat> {
    if runs == [] then map[]
    else
      var rest, status := StatusCounts(runs[1..]), runs[0].status;
      rest[status := 1 + if status in rest then rest[status] else 0]
  }

  function CountedAs(counts: map<string, nat>, status: string): nat {
    if status in counts then counts[status] else 0
  }

  lemma {:induction false} StatusesCounted(runs: seq<RunTimes>, status: string, wanted: RunTimes -> bool)
    requires forall run :: wanted(run) <==> run.status == status
    ensures CountOf(runs, wanted) == CountedAs(StatusCounts(runs), status)
    ensures status in StatusCounts(runs) ==> StatusCounts(runs)[status] > 0
  {
    if runs != [] { StatusesCounted(runs[1..], status, wanted); }
  }

  function SpreadOf(values: seq<real>): (spread: Spread)
    ensures spread.n == |values|
    ensures spread.p50 <= spread.p95 <= spread.max
    ensures forall v :: v in values ==> v <= spread.max
    ensures values != [] ==> spread.max in values
    ensures values != [] ==> spread.p50 == Percentile(values, 50.0) && spread.p95 == Percentile(values, 95.0)
  {
    if values == [] then Spread(0, 0.0, 0.0, 0.0)
    else
      GrowsWithP(values, 50.0, 95.0);
      GrowsWithP(values, 95.0, 100.0);
      GreatestIsTop(values);
      Extremes(values);
      Spread(|values|, Percentile(values, 50.0), Percentile(values, 95.0), Greatest(values))
  }

  predicate TimesInOrder(run: RunTimes, observed: real) {
    && run.created <= observed
    && (run.started.Some? ==> run.created <= run.started.value <= ValueOr(run.finished, observed) <= observed)
  }

  /** The times of every run are in order and none is later than the end of the observation. */
  ghost predicate InOrder(runs: seq<RunTimes>, observed: real) {
    forall run :: run in runs ==> TimesInOrder(run, observed)
  }

  /** How many runs are running at an instant: started, and neither finished nor past the observation. */
  function RunningAt(runs: seq<RunTimes>, t: real, observed: real): nat {
    if runs == [] then 0
    else
      var run := runs[0];
      (if run.started.Some? && run.started.value <= t
          && t < (if run.finished.Some? then run.finished.value else observed) then 1 else 0)
      + RunningAt(runs[1..], t, observed)
  }

  /** The time all runs have been running. */
  function RunningTime(runs: seq<RunTimes>, observed: real): real {
    if runs == [] then 0.0
    else
      var run := runs[0];
      (if run.started.None? then 0.0
       else (if run.finished.Some? then run.finished.value else observed) - run.started.value)
      + RunningTime(runs[1..], observed)
  }

  /** What, over the window, comes to the total; nothing over no window. */
  predicate IsMean(mean: real, total: real, window: real) {
    if window == 0.0 then mean == 0.0 else mean * window == total
  }

  /** The window reaches back to the earliest creation, and is never negative. */
  ghost predicate ReachesBack(window: real, runs: seq<RunTimes>, observed: real) {
    && window >= 0.0 && (forall run :: run in runs ==> window >= observed - run.created)
    && (window == 0.0 || exists run :: run in runs && window == observed - run.created)
  }

  /** `summarize`. However the runs overlap, the mean number running is never above the peak, which is
      the greatest number running at one instant. */
  method Summarize(runs: seq<RunTimes>, observed: real) returns (s: Summary)
    ensures Sweep.IsPeak(Busy(runs, observed), s.peakRunning)
    ensures InOrder(runs, observed) ==> 0.0 <= s.meanRunning <= s.peakRunning as real
    ensures InOrder(runs, observed) ==> forall t :: RunningAt(runs, t, observed) <= s.peakRunning
    ensures InOrder(runs, observed) ==> exists t :: RunningAt(runs, t, observed) == s.peakRunning
    ensures IsMean(s.meanRunning, RunningTime(runs, observed), s.window)
    ensures IsMean(s.throughput, s.completed as real, s.window)
    ensures s.submitted == |runs| == s.queueWait.n
    ensures s.queueWait == SpreadOf(Waits(runs, observed))
    ensures s.service == SpreadOf(Services(runs)) && s.endToEnd == SpreadOf(EndToEnds(runs))
    ensures s.service.n <= s.endToEnd.n <= s.completed
    ensures s.completed == CountOf(runs, Completed) && s.failed == CountOf(runs, Failed)
    ensures s.unfinished == CountOf(runs, Unfinished)
    ensures s.statusCounts == StatusCounts(runs) && s.completed == CountedAs(s.statusCounts, "completed")
    ensures s.failed == CountedAs(s.statusCounts, "failed") + CountedAs(s.statusCounts, "cancelled")
    ensures s.completed + s.failed <= s.submitted
    ensures s.neverStarted == CountOf(runs, NeverStarted) && s.neverStarted + |Busy(runs, observed)| == s.submitted
    ensures s.window == Window(runs, observed) && ReachesBack(s.window, runs, observed)
  {
    hide Sweep.IsPeak, Sweep.BusyTime, Sweep.Count, Busy, InOrder, First, Waits, Mean, SpreadOf, RunningAt, RunningTime;
    hide ReachesBack, Window, IsMean;
    var window := Window(runs, observed);
    var busy := Busy(runs, observed);
    var peak := Sweep.PeakOverlap(busy);
    var completed := CountOf(runs, Completed);
    var failed := CountOf(runs, Failed);
    var unfinished := CountOf(runs, Unfinished);
    var never := CountOf(runs, NeverStarted);
    WaitsOfAll(runs, observed);
    CountsApart(runs, Completed, Failed);
    FewerServed(runs);
    StatusesCounted(runs, "completed", Completed);
    StartedOrNot(runs, observed);
    FailedCounted(runs);
    WindowReachesBack(runs, observed);
    BusyIsRunning(runs, observed);
    MeanTimesWindow(Sweep.BusyTime(busy), window);
    MeanTimesWindow(completed as real, window);
    if InOrder(runs, observed) {
      MeanWithinPeak(runs, observed, peak);
      PeakOfRuns(runs, observed, peak);
    }
    var mean := Mean(Sweep.BusyTime(busy), window);
    s := Summary(|runs|, completed, failed, unfinished, never, StatusCounts(runs), window,
                 SpreadOf(Waits(runs, observed)), SpreadOf(Services(runs)), SpreadOf(EndToEnds(runs)),
                 Mean(completed as real, window), peak, mean);
  }

  lemma {:induction false} GreatestIsTop(s: seq<real>)
    requires s != []
    ensures Greatest(s) in s && forall v :: v in s ==> v <= Greatest(s)
  {
    if |s| > 1 {
      GreatestIsTop(s[1..]);
      assert forall v :: v in s ==> v == s[0] || v in s[1..];
    }
  }

  /** Each wait, in the order of the runs. */
  lemma {:induction false} WaitsOfAll(runs: seq<RunTimes>, observed: real)
    ensures |Waits(runs, observed)| == |runs|
    ensures forall i :: 0 <= i < |runs| ==>
      Waits(runs, observed)[i]
        == (if runs[i].started.Some? then runs[i].started.value else observed) - runs[i].created
  {
    if runs != [] { WaitsOfAll(runs[1..], observed); }
  }

  /** A time is among the services, or the times from end to end, as often as a completed run took it. */
  lemma {:induction false} ServicesAre(runs: seq<RunTimes>, v: real, served: RunTimes -> bool, ended: RunTimes -> bool)
    requires forall run :: served(run) <==>
      && run.status == "completed" && run.started.Some? && run.finished.Some?
      && v == run.finished.value - run.started.value
    requires forall run :: ended(run) <==>
      run.status == "completed" && run.finished.Some? && v == run.finished.value - run.created
    ensures Times(Services(runs), v) == CountOf(runs, served)
    ensures Times(EndToEnds(runs), v) == CountOf(runs, ended)
  {
    if runs != [] { ServicesAre(runs[1..], v, served, ended); }
  }

  lemma {:induction false} BusyIsRunning(runs: seq<RunTimes>, observed: real)
    ensures Sweep.BusyTime(Busy(runs, observed)) == RunningTime(runs, observed)
  {
    if runs != [] { BusyIsRunning(runs[1..], observed); }
  }

  lemma {:induction false} CountIsRunning(runs: seq<RunTimes>, observed: real, t: real)
    ensures Sweep.Count(Busy(runs, observed), t) == RunningAt(runs, t, observed)
  {
    if runs != [] { CountIsRunning(runs[1..], observed, t); }
  }

  lemma {:induction false} PeakOfRuns(runs: seq<RunTimes>, observed: real, peak: int)
    requires InOrder(runs, observed) && Sweep.IsPeak(Busy(runs, observed), peak)
    ensures forall t :: RunningAt(runs, t, observed) <= peak
    ensures exists t :: RunningAt(runs, t, observed) == peak
  {
    hide Sweep.IsPeak, RunningAt, Busy, InOrder;
    var busy := Busy(runs, observed);
    FirstIsLeast(runs, observed);
    BusyWithin(runs, observed, First(runs, observed));
    Sweep.PeakCounts(busy, peak);
    forall t ensures Sweep.Count(busy, t) == RunningAt(runs, t, observed) { CountIsRunning(runs, observed, t); }
    var t :| Sweep.Count(busy, t) == peak;
    assert RunningAt(runs, t, observed) == peak;
  }

  lemma {:induction false} MeanTimesWindow(total: real, window: real)
    ensures IsMean(Mean(total, window), total, window)
  {}

  lemma WindowReachesBack(runs: seq<RunTimes>, observed: real)
    ensures ReachesBack(Window(runs, observed), runs, observed)
  {
    FirstIsLeast(runs, observed);
  }

  lemma {:induction false} FailedCounted(runs: seq<RunTimes>)
    ensures CountOf(runs, Failed)
         == CountedAs(StatusCounts(runs), "failed") + CountedAs(StatusCounts(runs), "cancelled")
  {
    if runs != [] { FailedCounted(runs[1..]); }
  }

  /** Unfinished are those without an end, never started those without a beginning. */
  lemma {:induction false} TimesMissing(runs: seq<RunTimes>, open: RunTimes -> bool, queued: RunTimes -> bool)
    requires forall run :: open(run) <==> run.finished == None
    requires forall run :: queued(run) <==> run.started == None
    ensures CountOf(runs, open) == CountOf(runs, Unfinished)
    ensures CountOf(runs, queued) == CountOf(runs, NeverStarted)
  {
    if runs != [] { TimesMissing(runs[1..], open, queued); }
  }

  lemma {:induction false} CountsApart(runs: seq<RunTimes>, f: RunTimes -> bool, g: RunTimes -> bool)
    requires forall run :: !(f(run) && g(run))
    ensures CountOf(runs, f) + CountOf(runs, g) <= |runs|
  {
    if runs != [] { CountsApart(runs[1..], f, g); }
  }

  lemma {:induction false} FewerServed(runs: seq<RunTimes>)
    ensures |Services(runs)| <= |EndToEnds(runs)| <= CountOf(runs, Completed)
  {
    if runs != [] { FewerServed(runs[1..]); }
  }

  lemma {:induction false} StartedOrNot(runs: seq<RunTimes>, observed: real)
    ensures CountOf(runs, NeverStarted) + |Busy(runs, observed)| == |runs|
  {
    if runs != [] { StartedOrNot(runs[1..], observed); }
  }

  lemma {:induction false} FirstIsLeast(runs: seq<RunTimes>, observed: real)
    ensures forall run :: run in runs ==> First(runs, observed) <= run.created
    ensures runs != [] ==> exists run :: run in runs && run.created == First(runs, observed)
  {
    if |runs| > 1 {
      FirstIsLeast(runs[1..], observed);
      var run :| run in runs[1..] && run.created == First(runs[1..], observed);
      assert run in runs && runs[0] in runs;
    } else if runs != [] {
      assert runs[0] in runs;
    }
  }

  lemma {:induction false} BusyWithin(runs: seq<RunTimes>, observed: real, first: real)
    requires InOrder(runs, observed) && forall run :: run in runs ==> first <= run.created
    ensures forall k :: 0 <= k < |Busy(runs, observed)| ==>
      first <= Busy(runs, observed)[k].start <= Busy(runs, observed)[k].end <= observed
  {
    if runs != [] {
      assert runs[0] in runs && TimesInOrder(runs[0], observed);
      BusyWithin(runs[1..], observed, first);
    }
  }

  lemma {:induction false} MeanWithinPeak(runs: seq<RunTimes>, observed: real, peak: int)
    requires InOrder(runs, observed) && Sweep.IsPeak(Busy(runs, observed), peak)
    ensures 0.0 <= Mean(Sweep.BusyTime(Busy(runs, observed)), Window(runs, observed)) <= peak as real
  {
    hide Sweep.IsPeak, Sweep.BusyTime, Busy, InOrder, First;
    var first, busy := First(runs, observed), Busy(runs, observed);
    FirstIsLeast(runs, observed);
    FirstInTime(runs, observed);
    BusyWithin(runs, observed, first);
    Sweep.BusyTimeWithinPeak(busy, peak, first, observed);
    Sweep.BusyTimeNotNegative(busy);
    assert Window(runs, observed) == observed - first;
    Quotient(Sweep.BusyTime(busy), observed - first, peak as real);
  }

  lemma FirstInTime(runs: seq<RunTimes>, observed: real)
    requires InOrder(runs, observed)
    ensures First(runs, observed) <= observed
  {
    FirstIsLeast(runs, observed);
    assert forall run :: run in runs ==> TimesInOrder(run, observed);
  }

  lemma {:induction false} Quotient(total: real, window: real, peak: real)
    requires window >= 0.0 && peak >= 0.0 && 0.0 <= total <= peak * window
    ensures 0.0 <= Mean(total, window) <= peak
  {
    if window != 0.0 {
      var mean := total / window;
      assert mean * window == total;
      SignOf(mean, window);
      SignOf(peak - mean, window);
      assert (peak - mean) * window == peak * window - total;
    }
  }

  lemma {:induction false} SignOf(x: real, y: real)
    requires y > 0.0 && x * y >= 0.0
    ensures x >= 0.0
  {}
}
