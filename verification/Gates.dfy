/** Measured gates: the verdict `benchmark_m1.py` gives on a sample. */
module Gates {
  import opened Options
  import opened Percentiles

  /** The limits of a gate; a missing one is not checked. */
  datatype Gate = Gate(
    name: string,
    p95Ms: Option<real>,
    errorRate: Option<real>,
    maxLoss: Option<int>,
    maxS: Option<real>,
    rps: Option<int>,
    durationS: Option<int>
  )

  datatype Sample = Sample(latencies: seq<real>, errors: nat, total: nat)

  /** What else was measured, if it was, and the reasons the caller has of its own. */
  datatype Conditions = Conditions(elapsed: Option<real>, achieved: Option<real>, sampled: Option<real>,
                                   extra: seq<string>)

  datatype Limit = P95 | ErrorRate | Loss | Elapsed | Rate | Duration

  datatype Reason = Broke(limit: Limit, measured: real, allowed: real) | Extra(text: string)

  datatype Verdict = Verdict(name: string, passed: bool, p50: real, p95: real, p99: real, errorRate: real,
                             reasons: seq<Reason>)

  function RateOfErrors(sample: Sample): real {
    if sample.total != 0 then sample.errors as real / sample.total as real else 1.0
  }

  predicate Above(measured: Option<real>, limit: Option<real>) {
    measured.Some? && limit.Some? && measured.value > limit.value
  }

  predicate Below(measured: Option<real>, limit: Option<int>, slack: real) {
    measured.Some? && limit.Some? && measured.value + slack < limit.value as real
  }

  /** Whether a measured value is on the wrong side of a limit that applies to it. */
  predicate Broken(limit: Limit, gate: Gate, sample: Sample, run: Conditions) {
    match limit
    case P95 => Above(Some(Percentile(sample.latencies, 95.0)), gate.p95Ms)
    case ErrorRate => Above(Some(RateOfErrors(sample)), gate.errorRate)
    case Loss => gate.maxLoss.Some? && sample.errors > gate.maxLoss.value
    case Elapsed => Above(run.elapsed, gate.maxS)
    case Rate => Below(run.achieved, gate.rps, 0.0)
    case Duration => Below(run.sampled, gate.durationS, 0.5)
  }

  predicate Names(reasons: seq<Reason>, limit: Limit) {
    exists i :: 0 <= i < |reasons| && reasons[i].Broke? && reasons[i].limit == limit
  }

  /** The figures a reason gives are the one measured and the limit itself. */
  predicate Tells(r: Reason, gate: Gate, sample: Sample, run: Conditions)
    requires r.Broke?
  {
    match r.limit
    case P95 => r.measured == Percentile(sample.latencies, 95.0) && gate.p95Ms == Some(r.allowed)
    case ErrorRate => r.measured == RateOfErrors(sample) && gate.errorRate == Some(r.allowed)
    case Loss => r.measured == sample.errors as real && gate.maxLoss.Some? && gate.maxLoss.value as real == r.allowed
    case Elapsed => run.elapsed == Some(r.measured) && gate.maxS == Some(r.allowed)
    case Rate => run.achieved == Some(r.measured) && gate.rps.Some? && gate.rps.value as real == r.allowed
    case Duration =>
      run.sampled == Some(r.measured) && gate.durationS.Some? && gate.durationS.value as real == r.allowed
  }

  predicate AllTell(reasons: seq<Reason>, gate: Gate, sample: Sample, run: Conditions) {
    forall i :: 0 <= i < |reasons| ==> reasons[i].Broke? && Tells(reasons[i], gate, sample, run)
  }

  predicate NamedOnce(reasons: seq<Reason>) {
    forall i, j :: 0 <= i < j < |reasons| && reasons[i].Broke? && reasons[j].Broke? ==>
      reasons[i].limit != reasons[j].limit
  }

  function Extras(extra: seq<string>): seq<Reason> {
    seq(|extra|, i requires 0 <= i < |extra| => Extra(extra[i]))
  }

  /** The order in which the limits are checked. */
  function Place(limit: Limit): nat {
    match limit case P95 => 0 case ErrorRate => 1 case Loss => 2 case Elapsed => 3 case Rate => 4 case Duration => 5
  }

  /** The reasons after the first `n` checks. */
  ghost predicate Checked(reasons: seq<Reason>, n: nat, gate: Gate, sample: Sample, run: Conditions) {
    && (forall limit :: Names(reasons, limit) <==> Place(limit) < n && Broken(limit, gate, sample, run))
    && NamedOnce(reasons)
    && AllTell(reasons, gate, sample, run)
  }

  lemma NoneYet(gate: Gate, sample: Sample, run: Conditions)
    ensures Checked([], 0, gate, sample, run)
  {}

  /** `reasons` is `was` after the check of one limit. */
  predicate Judged(was: seq<Reason>, reasons: seq<Reason>, limit: Limit, broken: bool) {
    if broken then
      |reasons| == |was| + 1 && reasons[..|was|] == was && reasons[|was|].Broke? && reasons[|was|].limit == limit
    else reasons == was
  }

  lemma OneMore(was: seq<Reason>, reasons: seq<Reason>, limit: Limit, gate: Gate, sample: Sample, run: Conditions)
    requires Checked(was, Place(limit), gate, sample, run)
    requires Judged(was, reasons, limit, Broken(limit, gate, sample, run))
    requires Broken(limit, gate, sample, run) ==> Tells(reasons[|was|], gate, sample, run)
    ensures Checked(reasons, Place(limit) + 1, gate, sample, run)
  {
    hide Broken, Tells;
    assert forall i :: 0 <= i < |was| ==> reasons[i] == was[i];
    forall l ensures Names(reasons, l) <==> Place(l) < Place(limit) + 1 && Broken(l, gate, sample, run) {
      assert Names(was, l) <==> Place(l) < Place(limit) && Broken(l, gate, sample, run);
      assert Names(reasons, l) <==> Names(was, l) || (Broken(limit, gate, sample, run) && l == limit);
    }
    assert !Names(was, limit);
    forall i, j | 0 <= i < j < |reasons| && reasons[i].Broke? && reasons[j].Broke?
      ensures reasons[i].limit != reasons[j].limit
    {
      assert j < |was| || Names(was, reasons[i].limit);
    }
  }

  /** The caller's reasons come last and name no limit. */
  lemma Complete(broken: seq<Reason>, gate: Gate, sample: Sample, run: Conditions)
    requires Checked(broken, 6, gate, sample, run)
    ensures NamedOnce(broken + Extras(run.extra))
    ensures |Extras(run.extra)| == |run.extra| && AllTell(broken, gate, sample, run)
    ensures forall limit :: Names(broken + Extras(run.extra), limit) <==> Broken(limit, gate, sample, run)
    ensures broken + Extras(run.extra) == [] <==> run.extra == [] && forall limit :: !Broken(limit, gate, sample, run)
  {
    hide Broken, Tells;
    var all := broken + Extras(run.extra);
    assert forall i :: 0 <= i < |broken| ==> all[i] == broken[i];
    assert |all| == |broken| + |run.extra|;
    forall limit ensures Names(all, limit) <==> Broken(limit, gate, sample, run) {
      assert Names(all, limit) <==> Names(broken, limit);
    }
    assert broken != [] ==> Names(broken, broken[0].limit);
  }

  lemma RateIsMean(sample: Sample)
    requires sample.total != 0
    ensures RateOfErrors(sample) * sample.total as real == sample.errors as real
  {}

  /** The checks of what the sample holds. */
  method CheckSample(gate: Gate, sample: Sample, run: Conditions, p95: real, rate: real) returns (reasons: seq<Reason>)
    requires p95 == Percentile(sample.latencies, 95.0) && rate == RateOfErrors(sample)
    ensures Checked(reasons, 3, gate, sample, run)
  {
    hide Percentile, RateOfErrors, Checked, Names, NamedOnce, Extras;
    reasons := [];
    ghost var was: seq<Reason> := [];
    assert Checked(was, 0, gate, sample, run) by { NoneYet(gate, sample, run); }
    if gate.p95Ms.Some? && p95 > gate.p95Ms.value {
      reasons := reasons + [Broke(P95, p95, gate.p95Ms.value)];
    }
    assert Checked(reasons, 1, gate, sample, run) by { OneMore(was, reasons, P95, gate, sample, run); }
    was := reasons;
    if gate.errorRate.Some? && rate > gate.errorRate.value {
      reasons := reasons + [Broke(ErrorRate, rate, gate.errorRate.value)];
    }
    assert Checked(reasons, 2, gate, sample, run) by { OneMore(was, reasons, ErrorRate, gate, sample, run); }
    was := reasons;
    if gate.maxLoss.Some? && sample.errors > gate.maxLoss.value {
      reasons := reasons + [Broke(Loss, sample.errors as real, gate.maxLoss.value as real)];
    }
    assert Checked(reasons, 3, gate, sample, run) by { OneMore(was, reasons, Loss, gate, sample, run); }
  }

  /** The checks of what else was measured. */
  method CheckRun(gate: Gate, sample: Sample, run: Conditions, broken: seq<Reason>) returns (reasons: seq<Reason>)
    requires Checked(broken, 3, gate, sample, run)
    ensures Checked(reasons, 6, gate, sample, run)
  {
    hide Percentile, RateOfErrors, Checked, Names, NamedOnce, Extras;
    reasons := broken;
    ghost var was := reasons;
    if gate.maxS.Some? && run.elapsed.Some? && run.elapsed.value > gate.maxS.value {
      reasons := reasons + [Broke(Elapsed, run.elapsed.value, gate.maxS.value)];
    }
    assert Checked(reasons, 4, gate, sample, run) by { OneMore(was, reasons, Elapsed, gate, sample, run); }
    was := reasons;
    if gate.rps.Some? && run.achieved.Some? && run.achieved.value < gate.rps.value as real {
      reasons := reasons + [Broke(Rate, run.achieved.value, gate.rps.value as real)];
    }
    assert Checked(reasons, 5, gate, sample, run) by { OneMore(was, reasons, Rate, gate, sample, run); }
    was := reasons;
    if gate.durationS.Some? && run.sampled.Some? && run.sampled.value + 0.5 < gate.durationS.value as real {
      reasons := reasons + [Broke(Duration, run.sampled.value, gate.durationS.value as real)];
    }
    assert Checked(reasons, 6, gate, sample, run) by { OneMore(was, reasons, Duration, gate, sample, run); }
  }

  /** `evaluate`: the gate passes when no limit is broken and the caller adds no reason; otherwise every
      broken limit, and nothing else, is named once, before the caller's reasons. */
  method Evaluate(gate: Gate, sample: Sample, run: Conditions) returns (verdict: Verdict)
    ensures verdict.passed <==> run.extra == [] && forall limit :: !Broken(limit, gate, sample, run)
    ensures forall limit :: Names(verdict.reasons, limit) <==> Broken(limit, gate, sample, run)
    ensures NamedOnce(verdict.reasons)
    ensures |run.extra| <= |verdict.reasons|
    ensures verdict.reasons[|verdict.reasons| - |run.extra|..] == Extras(run.extra)
    ensures AllTell(verdict.reasons[..|verdict.reasons| - |run.extra|], gate, sample, run)
    ensures verdict.name == gate.name && verdict.errorRate == RateOfErrors(sample)
    // nothing sampled counts as nothing but errors
    ensures verdict.errorRate * sample.total as real == sample.errors as real || sample.total == 0
    ensures sample.total == 0 ==> verdict.errorRate == 1.0
    ensures sample.total == 0 && gate.errorRate.Some? && gate.errorRate.value < 1.0 ==>
      !verdict.passed && Names(verdict.reasons, ErrorRate)
    ensures verdict.p50 == Percentile(sample.latencies, 50.0)
    ensures verdict.p95 == Percentile(sample.latencies, 95.0)
    ensures verdict.p99 == Percentile(sample.latencies, 99.0)
    ensures verdict.p50 <= verdict.p95 <= verdict.p99
  {
    var p50 := Percentile(sample.latencies, 50.0);
    var p95 := Percentile(sample.latencies, 95.0);
    var p99 := Percentile(sample.latencies, 99.0);
    assert p50 <= p95 <= p99 by {
      GrowsWithP(sample.latencies, 50.0, 95.0);
      GrowsWithP(sample.latencies, 95.0, 99.0);
    }
    var rate := RateOfErrors(sample);
    var reasons := CheckSample(gate, sample, run, p95, rate);
    reasons := CheckRun(gate, sample, run, reasons);
    Complete(reasons, gate, sample, run);
    if sample.total != 0 { RateIsMean(sample); }
    assert Broken(ErrorRate, gate, sample, run) <==> gate.errorRate.Some? && rate > gate.errorRate.value;
    ghost var broken := reasons;
    reasons := reasons + Extras(run.extra);
    assert reasons[..|broken|] == broken;
    verdict := Verdict(gate.name, reasons == [], p50, p95, p99, rate, reasons);
  }

  /** Measured at most as much, where the other was measured at all. */
  predicate NoMore(a: Option<real>, b: Option<real>) {
    a.Some? ==> b.Some? && a.value <= b.value
  }

  predicate NoLess(a: Option<real>, b: Option<real>) {
    a.Some? ==> b.Some? && a.value >= b.value
  }

  ghost predicate Better(a: Sample, b: Sample) {
    Dominated(a.latencies, b.latencies) && a.errors <= b.errors && a.total == b.total
  }

  predicate BetterRun(a: Conditions, b: Conditions) {
    && NoMore(a.elapsed, b.elapsed)
    && NoLess(a.achieved, b.achieved)
    && NoLess(a.sampled, b.sampled)
    && multiset(a.extra) <= multiset(b.extra)
  }

  /** A better sample breaks no limit the other keeps, so it cannot turn a pass into a fail. */
  lemma BetterBreaksNoMore(gate: Gate, a: Sample, b: Sample, runA: Conditions, runB: Conditions)
    requires Better(a, b) && BetterRun(runA, runB)
    ensures forall limit :: Broken(limit, gate, a, runA) ==> Broken(limit, gate, b, runB)
    ensures runB.extra == [] ==> runA.extra == []
  {
    GrowsWithValues(a.latencies, b.latencies, 95.0);
    if a.total != 0 {
      var less, total := (b.errors - a.errors) as real, a.total as real;
      assert b.errors as real / total - a.errors as real / total == less / total;
    }
    assert runB.extra == [] ==> |multiset(runA.extra)| == 0;
  }

  /** Two runs of the method: what passed on a sample passes on every better one. */
  method EvaluateBetter(gate: Gate, a: Sample, b: Sample, runA: Conditions, runB: Conditions)
    returns (better: Verdict, worse: Verdict)
    requires Better(a, b) && BetterRun(runA, runB)
    ensures worse.passed ==> better.passed
    ensures forall limit :: Names(better.reasons, limit) ==> Names(worse.reasons, limit)
    ensures better.p95 <= worse.p95 && better.p50 <= worse.p50 && better.p99 <= worse.p99
  {
    better := Evaluate(gate, a, runA);
    worse := Evaluate(gate, b, runB);
    BetterBreaksNoMore(gate, a, b, runA, runB);
    GrowsWithValues(a.latencies, b.latencies, 50.0);
    GrowsWithValues(a.latencies, b.latencies, 95.0);
    GrowsWithValues(a.latencies, b.latencies, 99.0);
  }
}
