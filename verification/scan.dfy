/** The probing stage of `main`: one probe job per candidate, through the
    local port of that candidate, and the collection loop that gathers the
    results as the jobs complete. The thread pool is abstracted into the
    sequence of job outcomes in completion order, which may be any order. */
module Scan {
  import opened Wrappers
  import opened Decimal
  import opened WarpParams
  import opened XrayConfig
  import opened Probe

  /** One probe job: the candidate and the proxy URL it is tested through. */
  datatype Job = Job(endpoint: string, proxyUrl: string)

  /** The submission loop: job i tests candidate i through
      `http://127.0.0.1:{10800 + i}`. */
  function Jobs(candidates: seq<string>): (jobs: seq<Job>)
    ensures |jobs| == |candidates|
    ensures forall i :: 0 <= i < |jobs| ==> jobs[i].endpoint == candidates[i]
  {
    seq(|candidates|, i requires 0 <= i < |candidates| => Job(candidates[i], ProbeProxyUrl(i)))
  }

  /** Job i is routed to the tunnel of the very candidate it reports on, and
      no two jobs share a proxy. */
  lemma JobsMatchConfig(c: Config, candidates: seq<string>, params: Params, i: nat)
    requires Describes(c, candidates, params) && i < |candidates|
    ensures Jobs(candidates)[i].proxyUrl == "http://" + LoopbackAddress + ":" + Str(LocalPort(i))
    ensures Resolve(c, LocalPort(i)).Some? && Resolve(c, LocalPort(i)).value.Wireguard?
    ensures Resolve(c, LocalPort(i)).value.peer.endpoint == Jobs(candidates)[i].endpoint
    ensures forall j :: 0 <= j < |candidates| && j != i ==> Jobs(candidates)[j].proxyUrl != Jobs(candidates)[i].proxyUrl
  {
    ProbeReachesCandidate(c, candidates, params, i);
    forall j | 0 <= j < |candidates| && j != i
      ensures Jobs(candidates)[j].proxyUrl != Jobs(candidates)[i].proxyUrl
    {
      if ProbeProxyUrl(j) == ProbeProxyUrl(i) {
        ProbeProxyUrlInjective(j, i);
      }
    }
  }

  /** What `future.result()` gives: the job's return value, or the
      exception it raised. */
  datatype TaskOutcome = Returned(result: Option<ScanResult>) | Raised(message: string)

  /** Progress is printed every `len(candidates) // 20 or 1` completions. */
  function Step(total: nat): (s: nat)
    ensures s >= 1
    ensures total >= 20 ==> s * 20 <= total < (s + 1) * 20
    ensures total < 20 ==> s == 1
  {
    if total / 20 == 0 then 1 else total / 20
  }

  predicate ShouldReport(done: nat, total: nat) {
    done % Step(total) == 0 || done == total
  }

  /** The results gathered from outcomes in the given order: the values of
      jobs that returned a result; `None` returns and raised exceptions are
      skipped. */
  function Measurements(outcomes: seq<TaskOutcome>): seq<ScanResult> {
    if |outcomes| == 0 then []
    else
      var init := Measurements(outcomes[..|outcomes| - 1]);
      var last := outcomes[|outcomes| - 1];
      if last.Returned? && last.result.Some? then init + [last.result.value] else init
  }

  /** The completion counts at which progress is printed, in increasing
      order. */
  function Reports(done: nat, total: nat): seq<nat> {
    if done == 0 then []
    else Reports(done - 1, total) + (if ShouldReport(done, total) then [done] else [])
  }

  /** The collection loop over the completions: every completion counts,
      whether its job returned a result, returned None or raised. */
  method Collect(outcomes: seq<TaskOutcome>) returns (results: seq<ScanResult>, completed: nat, reports: seq<nat>)
    ensures completed == |outcomes|
    ensures results == Measurements(outcomes)
    ensures reports == Reports(|outcomes|, |outcomes|)
  {
    var total := |outcomes|;
    results := [];
    completed := 0;
    reports := [];
    for i := 0 to |outcomes|
      invariant completed == i
      invariant results == Measurements(outcomes[..i])
      invariant reports == Reports(i, total)
    {
      assert outcomes[..i + 1][..i] == outcomes[..i];
      match outcomes[i] {
        case Returned(r) =>
          if r.Some? {
            results := results + [r.value];
          }
        case Raised(_) =>
      }
      completed := completed + 1;
      if completed % (if total / 20 == 0 then 1 else total / 20) == 0 || completed == total {
        reports := reports + [completed];
      }
    }
    assert outcomes[..|outcomes|] == outcomes;
  }

  /** The reports are exactly the counts in 1..done that are multiples of
      the step or equal to the total. */
  lemma {:induction false} ReportsMembership(done: nat, total: nat, d: nat)
    ensures d in Reports(done, total) <==> 1 <= d <= done && ShouldReport(d, total)
  {
    if done > 0 {
      ReportsMembership(done - 1, total, d);
    }
  }

  /** The last completion is always reported, and no progress line comes
      before the first completion. */
  lemma FinalReported(total: nat)
    requires total > 0
    ensures total in Reports(total, total)
    ensures 0 !in Reports(total, total)
  {
    ReportsMembership(total, total, total);
    ReportsMembership(total, total, 0);
  }

  /** A result is collected once for every job that returned it. */
  lemma {:induction false} MeasurementsCount(outcomes: seq<TaskOutcome>, r: ScanResult)
    ensures multiset(Measurements(outcomes))[r] == multiset(outcomes)[Returned(Some(r))]
  {
    if |outcomes| > 0 {
      var init := outcomes[..|outcomes| - 1];
      MeasurementsCount(init, r);
      assert outcomes == init + [outcomes[|outcomes| - 1]];
    }
  }

  /** The collected results do not depend on the order in which the jobs
      complete: any two completion orders of the same outcomes collect the
      same results, up to order. */
  lemma CompletionOrderIrrelevant(a: seq<TaskOutcome>, b: seq<TaskOutcome>)
    requires multiset(a) == multiset(b)
    ensures multiset(Measurements(a)) == multiset(Measurements(b))
  {
    forall r: ScanResult ensures multiset(Measurements(a))[r] == multiset(Measurements(b))[r] {
      MeasurementsCount(a, r);
      MeasurementsCount(b, r);
    }
  }
}
