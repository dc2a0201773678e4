/** Aggregation of the probe tries of one candidate (test_single_proxy).
    The HTTP requests themselves are abstracted into the sequence of their
    outcomes: a response with a status code and a measured latency, or a
    transport failure (timeout or other request error). */
module Probe {
  import opened Wrappers

  /** The status the probe URL answers with when the tunnel works. */
  const NoContent: int := 204
  /** TEST_TRIES: the number of requests per candidate. */
  const TestTries: nat := 3

  datatype TryOutcome =
    | Response(status: int, latencyMs: real)
    | TransportError

  /** `(endpoint, avg_latency_ms, loss_rate_percent)` */
  datatype ScanResult = ScanResult(endpoint: string, avgLatencyMs: real, lossPercent: real)

  predicate IsSuccess(t: TryOutcome) {
    t.Response? && t.status == NoContent
  }

  /** The latencies of the successful tries, in order: exactly one per try
      answered with 204, and that try's latency. */
  function SuccessLatencies(tries: seq<TryOutcome>): (ls: seq<real>)
    ensures |ls| <= |tries|
    ensures |ls| == Successes(tries)
  {
    if |tries| == 0 then []
    else
      var init := SuccessLatencies(tries[..|tries| - 1]);
      var last := tries[|tries| - 1];
      SuccessesAppend(tries[..|tries| - 1], last);
      assert tries[..|tries| - 1] + [last] == tries;
      if IsSuccess(last) then init + [last.latencyMs] else init
  }

  function Sum(xs: seq<real>): real {
    if |xs| == 0 then 0.0 else Sum(xs[..|xs| - 1]) + xs[|xs| - 1]
  }

  /** The arithmetic mean of a non-empty list. */
  function Mean(xs: seq<real>): real
    requires |xs| > 0
  {
    Sum(xs) / |xs| as real
  }

  /** `(num_tries - success_count) / num_tries * 100.0` */
  function LossPercent(tries: nat, successes: nat): real
    requires tries > 0
  {
    (tries - successes) as real / tries as real * 100.0
  }

  /** test_single_proxy over the given outcomes, one per try. Only tries
      answered with 204 count as successes and contribute a latency; a
      candidate with no successful try yields no result. */
  method TestSingleProxy(endpoint: string, tries: seq<TryOutcome>) returns (r: Option<ScanResult>)
    ensures r.None? <==> forall i :: 0 <= i < |tries| ==> !IsSuccess(tries[i])
    ensures r.Some? ==> |tries| > 0 && |SuccessLatencies(tries)| > 0
    ensures r.Some? ==> r.value.endpoint == endpoint
    ensures r.Some? ==> r.value.avgLatencyMs == Mean(SuccessLatencies(tries))
    ensures r.Some? ==> r.value.lossPercent == LossPercent(|tries|, |SuccessLatencies(tries)|)
  {
    var successCount := 0;
    var latencies: seq<real> := [];
    var i := 0;
    while i < |tries|
      invariant 0 <= i <= |tries|
      invariant latencies == SuccessLatencies(tries[..i])
      invariant successCount == |latencies|
      invariant |latencies| == 0 <==> forall k :: 0 <= k < i ==> !IsSuccess(tries[k])
    {
      assert tries[..i + 1][..i] == tries[..i];
      if tries[i].Response? && tries[i].status == NoContent {
        successCount := successCount + 1;
        latencies := latencies + [tries[i].latencyMs];
      }
      i := i + 1;
    }
    assert tries[..i] == tries;
    if |latencies| == 0 {
      return None;
    }
    var total := 0.0;
    var k := 0;
    while k < |latencies|
      invariant 0 <= k <= |latencies|
      invariant total == Sum(latencies[..k])
    {
      assert latencies[..k + 1][..k] == latencies[..k];
      total := total + latencies[k];
      k := k + 1;
    }
    assert latencies[..k] == latencies;
    var avg := total / |latencies| as real;
    var loss := (|tries| - successCount) as real / |tries| as real * 100.0;
    return Some(ScanResult(endpoint, avg, loss));
  }

  /** Three candidates probed with TestTries tries each: A answers every
      try (50, 60 and 70 ms), B answers one try (200 ms), C answers none
      with 204. A averages 60 ms with no loss, B 200 ms with two of three
      tries lost, and C yields no result. */
  method ThreeCandidates() returns (a: Option<ScanResult>, b: Option<ScanResult>, c: Option<ScanResult>)
    ensures a == Some(ScanResult("A", 60.0, 0.0))
    ensures b == Some(ScanResult("B", 200.0, 2.0 * (100.0 / TestTries as real)))
    ensures c == None
  {
    a := ProbeSteady();
    b := ProbeLossy();
    c := ProbeSilent();
  }

  /** Candidate A: every try answered with 204, at 50, 60 and 70 ms. */
  method ProbeSteady() returns (a: Option<ScanResult>)
    ensures a == Some(ScanResult("A", 60.0, 0.0))
  {
    var ta := [Response(NoContent, 50.0), Response(NoContent, 60.0), Response(NoContent, 70.0)];
    SteadyLatencies(ta);
    a := TestSingleProxy("A", ta);
    assert IsSuccess(ta[0]);
  }

  lemma SteadyLatencies(ta: seq<TryOutcome>)
    requires ta == [Response(NoContent, 50.0), Response(NoContent, 60.0), Response(NoContent, 70.0)]
    ensures |ta| == TestTries
    ensures Mean(SuccessLatencies(ta)) == 60.0
    ensures LossPercent(|ta|, |SuccessLatencies(ta)|) == 0.0
  {
    var ls := [50.0, 60.0, 70.0];
    SuccessLatenciesOfThree(ta);
    assert SuccessLatencies(ta) == ls;
    assert Sum(ls) == 180.0 by {
      assert ls[..2] == [50.0, 60.0];
      assert [50.0, 60.0][..1] == [50.0];
    }
  }

  /** Candidate B: one try answered with 204 at 200 ms, one transport
      error, one 503. */
  method ProbeLossy() returns (b: Option<ScanResult>)
    ensures b == Some(ScanResult("B", 200.0, 2.0 * (100.0 / TestTries as real)))
  {
    var tb := [TransportError, Response(NoContent, 200.0), Response(503, 90.0)];
    LossyLatencies(tb);
    b := TestSingleProxy("B", tb);
    assert IsSuccess(tb[1]);
    LossBounds(3, 1);
  }

  lemma LossyLatencies(tb: seq<TryOutcome>)
    requires tb == [TransportError, Response(NoContent, 200.0), Response(503, 90.0)]
    ensures |tb| == TestTries
    ensures SuccessLatencies(tb) == [200.0]
    ensures Mean(SuccessLatencies(tb)) == 200.0
  {
    SuccessLatenciesOfThree(tb);
    assert Kept(tb[0]) == [] && Kept(tb[1]) == [200.0] && Kept(tb[2]) == [];
    MeanOfOne(200.0);
  }

  lemma MeanOfOne(v: real)
    ensures Mean([v]) == v
  {
    assert [v][..0] == [];
    assert Sum([v]) == v;
  }

  /** Candidate C: no try answered with 204. */
  method ProbeSilent() returns (c: Option<ScanResult>)
    ensures c == None
  {
    var tc := [TransportError, Response(503, 40.0), TransportError];
    c := TestSingleProxy("C", tc);
  }

  /** The latencies of three tries, try by try. */
  lemma SuccessLatenciesOfThree(tries: seq<TryOutcome>)
    requires |tries| == 3
    ensures SuccessLatencies(tries)
         == Kept(tries[0]) + Kept(tries[1]) + Kept(tries[2])
  {
    var t1 := tries[..1];
    var t2 := tries[..2];
    assert t1[..0] == [] && t1[0] == tries[0];
    assert SuccessLatencies(t1) == Kept(tries[0]);
    assert t2[..1] == t1 && t2[1] == tries[1];
    assert SuccessLatencies(t2) == Kept(tries[0]) + Kept(tries[1]);
  }

  /** The latency a single try contributes. */
  function Kept(t: TryOutcome): seq<real> {
    if IsSuccess(t) then [t.latencyMs] else []
  }

  /** The loss rate lies in [0, 100] and is 100 / tries times the number of
      failed tries; it is below 100 whenever some try succeeded. */
  lemma LossBounds(tries: nat, successes: nat)
    requires tries > 0 && successes <= tries
    ensures 0.0 <= LossPercent(tries, successes) <= 100.0
    ensures successes > 0 ==> LossPercent(tries, successes) < 100.0
    ensures LossPercent(tries, successes) == (tries - successes) as real * (100.0 / tries as real)
  {
    var t := tries as real;
    var f := (tries - successes) as real;
    assert f / t <= 1.0 by {
      assert f <= t;
    }
    if successes > 0 {
      assert f / t < 1.0 by {
        assert f < t;
      }
    }
  }

  /** The mean of latencies lies between their minimum and maximum; in
      particular non-negative latencies give a non-negative mean, never the
      -1 the ranking treats as "unreachable". */
  lemma {:induction false} MeanBounds(xs: seq<real>, lo: real, hi: real)
    requires |xs| > 0
    requires forall i :: 0 <= i < |xs| ==> lo <= xs[i] <= hi
    ensures lo <= Mean(xs) <= hi
  {
    SumBounds(xs, lo, hi);
    var n := |xs| as real;
    assert lo * n <= Sum(xs) <= hi * n;
    assert Sum(xs) / n >= lo by {
      assert Sum(xs) >= lo * n;
    }
    assert Sum(xs) / n <= hi by {
      assert Sum(xs) <= hi * n;
    }
  }

  lemma {:induction false} SumBounds(xs: seq<real>, lo: real, hi: real)
    requires forall i :: 0 <= i < |xs| ==> lo <= xs[i] <= hi
    ensures lo * |xs| as real <= Sum(xs) <= hi * |xs| as real
  {
    if |xs| > 0 {
      SumBounds(xs[..|xs| - 1], lo, hi);
    }
  }

  /** Every latency collected comes from a successful try. */
  lemma {:induction false} SuccessLatenciesFrom(tries: seq<TryOutcome>, lo: real)
    requires forall i :: 0 <= i < |tries| ==> tries[i].Response? ==> lo <= tries[i].latencyMs
    ensures forall k :: 0 <= k < |SuccessLatencies(tries)| ==> lo <= SuccessLatencies(tries)[k]
  {
    if |tries| > 0 {
      SuccessLatenciesFrom(tries[..|tries| - 1], lo);
    }
  }

  /** The number of tries answered with 204, counted from the front. */
  function Successes(tries: seq<TryOutcome>): nat {
    if |tries| == 0 then 0
    else (if IsSuccess(tries[0]) then 1 else 0) + Successes(tries[1..])
  }

  lemma {:induction false} SuccessesAppend(s: seq<TryOutcome>, t: TryOutcome)
    ensures Successes(s + [t]) == Successes(s) + (if IsSuccess(t) then 1 else 0)
  {
    if |s| == 0 {
      assert (s + [t])[1..] == [];
    } else {
      assert (s + [t])[1..] == s[1..] + [t];
      SuccessesAppend(s[1..], t);
    }
  }

  /** The try at index i, if answered with 204, contributes its latency at
      the position given by the number of successes before it. */
  lemma {:induction false} SuccessLatencyAt(tries: seq<TryOutcome>, i: nat)
    requires i < |tries| && IsSuccess(tries[i])
    ensures Successes(tries[..i]) < |SuccessLatencies(tries)|
    ensures SuccessLatencies(tries)[Successes(tries[..i])] == tries[i].latencyMs
  {
    var init := tries[..|tries| - 1];
    if i == |tries| - 1 {
      assert tries[..i] == init;
    } else {
      assert init[..i] == tries[..i] && init[i] == tries[i];
      SuccessLatencyAt(init, i);
    }
  }

  /** Every recorded latency is that of some try answered with 204. */
  lemma {:induction false} SuccessLatencyOrigin(tries: seq<TryOutcome>, k: nat)
    requires k < |SuccessLatencies(tries)|
    ensures exists i :: 0 <= i < |tries| && IsSuccess(tries[i])
                     && tries[i].latencyMs == SuccessLatencies(tries)[k]
  {
    var n := |tries| - 1;
    var init := tries[..n];
    if k < |SuccessLatencies(init)| {
      SuccessLatencyOrigin(init, k);
      var i :| 0 <= i < |init| && IsSuccess(init[i]) && init[i].latencyMs == SuccessLatencies(init)[k];
      assert tries[i] == init[i];
    } else {
      assert IsSuccess(tries[n]) && tries[n].latencyMs == SuccessLatencies(tries)[k];
    }
  }

  /** A latency is recorded exactly when some try answered with 204 at that
      latency. */
  lemma SuccessLatenciesMembers(tries: seq<TryOutcome>, v: real)
    ensures v in SuccessLatencies(tries)
        <==> exists i :: 0 <= i < |tries| && IsSuccess(tries[i]) && tries[i].latencyMs == v
  {
    var ls := SuccessLatencies(tries);
    if v in ls {
      var k :| 0 <= k < |ls| && ls[k] == v;
      SuccessLatencyOrigin(tries, k);
    }
    if exists i :: 0 <= i < |tries| && IsSuccess(tries[i]) && tries[i].latencyMs == v {
      var i :| 0 <= i < |tries| && IsSuccess(tries[i]) && tries[i].latencyMs == v;
      SuccessLatencyAt(tries, i);
    }
  }

  /** With non-negative measured latencies, a reported average is never -1. */
  lemma ResultLatencyNonNegative(tries: seq<TryOutcome>)
    requires forall i :: 0 <= i < |tries| ==> tries[i].Response? ==> 0.0 <= tries[i].latencyMs
    requires |SuccessLatencies(tries)| > 0
    ensures Mean(SuccessLatencies(tries)) >= 0.0
  {
    var ls := SuccessLatencies(tries);
    SuccessLatenciesFrom(tries, 0.0);
    var hi := MaxOf(ls);
    MeanBounds(ls, 0.0, hi);
  }

  /** An upper bound of a list of reals. */
  function MaxOf(xs: seq<real>): (m: real)
    ensures forall i :: 0 <= i < |xs| ==> xs[i] <= m
  {
    if |xs| == 0 then 0.0
    else
      var m := MaxOf(xs[..|xs| - 1]);
      assert forall i :: 0 <= i < |xs| - 1 ==> xs[i] == xs[..|xs| - 1][i];
      if xs[|xs| - 1] > m then xs[|xs| - 1] else m
  }
}
