/** From collectors to payload: gathering in whatever order the map is walked,
    then filtering by name and capping. */
module Heartbeat {
  import opened MetricName
  import opened Strings
  import opened Queue

  datatype Metric = Metric(name: string, value: real, unit: string)

  /** What one collector's run came to. */
  datatype Outcome = Success(metrics: seq<Metric>) | NoData | Cancelled | Failed

  const MAX_METRICS: nat := 100
  const ERRORS_NAME: string := "agent" + "." + "collector_errors_count"

  function ErrorsMetric(n: nat): Metric {
    Metric(ERRORS_NAME, n as real, "count")
  }

  function Collected(outcomes: seq<Outcome>): seq<Metric> {
    if outcomes == [] then []
    else (if outcomes[0].Success? then outcomes[0].metrics else []) + Collected(outcomes[1..])
  }

  /** Real failures; no data and a cancelled cycle are not. */
  function Failures(outcomes: seq<Outcome>): nat {
    if outcomes == [] then 0 else (if outcomes[0].Failed? then 1 else 0) + Failures(outcomes[1..])
  }

  function Gathered(outcomes: seq<Outcome>): seq<Metric> {
    Collected(outcomes) + if Failures(outcomes) > 0 then [ErrorsMetric(Failures(outcomes))] else []
  }

  /** The collecting loop, in the order the map happens to be walked. */
  method Collect(outcomes: seq<Outcome>) returns (all: seq<Metric>)
    ensures all == Gathered(outcomes)
  {
    all := [];
    var errorsCount := 0;
    for i := 0 to |outcomes|
      invariant all == Collected(outcomes[..i]) && errorsCount == Failures(outcomes[..i])
    {
      OutcomeSnoc(outcomes[..i], outcomes[i]);
      assert outcomes[..i] + [outcomes[i]] == outcomes[..i + 1];
      match outcomes[i] {
        case Success(metrics) => all := all + metrics;
        case NoData =>
        case Cancelled =>
        case Failed => errorsCount := errorsCount + 1;
      }
    }
    assert outcomes[..|outcomes|] == outcomes;
    if errorsCount > 0 {
      all := all + [ErrorsMetric(errorsCount)];
    }
  }

  lemma {:induction false} OutcomeConcat(a: seq<Outcome>, b: seq<Outcome>)
    ensures Collected(a + b) == Collected(a) + Collected(b)
    ensures Failures(a + b) == Failures(a) + Failures(b)
  {
    if a == [] {
      assert a + b == b;
    } else {
      assert (a + b)[1..] == a[1..] + b;
      OutcomeConcat(a[1..], b);
    }
  }

  lemma OutcomeOne(o: Outcome)
    ensures Collected([o]) == if o.Success? then o.metrics else []
    ensures Failures([o]) == if o.Failed? then 1 else 0
  {
  }

  lemma OutcomeSnoc(a: seq<Outcome>, o: Outcome)
    ensures Collected(a + [o]) == Collected(a) + if o.Success? then o.metrics else []
    ensures Failures(a + [o]) == Failures(a) + if o.Failed? then 1 else 0
  {
    OutcomeConcat(a, [o]);
    OutcomeOne(o);
  }

  /** How many of these outcomes are failures: a success, an empty result and a
      cancelled run are none. */
  function FailedRuns(outcomes: seq<Outcome>): set<nat> {
    set i: nat | i < |outcomes| && outcomes[i] == Failed
  }

  lemma {:induction false} FailuresAre(outcomes: seq<Outcome>)
    ensures Failures(outcomes) == |FailedRuns(outcomes)|
  {
    if outcomes == [] {
      assert FailedRuns(outcomes) == {};
    } else {
      var n := |outcomes| - 1;
      var before := outcomes[..n];
      FailuresAre(before);
      assert outcomes == before + [outcomes[n]];
      OutcomeSnoc(before, outcomes[n]);
      assert FailedRuns(outcomes) == FailedRuns(before) + if outcomes[n] == Failed then {n} else {};
    }
  }

  /** What is gathered ends in the failure count exactly when some run failed; in front
      of it are the collected metrics and nothing else. */
  lemma GatheredEnds(outcomes: seq<Outcome>)
    ensures var all, n := Gathered(outcomes), |FailedRuns(outcomes)|;
            if n == 0 then all == Collected(outcomes)
            else all == Collected(outcomes) + [Metric("agent.collector_errors_count", n as real, "count")]
  {
    FailuresAre(outcomes);
    assert "agent" + "." + "collector_errors_count" == "agent.collector_errors_count";
  }

  /** Each success contributes exactly its metrics, behind those of the runs before it;
      every other run contributes nothing. */
  lemma CollectedAt(outcomes: seq<Outcome>, k: nat)
    requires k < |outcomes|
    ensures var from, to := |Collected(outcomes[..k])|, |Collected(outcomes[..k + 1])|;
            && from <= to <= |Collected(outcomes)|
            && Collected(outcomes)[from..to] == if outcomes[k].Success? then outcomes[k].metrics else []
    ensures Collected(outcomes[..0]) == [] && Collected(outcomes[..|outcomes|]) == Collected(outcomes)
  {
    OutcomeSnoc(outcomes[..k], outcomes[k]);
    OutcomeConcat(outcomes[..k + 1], outcomes[k + 1..]);
    assert outcomes[..k] + [outcomes[k]] == outcomes[..k + 1];
    assert outcomes[..k + 1] + outcomes[k + 1..] == outcomes;
    assert outcomes[..|outcomes|] == outcomes;
  }

  // ------------------------------------------------------------ any order

  /** Taking one outcome out of the middle. */
  lemma OutcomeAt(b: seq<Outcome>, j: nat)
    requires j < |b|
    ensures var rest := b[..j] + b[j + 1..];
            && multiset(b) == multiset{b[j]} + multiset(rest)
            && multiset(Collected(b)) == multiset(Collected([b[j]])) + multiset(Collected(rest))
            && Failures(b) == Failures([b[j]]) + Failures(rest)
  {
    assert b == b[..j] + ([b[j]] + b[j + 1..]);
    OutcomeConcat(b[..j], [b[j]] + b[j + 1..]);
    OutcomeConcat([b[j]], b[j + 1..]);
    OutcomeConcat(b[..j], b[j + 1..]);
  }

  /** The order of the walk changes neither which metrics are gathered nor how
      many failures are reported. */
  lemma {:induction false} AnyOrder(a: seq<Outcome>, b: seq<Outcome>)
    requires multiset(a) == multiset(b)
    ensures multiset(Collected(a)) == multiset(Collected(b)) && Failures(a) == Failures(b)
    decreases |a|
  {
    if a == [] {
      assert |multiset(b)| == 0;
    } else {
      assert a[0] in multiset(b);
      var j :| 0 <= j < |b| && b[j] == a[0];
      var rest := b[..j] + b[j + 1..];
      OutcomeAt(b, j);
      OutcomeHead(a);
      Cancel(multiset{a[0]}, multiset(a[1..]), multiset(rest));
      AnyOrder(a[1..], rest);
    }
  }

  lemma OutcomeHead(a: seq<Outcome>)
    requires a != []
    ensures multiset(a) == multiset{a[0]} + multiset(a[1..])
    ensures multiset(Collected(a)) == multiset(Collected([a[0]])) + multiset(Collected(a[1..]))
    ensures Failures(a) == Failures([a[0]]) + Failures(a[1..])
  {
    assert a == [a[0]] + a[1..];
    OutcomeConcat([a[0]], a[1..]);
  }

  lemma Cancel<T>(x: multiset<T>, a: multiset<T>, b: multiset<T>)
    requires x + a == x + b
    ensures a == b
  {
    assert (x + a) - x == a && (x + b) - x == b;
  }

  /** Two walks gather the same metrics, and end in the same failure count when
      there is one. */
  lemma GatheredAnyOrder(a: seq<Outcome>, b: seq<Outcome>)
    requires multiset(a) == multiset(b)
    ensures multiset(Gathered(a)) == multiset(Gathered(b))
    ensures Failures(a) > 0 ==> Gathered(a)[|Gathered(a)| - 1] == Gathered(b)[|Gathered(b)| - 1]
  {
    AnyOrder(a, b);
  }

  // ------------------------------------------------------------ filter and cap

  function Filter(metrics: seq<Metric>): seq<Metric> {
    if metrics == [] then []
    else (if ValidMetricName(metrics[0].name) then [metrics[0]] else []) + Filter(metrics[1..])
  }

  function Take(metrics: seq<Metric>, n: nat): (t: seq<Metric>)
    ensures t <= metrics && |t| <= n
  {
    if |metrics| <= n then metrics else metrics[..n]
  }

  /** The filtering loop: skip invalid names, stop at the cap. */
  method BuildMetrics(metrics: seq<Metric>) returns (r: seq<Metric>)
    ensures r == Take(Filter(metrics), MAX_METRICS)
    ensures r <= Filter(metrics) && |r| == if |Filter(metrics)| < 100 then |Filter(metrics)| else 100
  {
    r := [];
    var i := 0;
    while i < |metrics|
      invariant i <= |metrics| && r + Filter(metrics[i..]) == Filter(metrics) && |r| < MAX_METRICS
      decreases |metrics| - i
    {
      var m := metrics[i];
      FilterHead(r, metrics, i);
      i := i + 1;
      if !ValidMetricName(m.name) {
        continue;
      }
      r := r + [m];
      if |r| >= MAX_METRICS {
        break;
      }
    }
  }

  /** One turn of the filtering loop. */
  lemma FilterHead(r: seq<Metric>, metrics: seq<Metric>, i: nat)
    requires i < |metrics|
    ensures r + Filter(metrics[i..]) ==
            (if ValidMetricName(metrics[i].name) then r + [metrics[i]] else r) + Filter(metrics[i + 1..])
  {
    assert metrics[i..][1..] == metrics[i + 1..];
  }

  lemma {:induction false} FilterConcat(a: seq<Metric>, b: seq<Metric>)
    ensures Filter(a + b) == Filter(a) + Filter(b)
  {
    if a == [] {
      assert a + b == b;
    } else {
      assert (a + b)[1..] == a[1..] + b;
      FilterConcat(a[1..], b);
    }
  }

  lemma FilterSnoc(a: seq<Metric>, m: Metric)
    ensures Filter(a + [m]) == Filter(a) + if ValidMetricName(m.name) then [m] else []
  {
    FilterConcat(a, [m]);
    assert Filter([m][1..]) == [];
  }

  /** The filter keeps each valid metric as often as it occurs, drops every
      invalid one, and does not reorder. */
  lemma {:induction false} FilterExact(metrics: seq<Metric>, m: Metric)
    ensures multiset(Filter(metrics))[m] == if ValidMetricName(m.name) then multiset(metrics)[m] else 0
    ensures IsSubseq(Filter(metrics), metrics)
  {
    if metrics != [] {
      FilterExact(metrics[1..], m);
      assert metrics == [metrics[0]] + metrics[1..];
      var rest := Filter(metrics[1..]);
      if ValidMetricName(metrics[0].name) {
        assert Filter(metrics)[1..] == rest;
      } else {
        assert Filter(metrics) == rest;
      }
    }
  }

  // ------------------------------------------------------------ end to end

  lemma ErrorsNameValid()
    ensures ValidMetricName(ERRORS_NAME)
  {
    assert Segment("agent");
    assert Segment("collector_errors_count");
    TwoSegments(ERRORS_NAME, "agent", "collector_errors_count");
    NameFits(ERRORS_NAME);
  }

  lemma NameFits(name: string)
    requires InLanguage(name) && |name| <= MAX_NAME_LEN
    ensures ValidMetricName(name)
  {
    ValidNames(name);
  }

  lemma TwoSegments(name: string, a: string, b: string)
    requires name == a + "." + b && Segment(a) && Segment(b)
    ensures InLanguage(name)
  {
    NoDots(b);
    SplitWhole(b, '.');
    SegmentsFirst(a, b);
  }

  /** The failure count reaches the server exactly when there were failures and
      fewer than a hundred valid metrics were gathered before it. */
  lemma ErrorsReported(outcomes: seq<Outcome>)
    ensures var own := Filter(Collected(outcomes));
            var n := Failures(outcomes);
            Take(Filter(Gathered(outcomes)), 100) == own + [ErrorsMetric(n)] <==> n > 0 && |own| < 100
  {
    var n := Failures(outcomes);
    ErrorsNameValid();
    FilterSnoc(Collected(outcomes), ErrorsMetric(n));
    assert Collected(outcomes) + [] == Collected(outcomes);
  }

  lemma {:induction false} FilterAnyOrder(a: seq<Metric>, b: seq<Metric>)
    requires multiset(a) == multiset(b)
    ensures multiset(Filter(a)) == multiset(Filter(b))
  {
    forall m: Metric ensures multiset(Filter(a))[m] == multiset(Filter(b))[m] {
      FilterExact(a, m);
      FilterExact(b, m);
    }
  }

  /** Below the cap the payload carries the same metrics whatever the order of
      the walk. */
  lemma HeartbeatAnyOrder(a: seq<Outcome>, b: seq<Outcome>)
    requires multiset(a) == multiset(b) && |Filter(Gathered(a))| <= 100
    ensures multiset(Take(Filter(Gathered(a)), 100)) == multiset(Take(Filter(Gathered(b)), 100))
  {
    GatheredAnyOrder(a, b);
    FilterAnyOrder(Gathered(a), Gathered(b));
    assert |multiset(Filter(Gathered(a)))| == |multiset(Filter(Gathered(b)))|;
  }
}
