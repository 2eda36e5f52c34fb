/** What a downed server costs: exactly when a heartbeat is lost to the cap or
    never enters the queue. */
module AgentLosses {
  import opened LineFile
  import opened Queue
  import opened StoreModel
  import opened AgentModel
  import opened AgentRuns

  /** This turn loses nothing: if a live send fails, its heartbeat is accepted and
      the queue left by the flush has room for it. */
  predicate HasRoom(w: World, e: Event) {
    e.Tick? && !e.live ==>
      var s := Flush(w.store, e.acks, e.persist);
      Accepts(s, e.data, e.append) && Size(s.entries) + |e.data| + 1 <= s.max
  }

  predicate SameLosses(l: Ledger, t: Ledger) {
    t.evicted == l.evicted && t.rejected == l.rejected
  }

  lemma AppendLosses(s: Store, l: Ledger, id: nat, p: Bytes, f: AppendFault, trim: RewriteFault)
    requires |l.queue| == |s.entries|
    ensures var t := AppendLedger(l, id, Accepts(s, p, f), |DoAppend(s, p, f, trim).entries|);
            && |l.evicted| <= |t.evicted|
            && (Accepts(s, p, f) ==> t.rejected == l.rejected)
            && (SameLosses(l, t) <==> Accepts(s, p, f) && Size(s.entries) + |p| + 1 <= s.max)
  {
    if Accepts(s, p, f) {
      AcceptedTrims(s, p, trim);
      TrimGrown(s.entries, p, s.max);
    }
  }

  /** A step loses no heartbeat to this process exactly when it has room for what it
      must buffer. (A rejected one whose close failed is on disk, and a restart may
      bring it back.) */
  lemma StepCostsNothing(w: World, e: Timed)
    requires |w.ledger.queue| == |w.store.entries|
    ensures SameLosses(w.ledger, Step(w, e).ledger) <==> HasRoom(w, e.event)
    ensures |w.ledger.evicted| <= |Step(w, e).ledger.evicted|
  {
    match e.event
    case BuildError =>
    case Tick(data, acks, persist, live, append, trim) =>
      FlushExact(w.store, acks, persist);
      if !live {
        var l := FlushLedger(w.ledger, AckCount(acks, |w.ledger.queue|));
        AppendLosses(Flush(w.store, acks, persist), l, |w.payloads|, data, append, trim);
      }
    case Retry(acks, persist) =>
    case Cancel =>
  }

  predicate AlwaysHasRoom(w: World, events: seq<Timed>)
    decreases |events|
  {
    events == [] || (HasRoom(w, events[0].event) && AlwaysHasRoom(Step(w, events[0]), events[1..]))
  }

  /** The lists of lost heartbeats only grow. */
  predicate LossesGrow(l: Ledger, t: Ledger) {
    && l.evicted <= t.evicted && l.rejected <= t.rejected
  }

  lemma StepLossesGrow(w: World, e: Timed)
    ensures LossesGrow(w.ledger, Step(w, e).ledger)
  {
  }

  lemma {:induction false} RunLossesGrow(w: World, events: seq<Timed>)
    ensures LossesGrow(w.ledger, RunAgent(w, events).ledger)
    decreases |events|
  {
    if events != [] {
      StepLossesGrow(w, events[0]);
      RunLossesGrow(Step(w, events[0]), events[1..]);
    }
  }

  /** A run loses no heartbeat exactly when every step of it has room. */
  lemma {:induction false} RunCostsNothing(w: World, events: seq<Timed>)
    requires |w.ledger.queue| == |w.store.entries|
    ensures SameLosses(w.ledger, RunAgent(w, events).ledger) <==> AlwaysHasRoom(w, events)
    decreases |events|
  {
    if events != [] {
      var v := Step(w, events[0]);
      StepCostsNothing(w, events[0]);
      StepKeepsLength(w, events[0]);
      StepLossesGrow(w, events[0]);
      RunLossesGrow(v, events[1..]);
      RunCostsNothing(v, events[1..]);
      Between(w.ledger, v.ledger, RunAgent(v, events[1..]).ledger);
    }
  }

  lemma Between(a: Ledger, b: Ledger, c: Ledger)
    requires LossesGrow(a, b) && LossesGrow(b, c)
    ensures SameLosses(a, c) <==> SameLosses(a, b) && SameLosses(b, c)
  {
  }

  /** A turn during an outage of the server: every send fails, and what has to be
      buffered is accepted. */
  predicate Down(w: World, e: Event) {
    match e
    case BuildError => true
    case Tick(data, acks, _, live, append, _) =>
      !live && AckCount(acks, |w.store.entries|) == 0 && Accepts(w.store, data, append)
    case Retry(acks, _) => AckCount(acks, |w.store.entries|) == 0
    case Cancel => false
  }

  predicate Downtime(w: World, events: seq<Timed>)
    decreases |events|
  {
    || events == []
    || (Enabled(w, events[0]) && Down(w, events[0].event) && Downtime(Step(w, events[0]), events[1..]))
  }

  lemma FailedFlush(s: Store, acks: seq<bool>, f: RewriteFault)
    requires AckCount(acks, |s.entries|) == 0
    ensures Flush(s, acks, f) == s
  {
  }

  /** Bytes the ticks of a run would add to the queue. */
  function Volume(events: seq<Timed>): nat {
    if events == [] then 0
    else (if events[0].event.Tick? then |events[0].event.data| + 1 else 0) + Volume(events[1..])
  }

  /** What one turn of an outage does to the queue and the losses. */
  lemma OutageTurn(w: World, e: Timed)
    requires |w.ledger.queue| == |w.store.entries| && Down(w, e.event)
    ensures var v := Step(w, e);
            && v.store.max == w.store.max && v.ledger.rejected == w.ledger.rejected
            && |w.ledger.evicted| <= |v.ledger.evicted|
            && (e.event.Tick? ==>
                  var grown := Size(w.store.entries) + |e.event.data| + 1;
                  && (grown <= w.store.max ==> v.ledger.evicted == w.ledger.evicted && Size(v.store.entries) == grown)
                  && (grown > w.store.max ==> |v.ledger.evicted| > |w.ledger.evicted|))
            && (!e.event.Tick? ==> v.ledger.evicted == w.ledger.evicted && v.store.entries == w.store.entries)
  {
    match e.event
    case BuildError =>
    case Tick(data, acks, persist, live, append, trim) =>
      FailedFlush(w.store, acks, persist);
      AppendMax(w.store, data, append, trim);
      AcceptedTrims(w.store, data, trim);
      TrimGrown(w.store.entries, data, w.store.max);
      SizeSnoc(w.store.entries, data);
    case Retry(acks, persist) =>
      FailedFlush(w.store, acks, persist);
  }

  lemma AppendMax(s: Store, p: Bytes, f: AppendFault, trim: RewriteFault)
    ensures DoAppend(s, p, f, trim).max == s.max
  {
  }

  lemma {:induction false} OutageOnlyEvicts(w: World, events: seq<Timed>)
    requires |w.ledger.queue| == |w.store.entries| && Downtime(w, events)
    ensures var v := RunAgent(w, events);
            v.ledger.rejected == w.ledger.rejected && |w.ledger.evicted| <= |v.ledger.evicted|
    decreases |events|
  {
    if events != [] {
      OutageTurn(w, events[0]);
      StepKeepsLength(w, events[0]);
      OutageOnlyEvicts(Step(w, events[0]), events[1..]);
    }
  }

  /** Over a whole outage whose appends are accepted nothing is rejected, and
      nothing is evicted exactly when the queue and everything built meanwhile
      fit the cap together. */
  lemma {:induction false} OutageCostsNothing(w: World, events: seq<Timed>)
    requires |w.ledger.queue| == |w.store.entries| && Downtime(w, events)
    requires Size(w.store.entries) <= w.store.max
    ensures var v := RunAgent(w, events);
            && v.ledger.rejected == w.ledger.rejected
            && (v.ledger.evicted == w.ledger.evicted <==> Size(w.store.entries) + Volume(events) <= w.store.max)
    decreases |events|
  {
    if events != [] {
      var v := Step(w, events[0]);
      OutageTurn(w, events[0]);
      StepKeepsLength(w, events[0]);
      if Size(v.store.entries) <= v.store.max && v.ledger.evicted == w.ledger.evicted {
        OutageCostsNothing(v, events[1..]);
      } else {
        OutageOnlyEvicts(v, events[1..]);
      }
    }
  }

  /** Runs in which a downed server costs data: under any cap, two heartbeats that
      fit it one by one but not together, built an interval apart, and no send
      that succeeds. */
  lemma LosingRun(max: int, p: Bytes, q: Bytes)
    requires |p| + 1 <= max && |q| + 1 <= max && |p| + |q| + 2 > max
    ensures var w := Start(Store(max, true, [], [], [], [], []), SECOND, 0);
            var events := [Timed(SECOND, Tick(p, [], RewriteOk, false, AppendOk, RewriteOk)),
                           Timed(2 * SECOND, Tick(q, [], RewriteOk, false, AppendOk, RewriteOk))];
            && Possible(w, events) && RunAgent(w, events).ledger.evicted != []
  {
    var w := Start(Store(max, true, [], [], [], [], []), SECOND, 0);
    var a := Timed(SECOND, Tick(p, [], RewriteOk, false, AppendOk, RewriteOk));
    var b := Timed(2 * SECOND, Tick(q, [], RewriteOk, false, AppendOk, RewriteOk));
    OutageTurn(w, a);
    StepKeepsLength(w, a);
    FailingTick(w, a);
    TwoTurns(w, a, b);
    assert [a, b][1..] == [b] && Volume([b][1..]) == 0;
    OutageCostsNothing(w, [a, b]);
  }

  lemma FailingTick(w: World, e: Timed)
    requires e.event.Tick? && !e.event.live
    ensures Step(w, e).now == e.at && Step(w, e).stopped == w.stopped
  {
  }

  lemma TwoTurns(w: World, a: Timed, b: Timed)
    requires Enabled(w, a) && Down(w, a.event)
    requires Enabled(Step(w, a), b) && Down(Step(w, a), b.event)
    ensures Possible(w, [a, b]) && Downtime(w, [a, b])
  {
    var v := Step(w, a);
    assert Possible(v, [b]) && Downtime(v, [b]) by { assert [b][1..] == []; }
    assert [a, b][1..] == [b];
  }
}
