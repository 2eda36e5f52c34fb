/** The retry timer over whole runs: when it is armed, how outages are paced,
    and how the agent catches up. */
module AgentTimers {
  import opened StoreModel
  import opened AgentModel
  import AgentRuns
  import opened Backoff

  // ------------------------------------------------------------ armed or not

  /** Did the last completed send leave work: a failed live send, or a retry
      that left entries? A build error completes no send. */
  predicate LastSendBad(w: World, events: seq<Timed>, bad: bool)
    decreases |events|
  {
    if events == [] then bad
    else
      var v := Step(w, events[0]);
      var now := match events[0].event
                 case BuildError => bad
                 case Tick(_, _, _, live, _, _) => !live
                 case Retry(_, _) => v.store.entries != []
                 case Cancel => false;
      LastSendBad(v, events[1..], now)
  }

  /** At every loop head the timer is armed exactly when the last send was bad. */
  lemma {:induction false} ArmedIffLastSendBad(w: World, events: seq<Timed>)
    ensures RunAgent(w, events).timer.armed <==> LastSendBad(w, events, w.timer.armed)
    decreases |events|
  {
    if events != [] {
      ArmedIffLastSendBad(Step(w, events[0]), events[1..]);
    }
  }

  predicate ArmedHasWork(w: World) {
    w.timer.armed ==> w.store.entries != []
  }

  /** A failing tick whose heartbeat was not accepted, with nothing else queued. */
  predicate LeavesNothing(w: World, e: Event) {
    && e.Tick? && !e.live
    && AckCount(e.acks, |w.store.entries|) == |w.store.entries|
    && !Accepts(Flush(w.store, e.acks, e.persist), e.data, e.append)
  }

  /** The timer is never armed over an empty buffer, except by such a tick. */
  lemma StepKeepsWork(w: World, e: Timed)
    requires ArmedHasWork(w)
    ensures ArmedHasWork(Step(w, e)) <==> !LeavesNothing(w, e.event)
  {
    match e.event
    case BuildError =>
    case Tick(data, acks, persist, live, append, trim) =>
      var s := Flush(w.store, acks, persist);
      AgentRuns.FlushExact(w.store, acks, persist);
      if Accepts(s, data, append) {
        AgentRuns.AcceptedTrims(s, data, trim);
      } else {
        AgentRuns.RejectedKeeps(s, data, append, trim);
      }
    case Retry(acks, persist) =>
    case Cancel =>
  }

  predicate AlwaysLeavesWork(w: World, events: seq<Timed>)
    decreases |events|
  {
    events == [] || (!LeavesNothing(w, events[0].event) && AlwaysLeavesWork(Step(w, events[0]), events[1..]))
  }

  /** Work whenever armed, at every loop head of the run. */
  predicate AlwaysHasWork(w: World, events: seq<Timed>)
    decreases |events|
  {
    ArmedHasWork(w) && (events == [] || AlwaysHasWork(Step(w, events[0]), events[1..]))
  }

  /** A run keeps the timer disarmed over an empty buffer at every loop head
      exactly when no tick in it leaves nothing. */
  lemma {:induction false} RunKeepsWork(w: World, events: seq<Timed>)
    requires ArmedHasWork(w)
    ensures AlwaysHasWork(w, events) <==> AlwaysLeavesWork(w, events)
    decreases |events|
  {
    if events != [] {
      var v := Step(w, events[0]);
      StepKeepsWork(w, events[0]);
      if ArmedHasWork(v) {
        RunKeepsWork(v, events[1..]);
      } else {
        assert !AlwaysHasWork(v, events[1..]);
      }
    }
  }

  // ------------------------------------------------------------ every turn

  /** The timer u is t armed at this time: due after the delay t was at, which is
      doubled up to the cap for the next one. */
  predicate Armed(t: Timer, u: Timer, at: int) {
    && u.armed && u.due == at + t.current && u.delays == t.delays + [t.current]
    && (0 < t.current <= t.max <= 0x3FFF_FFFF_FFFF_FFFF ==>
          u.current == if 2 * t.current > t.max then t.max else 2 * t.current)
  }

  /** What every turn does to the timer. Only a live send that succeeds and a retry
      that leaves nothing reset it. A failing tick leaves a pending timer alone, and
      a retry that leaves entries takes the next delay, whatever it sent. */
  lemma StepTimer(w: World, e: Timed)
    ensures var v := Step(w, e);
            var t, u := w.timer, v.timer;
            && u.min == t.min && u.max == t.max
            && match e.event
               case BuildError => u == t
               case Tick(_, _, _, live, _, _) =>
                 if live then FreshTimer(u) else if t.armed then u == t else Armed(t, u, e.at)
               case Retry(_, _) => if v.store.entries == [] then FreshTimer(u) else Armed(t, u, e.at)
               case Cancel => !u.armed && u.current == t.current
  {
    if 0 < w.timer.current <= w.timer.max <= HALF {
      AdvanceIs(w.timer.current, w.timer.max);
    }
  }

  // ------------------------------------------------------------ outage

  /** A turn of the loop that ends on a failure: a tick whose live send fails, or a
      retry that leaves entries, whatever either of them sent before that. */
  predicate Failing(w: World, e: Event) {
    match e
    case BuildError => true
    case Tick(_, _, _, live, _, _) => !live
    case Retry(acks, persist) => Flush(w.store, acks, persist).entries != []
    case Cancel => false
  }

  predicate Outage(w: World, events: seq<Timed>)
    decreases |events|
  {
    || events == []
    || (Enabled(w, events[0]) && Failing(w, events[0].event) && Outage(Step(w, events[0]), events[1..]))
  }

  function Retries(events: seq<Timed>): nat {
    if events == [] then 0 else (if events[0].event.Retry? then 1 else 0) + Retries(events[1..])
  }

  /** Since the reset at time `start`: delays so far follow the closed form, one
      per retry and one pending, the waits imposed have really passed, and the
      pending one is no longer than its delay. */
  predicate Paced(t: Timer, start: int, now: int, retries: nat) {
    && 0 < t.min <= t.max <= HALF
    && t.current == Capped(t.min, t.max, |t.delays|)
    && t.delays == Schedule(t.min, t.max, |t.delays|)
    && (if t.armed then
          && |t.delays| == retries + 1
          && start + TotalWait(t.min, t.max, retries + 1) <= t.due <= now + Capped(t.min, t.max, retries)
        else |t.delays| == 0 == retries)
    && now >= start + TotalWait(t.min, t.max, retries)
  }

  lemma FiredAgain(t: Timer, start: int, now: int, retries: nat, at: int)
    requires Paced(t, start, now, retries) && t.armed && t.due <= at
    ensures Paced(Arm(Disarm(t), at), start, at, retries + 1)
  {
    CappedStep(t.min, t.max, |t.delays|);
  }

  lemma ArmedByTick(t: Timer, start: int, now: int, retries: nat, at: int)
    requires Paced(t, start, now, retries) && now <= at
    ensures Paced(Arm(t, at), start, at, retries)
  {
  }

  /** What a failing turn does to the timer: a tick arms it unless it is already
      pending, a retry uses up the pending delay and arms it again. */
  function TimerStep(t: Timer, e: Timed): Timer {
    match e.event
    case Tick(_, _, _, _, _, _) => Arm(t, e.at)
    case Retry(_, _) => Arm(Disarm(t), e.at)
    case _ => t
  }

  function TimerRun(t: Timer, events: seq<Timed>): Timer
    decreases |events|
  {
    if events == [] then t else TimerRun(TimerStep(t, events[0]), events[1..])
  }

  function Clock(now: int, events: seq<Timed>): int
    decreases |events|
  {
    if events == [] then now else Clock(events[0].at, events[1..])
  }

  /** Time does not run backwards, and a retry happens only when it is due. */
  predicate OnTime(t: Timer, now: int, events: seq<Timed>)
    decreases |events|
  {
    || events == []
    || (&& now <= events[0].at
        && (events[0].event.Retry? ==> t.armed && t.due <= events[0].at)
        && OnTime(TimerStep(t, events[0]), events[0].at, events[1..]))
  }

  /** A failing turn does to the timer what TimerStep says, whatever it sent and
      whether or not its heartbeat was accepted. */
  lemma OutageStep(w: World, e: Timed)
    requires Enabled(w, e) && Failing(w, e.event)
    ensures var v := Step(w, e);
            v.timer == TimerStep(w.timer, e) && v.now == e.at && v.stopped == w.stopped
  {
  }

  lemma {:induction false} OutageRun(w: World, events: seq<Timed>)
    requires Outage(w, events)
    ensures var v := RunAgent(w, events);
            && v.timer == TimerRun(w.timer, events) && v.now == Clock(w.now, events)
            && OnTime(w.timer, w.now, events)
    decreases |events|
  {
    if events != [] {
      OutageStep(w, events[0]);
      OutageRun(Step(w, events[0]), events[1..]);
    }
  }

  lemma {:induction false} TimerPacing(t: Timer, now: int, events: seq<Timed>, start: int, retries: nat)
    requires Paced(t, start, now, retries) && OnTime(t, now, events)
    ensures var u := TimerRun(t, events);
            && Paced(u, start, Clock(now, events), retries + Retries(events))
            && u.min == t.min && u.max == t.max
    decreases |events|
  {
    if events != [] {
      var e := events[0];
      if e.event.Tick? {
        ArmedByTick(t, start, now, retries, e.at);
      } else if e.event.Retry? {
        FiredAgain(t, start, now, retries, e.at);
      }
      TimerPacing(TimerStep(t, e), e.at, events[1..], start, retries + if e.event.Retry? then 1 else 0);
    }
  }

  predicate FreshTimer(t: Timer) {
    !t.armed && t.current == t.min && t.delays == []
  }

  lemma FreshTimerPacing(t: Timer, now: int, events: seq<Timed>)
    requires FreshTimer(t) && 0 < t.min <= t.max <= HALF && OnTime(t, now, events)
    ensures var u := TimerRun(t, events);
            && u.min == t.min && u.max == t.max
            && OutageFacts(u, now, Clock(now, events), Retries(events))
  {
    assert Paced(t, now, now, 0);
    TimerPacing(t, now, events, now, 0);
    PacedFacts(TimerRun(t, events), now, Clock(now, events), Retries(events));
  }

  /** An outage from a freshly reset timer, however long, whatever the disk does, and
      whatever gets through before each failure: the delays follow the schedule of doublings, there
      has been no reset (each retry used up one delay and at most one is
      pending), the delays used have really passed, the pending one is no longer
      than scheduled, and so the number of retries is bounded by the ramp plus
      one per cap length. */
  lemma OutagePacing(w: World, events: seq<Timed>)
    requires FreshTimer(w.timer) && 0 < w.timer.min <= w.timer.max <= HALF
    requires Outage(w, events)
    ensures var v := RunAgent(w, events);
            && v.timer.min == w.timer.min && v.timer.max == w.timer.max
            && OutageFacts(v.timer, w.now, v.now, Retries(events))
  {
    OutageRun(w, events);
    FreshTimerPacing(w.timer, w.now, events);
  }

  /** What the timer looks like at time `now`, n retries into an outage. */
  predicate OutageFacts(t: Timer, start: int, now: int, n: nat)
    requires 0 < t.min <= t.max
  {
    && t.delays == Schedule(t.min, t.max, n + if t.armed then 1 else 0)
    && TotalWait(t.min, t.max, n) <= now - start
    && n <= Ramp(t.min, t.max) + (now - start) / t.max
    && (t.armed ==> t.due <= now + Capped(t.min, t.max, n))
  }

  lemma PacedFacts(t: Timer, start: int, now: int, retries: nat)
    requires Paced(t, start, now, retries)
    ensures OutageFacts(t, start, now, retries)
  {
    WaitIsNatural(t.min, t.max, retries);
    RetriesThatFit(t.min, t.max, retries, now - start);
  }

  lemma {:induction false} WaitIsNatural(min: int, max: int, n: nat)
    requires 0 < min <= max
    ensures TotalWait(min, max, n) >= 0
  {
    if n > 0 {
      WaitIsNatural(min, max, n - 1);
      DoubledGrows(min, 0, n - 1);
    }
  }

  /** The agent's own timer starts at one second, in nanoseconds, and is capped at
      the heartbeat interval, or at one second if the interval is shorter. */
  lemma NewTimerIsFresh(interval: int)
    ensures var t := NewTimer(interval);
            && FreshTimer(t) && t.min == 1_000_000_000
            && t.max == (if interval < 1_000_000_000 then 1_000_000_000 else interval)
            && (interval <= HALF ==> 0 < t.min <= t.max <= HALF)
  {
  }

  // ------------------------------------------------------------ recovery

  /** From any state, a tick or retry whose sends all succeed ends with nothing
      queued and a freshly reset timer, and with an empty file too when the
      flush sent something and the compaction succeeds. */
  lemma CatchesUp(w: World, e: Timed)
    requires e.event.Retry? || (e.event.Tick? && e.event.live)
    requires AckCount(e.event.acks, |w.store.entries|) == |w.store.entries| == |w.ledger.queue|
    ensures var v := Step(w, e);
            && v.store.entries == [] && v.ledger.queue == []
            && FreshTimer(v.timer)
            && v.ledger.drained == w.ledger.drained + w.ledger.queue
            && (w.store.entries != [] && e.event.persist.RewriteOk? ==> v.store.file == [])
            && (w.store.entries == [] ==> v.store.file == w.store.file)
  {
    AgentRuns.FlushExact(w.store, e.event.acks, e.event.persist);
  }
}
