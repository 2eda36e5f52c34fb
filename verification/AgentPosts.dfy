/** At-least-once for one life of the agent, as the server sees it: nothing is
    logged as delivered but what was acknowledged in a POST. */
module AgentPosts {
  import opened LineFile
  import opened Queue
  import opened StoreModel
  import opened Durability
  import opened AgentModel
  import opened AgentRuns
  import opened AgentDurability

  /** From position `from` on, what the log calls delivered was acknowledged. */
  predicate Answered(exits: seq<Exit>, from: nat, accepted: seq<Bytes>, acked: seq<Bytes>) {
    forall j :: from <= j < |exits| && exits[j].Delivered? ==>
      0 <= exits[j].index < |accepted| && accepted[exits[j].index] in acked
  }

  lemma AnsweredGrows(exits: seq<Exit>, from: nat, accepted: seq<Bytes>, acked: seq<Bytes>,
                      added: seq<Bytes>, more: seq<Bytes>)
    requires Answered(exits, from, accepted, acked)
    ensures Answered(exits, from, accepted + added, acked + more)
  {
  }

  lemma AnsweredConcat(a: seq<Exit>, b: seq<Exit>, from: nat, accepted: seq<Bytes>, acked: seq<Bytes>)
    requires Answered(a, from, accepted, acked) && Answered(b, 0, accepted, acked)
    ensures Answered(a + b, from, accepted, acked)
  {
    var all := a + b;
    forall j | from <= j < |all|
      ensures all[j].Delivered? ==> 0 <= all[j].index < |accepted| && accepted[all[j].index] in acked
    {
      if j < |a| {
        assert all[j] == a[j];
      } else {
        assert all[j] == b[j - |a|];
      }
    }
  }

  lemma EvictionsAnswered(first: int, n: nat, accepted: seq<Bytes>, acked: seq<Bytes>)
    ensures Answered(Evictions(first, n), 0, accepted, acked)
  {
    EvictionsInTurn(first, n);
    forall j | 0 <= j < n ensures Evictions(first, n)[j].Evicted? {
      assert Evictions(first, n)[j] in Evictions(first, n);
    }
  }

  /** These indices name acknowledged payloads. */
  predicate InRange(from: int, to: int, accepted: seq<Bytes>, acked: seq<Bytes>) {
    0 <= from <= to <= |accepted| && forall i :: from <= i < to ==> accepted[i] in acked
  }

  lemma {:induction false} DeliveriesAnswered(first: int, n: nat, accepted: seq<Bytes>, acked: seq<Bytes>)
    requires InRange(first, first + n, accepted, acked)
    ensures Answered(Deliveries(first, n), 0, accepted, acked)
    decreases n
  {
    if n > 0 {
      DeliveriesAnswered(first + 1, n - 1, accepted, acked);
      AnsweredConcat([Delivered(first)], Deliveries(first + 1, n - 1), 0, accepted, acked);
    }
  }

  lemma FrontOfSuffix(entries: seq<Bytes>, accepted: seq<Bytes>, k: nat)
    requires IsSuffix(entries, accepted) && k <= |entries|
    ensures InRange(|accepted| - |entries|, |accepted| - |entries| + k, accepted, entries[..k])
  {
    var head := |accepted| - |entries|;
    forall i | head <= i < head + k ensures accepted[i] in entries[..k] {
      assert entries[..k][i - head] == accepted[i];
    }
  }

  lemma AnsweredByMore(exits: seq<Exit>, from: nat, accepted: seq<Bytes>, a: seq<Bytes>, b: seq<Bytes>)
    requires Answered(exits, from, accepted, a) || Answered(exits, from, accepted, b)
    ensures Answered(exits, from, accepted, a + b)
  {
  }

  lemma PoppedAnswered(s: Store, t: Store, from: nat, acked: seq<Bytes>, k: nat)
    requires IsSuffix(s.entries, s.accepted) && Answered(s.exits, from, s.accepted, acked) && k <= |s.entries|
    requires t.entries == s.entries[k..] && t.accepted == s.accepted
    requires t.exits == s.exits + Deliveries(Head(s), k)
    ensures IsSuffix(t.entries, t.accepted) && Answered(t.exits, from, t.accepted, acked + s.entries[..k])
  {
    var gone := Deliveries(Head(s), k);
    FrontOfSuffix(s.entries, s.accepted, k);
    DeliveriesAnswered(Head(s), k, s.accepted, s.entries[..k]);
    AnsweredByMore(gone, 0, s.accepted, acked, s.entries[..k]);
    AnsweredByMore(s.exits, from, s.accepted, acked, s.entries[..k]);
    AnsweredConcat(s.exits, gone, from, s.accepted, acked + s.entries[..k]);
    SuffixDrop(s.entries, s.accepted, k);
  }

  lemma FlushAnswered(s: Store, from: nat, acked: seq<Bytes>, acks: seq<bool>, f: RewriteFault)
    requires IsSuffix(s.entries, s.accepted) && Answered(s.exits, from, s.accepted, acked)
    ensures var t := Flush(s, acks, f);
            && IsSuffix(t.entries, t.accepted)
            && Answered(t.exits, from, t.accepted, acked + s.entries[..AckCount(acks, |s.entries|)])
  {
    FlushExact(s, acks, f);
    PoppedAnswered(s, Flush(s, acks, f), from, acked, AckCount(acks, |s.entries|));
  }

  lemma AppendAnswered(s: Store, from: nat, acked: seq<Bytes>, p: Bytes, f: AppendFault, trim: RewriteFault)
    requires IsSuffix(s.entries, s.accepted) && Answered(s.exits, from, s.accepted, acked)
    ensures var t := DoAppend(s, p, f, trim);
            IsSuffix(t.entries, t.accepted) && Answered(t.exits, from, t.accepted, acked)
  {
    if Accepts(s, p, f) {
      SuffixSnoc(s.entries, s.accepted, p);
      AnsweredGrows(s.exits, from, s.accepted, acked, [p], []);
      assert acked + [] == acked;
      ShedAnswered(Enter(s, p), from, acked);
    }
  }

  lemma ShedAnswered(s: Store, from: nat, acked: seq<Bytes>)
    requires IsSuffix(s.entries, s.accepted) && Answered(s.exits, from, s.accepted, acked)
    ensures var t := Shed(s);
            IsSuffix(t.entries, t.accepted) && Answered(t.exits, from, t.accepted, acked)
  {
    var n := |s.entries| - |Trim(s.entries, s.max)|;
    ShedIs(s);
    EvictionsAnswered(Head(s), n, s.accepted, acked);
    AnsweredConcat(s.exits, Evictions(Head(s), n), from, s.accepted, acked);
    SuffixTransitive(Trim(s.entries, s.max), s.entries, s.accepted);
  }

  /** The log of the store and the wire agree. */
  predicate Agrees(w: World, from: nat) {
    && IsSuffix(w.store.entries, w.store.accepted)
    && Answered(w.store.exits, from, w.store.accepted, AckedPayloads(w.wire))
  }

  lemma FlushAgrees(w: World, from: nat, acks: seq<bool>, f: RewriteFault)
    requires Agrees(w, from)
    ensures Agrees(FlushWorld(w, acks, f), from)
  {
    FlushAnswered(w.store, from, AckedPayloads(w.wire), acks, f);
    AckedConcat(w.wire, FlushSends(w.store.entries, acks));
    AckedOfFlush(w.store.entries, acks);
  }

  lemma LiveAgrees(w: World, from: nat, id: nat, data: Bytes, f: AppendFault, trim: RewriteFault)
    requires Agrees(w, from)
    ensures Agrees(LiveAcked(w, id, data), from) && Agrees(LiveFailed(w, id, data, f, trim), from)
  {
    var acked := AckedPayloads(w.wire);
    AppendAnswered(w.store, from, acked, data, f, trim);
    AckedConcat(w.wire, [Send(data, true)]);
    AckedConcat(w.wire, [Send(data, false)]);
    AckedOne(Send(data, true));
    AckedOne(Send(data, false));
  }

  lemma StepAgrees(w: World, e: Timed, from: nat)
    requires Agrees(w, from)
    ensures Agrees(Step(w, e), from)
  {
    var v := w.(now := e.at);
    match e.event
    case BuildError =>
    case Tick(data, acks, persist, live, append, trim) =>
      FlushAgrees(v, from, acks, persist);
      LiveAgrees(Built(FlushWorld(v, acks, persist), data), from, |w.payloads|, data, append, trim);
    case Retry(acks, persist) =>
      FlushAgrees(v.(timer := Disarm(v.timer)), from, acks, persist);
    case Cancel =>
  }

  /** Nothing is logged as delivered but what the server acknowledged: over any
      life, under any fault, every delivery logged in it is an acknowledged POST
      of that payload. */
  lemma {:induction false} DeliveredWasPosted(w: World, events: seq<Timed>, from: nat)
    requires Agrees(w, from)
    ensures Agrees(RunAgent(w, events), from)
    decreases |events|
  {
    if events != [] {
      StepAgrees(w, events[0], from);
      DeliveredWasPosted(Step(w, events[0]), events[1..], from);
    }
  }

  /** The payload with this index left the queue in an earlier life, was evicted,
      was acknowledged in a POST of this one, or is held in its place. */
  ghost predicate SentOrHeld(before: seq<Exit>, s: Store, wire: seq<Send>, i: nat)
    requires i < |s.accepted|
  {
    var base := |s.accepted| - |Held(s)|;
    || Gone(before, i) || Evicted(i) in s.exits || s.accepted[i] in AckedPayloads(wire)
    || (0 <= i - base && Held(s)[i - base] == s.accepted[i])
  }

  /** At-least-once for a life of the agent in which every append succeeds or
      writes nothing. */
  lemma LifeLosesNothing(w: World, events: seq<Timed>, i: nat)
    requires w.store.up && Durable(w.store) && forall e :: e in events ==> CleanEvent(e.event)
    requires i < |RunAgent(w, events).store.accepted|
    ensures SentOrHeld(w.store.exits, RunAgent(w, events).store, RunAgent(w, events).wire, i)
  {
    var v := RunAgent(w, events);
    LifeIsDurable(w, events);
    DurableLosesNothing(v.store);
    SuffixTransitive(w.store.entries, Decode(w.store.file), w.store.accepted);
    DeliveredWasPosted(w, events, |w.store.exits|);
    RunConserves(w, events);
    ByTheLog(w.store.exits, v.store, v.wire, i);
  }

  lemma ByTheLog(before: seq<Exit>, s: Store, wire: seq<Send>, i: nat)
    requires i < |s.accepted| && before <= s.exits && NothingLost(s)
    requires Answered(s.exits, |before|, s.accepted, AckedPayloads(wire))
    ensures SentOrHeld(before, s, wire, i)
  {
    if Delivered(i) in s.exits {
      var j :| 0 <= j < |s.exits| && s.exits[j] == Delivered(i);
      assert j < |before| ==> before[j] == Delivered(i);
    }
  }
}
