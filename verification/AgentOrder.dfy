/** The order in which heartbeats are acknowledged. */
module AgentOrder {
  import opened LineFile
  import opened Queue
  import opened StoreModel
  import opened AgentModel

  predicate Increasing(s: seq<nat>) {
    forall i, j :: 0 <= i < j < |s| ==> s[i] < s[j]
  }

  predicate Below(s: seq<nat>, n: nat) {
    forall i :: 0 <= i < |s| ==> s[i] < n
  }

  /** Heartbeats acknowledged from the buffer came out in production order, and
      everything still queued is younger. */
  predicate BufferInOrder(w: World) {
    Increasing(w.ledger.drained + w.ledger.queue) && Below(w.ledger.drained + w.ledger.queue, |w.payloads|)
  }

  /** All acknowledgements came out in production order, and everything still
      queued is younger. */
  predicate AllInOrder(w: World) {
    Increasing(w.ledger.acks + w.ledger.queue) && Below(w.ledger.acks + w.ledger.queue, |w.payloads|)
  }

  /** The flush stopped on a failure, yet the live send after it got through. */
  predicate Overtakes(w: World, e: Event) {
    e.Tick? && e.live && AckCount(e.acks, |w.ledger.queue|) < |w.ledger.queue|
  }

  lemma DropMiddle(a: seq<nat>, b: seq<nat>, k: nat)
    requires k <= |b| && Increasing(a + b)
    ensures Increasing(a + b[k..])
  {
    forall i, j | 0 <= i < j < |a + b[k..]| ensures (a + b[k..])[i] < (a + b[k..])[j] {
      var x := if i < |a| then i else i + k;
      var y := if j < |a| then j else j + k;
      assert (a + b)[x] < (a + b)[y];
    }
  }

  /** A flush moves numbers from the queue to the logs without reordering. */
  lemma FlushKeepsLine(l: Ledger, k: nat)
    requires k <= |l.queue|
    ensures var t := FlushLedger(l, k);
            t.drained + t.queue == l.drained + l.queue && t.acks + t.queue == l.acks + l.queue
  {
  }

  lemma JoinInOrder(past: seq<nat>, l: Ledger, id: nat, n: nat)
    requires Increasing(past + l.queue) && Below(past + l.queue, id)
    ensures var t := JoinQueue(l, id, n);
            Increasing(past + t.queue) && Below(past + t.queue, id + 1)
  {
    var grown := l.queue + [id];
    assert past + grown == (past + l.queue) + [id];
    var gone := |grown| - |JoinQueue(l, id, n).queue|;
    DropMiddle(past, grown, gone);
    var s := past + grown[gone..];
    forall i | 0 <= i < |s| ensures s[i] < id + 1 {
      assert s[i] == (past + grown)[if i < |past| then i else i + gone];
    }
  }

  /** Whatever joins the queue is the newest heartbeat. */
  lemma AppendInOrder(past: seq<nat>, l: Ledger, id: nat, accepted: bool, n: nat)
    requires Increasing(past + l.queue) && Below(past + l.queue, id)
    ensures var t := AppendLedger(l, id, accepted, n);
            Increasing(past + t.queue) && Below(past + t.queue, id + 1)
  {
    if accepted { JoinInOrder(past, l, id, n); }
  }

  lemma AckedInOrder(acks: seq<nat>, queue: seq<nat>, id: nat)
    requires Increasing(acks + queue) && Below(acks + queue, id)
    ensures Increasing((acks + [id]) + queue) <==> queue == []
    ensures Below((acks + [id]) + queue, id + 1)
  {
    var s := (acks + [id]) + queue;
    if queue == [] {
      assert acks + queue == acks && s == acks + [id];
    } else {
      assert s[|acks|] == id && s[|acks| + 1] == queue[0] == (acks + queue)[|acks|];
    }
    forall i | 0 <= i < |s| ensures s[i] < id + 1 {
      if i < |acks| {
        assert s[i] == (acks + queue)[i];
      } else if i > |acks| {
        assert s[i] == (acks + queue)[i - 1];
      }
    }
  }

  /** One step keeps all acknowledgements in order exactly when no live send
      overtakes the queue. */
  lemma StepKeepsOrder(w: World, e: Timed)
    requires AllInOrder(w)
    ensures AllInOrder(Step(w, e)) <==> !Overtakes(w, e.event)
  {
    var l := w.ledger;
    match e.event
    case BuildError =>
    case Tick(data, acks, persist, live, append, trim) =>
      var k := AckCount(acks, |l.queue|);
      var f := FlushLedger(l, k);
      FlushKeepsLine(l, k);
      if live {
        AckedInOrder(f.acks, f.queue, |w.payloads|);
      } else {
        var s := Flush(w.store, acks, persist);
        AppendInOrder(f.acks, f, |w.payloads|, Accepts(s, data, append), |DoAppend(s, data, append, trim).entries|);
      }
    case Retry(acks, persist) =>
      FlushKeepsLine(l, AckCount(acks, |l.queue|));
    case Cancel =>
  }

  predicate NoneOvertakes(w: World, events: seq<Timed>)
    decreases |events|
  {
    events == [] || (!Overtakes(w, events[0].event) && NoneOvertakes(Step(w, events[0]), events[1..]))
  }

  /** In order at every loop head of the run. */
  predicate AlwaysInOrder(w: World, events: seq<Timed>)
    decreases |events|
  {
    AllInOrder(w) && (events == [] || AlwaysInOrder(Step(w, events[0]), events[1..]))
  }

  /** A run keeps production order throughout exactly when no live send in it
      overtakes the queue. */
  lemma {:induction false} RunKeepsOrder(w: World, events: seq<Timed>)
    requires AllInOrder(w)
    ensures AlwaysInOrder(w, events) <==> NoneOvertakes(w, events)
    decreases |events|
  {
    if events != [] {
      var v := Step(w, events[0]);
      StepKeepsOrder(w, events[0]);
      if AllInOrder(v) {
        RunKeepsOrder(v, events[1..]);
      } else {
        assert !AlwaysInOrder(v, events[1..]);
      }
    }
  }

  /** So it is for every life of the agent, from whatever it loaded. */
  lemma LifeInOrder(s: Store, interval: int, now: int, events: seq<Timed>)
    ensures var w := Start(s, interval, now);
            && (AlwaysInOrder(w, events) <==> NoneOvertakes(w, events))
            && BufferInOrder(RunAgent(w, events))
  {
    StartInOrder(s, interval, now);
    RunKeepsOrder(Start(s, interval, now), events);
    RunKeepsBufferOrder(Start(s, interval, now), events);
  }

  lemma StepKeepsBufferOrder(w: World, e: Timed)
    requires BufferInOrder(w)
    ensures BufferInOrder(Step(w, e))
  {
    var l := w.ledger;
    match e.event
    case BuildError =>
    case Tick(data, acks, persist, live, append, trim) =>
      var k := AckCount(acks, |l.queue|);
      var f := FlushLedger(l, k);
      FlushKeepsLine(l, k);
      if !live {
        var s := Flush(w.store, acks, persist);
        AppendInOrder(f.drained, f, |w.payloads|, Accepts(s, data, append), |DoAppend(s, data, append, trim).entries|);
      }
    case Retry(acks, persist) =>
      FlushKeepsLine(l, AckCount(acks, |l.queue|));
    case Cancel =>
  }

  /** Overtaking or not, what the buffer delivers is in production order and
      older than everything still queued, in every crash-free run. */
  lemma {:induction false} RunKeepsBufferOrder(w: World, events: seq<Timed>)
    requires BufferInOrder(w)
    ensures BufferInOrder(RunAgent(w, events))
    decreases |events|
  {
    if events != [] {
      StepKeepsBufferOrder(w, events[0]);
      RunKeepsBufferOrder(Step(w, events[0]), events[1..]);
    }
  }

  lemma StartInOrder(s: Store, interval: int, now: int)
    ensures AllInOrder(Start(s, interval, now)) && BufferInOrder(Start(s, interval, now))
  {
  }

  // ------------------------------------------------------------ overtaking

  /** A tick of the example: these send outcomes, and nothing else failing. */
  function PlainTick(at: int, byte: Byte, acks: seq<bool>, live: bool): Timed {
    Timed(at, Tick([byte], acks, RewriteOk, live, AppendOk, RewriteOk))
  }

  /** The first heartbeat is buffered. At the second tick its send fails again but
      the live one gets through; at the third the first is delivered. */
  lemma OvertakingRun()
    ensures var w := Start(Store(1024 * 1024, true, [], [], [], [], []), SECOND, 0);
            var events := [PlainTick(SECOND, 65, [], false), PlainTick(2 * SECOND, 66, [false], true),
                           PlainTick(3 * SECOND, 67, [true], true)];
            && Possible(w, events)
            && RunAgent(w, events).ledger.acks == [1, 0, 2]
  {
    var w := Start(Store(1024 * 1024, true, [], [], [], [], []), SECOND, 0);
    var a, b := PlainTick(SECOND, 65, [], false), PlainTick(2 * SECOND, 66, [false], true);
    var c := PlainTick(3 * SECOND, 67, [true], true);
    var w1, w2, w3 := Step(w, a), Step(Step(w, a), b), Step(Step(Step(w, a), b), c);
    FirstBuffered(w, a);
    SecondOvertakes(w1, b);
    ThirdDrains(w2, c);
    RunThree(w, a, b, c);
    PossibleThree(w, a, b, c);
  }

  lemma FirstBuffered(w: World, e: Timed)
    requires e == PlainTick(SECOND, 65, [], false)
    requires w == Start(Store(1024 * 1024, true, [], [], [], [], []), SECOND, 0)
    ensures var v := Step(w, e);
            && v.store.entries == [[65]] && v.ledger.queue == [0] && v.ledger.acks == []
            && |v.payloads| == 1 && v.now == SECOND && !v.stopped
  {
    SizeOne([65]);
    var s := w.store;
    assert Flush(s, [], RewriteOk) == s;
    assert DoAppend(s, [65], AppendOk, RewriteOk).entries == [[65]] by {
      assert s.entries + [[65]] == [[65]];
    }
  }

  lemma SecondOvertakes(w: World, e: Timed)
    requires e == PlainTick(2 * SECOND, 66, [false], true) && |w.payloads| == 1
    requires w.store.entries == [[65]] && w.ledger.queue == [0] && w.ledger.acks == [] && !w.stopped
    ensures var v := Step(w, e);
            && v.store.entries == [[65]] && v.ledger.queue == [0] && v.ledger.acks == [1]
            && |v.payloads| == 2 && v.now == 2 * SECOND && !v.stopped
  {
    assert AckCount([false], 1) == 0;
    assert Flush(w.store, [false], RewriteOk) == w.store;
  }

  lemma ThirdDrains(w: World, e: Timed)
    requires e == PlainTick(3 * SECOND, 67, [true], true) && |w.payloads| == 2
    requires w.store.entries == [[65]] && w.ledger.queue == [0] && w.ledger.acks == [1]
    ensures Step(w, e).ledger.acks == [1, 0, 2]
  {
    assert AckCount([true], 1) == 1;
    assert FlushLedger(w.ledger, 1).acks == [1, 0];
  }

  lemma RunThree(w: World, a: Timed, b: Timed, c: Timed)
    ensures RunAgent(w, [a, b, c]) == Step(Step(Step(w, a), b), c)
  {
    var w1, w2 := Step(w, a), Step(Step(w, a), b);
    assert RunAgent(w2, [c]) == Step(w2, c) by { assert [c][1..] == []; }
    assert RunAgent(w1, [b, c]) == RunAgent(w2, [c]) by { assert [b, c][1..] == [c]; }
    assert [a, b, c][1..] == [b, c];
  }

  lemma PossibleThree(w: World, a: Timed, b: Timed, c: Timed)
    requires Enabled(w, a) && Enabled(Step(w, a), b) && Enabled(Step(Step(w, a), b), c)
    ensures Possible(w, [a, b, c])
  {
    var w1, w2 := Step(w, a), Step(Step(w, a), b);
    assert Possible(w2, [c]) by { assert [c][1..] == []; }
    assert Possible(w1, [b, c]) by { assert [b, c][1..] == [c]; }
    assert [a, b, c][1..] == [b, c];
  }
}
