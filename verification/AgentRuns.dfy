/** What whole runs of the agent promise: every heartbeat has exactly one fate,
    the queue is first in first out, deliveries come out in order, retries are
    paced, and a server that comes back is caught up with in one step. */
module AgentRuns {
  import opened LineFile
  import opened Queue
  import opened StoreModel
  import opened AgentModel

  // ------------------------------------------------------------ flush

  function Deliveries(first: int, n: nat): seq<Exit>
    decreases n
  {
    if n == 0 then [] else [Delivered(first)] + Deliveries(first + 1, n - 1)
  }

  lemma {:induction false} FlushLoopFrame(s: Store, acks: seq<bool>)
    ensures var t := FlushLoop(s, acks);
            && t.file == s.file && t.accepted == s.accepted && t.max == s.max && t.up == s.up
    decreases |acks|
  {
    if s.entries != [] && acks != [] && acks[0] {
      FlushLoopFrame(DoDeliver(s), acks[1..]);
    }
  }

  lemma {:induction false} FlushLoopEntries(s: Store, acks: seq<bool>)
    ensures FlushLoop(s, acks).entries == s.entries[AckCount(acks, |s.entries|)..]
    decreases |acks|
  {
    if s.entries != [] && acks != [] && acks[0] {
      var d := DoDeliver(s);
      FlushLoopEntries(d, acks[1..]);
      var k := AckCount(acks, |s.entries|);
      assert s.entries[1..][k - 1..] == s.entries[k..];
    }
  }

  lemma {:induction false} FlushLoopExits(s: Store, acks: seq<bool>)
    ensures FlushLoop(s, acks).exits == s.exits + Deliveries(Head(s), AckCount(acks, |s.entries|))
    decreases |acks|
  {
    if s.entries != [] && acks != [] && acks[0] {
      var d := DoDeliver(s);
      FlushLoopExits(d, acks[1..]);
      ConcatAssoc(s.exits, [Delivered(Head(s))], Deliveries(Head(d), AckCount(acks[1..], |s.entries| - 1)));
    }
  }

  /** A flush removes exactly the acknowledged prefix, logs those entries and no
      others as delivered, and rewrites the file, to exactly what is left, only
      if it sent something. */
  lemma FlushExact(s: Store, acks: seq<bool>, f: RewriteFault)
    ensures var k := AckCount(acks, |s.entries|);
            var t := Flush(s, acks, f);
            && t.entries == s.entries[k..]
            && t.exits == s.exits + Deliveries(Head(s), k)
            && t.file == (if k > 0 && Completes(f, |s.entries| - k) then Encode(s.entries[k..]) else s.file)
            && t.accepted == s.accepted && t.max == s.max && t.up == s.up
  {
    FlushLoopFrame(s, acks);
    FlushLoopEntries(s, acks);
    FlushLoopExits(s, acks);
  }

  /** What a flush sends: exactly the entries it then removes, each acknowledged,
      and after them, if any is left, the next one, not acknowledged. */
  lemma {:induction false} FlushSendsExact(entries: seq<Bytes>, acks: seq<bool>)
    ensures var k := AckCount(acks, |entries|);
            var sends := FlushSends(entries, acks);
            && |sends| == (if k < |entries| then k + 1 else k)
            && (forall i :: 0 <= i < k ==> sends[i] == Send(entries[i], true))
            && (k < |entries| ==> sends[k] == Send(entries[k], false))
  {
    if entries != [] && acks != [] && acks[0] {
      FlushSendsExact(entries[1..], acks[1..]);
      var rest := FlushSends(entries[1..], acks[1..]);
      var sends := FlushSends(entries, acks);
      assert forall i :: 1 <= i < |sends| ==> sends[i] == rest[i - 1];
    }
  }

  /** From position `from` on, these POSTs try the entries in order: the first k
      are acknowledged, and the next one, if there is one, is not. */
  predicate Tries(wire: seq<Send>, from: nat, entries: seq<Bytes>, k: nat)
    requires k <= |entries|
  {
    && from + Tried(entries, k) <= |wire|
    && (forall i :: 0 <= i < k ==> wire[from + i] == Send(entries[i], true))
    && (k < |entries| ==> wire[from + k] == Send(entries[k], false))
  }

  function Tried(entries: seq<Bytes>, k: nat): nat
    requires k <= |entries|
  {
    if k < |entries| then k + 1 else k
  }

  /** The POSTs of every turn, in order: a tick tries the queue first and then, however
      that went, the new heartbeat; a retry tries the queue; a build error and a
      cancellation send nothing and touch neither buffer nor ledger. */
  lemma StepPostsExact(w: World, e: Timed)
    ensures var v := Step(w, e);
            && w.wire <= v.wire && v.now == e.at
            && match e.event
               case Tick(data, acks, _, live, _, _) =>
                 var k := AckCount(acks, |w.store.entries|);
                 && |v.wire| == |w.wire| + Tried(w.store.entries, k) + 1
                 && Tries(v.wire, |w.wire|, w.store.entries, k)
                 && v.wire[|v.wire| - 1] == Send(data, live)
                 && v.payloads == w.payloads + [data] && v.stopped == w.stopped
               case Retry(acks, _) =>
                 var k := AckCount(acks, |w.store.entries|);
                 && |v.wire| == |w.wire| + Tried(w.store.entries, k)
                 && Tries(v.wire, |w.wire|, w.store.entries, k)
                 && v.payloads == w.payloads && v.stopped == w.stopped
               case _ =>
                 && v.wire == w.wire && v.payloads == w.payloads && v.store == w.store && v.ledger == w.ledger
                 && (v.stopped <==> w.stopped || e.event.Cancel?)
  {
    if e.event.Tick? || e.event.Retry? {
      var sends := FlushSends(w.store.entries, e.event.acks);
      var more := if e.event.Tick? then [Send(e.event.data, e.event.live)] else [];
      FlushSendsExact(w.store.entries, e.event.acks);
      TriesBehind(w.wire, sends, more, w.store.entries, AckCount(e.event.acks, |w.store.entries|));
      assert Step(w, e).wire == w.wire + sends + more;
    }
  }

  lemma TriesBehind(wire: seq<Send>, sends: seq<Send>, more: seq<Send>, entries: seq<Bytes>, k: nat)
    requires k <= |entries| && Tries(sends, 0, entries, k)
    ensures Tries(wire + sends + more, |wire|, entries, k)
  {
  }

  // ------------------------------------------------------------ acknowledgements

  /** The payloads the server acknowledged, in order. */
  function AckedPayloads(wire: seq<Send>): seq<Bytes> {
    if wire == [] then []
    else (if wire[0].acked then [wire[0].payload] else []) + AckedPayloads(wire[1..])
  }

  /** These numbers name these payloads. */
  predicate Names(numbers: seq<nat>, list: seq<Bytes>, payloads: seq<Bytes>) {
    && |numbers| == |list|
    && forall i :: 0 <= i < |numbers| ==> numbers[i] < |payloads| && list[i] == payloads[numbers[i]]
  }

  lemma {:induction false} AckedConcat(a: seq<Send>, b: seq<Send>)
    ensures AckedPayloads(a + b) == AckedPayloads(a) + AckedPayloads(b)
  {
    if a == [] {
      assert a + b == b;
    } else {
      assert (a + b)[1..] == a[1..] + b;
      AckedConcat(a[1..], b);
    }
  }

  lemma AckedOne(s: Send)
    ensures AckedPayloads([s]) == if s.acked then [s.payload] else []
  {
  }

  lemma {:induction false} AckedOfFlush(entries: seq<Bytes>, acks: seq<bool>)
    ensures AckedPayloads(FlushSends(entries, acks)) == entries[..AckCount(acks, |entries|)]
  {
    if entries == [] {
    } else if acks == [] || !acks[0] {
      AckedOne(Send(entries[0], false));
    } else {
      AckedOfFlush(entries[1..], acks[1..]);
      var k := AckCount(acks, |entries|);
      AckedConcat([Send(entries[0], true)], FlushSends(entries[1..], acks[1..]));
      AckedOne(Send(entries[0], true));
      assert entries[..k] == [entries[0]] + entries[1..][..k - 1];
    }
  }

  lemma NamesConcat(a: seq<nat>, x: seq<Bytes>, b: seq<nat>, y: seq<Bytes>, payloads: seq<Bytes>)
    requires Names(a, x, payloads) && Names(b, y, payloads)
    ensures Names(a + b, x + y, payloads)
  {
  }

  /** The acknowledgements in the ledger are the acknowledged POSTs: the same
      number, in the same order, each carrying the payload of that heartbeat. */
  predicate Honest(w: World) {
    Names(w.ledger.acks, AckedPayloads(w.wire), w.payloads)
  }

  lemma FlushKeepsHonest(w: World, acks: seq<bool>, f: RewriteFault)
    requires Honest(w) && Names(w.ledger.queue, w.store.entries, w.payloads)
    ensures Honest(FlushWorld(w, acks, f))
  {
    var k := AckCount(acks, |w.store.entries|);
    AckedConcat(w.wire, FlushSends(w.store.entries, acks));
    AckedOfFlush(w.store.entries, acks);
    NamesTake(w.ledger.queue, w.store.entries, w.payloads, k);
    NamesConcat(w.ledger.acks, AckedPayloads(w.wire), w.ledger.queue[..k], w.store.entries[..k], w.payloads);
  }

  lemma NamesTake(queue: seq<nat>, entries: seq<Bytes>, payloads: seq<Bytes>, k: nat)
    requires Names(queue, entries, payloads) && k <= |queue|
    ensures Names(queue[..k], entries[..k], payloads)
  {
  }

  lemma LiveKeepsHonest(w: World, data: Bytes, f: AppendFault, trim: RewriteFault)
    requires Honest(w)
    ensures Honest(LiveAcked(Built(w, data), |w.payloads|, data))
    ensures Honest(LiveFailed(Built(w, data), |w.payloads|, data, f, trim))
  {
    var id := |w.payloads|;
    AckedConcat(w.wire, [Send(data, true)]);
    AckedConcat(w.wire, [Send(data, false)]);
    AckedOne(Send(data, true));
    AckedOne(Send(data, false));
    NamesAdd(w.ledger.acks, AckedPayloads(w.wire), w.payloads, data);
    assert AckedPayloads(w.wire) + [] == AckedPayloads(w.wire);
  }

  lemma StepKeepsHonest(w: World, e: Timed)
    requires Honest(w) && Names(w.ledger.queue, w.store.entries, w.payloads)
    ensures Honest(Step(w, e))
  {
    var v := w.(now := e.at);
    match e.event
    case BuildError =>
    case Tick(data, acks, persist, live, append, trim) =>
      FlushKeepsHonest(v, acks, persist);
      LiveKeepsHonest(FlushWorld(v, acks, persist), data, append, trim);
    case Retry(acks, persist) =>
      FlushKeepsHonest(v.(timer := Disarm(v.timer)), acks, persist);
    case Cancel =>
  }

  // ------------------------------------------------------------ fifo

  /** From position `from` on, the departures come in turn, starting with
      index `first`. */
  predicate InTurn(exits: seq<Exit>, from: nat, first: int) {
    forall i :: from <= i < |exits| ==> exits[i].index == first + i - from
  }

  /** What there was to deliver since store s0: its queue, then what was accepted. */
  function Intake(s0: Store, accepted: seq<Bytes>): seq<Bytes>
    requires s0.accepted <= accepted
  {
    s0.entries + accepted[|s0.accepted|..]
  }

  /** Since store s0: the departures, in turn, and then the queue make up the
      intake. */
  ghost predicate Conserves(s0: Store, s: Store) {
    && s0.exits <= s.exits && s0.accepted <= s.accepted
    && IsSuffix(s.entries, Intake(s0, s.accepted))
    && |Intake(s0, s.accepted)| - |s.entries| == |s.exits| - |s0.exits|
    && InTurn(s.exits, |s0.exits|, Head(s0))
  }

  lemma InTurnExtends(exits: seq<Exit>, from: nat, first: int, more: seq<Exit>)
    requires from <= |exits| && InTurn(exits, from, first)
    requires InTurn(more, 0, first + |exits| - from)
    ensures InTurn(exits + more, from, first)
  {
  }

  lemma {:induction false} DeliveriesInTurn(first: int, n: nat)
    ensures |Deliveries(first, n)| == n && InTurn(Deliveries(first, n), 0, first)
    ensures forall e :: e in Deliveries(first, n) ==> e.Delivered?
    decreases n
  {
    if n > 0 {
      DeliveriesInTurn(first + 1, n - 1);
      InTurnExtends([Delivered(first)], 0, first, Deliveries(first + 1, n - 1));
    }
  }

  lemma {:induction false} EvictionsInTurn(first: int, n: nat)
    ensures |Evictions(first, n)| == n && InTurn(Evictions(first, n), 0, first)
    ensures forall e :: e in Evictions(first, n) ==> e.Evicted?
    decreases n
  {
    if n > 0 {
      EvictionsInTurn(first + 1, n - 1);
      InTurnExtends([Evicted(first)], 0, first, Evictions(first + 1, n - 1));
    }
  }

  lemma FlushConserves(s0: Store, s: Store, acks: seq<bool>, f: RewriteFault)
    requires Conserves(s0, s)
    ensures Conserves(s0, Flush(s, acks, f))
  {
    var k := AckCount(acks, |s.entries|);
    FlushExact(s, acks, f);
    DeliveriesInTurn(Head(s), k);
    InTurnExtends(s.exits, |s0.exits|, Head(s0), Deliveries(Head(s), k));
    SuffixDrop(s.entries, Intake(s0, s.accepted), k);
  }

  lemma SuffixDrop<T>(a: seq<T>, b: seq<T>, k: nat)
    requires IsSuffix(a, b) && k <= |a|
    ensures IsSuffix(a[k..], b)
  {
  }

  lemma ShedIs(s: Store)
    ensures var kept := Trim(s.entries, s.max);
            && IsSuffix(kept, s.entries)
            && Shed(s).entries == kept && Shed(s).accepted == s.accepted
            && Shed(s).exits == s.exits + Evictions(Head(s), |s.entries| - |kept|)
  {
    TrimFits(s.entries, s.max);
  }

  lemma ShedConserves(s0: Store, s: Store)
    requires Conserves(s0, s)
    ensures Conserves(s0, Shed(s))
  {
    ShedIs(s);
    var n := |s.entries| - |Trim(s.entries, s.max)|;
    EvictionsInTurn(Head(s), n);
    InTurnExtends(s.exits, |s0.exits|, Head(s0), Evictions(Head(s), n));
    SuffixTransitive(Shed(s).entries, s.entries, Intake(s0, s.accepted));
  }

  lemma FitConserves(s0: Store, s: Store, f: RewriteFault)
    requires Conserves(s0, s)
    ensures Conserves(s0, Fit(s, f))
  {
    ShedConserves(s0, s);
  }

  lemma EnterConserves(s0: Store, s: Store, p: Bytes)
    requires Conserves(s0, s)
    ensures Conserves(s0, Enter(s, p))
  {
    SuffixSnoc(s.entries, Intake(s0, s.accepted), p);
    assert Intake(s0, s.accepted + [p]) == Intake(s0, s.accepted) + [p];
  }

  lemma AppendConserves(s0: Store, s: Store, p: Bytes, f: AppendFault, trim: RewriteFault)
    requires Conserves(s0, s)
    ensures Conserves(s0, DoAppend(s, p, f, trim))
  {
    if Accepts(s, p, f) {
      EnterConserves(s0, s, p);
      FitConserves(s0, Enter(s, p), trim);
    }
  }

  lemma StepConserves(s0: Store, w: World, e: Timed)
    requires Conserves(s0, w.store)
    ensures Conserves(s0, Step(w, e).store)
  {
    match e.event
    case BuildError =>
    case Tick(data, acks, persist, live, append, trim) =>
      FlushConserves(s0, w.store, acks, persist);
      AppendConserves(s0, Flush(w.store, acks, persist), data, append, trim);
    case Retry(acks, persist) =>
      FlushConserves(s0, w.store, acks, persist);
    case Cancel =>
  }

  lemma {:induction false} RunConservesFrom(s0: Store, w: World, events: seq<Timed>)
    requires Conserves(s0, w.store)
    ensures Conserves(s0, RunAgent(w, events).store)
    decreases |events|
  {
    if events != [] {
      StepConserves(s0, w, events[0]);
      RunConservesFrom(s0, Step(w, events[0]), events[1..]);
    }
  }

  /** First in, first out, over every crash-free run from any state, whatever the
      file or the faults. */
  lemma RunConserves(w: World, events: seq<Timed>)
    ensures Conserves(w.store, RunAgent(w, events).store)
  {
    assert Intake(w.store, w.store.accepted) == w.store.entries;
    RunConservesFrom(w.store, w, events);
  }

  // ------------------------------------------------------------ fates

  /** The production numbers below n, each once. */
  function Numbers(n: nat): (m: multiset<nat>)
    ensures forall i: nat :: m[i] == if i < n then 1 else 0
  {
    if n == 0 then multiset{} else Numbers(n - 1) + multiset{n - 1}
  }

  /** The numbers below n are spread over the five fates, each exactly once,
      and the acknowledgements are the live and the drained ones. */
  ghost predicate Tally(l: Ledger, n: nat) {
    && multiset(l.live) + multiset(l.drained) + multiset(l.queue) + multiset(l.evicted) + multiset(l.rejected)
       == Numbers(n)
    && multiset(l.acks) == multiset(l.live) + multiset(l.drained)
  }

  /** The tally is right, and the queue of numbers names what memory holds. */
  ghost predicate Accounted(w: World) {
    Tally(w.ledger, |w.payloads|) && Names(w.ledger.queue, w.store.entries, w.payloads)
  }

  lemma SplitMultiset<T>(s: seq<T>, k: nat)
    requires k <= |s|
    ensures multiset(s) == multiset(s[..k]) + multiset(s[k..])
  {
    assert s == s[..k] + s[k..];
  }

  lemma FlushTally(l: Ledger, n: nat, k: nat)
    requires Tally(l, n) && k <= |l.queue|
    ensures Tally(FlushLedger(l, k), n)
  {
    SplitMultiset(l.queue, k);
  }

  /** Moving part of the queue to the evicted while one number joins. */
  lemma Regroup<T>(a: multiset<T>, b: multiset<T>, queue: multiset<T>, evicted: multiset<T>, c: multiset<T>,
                   joined: multiset<T>, kept: multiset<T>, gone: multiset<T>)
    requires queue + joined == kept + gone
    ensures a + b + kept + (evicted + gone) + c == a + b + queue + evicted + c + joined
  {
    assert a + b + kept + (evicted + gone) + c == a + b + (kept + gone) + evicted + c;
  }

  lemma JoinTally(l: Ledger, id: nat, n: nat)
    requires Tally(l, id)
    ensures Tally(JoinQueue(l, id, n), id + 1)
  {
    var grown := l.queue + [id];
    var t := JoinQueue(l, id, n);
    var cut := |grown| - |t.queue|;
    SplitMultiset(grown, cut);
    assert multiset(t.evicted) == multiset(l.evicted) + multiset(grown[..cut]);
    assert Numbers(id + 1) == Numbers(id) + multiset{id};
    JoinedMultiset(l.queue, id);
    Regroup(multiset(l.live), multiset(l.drained), multiset(l.queue), multiset(l.evicted), multiset(l.rejected),
            multiset{id}, multiset(t.queue), multiset(grown[..cut]));
  }

  lemma JoinedMultiset(queue: seq<nat>, id: nat)
    ensures multiset(queue + [id]) == multiset(queue) + multiset{id}
  {
  }

  lemma NamesDrop(queue: seq<nat>, entries: seq<Bytes>, payloads: seq<Bytes>, k: nat)
    requires Names(queue, entries, payloads) && k <= |queue|
    ensures Names(queue[k..], entries[k..], payloads)
  {
  }

  lemma NamesAdd(queue: seq<nat>, entries: seq<Bytes>, payloads: seq<Bytes>, p: Bytes)
    requires Names(queue, entries, payloads)
    ensures Names(queue, entries, payloads + [p])
    ensures Names(queue + [|payloads|], entries + [p], payloads + [p])
  {
  }

  /** What an accepted append leaves in memory, the newest entry included. */
  lemma AcceptedTrims(s: Store, p: Bytes, trim: RewriteFault)
    requires !Oversized(s, p)
    ensures var t := DoAppend(s, p, AppendOk, trim);
            && t.entries == Trim(s.entries + [p], s.max) && t.accepted == s.accepted + [p]
            && 0 < |t.entries| && IsSuffix(t.entries, s.entries + [p])
  {
    TrimFits(s.entries + [p], s.max);
    SizeOne(p);
    TrimKeepsFittingSuffix([p], s.entries + [p], s.max);
  }

  lemma RejectedKeeps(s: Store, p: Bytes, f: AppendFault, trim: RewriteFault)
    requires !Accepts(s, p, f)
    ensures var t := DoAppend(s, p, f, trim);
            t.entries == s.entries && t.exits == s.exits && t.accepted == s.accepted
  {
  }

  /** The ledger's queue stays as long as memory across an append. */
  lemma JoinLength(s: Store, p: Bytes, f: AppendFault, trim: RewriteFault, l: Ledger, id: nat)
    requires |l.queue| == |s.entries|
    ensures var t := DoAppend(s, p, f, trim);
            |AppendLedger(l, id, Accepts(s, p, f), |t.entries|).queue| == |t.entries|
  {
  }

  lemma StepKeepsLength(w: World, e: Timed)
    requires |w.ledger.queue| == |w.store.entries|
    ensures |Step(w, e).ledger.queue| == |Step(w, e).store.entries|
  {
    match e.event
    case BuildError =>
    case Tick(data, acks, persist, live, append, trim) =>
      FlushExact(w.store, acks, persist);
      var l := FlushLedger(w.ledger, AckCount(acks, |w.ledger.queue|));
      JoinLength(Flush(w.store, acks, persist), data, append, trim, l, |w.payloads|);
    case Retry(acks, persist) =>
      FlushExact(w.store, acks, persist);
    case Cancel =>
  }

  lemma FlushKeepsAccounted(w: World, acks: seq<bool>, f: RewriteFault)
    requires Accounted(w)
    ensures Accounted(FlushWorld(w, acks, f))
  {
    var k := AckCount(acks, |w.ledger.queue|);
    FlushExact(w.store, acks, f);
    FlushTally(w.ledger, |w.payloads|, k);
    NamesDrop(w.ledger.queue, w.store.entries, w.payloads, k);
  }

  lemma AppendTally(s: Store, l: Ledger, id: nat, p: Bytes, f: AppendFault, n: nat)
    requires Tally(l, id)
    ensures Tally(AppendLedger(l, id, Accepts(s, p, f), n), id + 1)
  {
    if Accepts(s, p, f) {
      JoinTally(l, id, n);
    } else {
      AddTally(l, id);
    }
  }

  lemma AppendNames(s: Store, l: Ledger, payloads: seq<Bytes>, p: Bytes, f: AppendFault, trim: RewriteFault)
    requires Names(l.queue, s.entries, payloads)
    ensures var t := DoAppend(s, p, f, trim);
            Names(AppendLedger(l, |payloads|, Accepts(s, p, f), |t.entries|).queue, t.entries, payloads + [p])
  {
    NamesAdd(l.queue, s.entries, payloads, p);
    if Accepts(s, p, f) {
      AcceptedTrims(s, p, trim);
      NamesDrop(l.queue + [|payloads|], s.entries + [p], payloads + [p],
                |s.entries| + 1 - |DoAppend(s, p, f, trim).entries|);
    } else {
      RejectedKeeps(s, p, f, trim);
    }
  }

  /** One more number, rejected or acknowledged when built. */
  lemma AddTally(l: Ledger, id: nat)
    requires Tally(l, id)
    ensures Tally(l.(rejected := l.rejected + [id]), id + 1)
    ensures Tally(l.(live := l.live + [id], acks := l.acks + [id]), id + 1)
  {
  }

  lemma LiveAckedAccounted(w: World, data: Bytes)
    requires Accounted(w)
    ensures Accounted(LiveAcked(Built(w, data), |w.payloads|, data))
  {
  }

  lemma LiveFailedAccounted(w: World, data: Bytes, f: AppendFault, trim: RewriteFault)
    requires Accounted(w)
    ensures Accounted(LiveFailed(Built(w, data), |w.payloads|, data, f, trim))
  {
    var id := |w.payloads|;
    var v := LiveFailed(Built(w, data), id, data, f, trim);
    AppendTally(w.store, w.ledger, id, data, f, |v.store.entries|);
    AppendNames(w.store, w.ledger, w.payloads, data, f, trim);
    assert |v.payloads| == id + 1;
    assert v.ledger == AppendLedger(w.ledger, id, Accepts(w.store, data, f), |v.store.entries|);
  }

  lemma StepKeepsAccounted(w: World, e: Timed)
    requires Accounted(w)
    ensures Accounted(Step(w, e))
  {
    var v := w.(now := e.at);
    match e.event
    case BuildError =>
    case Tick(data, acks, persist, live, append, trim) =>
      var f := FlushWorld(v, acks, persist);
      FlushKeepsAccounted(v, acks, persist);
      if live {
        LiveAckedAccounted(f, data);
      } else {
        LiveFailedAccounted(f, data, append, trim);
      }
    case Retry(acks, persist) =>
      FlushKeepsAccounted(v.(timer := Disarm(v.timer)), acks, persist);
    case Cancel =>
  }

  lemma {:induction false} RunKeepsAccounted(w: World, events: seq<Timed>)
    requires Accounted(w) && Honest(w)
    ensures Accounted(RunAgent(w, events)) && Honest(RunAgent(w, events))
    decreases |events|
  {
    if events != [] {
      StepKeepsAccounted(w, events[0]);
      StepKeepsHonest(w, events[0]);
      RunKeepsAccounted(Step(w, events[0]), events[1..]);
    }
  }

  /** Over every crash-free life of the agent, from whatever it loaded: each
      heartbeat has exactly one fate and at most one acknowledgement, and the
      acknowledgements are the acknowledged POSTs, payload by payload. */
  lemma ExactlyOneFate(s: Store, interval: int, now: int, events: seq<Timed>, id: nat)
    requires id < |RunAgent(Start(s, interval, now), events).payloads|
    ensures var w := RunAgent(Start(s, interval, now), events);
            var l := w.ledger;
            && multiset(l.live)[id] + multiset(l.drained)[id] + multiset(l.queue)[id]
               + multiset(l.evicted)[id] + multiset(l.rejected)[id] == 1
            && multiset(l.acks)[id] == multiset(l.live)[id] + multiset(l.drained)[id]
            && Names(l.acks, AckedPayloads(w.wire), w.payloads)
            && Names(l.queue, w.store.entries, w.payloads)
  {
    StartIsAccounted(s, interval, now);
    RunKeepsAccounted(Start(s, interval, now), events);
    var w := RunAgent(Start(s, interval, now), events);
    TallyCounts(w.ledger, |w.payloads|, id);
  }

  lemma TallyCounts(l: Ledger, n: nat, id: nat)
    requires Tally(l, n) && id < n
    ensures multiset(l.live)[id] + multiset(l.drained)[id] + multiset(l.queue)[id]
            + multiset(l.evicted)[id] + multiset(l.rejected)[id] == 1
    ensures multiset(l.acks)[id] == multiset(l.live)[id] + multiset(l.drained)[id]
  {
    assert Numbers(n)[id] == 1;
  }

  lemma StartIsAccounted(s: Store, interval: int, now: int)
    ensures Accounted(Start(s, interval, now)) && Honest(Start(s, interval, now))
  {
    var w := Start(s, interval, now);
    FirstNumbers(w.ledger.queue);
  }

  lemma {:induction false} FirstNumbers(s: seq<nat>)
    requires forall i :: 0 <= i < |s| ==> s[i] == i
    ensures multiset(s) == Numbers(|s|)
  {
    if s != [] {
      var n := |s| - 1;
      FirstNumbers(s[..n]);
      assert s == s[..n] + [s[n]];
    }
  }
}
