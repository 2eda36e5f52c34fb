/** One life of the agent as a state machine: the store, the one-shot retry
    timer and its backoff, and a ledger of what became of every heartbeat. One
    step is one case of the main loop's select. */
module AgentModel {
  import opened LineFile
  import opened StoreModel
  import Backoff

  const SECOND: int := 1_000_000_000

  /** The retrier: a one-shot timer, disarmed or due at some time, and the
      delays it was given since the last reset. */
  datatype Timer = Timer(min: int, max: int, current: int, armed: bool, due: int, delays: seq<int>)

  /** Heartbeats by production number. */
  datatype Ledger = Ledger(
    queue: seq<nat>,     // in memory, oldest first
    live: seq<nat>,      // acknowledged when built
    drained: seq<nat>,   // acknowledged from the buffer
    evicted: seq<nat>,   // dropped by the cap
    rejected: seq<nat>,  // never entered the queue: oversized, or the append failed
    acks: seq<nat>       // all acknowledgements, in order
  )

  /** One POST: what it carried, and whether the server acknowledged it. */
  datatype Send = Send(payload: Bytes, acked: bool)

  datatype World = World(
    store: Store,
    timer: Timer,
    ledger: Ledger,
    wire: seq<Send>,       // every POST so far, in order
    payloads: seq<Bytes>,  // every heartbeat built, by production number
    now: int,
    stopped: bool
  )

  /** One turn of the loop with everything the environment decides: the send
      outcomes (a missing one is a failure) and the disk faults. */
  datatype Event =
    | BuildError
    | Tick(data: Bytes, acks: seq<bool>, persist: RewriteFault,
           live: bool, append: AppendFault, trim: RewriteFault)
    | Retry(acks: seq<bool>, persist: RewriteFault)
    | Cancel

  datatype Timed = Timed(at: int, event: Event)

  // ------------------------------------------------------------ timer

  function NewTimer(interval: int): Timer {
    Timer(SECOND, if interval < SECOND then SECOND else interval, SECOND, false, 0, [])
  }

  function Arm(t: Timer, now: int): Timer {
    if t.armed then t
    else t.(armed := true, due := now + t.current,
            current := Backoff.Advance(t.current, t.max),
            delays := t.delays + [t.current])
  }

  function Disarm(t: Timer): Timer {
    t.(armed := false)
  }

  function Reset(t: Timer): Timer {
    t.(current := t.min, armed := false, delays := [])
  }

  // ------------------------------------------------------------ flush

  /** How many of n sends succeed before the first failure. */
  function AckCount(acks: seq<bool>, n: nat): (k: nat)
    ensures k <= n && k <= |acks|
  {
    if n == 0 || acks == [] || !acks[0] then 0 else 1 + AckCount(acks[1..], n - 1)
  }

  /** ... the longest run of successes among the first n sends. */
  lemma {:induction false} AckCountIsLongest(acks: seq<bool>, n: nat)
    ensures var k := AckCount(acks, n);
            (forall i :: 0 <= i < k ==> acks[i]) && (k == n || k == |acks| || !acks[k])
  {
    if n > 0 && acks != [] && acks[0] {
      AckCountIsLongest(acks[1..], n - 1);
      var k := AckCount(acks, n);
      forall i | 0 <= i < k ensures acks[i] {
        if i > 0 { assert acks[1..][i - 1]; }
      }
    }
  }

  /** Send the oldest entry; pop it when acknowledged; stop at a failure. */
  function FlushLoop(s: Store, acks: seq<bool>): Store
    decreases |acks|
  {
    if s.entries == [] || acks == [] || !acks[0] then s
    else FlushLoop(DoDeliver(s), acks[1..])
  }

  /** The file is rewritten only when something was sent. */
  function Flush(s: Store, acks: seq<bool>, f: RewriteFault): Store {
    var t := FlushLoop(s, acks);
    if AckCount(acks, |s.entries|) == 0 then t else Rewrite(t, f)
  }

  /** The POSTs of a flush: oldest first, up to the first failure. */
  function FlushSends(entries: seq<Bytes>, acks: seq<bool>): seq<Send> {
    if entries == [] then []
    else if acks == [] || !acks[0] then [Send(entries[0], false)]
    else [Send(entries[0], true)] + FlushSends(entries[1..], acks[1..])
  }

  function FlushLedger(l: Ledger, k: nat): Ledger
    requires k <= |l.queue|
  {
    l.(queue := l.queue[k..], drained := l.drained + l.queue[..k], acks := l.acks + l.queue[..k])
  }

  function FlushWorld(w: World, acks: seq<bool>, f: RewriteFault): World {
    w.(store := Flush(w.store, acks, f),
       wire := w.wire + FlushSends(w.store.entries, acks),
       ledger := FlushLedger(w.ledger, AckCount(acks, |w.ledger.queue|)))
  }

  // ------------------------------------------------------------ append

  /** The payload enters the queue: it can fit, and its whole line is written. */
  predicate Accepts(s: Store, p: Bytes, f: AppendFault) {
    !Oversized(s, p) && f.AppendOk?
  }

  /** The new heartbeat joins the queue, which then keeps its last n. */
  function JoinQueue(l: Ledger, id: nat, n: nat): Ledger {
    var grown := l.queue + [id];
    var gone := if n <= |grown| then |grown| - n else 0;
    l.(queue := grown[gone..], evicted := l.evicted + grown[..gone])
  }

  function AppendLedger(l: Ledger, id: nat, accepted: bool, n: nat): Ledger {
    if accepted then JoinQueue(l, id, n) else l.(rejected := l.rejected + [id])
  }

  // ------------------------------------------------------------ steps

  function Built(w: World, data: Bytes): World {
    w.(payloads := w.payloads + [data])
  }

  /** The live send succeeded; id is the new heartbeat's number. */
  function LiveAcked(w: World, id: nat, data: Bytes): World {
    w.(ledger := w.ledger.(live := w.ledger.live + [id], acks := w.ledger.acks + [id]),
       wire := w.wire + [Send(data, true)],
       timer := Reset(w.timer))
  }

  /** The live send failed: buffer the heartbeat and arm the retry timer. */
  function LiveFailed(w: World, id: nat, data: Bytes, f: AppendFault, trim: RewriteFault): World {
    var s := DoAppend(w.store, data, f, trim);
    w.(store := s,
       ledger := AppendLedger(w.ledger, id, Accepts(w.store, data, f), |s.entries|),
       wire := w.wire + [Send(data, false)],
       timer := Arm(w.timer, w.now))
  }

  function RetryStep(w: World, acks: seq<bool>, f: RewriteFault): World {
    var t := FlushWorld(w.(timer := Disarm(w.timer)), acks, f);
    t.(timer := if t.store.entries == [] then Reset(t.timer) else Arm(t.timer, w.now))
  }

  /** Events of a stopped agent, and retries of a disarmed timer, do not happen. */
  predicate Enabled(w: World, e: Timed) {
    !w.stopped && w.now <= e.at && (e.event.Retry? ==> w.timer.armed && w.timer.due <= e.at)
  }

  function Step(w: World, e: Timed): World {
    var v := w.(now := e.at);
    match e.event
    case BuildError => v
    case Tick(data, acks, persist, live, append, trim) =>
      var f := Built(FlushWorld(v, acks, persist), data);
      if live then LiveAcked(f, |w.payloads|, data) else LiveFailed(f, |w.payloads|, data, append, trim)
    case Retry(acks, persist) => RetryStep(v, acks, persist)
    case Cancel => v.(timer := Disarm(v.timer), stopped := true)
  }

  function RunAgent(w: World, events: seq<Timed>): World
    decreases |events|
  {
    if events == [] then w else RunAgent(Step(w, events[0]), events[1..])
  }

  predicate Possible(w: World, events: seq<Timed>)
    decreases |events|
  {
    events == [] || (Enabled(w, events[0]) && Possible(Step(w, events[0]), events[1..]))
  }

  /** A life begins with whatever the buffer loaded. */
  function Start(s: Store, interval: int, now: int): World {
    World(s, NewTimer(interval), Ledger(seq(|s.entries|, i requires 0 <= i => i), [], [], [], [], []), [],
          s.entries, now, false)
  }
}
