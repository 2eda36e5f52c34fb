/** The agent as the program runs it: the retrier, the flush and the main loop,
    each proved to take the steps of the model. */
module AgentLoop {
  import opened LineFile
  import opened Queue
  import opened StoreModel
  import opened AgentModel
  import AgentRuns
  import opened AgentDurability
  import Backoff
  import B = Buffer

  /** The one-shot retry timer; disarmed, its channel never fires. */
  class Retrier {
    const backoff: Backoff.Backoff
    var armed: bool
    var due: int
    ghost var delays: seq<int>

    ghost function View(): Timer
      reads this, backoff
    {
      Timer(backoff.min, backoff.max, backoff.current, armed, due, delays)
    }

    constructor (interval: int)
      ensures fresh(backoff) && View() == NewTimer(interval)
    {
      backoff := new Backoff.Backoff(SECOND, interval);
      armed, due, delays := false, 0, [];
    }

    method Arm(now: int)
      modifies this, backoff
      ensures View() == AgentModel.Arm(old(View()), now)
    {
      if armed {
        return;
      }
      var d := backoff.Next();
      armed, due := true, now + d;
      delays := delays + [d];
    }

    method Fired()
      modifies this`armed
      ensures View() == AgentModel.Disarm(old(View()))
    {
      armed := false;
    }

    method Disarm()
      modifies this`armed
      ensures View() == AgentModel.Disarm(old(View()))
    {
      if armed {
        armed := false;
      }
    }

    method Reset()
      modifies this, backoff
      ensures View() == AgentModel.Reset(old(View()))
    {
      backoff.Reset();
      Disarm();
      delays := [];
    }
  }

  /** Posts payloads; the outcome of each POST is the environment's. */
  class Sender {
    ghost var wire: seq<Send>

    constructor ()
      ensures wire == []
    {
      wire := [];
    }

    method SendRaw(data: Bytes, outcome: bool) returns (ok: bool)
      modifies this
      ensures ok == outcome && wire == old(wire) + [Send(data, outcome)]
    {
      wire := wire + [Send(data, outcome)];
      ok := outcome;
    }
  }

  class Agent {
    const buf: B.Buffer
    const snd: Sender
    const retrier: Retrier
    ghost var w: World

    ghost predicate Valid()
      reads this, buf, buf.disk, snd, retrier, retrier.backoff
    {
      && buf.Valid()
      && w.store == buf.log && w.timer == retrier.View() && w.wire == snd.wire && !w.stopped
      && |w.ledger.queue| == |buf.entries|
    }

    constructor (buf: B.Buffer, snd: Sender, interval: int, now: int)
      requires buf.Valid()
      ensures Valid() && this.buf == buf && this.snd == snd && fresh(retrier) && fresh(retrier.backoff)
      ensures w == Start(buf.log, interval, now).(wire := snd.wire)
    {
      this.buf, this.snd := buf, snd;
      retrier := new Retrier(interval);
      w := Start(buf.log, interval, now).(wire := snd.wire);
    }

    /** Sends buffered payloads oldest first until one fails or none is left. */
    method SendOldest(acks: seq<bool>) returns (flushed: nat)
      requires buf.Valid()
      modifies buf, snd
      ensures buf.Valid() && buf.log == FlushLoop(old(buf.log), acks)
      ensures flushed == AckCount(acks, |old(buf.entries)|)
      ensures snd.wire == old(snd.wire) + FlushSends(old(buf.entries), acks)
    {
      flushed := 0;
      ghost var drained, count := FlushLoop(buf.log, acks), AckCount(acks, |buf.entries|);
      ghost var wire := snd.wire + FlushSends(buf.entries, acks);
      while true
        invariant buf.Valid() && flushed <= |acks|
        invariant FlushLoop(buf.log, acks[flushed..]) == drained
        invariant flushed + AckCount(acks[flushed..], |buf.entries|) == count
        invariant snd.wire + FlushSends(buf.entries, acks[flushed..]) == wire
        decreases |buf.entries|
      {
        var oldest, ok := buf.Peek();
        if !ok {
          break;
        }
        ghost var before := snd.wire;
        var sent := snd.SendRaw(oldest, flushed < |acks| && acks[flushed]);
        if !sent {
          break;
        }
        FlushTurn(buf.log, acks, flushed, before);
        oldest, ok := buf.Pop();
        flushed := flushed + 1;
      }
    }

    /** Flushes, then compacts the file if anything was sent. */
    method FlushBuffer(acks: seq<bool>, persist: RewriteFault)
      requires Valid()
      modifies this`w, buf, buf.disk, snd
      ensures Valid() && w == FlushWorld(old(w), acks, persist)
      ensures old(buf.disk.trail) <= buf.disk.trail
      ensures forall k :: |old(buf.disk.trail)| <= k < |buf.disk.trail| ==>
                buf.disk.trail[k].main == old(buf.disk.main) || buf.disk.trail[k].main == buf.disk.main
    {
      AgentRuns.FlushExact(buf.log, acks, persist);
      w := FlushWorld(w, acks, persist);
      var flushed := SendOldest(acks);
      if flushed > 0 {
        var ok := buf.Persist(persist);
      }
    }

    /** The live send of a tick, and what follows from its outcome. */
    method SendLive(at: int, e: Event)
      requires Valid() && e.Tick? && w.now == at
      modifies this`w, buf, buf.disk, snd, retrier, retrier.backoff
      ensures Valid() && w == AfterLive(old(w), e)
      ensures e.live || |e.data| + 1 > buf.maxBytes ==> buf.disk.trail == old(buf.disk.trail)
      ensures old(buf.disk.trail) <= buf.disk.trail
      ensures forall k :: |old(buf.disk.trail)| <= k < |buf.disk.trail| ==>
                B.AppendImage(old(buf.disk.main), e.data, buf.disk.main, buf.disk.trail[k].main)
    {
      ghost var f, id := Built(w, e.data), |w.payloads|;
      var ok := snd.SendRaw(e.data, e.live);
      if !ok {
        AgentRuns.JoinLength(buf.log, e.data, e.append, e.trim, w.ledger, id);
        var stored := buf.Append(e.data, e.append, e.trim);
        retrier.Arm(at);
        w := LiveFailed(f, id, e.data, e.append, e.trim);
      } else {
        retrier.Reset();
        w := LiveAcked(f, id, e.data);
      }
    }

    /** The tick case: collect and build are the environment's, and a build
        error ends the turn. */
    method OnTick(at: int, e: Event)
      requires Valid() && (e.Tick? || e.BuildError?)
      modifies this`w, buf, buf.disk, snd, retrier, retrier.backoff
      ensures Valid() && w == Step(old(w), Timed(at, e))
      ensures old(buf.disk.trail) <= buf.disk.trail
      ensures forall k :: |old(buf.disk.trail)| <= k < |buf.disk.trail| ==>
                StepImage(old(buf.log), e, buf.disk.trail[k].main)
    {
      ghost var w0 := w;
      w := w.(now := at);
      if e.BuildError? {
        return;
      }
      TickStep(w0, at, e);
      FlushBuffer(e.acks, e.persist);
      SendLive(at, e);
    }

    /** The retry case. */
    method OnRetry(at: int, e: Event)
      requires Valid() && e.Retry? && retrier.armed
      modifies this`w, buf, buf.disk, snd, retrier, retrier.backoff
      ensures Valid() && w == Step(old(w), Timed(at, e))
      ensures old(buf.disk.trail) <= buf.disk.trail
      ensures forall k :: |old(buf.disk.trail)| <= k < |buf.disk.trail| ==>
                StepImage(old(buf.log), e, buf.disk.trail[k].main)
    {
      retrier.Fired();
      w := w.(now := at, timer := AgentModel.Disarm(w.timer));
      FlushBuffer(e.acks, e.persist);
      var left := buf.Len();
      if left == 0 {
        retrier.Reset();
        w := w.(timer := AgentModel.Reset(w.timer));
      } else {
        retrier.Arm(at);
        w := w.(timer := AgentModel.Arm(w.timer, at));
      }
    }

    /** The main loop over the events that become ready, until cancelled. */
    method Run(events: seq<Timed>)
      requires Valid() && Possible(w, events)
      modifies this`w, buf, buf.disk, snd, retrier, retrier.backoff
      ensures w == RunAgent(old(w), events)
      ensures buf.Valid() && w.store == buf.log && w.timer == retrier.View() && w.wire == snd.wire
    {
      var i := 0;
      while i < |events|
        invariant i <= |events| && Valid()
        invariant Possible(w, events[i..])
        invariant RunAgent(w, events[i..]) == RunAgent(old(w), events)
      {
        var e := events[i];
        assert events[i..][0] == e && events[i..][1..] == events[i + 1..];
        match e.event {
          case Cancel =>
            retrier.Disarm();
            w := Step(w, e);
            assert events[i + 1..] == [];
            return;
          case Retry(_, _) =>
            OnRetry(e.at, e.event);
          case _ =>
            OnTick(e.at, e.event);
        }
        i := i + 1;
      }
    }
  }

  /** What the live send makes of the state the flush left. */
  ghost function AfterLive(w: World, e: Event): World
    requires e.Tick?
  {
    var f := Built(w, e.data);
    if e.live then LiveAcked(f, |w.payloads|, e.data)
    else LiveFailed(f, |w.payloads|, e.data, e.append, e.trim)
  }

  /** A tick is a flush and a live send. */
  lemma TickStep(w: World, at: int, e: Event)
    requires e.Tick?
    ensures Step(w, Timed(at, e)) == AfterLive(FlushWorld(w.(now := at), e.acks, e.persist), e)
    ensures FlushWorld(w.(now := at), e.acks, e.persist).store == Flush(w.store, e.acks, e.persist)
    ensures AfterLive(FlushWorld(w.(now := at), e.acks, e.persist), e).store
            == if e.live then Flush(w.store, e.acks, e.persist)
               else DoAppend(Flush(w.store, e.acks, e.persist), e.data, e.append, e.trim)
  {
  }

  /** One turn of the flush loop. */
  lemma FlushTurn(s: Store, acks: seq<bool>, i: nat, wire: seq<Send>)
    requires i < |acks| && acks[i] && s.entries != []
    ensures FlushLoop(s, acks[i..]) == FlushLoop(DoDeliver(s), acks[i + 1..])
    ensures AckCount(acks[i..], |s.entries|) == 1 + AckCount(acks[i + 1..], |s.entries| - 1)
    ensures wire + FlushSends(s.entries, acks[i..])
            == (wire + [Send(s.entries[0], true)]) + FlushSends(s.entries[1..], acks[i + 1..])
  {
    assert acks[i..][1..] == acks[i + 1..];
    ConcatAssoc(wire, [Send(s.entries[0], true)], FlushSends(s.entries[1..], acks[i + 1..]));
  }
}
