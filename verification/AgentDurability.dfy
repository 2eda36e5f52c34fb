/** The agent uses the buffer so that its at-least-once promise carries over:
    every step is a sequence of buffer moves, and the process may die between
    or inside any two of them. */
module AgentDurability {
  import opened LineFile
  import opened StoreModel
  import opened AgentModel
  import opened Durability

  function Delivers(k: nat): seq<Move> {
    if k == 0 then [] else [Deliver] + Delivers(k - 1)
  }

  function FlushMoves(s: Store, acks: seq<bool>, f: RewriteFault): seq<Move> {
    var k := AckCount(acks, |s.entries|);
    Delivers(k) + if k == 0 then [] else [Persist(f)]
  }

  /** The buffer moves of one step, in order. */
  function StepMoves(s: Store, e: Event): seq<Move> {
    match e
    case Tick(data, acks, persist, live, append, trim) =>
      FlushMoves(s, acks, persist) + if live then [] else [Append(data, append, trim)]
    case Retry(acks, persist) => FlushMoves(s, acks, persist)
    case _ => []
  }

  predicate CleanEvent(e: Event) {
    e.Tick? ==> Clean(Append(e.data, e.append, e.trim))
  }

  lemma {:induction false} FlushLoopIsDelivers(s: Store, acks: seq<bool>)
    requires s.up
    ensures Run(s, Delivers(AckCount(acks, |s.entries|))) == FlushLoop(s, acks)
    ensures FlushLoop(s, acks).up
    decreases |acks|
  {
    if s.entries != [] && acks != [] && acks[0] {
      FlushLoopIsDelivers(DoDeliver(s), acks[1..]);
      var k := AckCount(acks, |s.entries|);
      assert Delivers(k)[0] == Deliver && Delivers(k)[1..] == Delivers(k - 1);
    }
  }

  lemma RunOne(s: Store, m: Move)
    ensures Run(s, [m]) == Do(s, m)
  {
  }

  lemma FlushIsMoves(s: Store, acks: seq<bool>, f: RewriteFault)
    requires s.up
    ensures Run(s, FlushMoves(s, acks, f)) == Flush(s, acks, f)
    ensures Flush(s, acks, f).up
  {
    var k := AckCount(acks, |s.entries|);
    FlushLoopIsDelivers(s, acks);
    if k == 0 {
      assert FlushMoves(s, acks, f) == [];
    } else {
      RunConcat(s, Delivers(k), [Persist(f)]);
      RunOne(FlushLoop(s, acks), Persist(f));
    }
  }

  /** A step changes the store by its moves and by nothing else. */
  lemma StepIsMoves(w: World, e: Timed)
    requires w.store.up
    ensures Run(w.store, StepMoves(w.store, e.event)) == Step(w, e).store
    ensures Step(w, e).store.up
  {
    match e.event
    case BuildError =>
    case Tick(data, acks, persist, live, append, trim) =>
      FlushIsMoves(w.store, acks, persist);
      var flush := FlushMoves(w.store, acks, persist);
      if live {
        assert flush + [] == flush;
      } else {
        RunConcat(w.store, flush, [Append(data, append, trim)]);
        RunOne(Flush(w.store, acks, persist), Append(data, append, trim));
      }
    case Retry(acks, persist) =>
      FlushIsMoves(w.store, acks, persist);
    case Cancel =>
  }

  lemma {:induction false} DeliversClean(k: nat)
    ensures forall m :: m in Delivers(k) ==> Clean(m)
  {
    if k > 0 { DeliversClean(k - 1); }
  }

  lemma StepMovesClean(s: Store, e: Event)
    requires CleanEvent(e)
    ensures forall m :: m in StepMoves(s, e) ==> Clean(m)
  {
    if e.Tick? || e.Retry? {
      DeliversClean(AckCount(e.acks, |s.entries|));
    }
  }

  lemma {:induction false} LifeIsDurable(w: World, events: seq<Timed>)
    requires w.store.up && Durable(w.store) && forall e :: e in events ==> CleanEvent(e.event)
    ensures RunAgent(w, events).store.up && Durable(RunAgent(w, events).store)
    decreases |events|
  {
    if events != [] {
      assert events[0] in events;
      StepMovesClean(w.store, events[0].event);
      RunKeepsDurable(w.store, StepMoves(w.store, events[0].event));
      StepIsMoves(w, events[0]);
      LifeIsDurable(Step(w, events[0]), events[1..]);
    }
  }

  lemma {:induction false} StaysUp(s: Store, moves: seq<Move>)
    requires s.up && forall m :: m in moves ==> m.Append? || m.Deliver? || m.Persist?
    ensures Run(s, moves).up
    decreases |moves|
  {
    if moves != [] {
      assert moves[0] in moves;
      StaysUp(Do(s, moves[0]), moves[1..]);
    }
  }

  lemma {:induction false} DeliversOnly(k: nat)
    ensures forall m :: m in Delivers(k) ==> m.Deliver?
  {
    if k > 0 { DeliversOnly(k - 1); }
  }

  /** A downed server, or a dying process, costs no data: after any clean life of
      the agent and any part of one more step, killing the process and starting
      it again brings back every heartbeat that was queued at that point, behind
      at most a block of ones that had already left. */
  lemma AgentSurvivesCrash(w: World, events: seq<Timed>, last: Event, cut: nat)
    requires w.store.up && Durable(w.store)
    requires CleanEvent(last) && forall e :: e in events ==> CleanEvent(e.event)
    requires cut <= |StepMoves(RunAgent(w, events).store, last)|
    ensures var s := RunAgent(w, events).store;
            var dying := Run(s, StepMoves(s, last)[..cut]);
            && dying.up && NothingLost(dying)
            && Resumes(dying, Restarted(dying))
  {
    LifeIsDurable(w, events);
    PartOfStep(RunAgent(w, events).store, last, cut);
  }

  /** So does a death inside the append of a failing tick, wherever the write was
      cut: the queue left by the flush comes back, followed by what the append
      left, and the new heartbeat is accepted exactly when its whole line was
      written. */
  lemma AgentSurvivesAppendCrash(w: World, events: seq<Timed>, last: Event, wrote: nat)
    requires w.store.up && Durable(w.store)
    requires last.Tick? && !last.live && Payload(last.data)
    requires forall e :: e in events ==> CleanEvent(e.event)
    requires !Oversized(Flush(RunAgent(w, events).store, last.acks, last.persist), last.data)
    ensures SurvivesTornAppend(Flush(RunAgent(w, events).store, last.acks, last.persist), last.data, wrote)
  {
    LifeIsDurable(w, events);
    FlushIsDurable(RunAgent(w, events).store, last.acks, last.persist);
    RestartAfterAppendCrash(Flush(RunAgent(w, events).store, last.acks, last.persist), last.data, wrote);
  }

  lemma FlushIsDurable(s: Store, acks: seq<bool>, f: RewriteFault)
    requires s.up && Durable(s)
    ensures Flush(s, acks, f).up && Durable(Flush(s, acks, f))
  {
    FlushIsMoves(s, acks, f);
    DeliversClean(AckCount(acks, |s.entries|));
    RunKeepsDurable(s, FlushMoves(s, acks, f));
  }

  lemma PartOfStep(s: Store, last: Event, cut: nat)
    requires s.up && Durable(s) && CleanEvent(last) && cut <= |StepMoves(s, last)|
    ensures var dying := Run(s, StepMoves(s, last)[..cut]);
            && dying.up && NothingLost(dying)
            && Resumes(dying, Restarted(dying))
  {
    var moves := StepMoves(s, last);
    StepMovesClean(s, last);
    StepMovesRunning(s, last);
    assert forall m :: m in moves[..cut] ==> m in moves;
    RunKeepsDurable(s, moves[..cut]);
    StaysUp(s, moves[..cut]);
    DurableLosesNothing(Run(s, moves[..cut]));
    RestartKeepsQueue(Run(s, moves[..cut]));
  }

  lemma StepMovesRunning(s: Store, e: Event)
    ensures forall m :: m in StepMoves(s, e) ==> m.Append? || m.Deliver? || m.Persist?
  {
    if e.Tick? || e.Retry? {
      DeliversOnly(AckCount(e.acks, |s.entries|));
    }
  }

  // ------------------------------------------------------------ every instant of a step

  /** What the buffer path can hold at any instant of a step: the file before it,
      the file after its flush, the file after it, or that of the flush with part
      of the new line behind it. */
  predicate StepImage(s: Store, e: Event, image: Bytes) {
    || image == s.file
    || ((e.Tick? || e.Retry?) && image == Flush(s, e.acks, e.persist).file)
    || (e.Tick? && !e.live
        && var t := Flush(s, e.acks, e.persist);
           && !Oversized(t, e.data)
           && (t.file <= image <= t.file + Line(e.data)
               || image == DoAppend(t, e.data, e.append, e.trim).file))
  }

  /** Each of them is the disk of a modelled death: some of the step's moves, and
      then a crash, or a crash inside its append. */
  lemma StepImageIsDeath(s: Store, e: Event, image: Bytes) returns (cut: nat, death: Move)
    requires s.up && StepImage(s, e, image)
    ensures cut <= |StepMoves(s, e)|
    ensures death == Crash || (e.Tick? && !e.live && death.CrashInAppend? && death.p == e.data)
    ensures !Do(Run(s, StepMoves(s, e)[..cut]), death).up
    ensures Do(Run(s, StepMoves(s, e)[..cut]), death).file == image
  {
    var moves := StepMoves(s, e);
    if image == s.file {
      cut, death := 0, Crash;
      assert moves[..0] == [];
    } else {
      var flush := FlushMoves(s, e.acks, e.persist);
      var t := Flush(s, e.acks, e.persist);
      FlushIsMoves(s, e.acks, e.persist);
      assert moves[..|flush|] == flush;
      if image == t.file {
        cut, death := |flush|, Crash;
      } else if t.file <= image <= t.file + Line(e.data) {
        cut, death := |flush|, CrashInAppend(e.data, |image| - |t.file|);
        ImageIsTorn(t, e.data, image);
      } else {
        cut, death := |moves|, Crash;
        StepIsDone(s, e);
        assert moves[..|moves|] == moves;
      }
    }
  }

  lemma StepIsDone(s: Store, e: Event)
    requires s.up && e.Tick? && !e.live
    ensures Run(s, StepMoves(s, e)) == DoAppend(Flush(s, e.acks, e.persist), e.data, e.append, e.trim)
  {
    FlushIsMoves(s, e.acks, e.persist);
    var append := Append(e.data, e.append, e.trim);
    RunConcat(s, FlushMoves(s, e.acks, e.persist), [append]);
    RunOne(Flush(s, e.acks, e.persist), append);
  }

  /** Part of a line behind a file is what a write that stopped leaves. */
  lemma ImageIsTorn(s: Store, p: Bytes, image: Bytes)
    requires s.up && !Oversized(s, p) && s.file <= image <= s.file + Line(p)
    ensures Do(s, CrashInAppend(p, |image| - |s.file|)).file == image
  {
    var n := |image| - |s.file|;
    assert image == (s.file + Line(p))[..|image|] == s.file + Line(p)[..n];
  }
}
