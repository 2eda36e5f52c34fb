/** At-least-once as the server sees it: over any number of lives of the agent,
    each killed at any point under any fault, every payload that entered the
    buffer was acknowledged in a POST, was evicted, or is still there. */
module AgentLives {
  import opened LineFile
  import opened Queue
  import opened StoreModel
  import opened Durability
  import opened TornLines
  import opened EveryFault
  import opened AgentModel
  import opened AgentRuns
  import opened AgentDurability

  // ------------------------------------------------------------ lives

  /** The buffer moves of a run, in order. */
  function RunMoves(w: World, events: seq<Timed>): seq<Move>
    decreases |events|
  {
    if events == [] then []
    else StepMoves(w.store, events[0].event) + RunMoves(Step(w, events[0]), events[1..])
  }

  lemma {:induction false} RunIsMoves(w: World, events: seq<Timed>)
    requires w.store.up
    ensures Run(w.store, RunMoves(w, events)) == RunAgent(w, events).store
    ensures RunAgent(w, events).store.up
    decreases |events|
  {
    if events != [] {
      var v := Step(w, events[0]);
      StepIsMoves(w, events[0]);
      RunIsMoves(v, events[1..]);
      RunConcat(w.store, StepMoves(w.store, events[0].event), RunMoves(v, events[1..]));
    }
  }

  /** How many entries a turn sends and pops. */
  function Pops(s: Store, e: Event): (k: nat)
    ensures k <= |s.entries|
  {
    if e.Tick? || e.Retry? then AckCount(e.acks, |s.entries|) else 0
  }

  /** How a life ends: not yet, or killed after `cut` buffer moves of its turn
      `last`, possibly inside an append. */
  datatype Ending = Running | Killed(last: Event, cut: nat, how: Move)

  /** A process: its configuration, the faults of its start, its turns, its end. */
  datatype Life = Life(max: int, opens: bool, trim: RewriteFault, interval: int, now: int,
                       events: seq<Timed>, ending: Ending)

  /** The agent once its buffer is loaded. */
  function Begun(s: Store, l: Life): World {
    Start(Run(s, StartMoves(l)), l.interval, l.now)
  }

  function StartMoves(l: Life): seq<Move> {
    [Reconfigure(l.max), Boot(l.opens, l.trim)]
  }

  function LastMoves(s: Store, e: Ending): seq<Move> {
    match e
    case Running => []
    case Killed(last, cut, how) => StepMoves(s, last)[..Min(cut, |StepMoves(s, last)|)] + [how]
  }

  /** The POSTs of the turn a process died in whose entries it had popped. One in
      flight at the death counts as not acknowledged. */
  function LastPosts(s: Store, e: Ending): seq<Send> {
    match e
    case Running => []
    case Killed(last, cut, _) =>
      if Pops(s, last) == 0 then []
      else
        FlushSendsExact(s.entries, last.acks);
        FlushSends(s.entries, last.acks)[..Min(cut, Pops(s, last))]
  }

  /** All buffer moves of a life. A start that fails ends the process, and none is
      made while one runs. */
  function LifeMoves(s: Store, l: Life): seq<Move> {
    var w := Begun(s, l);
    if s.up then []
    else if !w.store.up then StartMoves(l)
    else StartMoves(l) + RunMoves(w, l.events) + LastMoves(RunAgent(w, l.events).store, l.ending)
  }

  function LifePosts(s: Store, l: Life): seq<Send> {
    var w := Begun(s, l);
    var v := RunAgent(w, l.events);
    if s.up || !w.store.up then [] else v.wire + LastPosts(v.store, l.ending)
  }

  function AllMoves(s: Store, lives: seq<Life>): seq<Move>
    decreases |lives|
  {
    if lives == [] then []
    else LifeMoves(s, lives[0]) + AllMoves(Run(s, LifeMoves(s, lives[0])), lives[1..])
  }

  /** Every POST of a history of lives. */
  function AllPosts(s: Store, lives: seq<Life>): seq<Send>
    decreases |lives|
  {
    if lives == [] then []
    else LifePosts(s, lives[0]) + AllPosts(Run(s, LifeMoves(s, lives[0])), lives[1..])
  }

  // ------------------------------------------------------------ pops and posts

  lemma {:induction false} TraceConcat(t: Traced, a: seq<Move>, b: seq<Move>)
    ensures TraceRun(t, a + b) == TraceRun(TraceRun(t, a), b)
    decreases |a|
  {
    if a == [] {
      assert a + b == b;
    } else {
      assert (a + b)[1..] == a[1..] + b;
      TraceConcat(Trace(t, a[0]), a[1..], b);
    }
  }

  /** What was popped was acknowledged. */
  predicate Posted(delivered: set<nat>, accepted: seq<Bytes>, acked: seq<Bytes>) {
    forall i :: i in delivered ==> i < |accepted| && accepted[i] in acked
  }

  lemma PostedGrows(delivered: set<nat>, accepted: seq<Bytes>, acked: seq<Bytes>, more: seq<Bytes>, wider: seq<Bytes>)
    requires Posted(delivered, accepted, acked) && accepted <= more && forall p :: p in acked ==> p in wider
    ensures Posted(delivered, more, wider)
  {
  }

  lemma DeliverPosted(t: Traced, acked: seq<Bytes>)
    requires t.s.up && t.s.entries != [] && Labels(t.tags, t.s.entries, t.s.accepted)
    requires Posted(t.delivered, t.s.accepted, acked)
    ensures var u := Trace(t, Deliver);
            && u.s.up && u.s.entries == t.s.entries[1..] && Labels(u.tags, u.s.entries, u.s.accepted)
            && Posted(u.delivered, u.s.accepted, acked + [t.s.entries[0]])
  {
    assert t.tags[..1] == [t.tags[0]];
    LabelsDrop(t.tags, t.s.entries, t.s.accepted, 1);
  }

  lemma TakeOneMore(acked: seq<Bytes>, entries: seq<Bytes>, n: nat)
    requires 0 < n <= |entries|
    ensures acked + entries[..n] == (acked + [entries[0]]) + entries[1..][..n - 1]
  {
    assert entries[..n] == [entries[0]] + entries[1..][..n - 1];
  }

  lemma {:induction false} DeliversPosted(t: Traced, n: nat, acked: seq<Bytes>)
    requires t.s.up && n <= |t.s.entries| && Labels(t.tags, t.s.entries, t.s.accepted)
    requires Posted(t.delivered, t.s.accepted, acked)
    ensures var u := TraceRun(t, Delivers(n));
            Posted(u.delivered, u.s.accepted, acked + t.s.entries[..n])
    decreases n
  {
    if n == 0 {
      assert acked + t.s.entries[..0] == acked;
    } else {
      DeliverPosted(t, acked);
      assert Delivers(n)[0] == Deliver && Delivers(n)[1..] == Delivers(n - 1);
      DeliversPosted(Trace(t, Deliver), n - 1, acked + [t.s.entries[0]]);
      TakeOneMore(acked, t.s.entries, n);
    }
  }

  lemma OtherPosted(t: Traced, m: Move, acked: seq<Bytes>)
    requires Posted(t.delivered, t.s.accepted, acked) && !m.Deliver?
    ensures Posted(Trace(t, m).delivered, Trace(t, m).s.accepted, acked)
  {
    OtherDelivers(t, m);
    OtherAccepts(t, m);
    PostedGrows(t.delivered, t.s.accepted, acked, Trace(t, m).s.accepted, acked);
  }

  lemma OtherDelivers(t: Traced, m: Move)
    requires !m.Deliver?
    ensures Trace(t, m).delivered == t.delivered
  {
  }

  lemma OtherAccepts(t: Traced, m: Move)
    ensures t.s.accepted <= Trace(t, m).s.accepted
  {
    match m
    case Append(p, _, trim) => FitAccepts(TraceEnter(t, p), trim);
    case Boot(_, trim) => FitAccepts(TraceLoaded(t), trim);
    case _ =>
  }

  lemma {:induction false} OthersPosted(t: Traced, moves: seq<Move>, acked: seq<Bytes>)
    requires Posted(t.delivered, t.s.accepted, acked) && forall m :: m in moves ==> !m.Deliver?
    ensures Posted(TraceRun(t, moves).delivered, TraceRun(t, moves).s.accepted, acked)
    decreases |moves|
  {
    if moves != [] {
      OtherPosted(t, moves[0], acked);
      OthersPosted(Trace(t, moves[0]), moves[1..], acked);
    }
  }

  // ------------------------------------------------------------ turns

  predicate PlainEvent(e: Event) {
    e.Tick? ==> Plain(e.data)
  }

  /** The moves of a turn behind its pops. */
  function AfterPops(s: Store, e: Event): seq<Move> {
    match e
    case Tick(data, acks, persist, live, append, trim) =>
      (if Pops(s, e) == 0 then [] else [Persist(persist)]) + if live then [] else [Append(data, append, trim)]
    case Retry(acks, persist) => if Pops(s, e) == 0 then [] else [Persist(persist)]
    case _ => []
  }

  lemma {:induction false} DeliversPart(k: nat, cut: nat)
    requires cut <= k
    ensures |Delivers(k)| == k && Delivers(k)[..cut] == Delivers(cut)
    decreases k
  {
    if k > 0 {
      DeliversPart(k - 1, if cut == 0 then 0 else cut - 1);
      if cut > 0 {
        assert Delivers(k)[..cut] == [Deliver] + Delivers(k - 1)[..cut - 1];
      }
    }
  }

  /** Any part of a turn: some of its pops, or all of them and then others. */
  lemma PartOfTurn(s: Store, e: Event, cut: nat) returns (rest: seq<Move>)
    requires cut <= |StepMoves(s, e)|
    ensures StepMoves(s, e)[..cut] == Delivers(Min(cut, Pops(s, e))) + rest
    ensures rest <= AfterPops(s, e)
  {
    var k := Pops(s, e);
    assert StepMoves(s, e) == Delivers(k) + AfterPops(s, e);
    if cut <= k {
      DeliversPart(k, cut);
      rest := [];
    } else {
      DeliversPart(k, k);
      rest := AfterPops(s, e)[..cut - k];
    }
  }

  /** After any part of a turn the popped entries are those it was acknowledged
      for. */
  lemma TurnPosted(t: Traced, e: Event, cut: nat, acked: seq<Bytes>)
    requires t.s.up && Labels(t.tags, t.s.entries, t.s.accepted) && cut <= |StepMoves(t.s, e)|
    requires Posted(t.delivered, t.s.accepted, acked)
    ensures var u := TraceRun(t, StepMoves(t.s, e)[..cut]);
            Posted(u.delivered, u.s.accepted, acked + t.s.entries[..Min(cut, Pops(t.s, e))])
  {
    var n := Min(cut, Pops(t.s, e));
    var rest := PartOfTurn(t.s, e, cut);
    DeliversPosted(t, n, acked);
    TraceConcat(t, Delivers(n), rest);
    OthersPosted(TraceRun(t, Delivers(n)), rest, acked + t.s.entries[..n]);
  }

  /** The acknowledged payloads of the POSTs a dying process had acted on. */
  lemma {:induction false} AckedPart(entries: seq<Bytes>, acks: seq<bool>, n: nat)
    requires n <= AckCount(acks, |entries|) && n <= |FlushSends(entries, acks)|
    ensures AckedPayloads(FlushSends(entries, acks)[..n]) == entries[..n]
  {
    var sends := FlushSends(entries, acks);
    if n > 0 {
      AckedPart(entries[1..], acks[1..], n - 1);
      var rest := FlushSends(entries[1..], acks[1..])[..n - 1];
      assert sends[..n] == [Send(entries[0], true)] + rest;
      AckedConcat([Send(entries[0], true)], rest);
      AckedOne(Send(entries[0], true));
      assert entries[..n] == [entries[0]] + entries[1..][..n - 1];
    }
  }

  // ------------------------------------------------------------ histories

  lemma StepSound(t: Traced, w: World, e: Timed)
    requires Sound(t) && t.s == w.store && t.s.up && PlainEvent(e.event)
    ensures var u := TraceRun(t, StepMoves(t.s, e.event));
            u.s == Step(w, e).store && u.s.up && Sound(u)
  {
    StepMovesPlain(t.s, e.event);
    RunKeepsSound(t, StepMoves(t.s, e.event));
    StepIsMoves(w, e);
  }

  /** A whole turn. */
  lemma StepPosted(t: Traced, w: World, e: Timed, before: seq<Send>)
    requires t.s == w.store && t.s.up && Labels(t.tags, t.s.entries, t.s.accepted)
    requires Posted(t.delivered, t.s.accepted, AckedPayloads(before + w.wire))
    ensures var u := TraceRun(t, StepMoves(t.s, e.event));
            Posted(u.delivered, u.s.accepted, AckedPayloads(before + Step(w, e).wire))
  {
    var moves := StepMoves(t.s, e.event);
    var u := TraceRun(t, moves);
    var k := Min(|moves|, Pops(t.s, e.event));
    assert moves[..|moves|] == moves;
    TurnPosted(t, e.event, |moves|, AckedPayloads(before + w.wire));
    StepAcks(w, e, before);
    MovesPops(t.s, e.event);
    PostedGrows(u.delivered, u.s.accepted, AckedPayloads(before + w.wire) + t.s.entries[..k],
                u.s.accepted, AckedPayloads(before + Step(w, e).wire));
  }

  lemma MovesPops(s: Store, e: Event)
    ensures Pops(s, e) <= |StepMoves(s, e)|
  {
    DeliversPart(Pops(s, e), 0);
  }

  lemma StepMovesPlain(s: Store, e: Event)
    requires PlainEvent(e)
    ensures forall m :: m in StepMoves(s, e) ==> PlainMove(m)
  {
    if e.Tick? || e.Retry? {
      DeliversOnly(AckCount(e.acks, |s.entries|));
    }
  }

  /** What a turn popped it was acknowledged for. */
  lemma StepAcks(w: World, e: Timed, before: seq<Send>)
    ensures var acked := AckedPayloads(before + w.wire) + w.store.entries[..Pops(w.store, e.event)];
            acked <= AckedPayloads(before + Step(w, e).wire)
  {
    var entries := w.store.entries;
    if e.event.Tick? || e.event.Retry? {
      var sends := FlushSends(entries, e.event.acks);
      var more := if e.event.Tick? then [Send(e.event.data, e.event.live)] else [];
      assert before + Step(w, e).wire == (before + w.wire) + sends + more;
      AckedConcat((before + w.wire) + sends, more);
      AckedConcat(before + w.wire, sends);
      AckedOfFlush(entries, e.event.acks);
    } else {
      assert entries[..0] == [];
    }
  }

  /** A run of turns. */
  lemma {:induction false} RunPosted(t: Traced, w: World, events: seq<Timed>, before: seq<Send>)
    requires Sound(t) && t.s == w.store && t.s.up && forall e :: e in events ==> PlainEvent(e.event)
    requires Posted(t.delivered, t.s.accepted, AckedPayloads(before + w.wire))
    ensures var u := TraceRun(t, RunMoves(w, events));
            && u.s == RunAgent(w, events).store && u.s.up && Sound(u)
            && Posted(u.delivered, u.s.accepted, AckedPayloads(before + RunAgent(w, events).wire))
    decreases |events|
  {
    if events != [] {
      var v := Step(w, events[0]);
      var moves := StepMoves(w.store, events[0].event);
      assert events[0] in events;
      SoundLabels(t);
      StepSound(t, w, events[0]);
      StepPosted(t, w, events[0], before);
      RunPosted(TraceRun(t, moves), v, events[1..], before);
      TraceConcat(t, moves, RunMoves(v, events[1..]));
    }
  }

  /** Payloads are plain, and a process dies between two moves or inside an append.
      Every fault, every turn and every point of death is allowed. */
  predicate PlainLife(l: Life) {
    && (forall e :: e in l.events ==> PlainEvent(e.event))
    && (l.ending.Killed? ==> PlainEvent(l.ending.last) && PlainMove(l.ending.how) && Death(l.ending.how))
  }

  predicate Death(m: Move) {
    m.Crash? || m.CrashInAppend?
  }

  /** The end of a life, whatever of its last turn had happened. */
  lemma EndPosted(t: Traced, e: Ending, posts: seq<Send>)
    requires t.s.up && Labels(t.tags, t.s.entries, t.s.accepted)
    requires Posted(t.delivered, t.s.accepted, AckedPayloads(posts))
    requires e.Killed? ==> !e.how.Deliver?
    ensures var u := TraceRun(t, LastMoves(t.s, e));
            Posted(u.delivered, u.s.accepted, AckedPayloads(posts + LastPosts(t.s, e)))
  {
    match e
    case Running =>
      assert posts + [] == posts;
    case Killed(last, cut, how) =>
      var n := Min(cut, |StepMoves(t.s, last)|);
      var part := StepMoves(t.s, last)[..n];
      var acked := AckedPayloads(posts) + t.s.entries[..Min(cut, Pops(t.s, last))];
      MovesPops(t.s, last);
      TurnPosted(t, last, n, AckedPayloads(posts));
      TraceConcat(t, part, [how]);
      OthersPosted(TraceRun(t, part), [how], acked);
      AckedConcat(posts, LastPosts(t.s, e));
      LastAcks(t.s, last, cut, how);
  }

  lemma LastAcks(s: Store, last: Event, cut: nat, how: Move)
    ensures AckedPayloads(LastPosts(s, Killed(last, cut, how))) == s.entries[..Min(cut, Pops(s, last))]
  {
    if Pops(s, last) > 0 {
      FlushSendsExact(s.entries, last.acks);
      AckedPart(s.entries, last.acks, Min(cut, Pops(s, last)));
    } else {
      assert s.entries[..0] == [];
    }
  }

  lemma {:induction false} RunMovesPlain(w: World, events: seq<Timed>)
    requires forall e :: e in events ==> PlainEvent(e.event)
    ensures forall m :: m in RunMoves(w, events) ==> PlainMove(m) && !Death(m)
    decreases |events|
  {
    if events != [] {
      assert events[0] in events;
      StepMovesPlain(w.store, events[0].event);
      StepMovesRunning(w.store, events[0].event);
      RunMovesPlain(Step(w, events[0]), events[1..]);
    }
  }

  lemma LifeMovesPlain(s: Store, l: Life)
    requires PlainLife(l)
    ensures forall m :: m in LifeMoves(s, l) ==> PlainMove(m)
  {
    RunMovesPlain(Begun(s, l), l.events);
    if l.ending.Killed? {
      var all := StepMoves(RunAgent(Begun(s, l), l.events).store, l.ending.last);
      StepMovesPlain(RunAgent(Begun(s, l), l.events).store, l.ending.last);
      assert forall m :: m in all[..Min(l.ending.cut, |all|)] ==> m in all;
    }
  }

  lemma LifePosted(t: Traced, l: Life, posts: seq<Send>)
    requires Sound(t) && PlainLife(l) && Posted(t.delivered, t.s.accepted, AckedPayloads(posts))
    ensures var u := TraceRun(t, LifeMoves(t.s, l));
            Posted(u.delivered, u.s.accepted, AckedPayloads(posts + LifePosts(t.s, l)))
  {
    var w := Begun(t.s, l);
    if t.s.up {
      assert posts + [] == posts;
    } else {
      var b := TraceRun(t, StartMoves(l));
      RunKeepsSound(t, StartMoves(l));
      OthersPosted(t, StartMoves(l), AckedPayloads(posts));
      if !w.store.up {
        assert posts + [] == posts;
      } else {
        BegunPosted(b, w, l, posts);
        var turns := RunMoves(w, l.events);
        var last := LastMoves(RunAgent(w, l.events).store, l.ending);
        TraceConcat(t, StartMoves(l) + turns, last);
        TraceConcat(t, StartMoves(l), turns);
      }
    }
  }

  lemma BegunPosted(b: Traced, w: World, l: Life, posts: seq<Send>)
    requires Sound(b) && b.s == w.store && b.s.up && w.wire == [] && PlainLife(l)
    requires Posted(b.delivered, b.s.accepted, AckedPayloads(posts))
    ensures var v := RunAgent(w, l.events);
            var u := TraceRun(TraceRun(b, RunMoves(w, l.events)), LastMoves(v.store, l.ending));
            Posted(u.delivered, u.s.accepted, AckedPayloads(posts + (v.wire + LastPosts(v.store, l.ending))))
  {
    var v := RunAgent(w, l.events);
    var m := TraceRun(b, RunMoves(w, l.events));
    assert posts + [] == posts;
    RunPosted(b, w, l.events, posts);
    SoundLabels(m);
    EndPosted(m, l.ending, posts + v.wire);
    ConcatAssoc(posts, v.wire, LastPosts(v.store, l.ending));
  }

  /** Over any history, what was popped was acknowledged in some life. */
  lemma {:induction false} AllPosted(t: Traced, lives: seq<Life>, posts: seq<Send>)
    requires Sound(t) && (forall l :: l in lives ==> PlainLife(l))
    requires Posted(t.delivered, t.s.accepted, AckedPayloads(posts))
    ensures var u := TraceRun(t, AllMoves(t.s, lives));
            && u.s == Run(t.s, AllMoves(t.s, lives)) && Sound(u)
            && Posted(u.delivered, u.s.accepted, AckedPayloads(posts + AllPosts(t.s, lives)))
    decreases |lives|
  {
    if lives == [] {
      assert posts + [] == posts;
    } else {
      var moves := LifeMoves(t.s, lives[0]);
      var u := TraceRun(t, moves);
      assert lives[0] in lives;
      LifeMovesPlain(t.s, lives[0]);
      RunKeepsSound(t, moves);
      LifePosted(t, lives[0], posts);
      AllPosted(u, lives[1..], posts + LifePosts(t.s, lives[0]));
      ConcatAssoc(posts, LifePosts(t.s, lives[0]), AllPosts(u.s, lives[1..]));
      TraceConcat(t, moves, AllMoves(u.s, lives[1..]));
      RunConcat(t.s, moves, AllMoves(u.s, lives[1..]));
    }
  }

  /** A history can be cut anywhere: its moves and its POSTs are those of the first
      lives and then those of the others, from the disk the first ones leave. */
  lemma {:induction false} HistoryConcat(s: Store, a: seq<Life>, b: seq<Life>)
    ensures var t := Run(s, AllMoves(s, a));
            && AllMoves(s, a + b) == AllMoves(s, a) + AllMoves(t, b)
            && AllPosts(s, a + b) == AllPosts(s, a) + AllPosts(t, b)
    decreases |a|
  {
    if a == [] {
      assert a + b == b;
    } else {
      var moves := LifeMoves(s, a[0]);
      var u := Run(s, moves);
      assert (a + b)[1..] == a[1..] + b;
      HistoryConcat(u, a[1..], b);
      RunConcat(s, moves, AllMoves(u, a[1..]));
      ConcatAssoc(moves, AllMoves(u, a[1..]), AllMoves(Run(s, AllMoves(s, a)), b));
      ConcatAssoc(LifePosts(s, a[0]), AllPosts(u, a[1..]), AllPosts(Run(s, AllMoves(s, a)), b));
    }
  }

  /** The POSTs of a life: those of its turns, and those of the turn it died in whose
      entries it had popped, all acknowledged. */
  lemma LifePostsAre(s: Store, l: Life)
    requires !s.up && Begun(s, l).store.up
    ensures var v := RunAgent(Begun(s, l), l.events);
            var cut := if l.ending.Killed? then Min(l.ending.cut, Pops(v.store, l.ending.last)) else 0;
            && v.wire <= LifePosts(s, l)
            && |LifePosts(s, l)| == |v.wire| + cut
            && forall i :: 0 <= i < cut ==> LifePosts(s, l)[|v.wire| + i] == Send(v.store.entries[i], true)
  {
    var v := RunAgent(Begun(s, l), l.events);
    if l.ending.Killed? && Pops(v.store, l.ending.last) > 0 {
      FlushSendsExact(v.store.entries, l.ending.last.acks);
    }
  }

  /** The trace of a history from a fresh disk. */
  function After(max: int, lives: seq<Life>): Traced {
    TraceRun(TraceFresh(max), AllMoves(Fresh(max), lives))
  }

  /** Its store is what the moves make of the disk. */
  lemma HistoryIsRun(max: int, lives: seq<Life>)
    requires forall l :: l in lives ==> PlainLife(l)
    ensures After(max, lives).s == Run(Fresh(max), AllMoves(Fresh(max), lives)) && Sound(After(max, lives))
  {
    FreshIsSound(max);
    AllPosted(TraceFresh(max), lives, []);
  }

  /** The payload with this number was acknowledged in one of these POSTs, evicted by
      the cap, or is where Whole says; or it is the exception. */
  ghost predicate SentOrKept(t: Traced, posts: seq<Send>, i: nat)
    requires i < |t.s.accepted|
  {
    t.s.accepted[i] in AckedPayloads(posts) || i in t.evicted || Whole(t, i) || Stuck(t, i)
  }

  /** At-least-once for the agent: after any lives, each started, run and killed
      under any fault at any point, every payload that entered the buffer was
      acknowledged in a POST, was evicted by the cap, is on disk as itself, and in
      memory while a process runs, or was accepted behind a torn line. */
  lemma NoLifeLosesData(max: int, lives: seq<Life>, i: nat)
    requires forall l :: l in lives ==> PlainLife(l)
    requires i < |After(max, lives).s.accepted|
    ensures SentOrKept(After(max, lives), AllPosts(Fresh(max), lives), i)
  {
    HistoryIsRun(max, lives);
    HistoryPosted(max, lives);
    SoundIsPlaced(After(max, lives), i);
  }

  lemma HistoryPosted(max: int, lives: seq<Life>)
    requires forall l :: l in lives ==> PlainLife(l)
    ensures var t := After(max, lives);
            Posted(t.delivered, t.s.accepted, AckedPayloads(AllPosts(Fresh(max), lives)))
  {
    FreshIsSound(max);
    AllPosted(TraceFresh(max), lives, []);
    assert [] + AllPosts(Fresh(max), lives) == AllPosts(Fresh(max), lives);
  }

  /** A running life holds, as itself, everything it accepted that has not left the
      queue, glued or not. */
  lemma LifeRemembers(t: Traced, l: Life, i: nat)
    requires Sound(t) && !t.s.up && PlainLife(l) && l.ending.Running? && Begun(t.s, l).store.up
    ensures var u := TraceRun(t, LifeMoves(t.s, l));
            && u.s == RunAgent(Begun(t.s, l), l.events).store
            && (|t.s.accepted| <= i < |u.s.accepted| ==>
                  i in EveryFault.Gone(u) || Stands(i, u.s.accepted, u.tags, u.s.entries))
  {
    var w := Begun(t.s, l);
    var b := TraceRun(t, StartMoves(l));
    var turns := RunMoves(w, l.events);
    var u := TraceRun(b, turns);
    RunKeepsSound(t, StartMoves(l));
    TraceConcat(t, StartMoves(l), turns);
    assert LifeMoves(t.s, l) == StartMoves(l) + turns;
    StartAccepts(t.s, l);
    RunMovesPlain(w, l.events);
    RunKeepsSound(b, turns);
    RunIsMoves(w, l.events);
    RunKeepsRecent(b, turns, |t.s.accepted|);
    SoundLabels(u);
    if |t.s.accepted| <= i < |u.s.accepted| {
      TagIsText(i, u.s.accepted, u.tags, u.s.entries);
    }
  }

  lemma StartAccepts(s: Store, l: Life)
    ensures Run(s, StartMoves(l)).accepted == s.accepted
  {
    var boot := Boot(l.opens, l.trim);
    assert StartMoves(l) == [Reconfigure(l.max)] + [boot];
    RunConcat(s, [Reconfigure(l.max)], [boot]);
    RunOne(s, Reconfigure(l.max));
    RunOne(Do(s, Reconfigure(l.max)), boot);
    BootAccepts(Do(s, Reconfigure(l.max)), l.opens, l.trim);
  }

  lemma BootAccepts(s: Store, opens: bool, trim: RewriteFault)
    ensures DoBoot(s, opens, trim).accepted == s.accepted
  {
  }

  // ------------------------------------------------------------ clean histories

  /** Every append of the life succeeds or writes nothing. */
  predicate CleanLife(l: Life) {
    && (forall e :: e in l.events ==> CleanEvent(e.event))
    && (l.ending.Killed? ==> CleanEvent(l.ending.last) && Clean(l.ending.how))
  }

  lemma {:induction false} RunMovesClean(w: World, events: seq<Timed>)
    requires forall e :: e in events ==> CleanEvent(e.event)
    ensures forall m :: m in RunMoves(w, events) ==> Clean(m)
    decreases |events|
  {
    if events != [] {
      assert events[0] in events;
      StepMovesClean(w.store, events[0].event);
      RunMovesClean(Step(w, events[0]), events[1..]);
    }
  }

  lemma LifeMovesClean(s: Store, l: Life)
    requires CleanLife(l)
    ensures forall m :: m in LifeMoves(s, l) ==> Clean(m)
  {
    RunMovesClean(Begun(s, l), l.events);
    if l.ending.Killed? {
      var all := StepMoves(RunAgent(Begun(s, l), l.events).store, l.ending.last);
      StepMovesClean(RunAgent(Begun(s, l), l.events).store, l.ending.last);
      assert forall m :: m in all[..Min(l.ending.cut, |all|)] ==> m in all;
    }
  }

  lemma {:induction false} AllMovesAre(s: Store, lives: seq<Life>)
    requires forall l :: l in lives ==> PlainLife(l) && CleanLife(l)
    ensures forall m :: m in AllMoves(s, lives) ==> PlainMove(m) && Clean(m)
    decreases |lives|
  {
    if lives != [] {
      assert lives[0] in lives;
      LifeMovesPlain(s, lives[0]);
      LifeMovesClean(s, lives[0]);
      AllMovesAre(Run(s, LifeMoves(s, lives[0])), lives[1..]);
    }
  }

  /** When every append succeeds or writes nothing there is no exception. */
  lemma CleanLivesLoseNothing(max: int, lives: seq<Life>, i: nat)
    requires forall l :: l in lives ==> PlainLife(l) && CleanLife(l)
    requires i < |After(max, lives).s.accepted|
    ensures SentOrKept(After(max, lives), AllPosts(Fresh(max), lives), i)
    ensures !Stuck(After(max, lives), i)
  {
    AllMovesAre(Fresh(max), lives);
    FreshIsSound(max);
    FreshIsDurable(max);
    CleanRunGluesNothing(TraceFresh(max), AllMoves(Fresh(max), lives));
    NoLifeLosesData(max, lives, i);
  }
}
