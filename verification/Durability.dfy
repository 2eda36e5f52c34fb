/** At-least-once across crashes: what every run of buffer operations, disk
    faults, process deaths and restarts keeps. */
module Durability {
  import opened LineFile
  import opened Queue
  import opened StoreModel

  /** The payloads still held: by memory while a process is running, by the
      file while none is. */
  function Held(s: Store): seq<Bytes> {
    if s.up then s.entries else Decode(s.file)
  }

  /** The accepted payloads before this index are no longer held. */
  function Base(s: Store): int {
    |s.accepted| - |Held(s)|
  }

  predicate Gone(exits: seq<Exit>, i: int) {
    Delivered(i) in exits || Evicted(i) in exits
  }

  ghost predicate Settled(exits: seq<Exit>, n: int) {
    forall i :: 0 <= i < n ==> Gone(exits, i)
  }

  predicate Fits(entries: seq<Bytes>, max: int) {
    Size(entries) <= max || entries == []
  }

  predicate Payloads(list: seq<Bytes>) {
    forall p :: p in list ==> Payload(p)
  }

  /** The file is a clean list of lines, the accepted log ends in those lines,
      and they end in the held payloads. */
  predicate Chain(file: Bytes, held: seq<Bytes>, accepted: seq<Bytes>) {
    && Terminated(file) && Readable(file)
    && IsSuffix(held, Decode(file))
    && IsSuffix(Decode(file), accepted)
    && Payloads(accepted)
  }

  /** The durability invariant: held payloads are on disk in order, memory fits
      the cap, and every accepted payload no longer held has left the queue. */
  ghost predicate Durable(s: Store) {
    && Chain(s.file, Held(s), s.accepted)
    && (s.up ==> Fits(s.entries, s.max))
    && Settled(s.exits, Base(s))
  }

  /** Every append writes nothing or succeeds, and a process dies with none or all
      of its line written. A close error, whose line is on disk but not accepted,
      is excluded too. */
  predicate Clean(m: Move) {
    match m
    case Append(p, f, _) => Payload(p) && (f.AppendOk? || f.AppendOpenFails? || f == AppendWriteFails(0))
    case CrashInAppend(p, wrote) => Payload(p) && (wrote == 0 || wrote > |p|)
    case _ => true
  }

  // ------------------------------------------------------------ chains

  lemma SuffixPayloads(a: seq<Bytes>, b: seq<Bytes>)
    requires IsSuffix(a, b) && Payloads(b)
    ensures Payloads(a)
  {
  }

  /** A rewrite that completes turns the file into exactly the memory queue. */
  lemma ChainRewrite(file: Bytes, held: seq<Bytes>, accepted: seq<Bytes>)
    requires Chain(file, held, accepted)
    ensures Decode(Encode(held)) == held
    ensures Chain(Encode(held), held, accepted)
  {
    SuffixTransitive(held, Decode(file), accepted);
    SuffixPayloads(held, accepted);
    DecodeEncode(held);
    EncodeTerminated(held);
    ReadableEncode(held);
  }

  lemma ChainShorten(file: Bytes, held: seq<Bytes>, accepted: seq<Bytes>, less: seq<Bytes>)
    requires Chain(file, held, accepted) && IsSuffix(less, held)
    ensures Chain(file, less, accepted)
  {
  }

  /** A full line added to a clean file, before any eviction. */
  lemma ChainAppend(file: Bytes, held: seq<Bytes>, accepted: seq<Bytes>, p: Bytes)
    requires Chain(file, held, accepted) && Payload(p)
    ensures Decode(file + Line(p)) == Decode(file) + [p]
    ensures Chain(file + Line(p), held + [p], accepted + [p])
  {
    AppendExact(file, p);
    DecodeConcat(file, Line(p));
    RawSingle(p);
    SuffixSnoc(Decode(file), accepted, p);
    SuffixSnoc(held, Decode(file), p);
  }

  // ------------------------------------------------------------ logs

  lemma SettledExtends(exits: seq<Exit>, n: int, more: seq<Exit>, m: int)
    requires Settled(exits, n)
    requires forall i :: 0 <= i && n <= i < m ==> Gone(more, i)
    ensures Settled(exits + more, m)
  {
    forall i | 0 <= i < m ensures Gone(exits + more, i) {
      if i < n { assert Gone(exits, i); } else { assert Gone(more, i); }
    }
  }

  lemma {:induction false} EvictionsGone(first: int, n: nat, i: int)
    requires first <= i < first + n
    ensures Gone(Evictions(first, n), i)
    decreases n
  {
    if i != first {
      EvictionsGone(first + 1, n - 1, i);
    }
  }

  // ------------------------------------------------------------ eviction and rewrite

  /** Everything Durable says of a running process but that memory fits. */
  ghost predicate Backed(s: Store) {
    s.up && Chain(s.file, s.entries, s.accepted) && Settled(s.exits, Base(s))
  }

  lemma SettledEvictions(exits: seq<Exit>, head: int, n: nat)
    requires Settled(exits, head)
    ensures Settled(exits + Evictions(head, n), head + n)
  {
    forall i | head <= i < head + n ensures Gone(Evictions(head, n), i) {
      EvictionsGone(head, n, i);
    }
    SettledExtends(exits, head, Evictions(head, n), head + n);
  }

  lemma ShedKeepsBacked(s: Store)
    requires Backed(s)
    ensures Backed(Shed(s))
  {
    TrimFits(s.entries, s.max);
    ChainShorten(s.file, s.entries, s.accepted, Trim(s.entries, s.max));
    ShedKeepsSettled(s);
  }

  lemma ShedKeepsSettled(s: Store)
    requires Settled(s.exits, Head(s))
    ensures Settled(Shed(s).exits, Head(Shed(s)))
  {
    TrimFits(s.entries, s.max);
    SettledEvictions(s.exits, Head(s), |s.entries| - |Trim(s.entries, s.max)|);
  }

  lemma RewriteKeepsBacked(s: Store, f: RewriteFault)
    requires Backed(s)
    ensures Backed(Rewrite(s, f))
  {
    ChainRewrite(s.file, s.entries, s.accepted);
  }

  lemma FitTrims(s: Store, f: RewriteFault)
    ensures Fit(s, f).entries == Trim(s.entries, s.max)
    ensures Fit(s, f).up == s.up && Fit(s, f).accepted == s.accepted && Fit(s, f).max == s.max
    ensures Fits(Fit(s, f).entries, s.max)
  {
    TrimFits(s.entries, s.max);
  }

  lemma FitKeepsDurable(s: Store, f: RewriteFault)
    requires Backed(s)
    ensures Durable(Fit(s, f))
  {
    FitTrims(s, f);
    if |Trim(s.entries, s.max)| != |s.entries| {
      ShedKeepsBacked(s);
      RewriteKeepsBacked(Shed(s), f);
    }
  }

  // ------------------------------------------------------------ one move

  lemma AppendKeepsDurable(s: Store, p: Bytes, f: AppendFault, trim: RewriteFault)
    requires s.up && Durable(s) && Clean(Append(p, f, trim))
    ensures Durable(DoAppend(s, p, f, trim))
  {
    if Oversized(s, p) || f.AppendOpenFails? {
    } else if f.AppendWriteFails? {
      assert s.file + Torn(p, 0) == s.file;
    } else {
      ChainAppend(s.file, s.entries, s.accepted, p);
      assert Backed(Enter(s, p));
      FitKeepsDurable(Enter(s, p), trim);
    }
  }

  lemma DeliverKeepsDurable(s: Store)
    requires s.up && Durable(s)
    ensures Durable(DoDeliver(s))
  {
    if s.entries != [] {
      ChainShorten(s.file, s.entries, s.accepted, s.entries[1..]);
      assert Gone([Delivered(Head(s))], Head(s));
      SettledExtends(s.exits, Base(s), [Delivered(Head(s))], Head(s) + 1);
    }
  }

  lemma LoadedIsBacked(s: Store)
    requires !s.up && Durable(s)
    ensures Backed(Loaded(s))
  {
  }

  lemma CrashInAppendKeepsDurable(s: Store, p: Bytes, wrote: nat)
    requires Durable(s) && s.up && !Oversized(s, p) && Clean(CrashInAppend(p, wrote))
    ensures var t := Do(s, CrashInAppend(p, wrote));
            && Durable(t)
            && Chain(t.file, s.entries + (if wrote > |p| then [p] else []), t.accepted)
  {
    if wrote == 0 {
      assert s.file + Torn(p, 0) == s.file;
      assert s.entries + [] == s.entries && s.accepted + [] == s.accepted;
    } else {
      assert Torn(p, wrote) == Line(p);
      ChainAppend(s.file, s.entries, s.accepted, p);
    }
  }

  lemma PersistKeepsDurable(s: Store, f: RewriteFault)
    requires s.up && Durable(s)
    ensures Durable(Rewrite(s, f))
  {
    RewriteKeepsBacked(s, f);
  }

  lemma BootKeepsDurable(s: Store, opens: bool, trim: RewriteFault)
    requires !s.up && Durable(s)
    ensures Durable(DoBoot(s, opens, trim))
  {
    LoadedIsBacked(s);
    FitKeepsDurable(Loaded(s), trim);
  }

  /** Between lives only the lines on disk count. */
  lemma DownKeepsDurable(s: Store, max: int)
    requires Durable(s)
    ensures Durable(s.(up := false)) && Durable(s.(up := false, max := max))
  {
  }

  lemma MoveKeepsDurable(s: Store, m: Move)
    requires Durable(s) && Clean(m)
    ensures Durable(Do(s, m))
  {
    if s.up {
      match m
      case Append(p, f, trim) => AppendKeepsDurable(s, p, f, trim);
      case Deliver => DeliverKeepsDurable(s);
      case Persist(f) => PersistKeepsDurable(s, f);
      case Crash => DownKeepsDurable(s, s.max);
      case CrashInAppend(p, wrote) =>
        if Oversized(s, p) {
          DownKeepsDurable(s, s.max);
        } else {
          CrashInAppendKeepsDurable(s, p, wrote);
        }
      case Boot(_, _) =>
      case Reconfigure(_) =>
    } else {
      match m
      case Boot(opens, trim) => BootKeepsDurable(s, opens, trim);
      case Reconfigure(max) => DownKeepsDurable(s, max);
      case _ =>
    }
  }

  // ------------------------------------------------------------ whole runs

  lemma {:induction false} RunKeepsDurable(s: Store, moves: seq<Move>)
    requires Durable(s) && forall m :: m in moves ==> Clean(m)
    ensures Durable(Run(s, moves))
    decreases |moves|
  {
    if moves != [] {
      MoveKeepsDurable(s, moves[0]);
      RunKeepsDurable(Do(s, moves[0]), moves[1..]);
    }
  }

  /** A process that has never run, on a disk with no buffer file. */
  function Fresh(max: int): Store {
    Store(max, false, [], [], [], [], [])
  }

  lemma FreshIsDurable(max: int)
    ensures Durable(Fresh(max))
  {
  }

  /** Every accepted payload left the queue or is still held in its place. */
  ghost predicate LeftOrHeld(exits: seq<Exit>, held: seq<Bytes>, accepted: seq<Bytes>) {
    var base := |accepted| - |held|;
    forall i :: 0 <= i < |accepted| ==>
      Gone(exits, i) || (0 <= i - base && held[i - base] == accepted[i])
  }

  ghost predicate NothingLost(s: Store) {
    LeftOrHeld(s.exits, Held(s), s.accepted)
  }

  lemma SuffixInPlace(exits: seq<Exit>, held: seq<Bytes>, accepted: seq<Bytes>)
    requires IsSuffix(held, accepted) && Settled(exits, |accepted| - |held|)
    ensures LeftOrHeld(exits, held, accepted)
  {
  }

  lemma DurableLosesNothing(s: Store)
    requires Durable(s)
    ensures NothingLost(s)
  {
    SuffixTransitive(Held(s), Decode(s.file), s.accepted);
    SuffixInPlace(s.exits, Held(s), s.accepted);
  }

  /** At-least-once: after any clean run from a fresh disk, every payload that
      ever entered the queue was acknowledged, was evicted by the cap, or is
      still held in its place. What is held is always a suffix of the lines on
      disk, and those are a suffix of everything accepted. */
  lemma AtLeastOnce(max: int, moves: seq<Move>)
    requires forall m :: m in moves ==> Clean(m)
    ensures var s := Run(Fresh(max), moves);
            && NothingLost(s)
            && IsSuffix(Held(s), Decode(s.file))
            && IsSuffix(Decode(s.file), s.accepted)
  {
    FreshIsDurable(max);
    RunKeepsDurable(Fresh(max), moves);
    DurableLosesNothing(Run(Fresh(max), moves));
  }

  /** A boot that can open and rewrite the file brings back all its lines but
      those the cap evicts. */
  lemma BootReads(d: Store)
    requires !d.up && Readable(d.file)
    ensures var b := Do(d, Boot(true, RewriteOk));
            && b.up && b.accepted == d.accepted && b.max == d.max
            && b.entries == Trim(Decode(d.file), d.max)
  {
    FitTrims(Loaded(d), RewriteOk);
  }

  lemma BootsIffReadable(d: Store)
    requires !d.up
    ensures Do(d, Boot(true, RewriteOk)).up <==> Readable(d.file)
  {
    if Readable(d.file) { BootReads(d); }
  }

  /** Killing a process and starting another, with nothing failing. */
  function Restarted(s: Store): Store {
    Do(Do(s, Crash), Boot(true, RewriteOk))
  }

  lemma Restarts(s: Store)
    ensures var b := Restarted(s);
            && (b.up <==> Readable(s.file))
            && (b.up ==> b.entries == Trim(Decode(s.file), s.max) && b.accepted == s.accepted && b.max == s.max)
  {
    var d := s.(up := false);
    assert Do(s, Crash) == d;
    BootsIffReadable(d);
    if Readable(d.file) { BootReads(d); }
  }

  /** A boot on a file within the cap brings back all of it. */
  lemma BootAll(d: Store)
    requires !d.up && Readable(d.file) && Size(Decode(d.file)) <= d.max
    ensures Do(d, Boot(true, RewriteOk)) == Loaded(d)
  {
  }

  /** The queue after a restart: one contiguous block of accepted payloads, all of
      which had already left, and then the whole old queue. */
  ghost predicate Resumes(s: Store, b: Store) {
    && b.up && b.accepted == s.accepted
    && 0 <= Head(b) <= Head(s) <= |s.accepted|
    && b.entries == s.accepted[Head(b)..Head(s)] + s.entries
    && Settled(s.exits, Head(s))
  }

  lemma SuffixBlock<T>(a: seq<T>, b: seq<T>, c: seq<T>)
    requires IsSuffix(a, b) && IsSuffix(b, c)
    ensures b == c[|c| - |b|..|c| - |a|] + a
  {
  }

  /** Stopping between operations, or anywhere in a rewrite that has not been
      renamed yet, and restarting loses nothing that was queued; what it sends
      again is one block, just older than the queue, of payloads that had left. */
  lemma RestartKeepsQueue(s: Store)
    requires Durable(s) && s.up
    ensures Resumes(s, Restarted(s))
  {
    Restarts(s);
    ReloadedQueue(s.entries, Decode(s.file), s.accepted, s.max);
    ResumesBlock(s, Restarted(s));
  }

  lemma ResumesBlock(s: Store, b: Store)
    requires b.up && b.accepted == s.accepted && Settled(s.exits, Head(s))
    requires IsSuffix(s.entries, b.entries) && IsSuffix(b.entries, s.accepted)
    ensures Resumes(s, b)
  {
    SuffixBlock(s.entries, b.entries, s.accepted);
  }

  lemma {:induction false} ReloadedQueue(queue: seq<Bytes>, lines: seq<Bytes>, accepted: seq<Bytes>, max: int)
    requires IsSuffix(queue, lines) && IsSuffix(lines, accepted) && Fits(queue, max)
    ensures IsSuffix(queue, Trim(lines, max)) && IsSuffix(Trim(lines, max), accepted)
  {
    TrimKeepsFittingSuffix(queue, lines, max);
    TrimFits(lines, max);
    SuffixTransitive(Trim(lines, max), lines, accepted);
  }

  lemma {:induction false} TrimSuffix(queue: seq<Bytes>, lines: seq<Bytes>, max: int)
    requires IsSuffix(queue, lines)
    ensures IsSuffix(Trim(queue, max), Trim(lines, max))
  {
    var kept := Trim(queue, max);
    TrimFits(queue, max);
    SuffixTransitive(kept, queue, lines);
    TrimKeepsFittingSuffix(kept, lines, max);
  }

  /** What a restart after a death inside an append may add behind the lines that
      were there: nothing, a prefix of the payload, or the payload. */
  lemma TornPart(p: Bytes, wrote: nat)
    requires Payload(p)
    ensures var part := Decode(Torn(p, wrote));
            && |part| <= 1 && (forall q :: q in part ==> q <= p && |q| <= wrote)
            && (wrote >= |p| ==> part == [p])
            && Readable(Torn(p, wrote))
  {
    var t := Torn(p, wrote);
    if wrote > |p| {
      assert t == Line(p);
      RawSingle(p);
      KeptOne(p);
    } else {
      assert t == p[..wrote];
      RawSingle(t);
      KeptOne(t);
      assert wrote == |p| ==> t == p;
    }
  }

  lemma ChainTorn(file: Bytes, held: seq<Bytes>, accepted: seq<Bytes>, p: Bytes, wrote: nat)
    requires Chain(file, held, accepted) && Payload(p)
    ensures var part := Decode(Torn(p, wrote));
            var f := file + Torn(p, wrote);
            && Readable(f)
            && IsSuffix(held + part, Decode(f)) && IsSuffix(Decode(f), accepted + part)
  {
    TornPart(p, wrote);
    DecodeConcat(file, Torn(p, wrote));
    SuffixConcat(held, Decode(file), Decode(Torn(p, wrote)));
    SuffixConcat(Decode(file), accepted, Decode(Torn(p, wrote)));
  }

  /** The disk a process leaves when it dies inside an append, wherever the write
      was cut. */
  lemma TornFile(s: Store, p: Bytes, wrote: nat)
    requires s.up && !Oversized(s, p)
    ensures var d := Do(s, CrashInAppend(p, wrote));
            && !d.up && d.max == s.max && d.file == s.file + Torn(p, wrote) && d.exits == s.exits
            && d.accepted == s.accepted + (if wrote > |p| then [p] else [])
  {
  }

  lemma SuffixConcat<T>(a: seq<T>, b: seq<T>, c: seq<T>)
    requires IsSuffix(a, b)
    ensures IsSuffix(a + c, b + c)
  {
    assert (b + c)[|b| - |a|..] == b[|b| - |a|..] + c;
  }

  /** What a restart brings back after a death with part of this append written. */
  ghost predicate SurvivesTornAppend(s: Store, p: Bytes, wrote: nat) {
    var b := Do(Do(s, CrashInAppend(p, wrote)), Boot(true, RewriteOk));
    var part := Decode(Torn(p, wrote));
    && b.up
    && b.accepted == s.accepted + (if wrote > |p| then [p] else [])
    && IsSuffix(Trim(s.entries + part, s.max), b.entries)
    && IsSuffix(b.entries, s.accepted + part)
    && Settled(s.exits, Head(s))
  }

  /** A restart after a death inside an append, wherever the write was cut,
      brings back the old queue behind payloads that had already left, followed
      by what the append left: nothing, a prefix of the payload, or the payload.
      The log of accepted payloads gains the new one exactly when its whole line
      was written. Only the cap can take anything away, and only as it would
      from the grown queue. */
  lemma RestartAfterAppendCrash(s: Store, p: Bytes, wrote: nat)
    requires Durable(s) && s.up && !Oversized(s, p) && Payload(p)
    ensures SurvivesTornAppend(s, p, wrote)
  {
    var d := Do(s, CrashInAppend(p, wrote));
    var part := Decode(Torn(p, wrote));
    TornFile(s, p, wrote);
    ChainTorn(s.file, s.entries, s.accepted, p, wrote);
    BootReads(d);
    TrimBetween(s.entries + part, Decode(d.file), s.accepted + part, s.max);
  }

  lemma TrimBetween(queue: seq<Bytes>, lines: seq<Bytes>, all: seq<Bytes>, max: int)
    requires IsSuffix(queue, lines) && IsSuffix(lines, all)
    ensures IsSuffix(Trim(queue, max), Trim(lines, max)) && IsSuffix(Trim(lines, max), all)
  {
    TrimSuffix(queue, lines, max);
    TrimFits(lines, max);
    SuffixTransitive(Trim(lines, max), lines, all);
  }

  /** A file with one more line can be loaded exactly when its complete lines can
      and the new line, with any unterminated tail it was glued to, is shorter
      than 16 MiB. */
  lemma LongLineStopsBoot(d: Store, p: Bytes)
    requires !d.up && LF !in p
    ensures Do(d.(file := d.file + Line(p)), Boot(true, RewriteOk)).up <==>
            Readable(Complete(d.file)) && |Tail(d.file)| + |p| < 16_777_216
  {
    ReadableAppend(d.file, p);
    BootsIffReadable(d.(file := d.file + Line(p)));
  }
}
