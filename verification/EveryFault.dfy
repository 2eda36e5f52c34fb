/** At-least-once under every fault. Each entry in memory and each complete line
    on disk carries the number of the accepted payload it is, if it is one, so
    that a payload can be followed through torn and glued lines, failed
    compactions, deaths and restarts. */
module EveryFault {
  import opened LineFile
  import opened Queue
  import opened StoreModel
  import opened Durability
  import opened TornLines

  /** The accepted payload with this number; a longer line that ends in it; or text
      no append was credited for: a fragment, a line whose append reported an
      error. */
  datatype Tag = Own(i: nat) | Glued(i: nat) | Stray

  datatype Traced = Traced(
    s: Store,
    tags: seq<Tag>,        // one per entry in memory
    lines: seq<Tag>,       // one per complete line on disk
    delivered: set<nat>,
    evicted: set<nat>,
    glued: set<nat>,       // accepted onto an unterminated file, and not rewritten since
    merged: set<nat>       // sent or evicted as the end of a longer line
  )

  function Owned(tags: seq<Tag>): set<nat> {
    set t | t in tags && t.Own? :: t.i
  }

  function Ends(tags: seq<Tag>): set<nat> {
    set t | t in tags && t.Glued? :: t.i
  }

  function Gone(t: Traced): set<nat> {
    t.delivered + t.evicted
  }

  // ------------------------------------------------------------ moves

  function TraceRewrite(t: Traced, f: RewriteFault): Traced {
    if Completes(f, |t.s.entries|)
    then t.(s := Rewrite(t.s, f), lines := t.tags, glued := t.glued - Owned(t.tags))
    else t
  }

  function TraceShed(t: Traced): Traced {
    var n := |t.s.entries| - |Trim(t.s.entries, t.s.max)|;
    if n <= 0 || n > |t.tags| then t
    else t.(s := Shed(t.s), tags := t.tags[n..],
            evicted := t.evicted + Owned(t.tags[..n]), merged := t.merged + Ends(t.tags[..n]))
  }

  function TraceFit(t: Traced, f: RewriteFault): Traced {
    if |Trim(t.s.entries, t.s.max)| == |t.s.entries| then t else TraceRewrite(TraceShed(t), f)
  }

  /** The tag of a line that an accepted payload is written as. */
  function NewLine(t: Traced): Tag {
    if Terminated(t.s.file) then Own(|t.s.accepted|) else Glued(|t.s.accepted|)
  }

  function NewGlued(t: Traced): set<nat> {
    if Terminated(t.s.file) then {} else {|t.s.accepted|}
  }

  function TraceEnter(t: Traced, p: Bytes): Traced {
    t.(s := Enter(t.s, p), tags := t.tags + [Own(|t.s.accepted|)],
       lines := t.lines + [NewLine(t)], glued := t.glued + NewGlued(t))
  }

  function TraceAppend(t: Traced, p: Bytes, f: AppendFault, trim: RewriteFault): Traced {
    var s := DoAppend(t.s, p, f, trim);
    if Oversized(t.s, p) then t
    else
      match f
      case AppendOpenFails => t
      case AppendWriteFails(wrote) => t.(s := s, lines := t.lines + if wrote > |p| then [Stray] else [])
      case AppendCloseFails => t.(s := s, lines := t.lines + [Stray])
      case AppendOk => TraceFit(TraceEnter(t, p), trim)
  }

  function TraceDeliver(t: Traced): Traced {
    if t.s.entries == [] || t.tags == [] then t
    else t.(s := DoDeliver(t.s), tags := t.tags[1..],
            delivered := t.delivered + Owned(t.tags[..1]), merged := t.merged + Ends(t.tags[..1]))
  }

  function TraceLoaded(t: Traced): Traced {
    var n := |Decode(t.s.file)|;
    t.(s := Loaded(t.s), tags := t.lines + seq(if n < |t.lines| then 0 else n - |t.lines|, _ => Stray))
  }

  function TraceBoot(t: Traced, opens: bool, trim: RewriteFault): Traced {
    if DoBoot(t.s, opens, trim).up && !t.s.up then TraceFit(TraceLoaded(t), trim) else t
  }

  function TraceCrashInAppend(t: Traced, p: Bytes, wrote: nat): Traced {
    var s := Do(t.s, CrashInAppend(p, wrote));
    if !t.s.up || Oversized(t.s, p) || wrote <= |p| then t.(s := s)
    else t.(s := s, lines := t.lines + [NewLine(t)], glued := t.glued + NewGlued(t))
  }

  function Trace(t: Traced, m: Move): Traced {
    match m
    case Append(p, f, trim) => if t.s.up then TraceAppend(t, p, f, trim) else t
    case Deliver => if t.s.up then TraceDeliver(t) else t
    case Persist(f) => if t.s.up then TraceRewrite(t, f) else t
    case Boot(opens, trim) => TraceBoot(t, opens, trim)
    case CrashInAppend(p, wrote) => TraceCrashInAppend(t, p, wrote)
    case Reconfigure(_) => t.(s := Do(t.s, m))
    case Crash => t.(s := Do(t.s, m))
  }

  function TraceRun(t: Traced, moves: seq<Move>): Traced
    decreases |moves|
  {
    if moves == [] then t else TraceRun(Trace(t, moves[0]), moves[1..])
  }

  function TraceFresh(max: int): Traced {
    Traced(Fresh(max), [], [], {}, {}, {}, {})
  }

  // ------------------------------------------------------------ invariant

  /** The line is the payload behind some other text. */
  predicate EndsIn(line: Bytes, p: Bytes) {
    |p| < |line| && IsSuffix(p, line)
  }

  /** The tags name the payloads they stand for. */
  predicate Labels(tags: seq<Tag>, list: seq<Bytes>, accepted: seq<Bytes>) {
    && |tags| == |list|
    && (forall j :: 0 <= j < |tags| && tags[j].Own? ==>
          tags[j].i < |accepted| && list[j] == accepted[tags[j].i])
    && (forall j :: 0 <= j < |tags| && tags[j].Glued? ==>
          tags[j].i < |accepted| && EndsIn(list[j], accepted[tags[j].i]))
  }

  /** Every accepted payload is gone, in this list as itself, or glued: at the end
      of a line of this list, or of one that went out. */
  ghost predicate Covers(n: nat, gone: set<nat>, glued: set<nat>, merged: set<nat>, tags: seq<Tag>) {
    forall i: nat :: i < n ==>
      i in gone || Own(i) in tags || (i in glued && (i in merged || Glued(i) in tags))
  }

  /** No glued payload has a line of its own. */
  predicate Apart(n: nat, glued: set<nat>, lines: seq<Tag>) {
    forall i :: i in glued ==> i < n && Own(i) !in lines
  }

  ghost predicate Sound(t: Traced) {
    && CR !in t.s.file && AllPlain(t.s.entries)
    && Labels(t.tags, t.s.entries, t.s.accepted)
    && Labels(t.lines, Decode(Complete(t.s.file)), t.s.accepted)
    && Apart(|t.s.accepted|, t.glued, t.lines)
    && Covers(|t.s.accepted|, Gone(t), t.glued, t.merged, t.lines)
    && (t.s.up ==> Covers(|t.s.accepted|, Gone(t), t.glued, t.merged, t.tags))
  }

  // ------------------------------------------------------------ tags

  lemma OwnedIs(tags: seq<Tag>, i: nat)
    ensures i in Owned(tags) <==> Own(i) in tags
  {
    if Own(i) in tags { assert Own(i).i == i; }
  }

  lemma EndsIs(tags: seq<Tag>, i: nat)
    ensures i in Ends(tags) <==> Glued(i) in tags
  {
    if Glued(i) in tags { assert Glued(i).i == i; }
  }

  lemma LabelsDrop(tags: seq<Tag>, list: seq<Bytes>, accepted: seq<Bytes>, n: nat)
    requires Labels(tags, list, accepted) && n <= |tags|
    ensures Labels(tags[n..], list[n..], accepted)
  {
  }

  lemma LabelsGrow(tags: seq<Tag>, list: seq<Bytes>, accepted: seq<Bytes>, tag: Tag, p: Bytes, more: seq<Bytes>)
    requires Labels(tags, list, accepted)
    requires tag.Own? ==> tag.i < |accepted + more| && (accepted + more)[tag.i] == p
    requires tag.Glued? ==> tag.i < |accepted + more| && EndsIn(p, (accepted + more)[tag.i])
    ensures Labels(tags + [tag], list + [p], accepted + more)
    ensures Labels(tags, list, accepted + more)
  {
  }

  lemma CoversGrow(n: nat, gone: set<nat>, glued: set<nat>, merged: set<nat>, tags: seq<Tag>, tag: Tag, more: set<nat>)
    requires Covers(n, gone, glued, merged, tags)
    ensures Covers(n, gone, glued + more, merged, tags + [tag])
    ensures tag == Own(n) || (tag == Glued(n) && n in more) ==>
              Covers(n + 1, gone, glued + more, merged, tags + [tag])
  {
    forall i: nat | i < n
      ensures i in gone || Own(i) in tags + [tag]
              || (i in glued + more && (i in merged || Glued(i) in tags + [tag]))
    {
      assert i in gone || Own(i) in tags || (i in glued && (i in merged || Glued(i) in tags));
    }
    assert (tags + [tag])[|tags|] == tag;
  }

  lemma ApartGrow(n: nat, glued: set<nat>, lines: seq<Tag>, tag: Tag, more: set<nat>)
    requires Apart(n, glued, lines) && ((tag == Own(n) && more == {}) || (tag == Glued(n) && more == {n}))
    requires Own(n) !in lines
    ensures Apart(n + 1, glued + more, lines + [tag])
  {
    forall i | i in glued + more ensures i < n + 1 && Own(i) !in lines + [tag] {
      if i in glued { assert i < n && Own(i) !in lines; }
    }
  }

  lemma NotYet(tags: seq<Tag>, list: seq<Bytes>, accepted: seq<Bytes>)
    requires Labels(tags, list, accepted)
    ensures Own(|accepted|) !in tags
  {
  }

  // ------------------------------------------------------------ files

  /** What a full line adds to the complete lines of a file. */
  lemma FullLine(f: Bytes, p: Bytes)
    requires Plain(p)
    ensures var lines := Decode(Complete(f + Line(p)));
            && |lines| == |Decode(Complete(f))| + 1
            && lines == Decode(Complete(f)) + [lines[|lines| - 1]]
            && (if Terminated(f) then lines[|lines| - 1] == p else EndsIn(lines[|lines| - 1], p))
  {
    assert p[|p| - 1] in p;
    TerminatedComplete(f + Line(p));
    GluedStorable(f, p);
    assert Terminated(f) ==> Tail(f) + p == p;
    assert (Tail(f) + p)[|Tail(f)|..] == p;
  }

  /** A partial line adds none. */
  lemma PartLine(f: Bytes, p: Bytes, wrote: nat)
    requires Plain(p) && wrote <= |p|
    ensures Complete(f + Torn(p, wrote)) == Complete(f)
  {
    assert Torn(p, wrote) == p[..wrote];
    CompleteOfConcat(f, p[..wrote]);
  }

  // ------------------------------------------------------------ each move

  lemma ShedTail(s: Store)
    ensures var n := |s.entries| - |Trim(s.entries, s.max)|;
            && 0 <= n <= |s.entries|
            && Shed(s).entries == s.entries[n..]
            && Shed(s).file == s.file && Shed(s).accepted == s.accepted && Shed(s).up == s.up
            && (n == 0 ==> Shed(s) == s)
  {
    TrimFits(s.entries, s.max);
  }

  lemma ShedTags(t: Traced, n: nat)
    requires n <= |t.tags|
    requires Covers(|t.s.accepted|, Gone(t), t.glued, t.merged, t.tags)
    requires Covers(|t.s.accepted|, Gone(t), t.glued, t.merged, t.lines)
    ensures var gone := t.delivered + (t.evicted + Owned(t.tags[..n]));
            var merged := t.merged + Ends(t.tags[..n]);
            && Covers(|t.s.accepted|, gone, t.glued, merged, t.tags[n..])
            && Covers(|t.s.accepted|, gone, t.glued, merged, t.lines)
  {
    DropCovers(|t.s.accepted|, Gone(t), t.glued, t.merged, t.tags, n);
    WiderCovers(|t.s.accepted|, Gone(t), Owned(t.tags[..n]), t.glued, t.merged, Ends(t.tags[..n]), t.lines);
    assert t.delivered + (t.evicted + Owned(t.tags[..n])) == Gone(t) + Owned(t.tags[..n]);
  }

  lemma ShedKeepsSound(t: Traced)
    requires Sound(t) && t.s.up
    ensures Sound(TraceShed(t)) && TraceShed(t).s == Shed(t.s)
  {
    var n := |t.s.entries| - |Trim(t.s.entries, t.s.max)|;
    ShedTail(t.s);
    if n > 0 {
      LabelsDrop(t.tags, t.s.entries, t.s.accepted, n);
      ShedTags(t, n);
    }
  }

  /** What leaves memory is recorded as gone, or as the end of what went. */
  lemma DropCovers(n: nat, gone: set<nat>, glued: set<nat>, merged: set<nat>, tags: seq<Tag>, k: nat)
    requires Covers(n, gone, glued, merged, tags) && k <= |tags|
    ensures Covers(n, gone + Owned(tags[..k]), glued, merged + Ends(tags[..k]), tags[k..])
  {
    forall i: nat | i < n
      ensures i in gone + Owned(tags[..k]) || Own(i) in tags[k..]
              || (i in glued && (i in merged + Ends(tags[..k]) || Glued(i) in tags[k..]))
    {
      OwnedIs(tags[..k], i);
      EndsIs(tags[..k], i);
      assert tags == tags[..k] + tags[k..];
    }
  }

  lemma WiderCovers(n: nat, gone: set<nat>, more: set<nat>, glued: set<nat>,
                    merged: set<nat>, ends: set<nat>, tags: seq<Tag>)
    requires Covers(n, gone, glued, merged, tags)
    ensures Covers(n, gone + more, glued, merged + ends, tags)
  {
  }

  lemma RewriteKeepsSound(t: Traced, f: RewriteFault)
    requires Sound(t) && t.s.up
    ensures Sound(TraceRewrite(t, f)) && TraceRewrite(t, f).s == Rewrite(t.s, f)
  {
    if Completes(f, |t.s.entries|) {
      RewrittenFile(t.s.entries);
      RewrittenTags(|t.s.accepted|, Gone(t), t.glued, t.merged, t.lines, t.tags);
    }
  }

  lemma RewrittenFile(entries: seq<Bytes>)
    requires AllPlain(entries)
    ensures CR !in Encode(entries) && Decode(Complete(Encode(entries))) == entries
  {
    forall e | e in entries ensures Storable(e) {
      assert e[|e| - 1] in e;
    }
    DecodeEncode(entries);
    EncodeTerminated(entries);
    TerminatedComplete(Encode(entries));
    EncodePlain(entries);
  }

  /** A completed rewrite gives every entry a line of its own. */
  lemma RewrittenTags(n: nat, gone: set<nat>, glued: set<nat>, merged: set<nat>, lines: seq<Tag>, tags: seq<Tag>)
    requires Covers(n, gone, glued, merged, tags) && Apart(n, glued, lines)
    ensures Covers(n, gone, glued - Owned(tags), merged, tags) && Apart(n, glued - Owned(tags), tags)
  {
    forall i: nat ensures i in Owned(tags) <==> Own(i) in tags {
      OwnedIs(tags, i);
    }
  }

  lemma FitKeepsSound(t: Traced, f: RewriteFault)
    requires Sound(t) && t.s.up
    ensures Sound(TraceFit(t, f)) && TraceFit(t, f).s == Fit(t.s, f)
  {
    if |Trim(t.s.entries, t.s.max)| != |t.s.entries| {
      ShedKeepsSound(t);
      RewriteKeepsSound(TraceShed(t), f);
    }
  }

  /** A full line on disk that is credited to no append. */
  lemma StrayLineKeepsSound(t: Traced, p: Bytes)
    requires Sound(t) && Plain(p)
    ensures Sound(t.(s := t.s.(file := t.s.file + Line(p)), lines := t.lines + [Stray]))
  {
    var lines := Decode(Complete(t.s.file + Line(p)));
    FullLine(t.s.file, p);
    TornPlain(p, 0);
    LabelsGrow(t.lines, Decode(Complete(t.s.file)), t.s.accepted, Stray, lines[|lines| - 1], []);
    assert t.s.accepted + [] == t.s.accepted;
    CoversGrow(|t.s.accepted|, Gone(t), t.glued, t.merged, t.lines, Stray, {});
    assert t.glued + {} == t.glued;
  }

  lemma PartLineKeepsSound(t: Traced, p: Bytes, wrote: nat)
    requires Sound(t) && Plain(p) && wrote <= |p|
    ensures Sound(t.(s := t.s.(file := t.s.file + Torn(p, wrote))))
  {
    PartLine(t.s.file, p, wrote);
    TornPlain(p, wrote);
  }

  /** The lines and logs after an accepted payload's full line. */
  lemma AcceptedLine(t: Traced, p: Bytes)
    requires Sound(t) && Plain(p)
    ensures var accepted := t.s.accepted + [p];
            var file := t.s.file + Line(p);
            && CR !in file
            && Labels(t.lines + [NewLine(t)], Decode(Complete(file)), accepted)
            && Apart(|accepted|, t.glued + NewGlued(t), t.lines + [NewLine(t)])
            && Covers(|accepted|, Gone(t), t.glued + NewGlued(t), t.merged, t.lines + [NewLine(t)])
  {
    var n := |t.s.accepted|;
    var lines := Decode(Complete(t.s.file + Line(p)));
    FullLine(t.s.file, p);
    TornPlain(p, 0);
    LabelsGrow(t.lines, Decode(Complete(t.s.file)), t.s.accepted, NewLine(t), lines[|lines| - 1], [p]);
    NotYet(t.lines, Decode(Complete(t.s.file)), t.s.accepted);
    ApartGrow(n, t.glued, t.lines, NewLine(t), NewGlued(t));
    CoversGrow(n, Gone(t), t.glued, t.merged, t.lines, NewLine(t), NewGlued(t));
  }

  lemma EnterKeepsSound(t: Traced, p: Bytes)
    requires Sound(t) && t.s.up && Plain(p)
    ensures Sound(TraceEnter(t, p))
  {
    var n := |t.s.accepted|;
    AcceptedLine(t, p);
    LabelsGrow(t.tags, t.s.entries, t.s.accepted, Own(n), p, [p]);
    CoversGrow(n, Gone(t), t.glued, t.merged, t.tags, Own(n), NewGlued(t));
  }

  lemma AppendKeepsSound(t: Traced, p: Bytes, f: AppendFault, trim: RewriteFault)
    requires Sound(t) && t.s.up && Plain(p)
    ensures Sound(TraceAppend(t, p, f, trim)) && TraceAppend(t, p, f, trim).s == DoAppend(t.s, p, f, trim)
  {
    if !Oversized(t.s, p) {
      match f
      case AppendOpenFails =>
      case AppendWriteFails(wrote) =>
        if wrote > |p| {
          assert Torn(p, wrote) == Line(p);
          StrayLineKeepsSound(t, p);
        } else {
          PartLineKeepsSound(t, p, wrote);
          assert t.lines + [] == t.lines;
        }
      case AppendCloseFails =>
        StrayLineKeepsSound(t, p);
      case AppendOk =>
        EnterKeepsSound(t, p);
        FitKeepsSound(TraceEnter(t, p), trim);
    }
  }

  lemma DeliverKeepsSound(t: Traced)
    requires Sound(t) && t.s.up
    ensures Sound(TraceDeliver(t)) && TraceDeliver(t).s == DoDeliver(t.s)
  {
    if t.s.entries != [] {
      LabelsDrop(t.tags, t.s.entries, t.s.accepted, 1);
      DropCovers(|t.s.accepted|, Gone(t), t.glued, t.merged, t.tags, 1);
      WiderCovers(|t.s.accepted|, Gone(t), Owned(t.tags[..1]), t.glued, t.merged, Ends(t.tags[..1]), t.lines);
      assert Gone(TraceDeliver(t)) == Gone(t) + Owned(t.tags[..1]);
    }
  }

  lemma LoadedIsSound(t: Traced)
    requires Sound(t)
    ensures Sound(TraceLoaded(t)) && TraceLoaded(t).s.up
  {
    CompleteLines(t.s.file);
    DecodePlain(t.s.file);
    LoadedLabels(t.lines, Decode(Complete(t.s.file)), Decode(t.s.file), t.s.accepted);
    LoadedCovers(|t.s.accepted|, Gone(t), t.glued, t.merged, t.lines, TraceLoaded(t).tags);
  }

  lemma LoadedLabels(lines: seq<Tag>, whole: seq<Bytes>, all: seq<Bytes>, accepted: seq<Bytes>)
    requires Labels(lines, whole, accepted) && whole <= all
    ensures Labels(lines + seq(|all| - |lines|, _ => Stray), all, accepted)
  {
  }

  lemma LoadedCovers(n: nat, gone: set<nat>, glued: set<nat>, merged: set<nat>, lines: seq<Tag>, tags: seq<Tag>)
    requires Covers(n, gone, glued, merged, lines) && lines <= tags
    ensures Covers(n, gone, glued, merged, tags)
  {
    assert tags == lines + tags[|lines|..];
    assert forall i: nat :: Own(i) in lines ==> Own(i) in tags;
    assert forall i: nat :: Glued(i) in lines ==> Glued(i) in tags;
  }

  lemma BootKeepsSound(t: Traced, opens: bool, trim: RewriteFault)
    requires Sound(t)
    ensures Sound(TraceBoot(t, opens, trim)) && TraceBoot(t, opens, trim).s == DoBoot(t.s, opens, trim)
  {
    if DoBoot(t.s, opens, trim).up && !t.s.up {
      LoadedIsSound(t);
      FitKeepsSound(TraceLoaded(t), trim);
    }
  }

  lemma CrashInAppendKeepsSound(t: Traced, p: Bytes, wrote: nat)
    requires Sound(t) && Plain(p)
    ensures var u := TraceCrashInAppend(t, p, wrote);
            Sound(u) && u.s == Do(t.s, CrashInAppend(p, wrote))
  {
    if t.s.up && !Oversized(t.s, p) {
      if wrote > |p| {
        assert Torn(p, wrote) == Line(p);
        AcceptedLine(t, p);
        LabelsGrow(t.tags, t.s.entries, t.s.accepted, Stray, [], [p]);
      } else {
        PartLineKeepsSound(t, p, wrote);
        assert t.s.accepted + [] == t.s.accepted;
      }
    }
  }

  lemma MoveKeepsSound(t: Traced, m: Move)
    requires Sound(t) && PlainMove(m)
    ensures Sound(Trace(t, m)) && Trace(t, m).s == Do(t.s, m)
  {
    match m
    case Append(p, f, trim) => if t.s.up { AppendKeepsSound(t, p, f, trim); }
    case Deliver => if t.s.up { DeliverKeepsSound(t); }
    case Persist(f) => if t.s.up { RewriteKeepsSound(t, f); }
    case Boot(opens, trim) => BootKeepsSound(t, opens, trim);
    case CrashInAppend(p, wrote) => CrashInAppendKeepsSound(t, p, wrote);
    case Reconfigure(_) =>
    case Crash =>
  }

  // ------------------------------------------------------------ whole runs

  lemma {:induction false} RunKeepsSound(t: Traced, moves: seq<Move>)
    requires Sound(t) && forall m :: m in moves ==> PlainMove(m)
    ensures Sound(TraceRun(t, moves)) && TraceRun(t, moves).s == Run(t.s, moves)
    decreases |moves|
  {
    if moves != [] {
      MoveKeepsSound(t, moves[0]);
      RunKeepsSound(Trace(t, moves[0]), moves[1..]);
    }
  }

  /** The accepted payload with number i stands somewhere in this list. */
  ghost predicate Stands(i: nat, accepted: seq<Bytes>, tags: seq<Tag>, list: seq<Bytes>)
    requires i < |accepted|
  {
    exists j :: 0 <= j < |tags| && j < |list| && tags[j] == Own(i) && list[j] == accepted[i]
  }

  /** ... or only at the end of a longer line of it. */
  ghost predicate Trails(i: nat, accepted: seq<Bytes>, tags: seq<Tag>, list: seq<Bytes>)
    requires i < |accepted|
  {
    exists j :: 0 <= j < |tags| && j < |list| && tags[j] == Glued(i) && EndsIn(list[j], accepted[i])
  }

  /** On disk as a line of its own, and in memory too while a process runs. */
  ghost predicate Whole(t: Traced, i: nat)
    requires i < |t.s.accepted|
  {
    && Stands(i, t.s.accepted, t.lines, Decode(Complete(t.s.file)))
    && (t.s.up ==> Stands(i, t.s.accepted, t.tags, t.s.entries))
  }

  /** The exception: accepted onto an unterminated file. It went out at the end of a
      longer line, or is on disk at the end of one, and a running process has it
      as itself or as that line. */
  ghost predicate Stuck(t: Traced, i: nat)
    requires i < |t.s.accepted|
  {
    && i in t.glued && Own(i) !in t.lines
    && (i in t.merged
        || (&& Trails(i, t.s.accepted, t.lines, Decode(Complete(t.s.file)))
            && (t.s.up ==> Stands(i, t.s.accepted, t.tags, t.s.entries)
                           || Trails(i, t.s.accepted, t.tags, t.s.entries))))
  }

  /** Where an accepted payload is. */
  ghost predicate Placed(t: Traced, i: nat)
    requires i < |t.s.accepted|
  {
    i in t.delivered || i in t.evicted || Whole(t, i) || Stuck(t, i)
  }

  lemma TagIsText(i: nat, accepted: seq<Bytes>, tags: seq<Tag>, list: seq<Bytes>)
    requires Labels(tags, list, accepted) && i < |accepted|
    ensures Own(i) in tags <==> Stands(i, accepted, tags, list)
    ensures Glued(i) in tags <==> Trails(i, accepted, tags, list)
  {
    if Own(i) in tags {
      var j :| 0 <= j < |tags| && tags[j] == Own(i);
      assert list[j] == accepted[i];
    }
    if Glued(i) in tags {
      var j :| 0 <= j < |tags| && tags[j] == Glued(i);
      assert EndsIn(list[j], accepted[i]);
    }
  }

  lemma SoundIsPlaced(t: Traced, i: nat)
    requires Sound(t) && i < |t.s.accepted|
    ensures Placed(t, i)
  {
    TagIsText(i, t.s.accepted, t.lines, Decode(Complete(t.s.file)));
    TagIsText(i, t.s.accepted, t.tags, t.s.entries);
  }

  /** At-least-once under every fault and every point of death: in any run every
      accepted payload is acknowledged, evicted, on disk as itself, or glued. */
  lemma AtLeastOnceUnderEveryFault(max: int, moves: seq<Move>, i: nat)
    requires forall m :: m in moves ==> PlainMove(m)
    requires i < |Run(Fresh(max), moves).accepted|
    ensures TraceRun(TraceFresh(max), moves).s == Run(Fresh(max), moves)
    ensures Placed(TraceRun(TraceFresh(max), moves), i)
  {
    FreshIsSound(max);
    RunKeepsSound(TraceFresh(max), moves);
    SoundIsPlaced(TraceRun(TraceFresh(max), moves), i);
  }

  lemma FreshIsSound(max: int)
    ensures Sound(TraceFresh(max))
  {
  }

  // ------------------------------------------------------------ how payloads go

  /** The payload is in this queue, and it and what is newer exceed the cap. */
  ghost predicate PushedOut(queue: seq<Bytes>, max: int, p: Bytes) {
    exists j :: 0 <= j < |queue| && queue[j] == p && Size(queue[j..]) > max
  }

  /** ... or it is the end of such a line. */
  ghost predicate PushedOutInside(queue: seq<Bytes>, max: int, p: Bytes) {
    exists j :: 0 <= j < |queue| && EndsIn(queue[j], p) && Size(queue[j..]) > max
  }

  lemma ShedPushes(t: Traced, i: nat)
    requires Labels(t.tags, t.s.entries, t.s.accepted)
    ensures i in TraceShed(t).evicted && i !in t.evicted ==>
              i < |t.s.accepted| && PushedOut(t.s.entries, t.s.max, t.s.accepted[i])
    ensures i in TraceShed(t).merged && i !in t.merged ==>
              i < |t.s.accepted| && PushedOutInside(t.s.entries, t.s.max, t.s.accepted[i])
  {
    var n := |t.s.entries| - |Trim(t.s.entries, t.s.max)|;
    ShedTail(t.s);
    if n > 0 {
      OwnedIs(t.tags[..n], i);
      EndsIs(t.tags[..n], i);
      forall j | 0 <= j < n ensures Size(t.s.entries[j..]) > t.s.max {
        TrimIsLongestFit(t.s.entries, t.s.max, j);
      }
    }
  }

  lemma FitPushes(t: Traced, f: RewriteFault, i: nat)
    requires Labels(t.tags, t.s.entries, t.s.accepted)
    ensures TraceFit(t, f).delivered == t.delivered
    ensures i in TraceFit(t, f).evicted && i !in t.evicted ==>
              i < |t.s.accepted| && PushedOut(t.s.entries, t.s.max, t.s.accepted[i])
    ensures i in TraceFit(t, f).merged && i !in t.merged ==>
              i < |t.s.accepted| && PushedOutInside(t.s.entries, t.s.max, t.s.accepted[i])
  {
    ShedPushes(t, i);
  }

  /** The queue a move applies the cap to. */
  function Queued(s: Store, m: Move): seq<Bytes> {
    match m
    case Append(p, f, _) => if s.up && !Oversized(s, p) && f.AppendOk? then s.entries + [p] else []
    case Boot(_, _) => if s.up then [] else Decode(s.file)
    case _ => []
  }

  /** A payload counts as delivered only when it was the oldest entry and was popped,
      and as evicted only when an append or a restart had it in a queue in which it
      and what was newer exceeded the cap. The same goes for the lines it ends. */
  lemma HowPayloadsGo(t: Traced, m: Move, i: nat)
    requires Sound(t) && PlainMove(m)
    ensures var u := Trace(t, m);
            && (i in u.delivered && i !in t.delivered ==>
                  m.Deliver? && t.s.entries != [] && i < |t.s.accepted| && t.s.entries[0] == t.s.accepted[i])
            && (i in u.evicted && i !in t.evicted ==>
                  i < |u.s.accepted| && PushedOut(Queued(t.s, m), t.s.max, u.s.accepted[i]))
            && (i in u.merged && i !in t.merged ==>
                  i < |u.s.accepted|
                  && ((m.Deliver? && t.s.entries != [] && EndsIn(t.s.entries[0], u.s.accepted[i]))
                      || PushedOutInside(Queued(t.s, m), t.s.max, u.s.accepted[i])))
  {
    match m
    case Append(p, f, trim) =>
      if t.s.up && !Oversized(t.s, p) && f.AppendOk? {
        EnterKeepsSound(t, p);
        SoundLabels(TraceEnter(t, p));
        FitPushes(TraceEnter(t, p), trim, i);
        FitAccepts(TraceEnter(t, p), trim);
      }
    case Deliver =>
      if t.s.up && t.s.entries != [] {
        assert t.tags[..1] == [t.tags[0]];
        OwnedIs(t.tags[..1], i);
        EndsIs(t.tags[..1], i);
      }
    case Boot(opens, trim) =>
      LoadedIsSound(t);
      SoundLabels(TraceLoaded(t));
      FitPushes(TraceLoaded(t), trim, i);
      FitAccepts(TraceLoaded(t), trim);
    case _ =>
  }

  lemma FitAccepts(t: Traced, f: RewriteFault)
    ensures TraceFit(t, f).s.accepted == t.s.accepted
  {
  }

  // ------------------------------------------------------------ memory

  /** What was accepted from this number on has left the queue or is in memory as
      itself. */
  ghost predicate Recent(t: Traced, base: nat) {
    forall i: nat :: base <= i < |t.s.accepted| ==> i in Gone(t) || Own(i) in t.tags
  }

  lemma ShedKeepsRecent(t: Traced, base: nat)
    requires |t.tags| == |t.s.entries| && Recent(t, base)
    ensures Recent(TraceShed(t), base)
  {
    var n := |t.s.entries| - |Trim(t.s.entries, t.s.max)|;
    ShedTail(t.s);
    if n > 0 {
      DropKeepsRecent(t, TraceShed(t), base, n);
    }
  }

  lemma DropKeepsRecent(t: Traced, u: Traced, base: nat, n: nat)
    requires Recent(t, base) && n <= |t.tags|
    requires u.tags == t.tags[n..] && Gone(u) == Gone(t) + Owned(t.tags[..n]) && u.s.accepted == t.s.accepted
    ensures Recent(u, base)
  {
    forall i: nat | base <= i < |u.s.accepted| ensures i in Gone(u) || Own(i) in u.tags {
      DropMoves(t.tags, n, i);
    }
  }

  lemma EnterKeepsRecent(t: Traced, p: Bytes, base: nat)
    requires Recent(t, base)
    ensures Recent(TraceEnter(t, p), base)
  {
    var u := TraceEnter(t, p);
    assert u.tags[|t.tags|] == Own(|t.s.accepted|);
    forall i: nat | base <= i < |u.s.accepted| ensures i in Gone(u) || Own(i) in u.tags {
      assert i < |t.s.accepted| ==> i in Gone(t) || Own(i) in t.tags;
    }
  }

  lemma FitKeepsRecent(t: Traced, f: RewriteFault, base: nat)
    requires |t.tags| == |t.s.entries| && Recent(t, base)
    ensures Recent(TraceFit(t, f), base) && TraceFit(t, f).s.up == t.s.up
  {
    ShedKeepsRecent(t, base);
  }

  lemma AppendKeepsRecent(t: Traced, p: Bytes, f: AppendFault, trim: RewriteFault, base: nat)
    requires t.s.up && |t.tags| == |t.s.entries| && Recent(t, base)
    ensures Recent(TraceAppend(t, p, f, trim), base) && TraceAppend(t, p, f, trim).s.up
  {
    EnterKeepsRecent(t, p, base);
    FitKeepsRecent(TraceEnter(t, p), trim, base);
  }

  /** While a process runs it holds, as itself, every payload it accepted that has
      not left the queue, glued or not. */
  lemma MoveKeepsRecent(t: Traced, m: Move, base: nat)
    requires Sound(t) && t.s.up && PlainMove(m) && !m.Crash? && !m.CrashInAppend?
    requires Recent(t, base)
    ensures Recent(Trace(t, m), base) && Trace(t, m).s.up
  {
    match m
    case Append(p, f, trim) => AppendKeepsRecent(t, p, f, trim, base);
    case Deliver =>
      if t.s.entries != [] { DropKeepsRecent(t, Trace(t, m), base, 1); }
    case _ =>
  }

  lemma {:induction false} RunKeepsRecent(t: Traced, moves: seq<Move>, base: nat)
    requires Sound(t) && t.s.up && Recent(t, base)
    requires forall m :: m in moves ==> PlainMove(m) && !m.Crash? && !m.CrashInAppend?
    ensures Recent(TraceRun(t, moves), base)
    decreases |moves|
  {
    if moves != [] {
      MoveKeepsSound(t, moves[0]);
      MoveKeepsRecent(t, moves[0], base);
      RunKeepsRecent(Trace(t, moves[0]), moves[1..], base);
    }
  }

  // ------------------------------------------------------------ glued payloads

  /** A death costs exactly the glued payloads. Of those not yet gone, a restart has
      as themselves, or evicts for the cap, the ones that are not glued. A glued
      one comes back only at the end of a longer line, unless that line went. */
  lemma DeathCostsTheGlued(t: Traced, i: nat)
    requires Sound(t) && Readable(t.s.file) && i < |t.s.accepted| && i !in Gone(t)
    ensures var b := Trace(Trace(t, Crash), Boot(true, RewriteOk));
            && b.s == Restarted(t.s) && b.s.up && b.s.accepted == t.s.accepted
            && (i !in t.glued <==> i in b.evicted || Stands(i, b.s.accepted, b.tags, b.s.entries))
            && (i in t.glued ==> i in b.merged || Trails(i, b.s.accepted, b.tags, b.s.entries))
  {
    var d := Trace(t, Crash);
    CrashSound(t);
    BootSound(d);
    RestartStore(t.s);
    BootTags(d, i);
    var b := Trace(d, Boot(true, RewriteOk));
    TagIsText(i, b.s.accepted, b.tags, b.s.entries);
    ApartLines(t, i);
  }

  lemma ApartLines(t: Traced, i: nat)
    requires Sound(t) && i < |t.s.accepted| && i !in Gone(t)
    ensures Own(i) in t.lines <==> i !in t.glued
    ensures i in t.glued ==> i in t.merged || Glued(i) in t.lines
  {
  }

  lemma RestartStore(s: Store)
    requires Readable(s.file)
    ensures var b := DoBoot(Do(s, Crash), true, RewriteOk);
            b == Restarted(s) && b.up && b.accepted == s.accepted
  {
    Restarts(s);
  }

  lemma CrashSound(t: Traced)
    requires Sound(t)
    ensures Sound(Trace(t, Crash)) && Trace(t, Crash) == t.(s := Do(t.s, Crash)) && !Do(t.s, Crash).up
  {
  }

  lemma BootSound(d: Traced)
    requires Sound(d)
    ensures var b := Trace(d, Boot(true, RewriteOk));
            && Labels(b.tags, b.s.entries, b.s.accepted)
            && b.s == DoBoot(d.s, true, RewriteOk)
  {
    var b := TraceBoot(d, true, RewriteOk);
    assert Trace(d, Boot(true, RewriteOk)) == b;
    BootKeepsSound(d, true, RewriteOk);
    SoundLabels(b);
  }

  lemma SoundLabels(t: Traced)
    requires Sound(t)
    ensures Labels(t.tags, t.s.entries, t.s.accepted)
  {
  }

  /** What a boot holds or evicts is what the complete lines were. */
  lemma BootTags(d: Traced, i: nat)
    requires !d.s.up && DoBoot(d.s, true, RewriteOk).up && Sound(d)
    ensures var b := Trace(d, Boot(true, RewriteOk));
            && (Own(i) in b.tags || i in b.evicted <==> Own(i) in d.lines || i in d.evicted)
            && (Glued(i) in b.tags || i in b.merged <==> Glued(i) in d.lines || i in d.merged)
  {
    var l := TraceLoaded(d);
    CompleteLines(d.s.file);
    LoadedTags(d.lines, |l.tags| - |d.lines|, i);
    FitMoves(l, RewriteOk, i);
  }

  lemma LoadedTags(lines: seq<Tag>, n: nat, i: nat)
    ensures var tags := lines + seq(n, _ => Stray);
            && (Own(i) in tags <==> Own(i) in lines) && (Glued(i) in tags <==> Glued(i) in lines)
  {
  }

  /** Eviction and compaction move a number from memory to the evicted, or leave
      it. */
  lemma FitMoves(t: Traced, f: RewriteFault, i: nat)
    requires |t.tags| == |t.s.entries|
    ensures var u := TraceFit(t, f);
            && (Own(i) in u.tags || i in u.evicted <==> Own(i) in t.tags || i in t.evicted)
            && (Glued(i) in u.tags || i in u.merged <==> Glued(i) in t.tags || i in t.merged)
  {
    var n := |t.s.entries| - |Trim(t.s.entries, t.s.max)|;
    ShedTail(t.s);
    DropMoves(t.tags, n, i);
  }

  lemma DropMoves(tags: seq<Tag>, n: nat, i: nat)
    requires n <= |tags|
    ensures Own(i) in tags[n..] || i in Owned(tags[..n]) <==> Own(i) in tags
    ensures Glued(i) in tags[n..] || i in Ends(tags[..n]) <==> Glued(i) in tags
  {
    OwnedIs(tags[..n], i);
    EndsIs(tags[..n], i);
    assert tags == tags[..n] + tags[n..];
  }

  /** A payload becomes glued only when it is accepted onto a file that does not
      end in a newline, ... */
  lemma GluedOnlyOnTornFile(t: Traced, m: Move)
    ensures Trace(t, m).glued <= t.glued + (if Terminated(t.s.file) then {} else {|t.s.accepted|})
  {
  }

  /** ... and a completed rewrite while it is in memory gives it a line of its own. */
  lemma RewriteUnglues(t: Traced, f: RewriteFault, i: nat)
    requires Sound(t) && t.s.up && Completes(f, |t.s.entries|)
    requires i < |t.s.accepted| && Own(i) in t.tags
    ensures var u := TraceRewrite(t, f);
            && u.s == Rewrite(t.s, f) && u.s.accepted == t.s.accepted
            && i !in u.glued && Stands(i, u.s.accepted, u.lines, Decode(Complete(u.s.file)))
  {
    OwnedIs(t.tags, i);
    RewrittenFile(t.s.entries);
    TagIsText(i, t.s.accepted, t.tags, t.s.entries);
  }

  /** So in a run whose appends write nothing or succeed nothing is ever glued. */
  lemma {:induction false} CleanRunGluesNothing(t: Traced, moves: seq<Move>)
    requires Sound(t) && Durable(t.s) && t.glued == {}
    requires forall m :: m in moves ==> Clean(m) && PlainMove(m)
    ensures TraceRun(t, moves).glued == {}
    decreases |moves|
  {
    if moves != [] {
      MoveKeepsSound(t, moves[0]);
      MoveKeepsDurable(t.s, moves[0]);
      GluedOnlyOnTornFile(t, moves[0]);
      CleanRunGluesNothing(Trace(t, moves[0]), moves[1..]);
    }
  }
}
