/** Durability under every fault, torn lines included: which queued payloads a
    restart brings back when an append may stop after any byte. */
module TornLines {
  import opened LineFile
  import opened Queue
  import opened StoreModel
  import opened Durability

  /** The smallest cap a configuration can ask for. */
  const MEBIBYTE: nat := 1024 * 1024

  /** JSON text: non-empty, on one line, no raw carriage return. */
  predicate Plain(p: Bytes) {
    p != [] && LF !in p && CR !in p
  }

  /** Only the payloads are constrained; every fault and every cut is allowed. */
  predicate PlainMove(m: Move) {
    match m
    case Append(p, _, _) => Plain(p)
    case CrashInAppend(p, _) => Plain(p)
    case _ => true
  }

  /** The entries with a line of their own. */
  function SolidOnly(entries: seq<Bytes>, solid: seq<bool>): seq<Bytes>
    requires |entries| == |solid|
  {
    if entries == [] then []
    else (if solid[0] then [entries[0]] else []) + SolidOnly(entries[1..], solid[1..])
  }

  predicate AllPlain(entries: seq<Bytes>) {
    forall i :: 0 <= i < |entries| ==> Plain(entries[i])
  }

  /** Solid entries are, in order, among the complete lines of the file. */
  predicate Tracked(s: Store) {
    && |s.solid| == |s.entries|
    && IsSubseq(SolidOnly(s.entries, s.solid), Decode(Complete(s.file)))
    && AllPlain(s.entries)
    && CR !in s.file
  }

  // ------------------------------------------------------------ solid entries

  lemma {:induction false} SolidSnoc(entries: seq<Bytes>, solid: seq<bool>, p: Bytes, own: bool)
    requires |entries| == |solid|
    ensures SolidOnly(entries + [p], solid + [own]) == SolidOnly(entries, solid) + if own then [p] else []
  {
    if entries == [] {
      assert entries + [p] == [p] && solid + [own] == [own];
      assert SolidOnly([p][1..], [own][1..]) == [];
    } else {
      assert (entries + [p])[1..] == entries[1..] + [p];
      assert (solid + [own])[1..] == solid[1..] + [own];
      SolidSnoc(entries[1..], solid[1..], p, own);
    }
  }

  lemma {:induction false} SolidDrop(entries: seq<Bytes>, solid: seq<bool>, n: nat, lines: seq<Bytes>)
    requires n <= |entries| == |solid| && IsSubseq(SolidOnly(entries, solid), lines)
    ensures IsSubseq(SolidOnly(entries[n..], solid[n..]), lines)
  {
    if n == 0 {
      assert entries[0..] == entries && solid[0..] == solid;
    } else {
      var all := SolidOnly(entries, solid);
      var rest := SolidOnly(entries[1..], solid[1..]);
      if solid[0] {
        SubseqDropFirst(all, lines);
        assert all[1..] == rest;
      } else {
        assert all == rest;
      }
      SolidDrop(entries[1..], solid[1..], n - 1, lines);
      assert entries[1..][n - 1..] == entries[n..] && solid[1..][n - 1..] == solid[n..];
    }
  }

  /** Flags true up to k select the first k entries. */
  lemma {:induction false} SolidPrefix(entries: seq<Bytes>, solid: seq<bool>, k: nat)
    requires k <= |entries| == |solid|
    requires forall i :: 0 <= i < |solid| ==> solid[i] == (i < k)
    ensures SolidOnly(entries, solid) == entries[..k]
  {
    if entries != [] {
      if k == 0 {
        SolidPrefix(entries[1..], solid[1..], 0);
      } else {
        SolidPrefix(entries[1..], solid[1..], k - 1);
        assert entries[..k] == [entries[0]] + entries[1..][..k - 1];
      }
    }
  }

  // ------------------------------------------------------------ files

  /** Bytes added to a file, whatever they are, only add complete lines behind
      the ones already there. */
  lemma CompleteGrows(f: Bytes, t: Bytes)
    ensures Decode(Complete(f)) <= Decode(Complete(f + t))
  {
    CompletePrefix(f + t, Complete(f));
    DecodePrefix(Complete(f), Complete(f + t));
  }

  lemma DecodePrefix(g: Bytes, h: Bytes)
    requires Terminated(g) && g <= h
    ensures Decode(g) <= Decode(h)
  {
    assert h == g + h[|g|..];
    DecodeConcat(g, h[|g|..]);
  }

  lemma {:induction false} CompletePrefix(f: Bytes, g: Bytes)
    requires g <= f && Terminated(g)
    ensures g <= Complete(f)
    decreases |f|
  {
    if !Terminated(f) {
      assert g != f;
      CompletePrefix(f[..|f| - 1], g);
    }
  }

  lemma SubseqGrows(a: seq<Bytes>, b: seq<Bytes>, c: seq<Bytes>)
    requires IsSubseq(a, b) && b <= c
    ensures IsSubseq(a, c)
  {
  }

  lemma {:induction false} EncodePlain(entries: seq<Bytes>)
    requires AllPlain(entries)
    ensures CR !in Encode(entries)
  {
    if entries != [] {
      EncodePlain(entries[1..]);
      assert CR !in Line(entries[0]);
    }
  }

  lemma {:induction false} RawPlain(f: Bytes)
    requires CR !in f
    ensures forall i :: 0 <= i < |RawLines(f)| ==> LF !in RawLines(f)[i] && CR !in RawLines(f)[i]
  {
    if f != [] && LineEnd(f) < |f| {
      RawPlain(f[LineEnd(f) + 1..]);
    }
  }

  lemma {:induction false} KeptPlain(raw: seq<Bytes>)
    requires forall i :: 0 <= i < |raw| ==> LF !in raw[i] && CR !in raw[i]
    ensures AllPlain(Kept(raw))
  {
    if raw != [] {
      KeptPlain(raw[1..]);
      assert raw[0] == [] || raw[0][|raw[0]| - 1] in raw[0];
      assert DropCR(raw[0]) == raw[0];
    }
  }

  lemma DecodePlain(f: Bytes)
    requires CR !in f
    ensures AllPlain(Decode(f))
  {
    RawPlain(f);
    KeptPlain(RawLines(f));
  }

  // ------------------------------------------------------------ operations

  lemma GrowthKeepsTracked(s: Store, t: Bytes)
    requires Tracked(s) && CR !in t
    ensures Tracked(s.(file := s.file + t))
  {
    MoreLines(SolidOnly(s.entries, s.solid), s.file, t);
  }

  /** A full line behind the solid entries: one more of them when it is whole. */
  lemma OwnLine(before: seq<Bytes>, f: Bytes, p: Bytes)
    requires Terminated(f) && Plain(p) && IsSubseq(before, Decode(Complete(f)))
    ensures IsSubseq(before + [p], Decode(Complete(f + Line(p))))
  {
    assert p[|p| - 1] in p;
    AppendExact(f, p);
    SubseqAppendBoth(before, Decode(f), [p]);
  }

  lemma MoreLines(before: seq<Bytes>, f: Bytes, t: Bytes)
    requires IsSubseq(before, Decode(Complete(f)))
    ensures IsSubseq(before, Decode(Complete(f + t)))
  {
    CompleteGrows(f, t);
    SubseqGrows(before, Decode(Complete(f)), Decode(Complete(f + t)));
  }

  lemma EnterKeepsTracked(s: Store, p: Bytes)
    requires Tracked(s) && Plain(p)
    ensures Tracked(Enter(s, p))
  {
    var before := SolidOnly(s.entries, s.solid);
    SolidSnoc(s.entries, s.solid, p, Terminated(s.file));
    if Terminated(s.file) {
      OwnLine(before, s.file, p);
    } else {
      MoreLines(before, s.file, Line(p));
      assert before + [] == before;
    }
  }

  lemma DropKeepsTracked(s: Store, t: Store, n: nat)
    requires Tracked(s) && n <= |s.entries|
    requires t.file == s.file && t.entries == s.entries[n..] && t.solid == s.solid[n..]
    ensures Tracked(t)
  {
    SolidDrop(s.entries, s.solid, n, Decode(Complete(s.file)));
  }

  lemma RewriteKeepsTracked(s: Store, f: RewriteFault)
    requires Tracked(s)
    ensures Tracked(Rewrite(s, f))
  {
    if Completes(f, |s.entries|) {
      var n := |s.entries|;
      SolidPrefix(s.entries, All(n), n);
      assert s.entries[..n] == s.entries;
      forall e | e in s.entries ensures Storable(e) {
        assert e[|e| - 1] in e;
      }
      DecodeEncode(s.entries);
      EncodeTerminated(s.entries);
      SubseqSelf(s.entries);
      EncodePlain(s.entries);
    }
  }

  lemma FitKeepsTracked(s: Store, f: RewriteFault)
    requires Tracked(s)
    ensures Tracked(Fit(s, f))
  {
    var kept := Trim(s.entries, s.max);
    TrimFits(s.entries, s.max);
    if |kept| != |s.entries| {
      DropKeepsTracked(s, Shed(s), |s.entries| - |kept|);
      RewriteKeepsTracked(Shed(s), f);
    }
  }

  lemma LoadedIsTracked(s: Store)
    requires CR !in s.file
    ensures Tracked(Loaded(s))
  {
    var lines := Decode(s.file);
    var whole := Decode(Complete(s.file));
    CompleteLines(s.file);
    SolidPrefix(lines, Loaded(s).solid, |whole|);
    assert lines[..|whole|] == whole;
    SubseqSelf(whole);
    DecodePlain(s.file);
  }

  lemma CompleteLines(f: Bytes)
    ensures Decode(Complete(f)) <= Decode(f)
  {
    DecodePrefix(Complete(f), f);
  }

  lemma TornPlain(p: Bytes, wrote: nat)
    requires Plain(p)
    ensures CR !in Torn(p, wrote) && CR !in Line(p)
  {
  }

  lemma MoveKeepsTracked(s: Store, m: Move)
    requires Tracked(s) && PlainMove(m)
    ensures Tracked(Do(s, m))
  {
    match m
    case Append(p, f, trim) =>
      if s.up && !Oversized(s, p) {
        match f
        case AppendOk =>
          EnterKeepsTracked(s, p);
          FitKeepsTracked(Enter(s, p), trim);
        case AppendOpenFails =>
        case AppendWriteFails(wrote) =>
          TornPlain(p, wrote);
          GrowthKeepsTracked(s, Torn(p, wrote));
        case AppendCloseFails =>
          TornPlain(p, 0);
          GrowthKeepsTracked(s, Line(p));
      }
    case Deliver =>
      if s.up && s.entries != [] { DropKeepsTracked(s, DoDeliver(s), 1); }
    case Persist(f) => RewriteKeepsTracked(s, f);
    case Boot(opens, trim) =>
      LoadedIsTracked(s);
      FitKeepsTracked(Loaded(s), trim);
    case Reconfigure(_) =>
    case Crash =>
    case CrashInAppend(p, wrote) =>
      TornPlain(p, wrote);
      GrowthKeepsTracked(s, Torn(p, wrote));
  }

  /** Under every disk fault and every point of death: what memory holds with a
      line of its own is, in order, among the complete lines on disk. */
  lemma {:induction false} RunKeepsTracked(s: Store, moves: seq<Move>)
    requires Tracked(s) && forall m :: m in moves ==> PlainMove(m)
    ensures Tracked(Run(s, moves))
    decreases |moves|
  {
    if moves != [] {
      MoveKeepsTracked(s, moves[0]);
      RunKeepsTracked(Do(s, moves[0]), moves[1..]);
    }
  }

  /** A restart after any run comes up exactly when every line of the file fits
      the scanner. Then it loads all solid entries, in order and still solid,
      before the cap is applied. */
  lemma SolidEntriesAreReadBack(max: int, moves: seq<Move>)
    requires forall m :: m in moves ==> PlainMove(m)
    ensures ReadsBack(Run(Fresh(max), moves))
  {
    RunKeepsTracked(Fresh(max), moves);
    RestartReadsSolid(Run(Fresh(max), moves));
  }

  /** What a restart of s does: come up exactly on a readable file, load the solid
      entries in order and solid, and then apply the cap. */
  predicate ReadsBack(s: Store) {
    var b := Restarted(s);
    var loaded := Loaded(s);
    && (b.up <==> Readable(s.file))
    && |s.solid| == |s.entries| && |loaded.solid| == |loaded.entries|
    && IsSubseq(SolidOnly(s.entries, s.solid), SolidOnly(loaded.entries, loaded.solid))
    && (b.up ==> b.entries == Trim(loaded.entries, s.max))
  }

  lemma LoadedSolid(s: Store)
    ensures |Loaded(s).solid| == |Loaded(s).entries|
    ensures SolidOnly(Loaded(s).entries, Loaded(s).solid) == Decode(Complete(s.file))
  {
    var lines, whole := Decode(s.file), Decode(Complete(s.file));
    CompleteLines(s.file);
    SolidPrefix(lines, Loaded(s).solid, |whole|);
    assert lines[..|whole|] == whole;
  }

  lemma RestartReadsSolid(s: Store)
    requires Tracked(s)
    ensures ReadsBack(s)
  {
    LoadedSolid(s);
    Restarts(s);
  }

  /** A process that dies inside an append to a terminated file, wherever the
      write was cut, can be restarted exactly when the old file could be read,
      and comes back with the old lines and what the append left, up to the
      cap. */
  lemma RestartAfterTornAppend(s: Store, p: Bytes, wrote: nat)
    requires s.up && Terminated(s.file) && Payload(p) && !Oversized(s, p)
    ensures var b := Do(Do(s, CrashInAppend(p, wrote)), Boot(true, RewriteOk));
            && (b.up <==> Readable(s.file))
            && (b.up ==> b.entries == Trim(Decode(s.file) + Decode(Torn(p, wrote)), s.max))
  {
    var d := Do(s, CrashInAppend(p, wrote));
    TornFile(s, p, wrote);
    TornPart(p, wrote);
    DecodeConcat(s.file, Torn(p, wrote));
    BootsIffReadable(d);
    if Readable(d.file) { BootReads(d); }
  }

  // ------------------------------------------------------------ when all is solid

  predicate AllSolid(s: Store) {
    |s.solid| == |s.entries| && forall i :: 0 <= i < |s.solid| ==> s.solid[i]
  }

  /** A completed rewrite heals the file: memory is on disk exactly, line by
      line, whatever was torn before. */
  lemma RewriteHeals(s: Store, f: RewriteFault)
    requires Tracked(s) && Completes(f, |s.entries|)
    ensures var t := Rewrite(s, f);
            AllSolid(t) && Terminated(t.file) && Decode(t.file) == t.entries == s.entries
  {
    forall e | e in s.entries ensures Storable(e) {
      assert e[|e| - 1] in e;
    }
    DecodeEncode(s.entries);
    EncodeTerminated(s.entries);
  }

  lemma FitKeepsSolid(s: Store, f: RewriteFault)
    requires AllSolid(s)
    ensures AllSolid(Fit(s, f))
  {
    TrimFits(s.entries, s.max);
  }

  lemma AppendKeepsSolid(s: Store, p: Bytes, f: AppendFault, trim: RewriteFault)
    requires AllSolid(s) && Terminated(s.file)
    ensures AllSolid(DoAppend(s, p, f, trim))
  {
    if Accepting(s, p, f) {
      EnterKeepsSolid(s, p);
      FitKeepsSolid(Enter(s, p), trim);
    }
  }

  predicate Accepting(s: Store, p: Bytes, f: AppendFault) {
    !Oversized(s, p) && f.AppendOk?
  }

  lemma EnterKeepsSolid(s: Store, p: Bytes)
    requires AllSolid(s) && Terminated(s.file)
    ensures AllSolid(Enter(s, p))
  {
  }

  lemma DeliverKeepsSolid(s: Store)
    requires AllSolid(s)
    ensures AllSolid(DoDeliver(s))
  {
  }

  lemma RewriteKeepsSolid(s: Store, f: RewriteFault)
    requires AllSolid(s)
    ensures AllSolid(Rewrite(s, f))
  {
  }

  lemma LoadedAllSolid(s: Store)
    requires Terminated(s.file)
    ensures AllSolid(Loaded(s))
  {
    TerminatedComplete(s.file);
  }

  lemma BootKeepsSolid(s: Store, opens: bool, trim: RewriteFault)
    requires !s.up && Terminated(s.file)
    ensures DoBoot(s, opens, trim).up ==> AllSolid(DoBoot(s, opens, trim))
  {
    LoadedAllSolid(s);
    FitKeepsSolid(Loaded(s), trim);
  }

  lemma MoveKeepsSolid(s: Store, m: Move)
    requires Terminated(s.file) && (s.up ==> AllSolid(s))
    ensures Do(s, m).up ==> AllSolid(Do(s, m))
  {
    if s.up {
      match m
      case Append(p, f, trim) => AppendKeepsSolid(s, p, f, trim);
      case Deliver => DeliverKeepsSolid(s);
      case Persist(f) => RewriteKeepsSolid(s, f);
      case Boot(_, _) =>
      case Reconfigure(_) =>
      case Crash =>
      case CrashInAppend(_, _) =>
    } else if m.Boot? {
      BootKeepsSolid(s, m.opens, m.trim);
    }
  }

  /** While no line is torn, every entry has a line of its own, so the general
      result and the at-least-once result speak of the same entries. */
  lemma {:induction false} CleanRunIsSolid(s: Store, moves: seq<Move>)
    requires Durable(s) && (s.up ==> AllSolid(s)) && forall m :: m in moves ==> Clean(m)
    ensures Run(s, moves).up ==> AllSolid(Run(s, moves))
    decreases |moves|
  {
    if moves != [] {
      MoveKeepsDurable(s, moves[0]);
      MoveKeepsSolid(s, moves[0]);
      CleanRunIsSolid(Do(s, moves[0]), moves[1..]);
    }
  }

  // ------------------------------------------------------------ the exception

  /** The file after an append that entered the queue, and its last line. */
  lemma AppendedFile(s: Store, p: Bytes, trim: RewriteFault)
    requires !Oversized(s, p)
    ensures var a := DoAppend(s, p, AppendOk, trim);
            && a.entries == Trim(s.entries + [p], s.max)
            && a.file == if Compacts(s, p, trim) then Encode(a.entries) else s.file + Line(p)
  {
    TrimGrown(s.entries, p, s.max);
  }

  /** The append evicts, and its compaction succeeds. */
  predicate Compacts(s: Store, p: Bytes, trim: RewriteFault) {
    Size(s.entries) + |p| + 1 > s.max && Completes(trim, |Trim(s.entries + [p], s.max)|)
  }

  lemma LastOfEncoded(entries: seq<Bytes>, p: Bytes)
    requires Storable(p) && NewestIs(entries, p)
    ensures NewestIs(Decode(Encode(entries)), p)
  {
    var older := entries[..|entries| - 1];
    assert entries == older + [p];
    EncodeConcat(older, [p]);
    assert Encode([p]) == Line(p) by { assert [p][1..] == []; }
    EncodeTerminated(older);
    AppendExact(Encode(older), p);
  }

  /** Whether eviction keeps the last line, and which line that is. */
  lemma LastAfterTrim(lines: seq<Bytes>, max: int, p: Bytes)
    requires lines != [] && |p| + 1 <= max
    ensures NewestIs(Trim(lines, max), p) <==> NewestIs(lines, p)
  {
    var n := |lines| - 1;
    assert lines == lines[..n] + [lines[n]];
    TrimLast(lines[..n], lines[n], max);
  }

  /** When an accepted payload survives a death and a restart. The restart comes
      up exactly when the file can be read. Then the payload is the newest entry
      exactly when the file it was appended to ended in a newline, or the append
      itself evicted something and its compaction succeeded. */
  lemma AppendSurvivesRestart(s: Store, p: Bytes, trim: RewriteFault)
    requires s.up && Storable(p) && !Oversized(s, p)
    ensures var a := Do(s, Append(p, AppendOk, trim));
            var b := Restarted(a);
            && (b.up <==> Readable(a.file))
            && (b.up ==> (NewestIs(b.entries, p) <==> Terminated(s.file) || Compacts(s, p, trim)))
  {
    var a := Do(s, Append(p, AppendOk, trim));
    assert a == DoAppend(s, p, AppendOk, trim);
    AppendedMax(s, p, trim);
    LastLine(s, p, trim);
    Restarts(a);
    LastAfterTrim(Decode(a.file), s.max, p);
  }

  predicate NewestIs(list: seq<Bytes>, p: Bytes) {
    list != [] && list[|list| - 1] == p
  }

  lemma AppendedMax(s: Store, p: Bytes, trim: RewriteFault)
    ensures DoAppend(s, p, AppendOk, trim).max == s.max
  {
  }

  lemma LastLine(s: Store, p: Bytes, trim: RewriteFault)
    requires Storable(p) && !Oversized(s, p)
    ensures var lines := Decode(DoAppend(s, p, AppendOk, trim).file);
            lines != [] && (NewestIs(lines, p) <==> Terminated(s.file) || Compacts(s, p, trim))
  {
    var a := DoAppend(s, p, AppendOk, trim);
    AppendedFile(s, p, trim);
    if Compacts(s, p, trim) {
      TrimLast(s.entries, p, s.max);
      LastOfEncoded(a.entries, p);
    } else {
      GluedStorable(s.file, p);
      var glued := Tail(s.file) + p;
      assert glued == p <==> Tail(s.file) == [] by { assert |glued| == |Tail(s.file)| + |p|; }
    }
  }

  /** The promise fails in a second way: a process dies with all of a payload but
      its newline written, the next one glues another payload to it, and if the
      two together overflow the scanner no process ever starts again, whatever
      else was queued. */
  lemma GluedLineStopsEveryBoot(s: Store, p: Bytes, q: Bytes, opens: bool, trim: RewriteFault)
    requires s.up && Terminated(s.file) && Readable(s.file) && Payload(p) && Payload(q)
    requires !Oversized(s, p) && |p| + |q| >= 16_777_216
    requires Size(Decode(s.file)) + Size([p, q]) <= s.max
    ensures var r := Do(Do(s, CrashInAppend(p, |p|)), Boot(true, RewriteOk));
            var t := Do(r, Append(q, AppendOk, RewriteOk));
            && r.up && t.entries == Decode(s.file) + [p, q] && t.exits == s.exits
            && !Do(Do(t, Crash), Boot(opens, trim)).up
  {
    var r := Do(Do(s, CrashInAppend(p, |p|)), Boot(true, RewriteOk));
    TwoMore(Decode(s.file), p, q);
    TornWhole(s, p);
    GlueOverflows(r, s.file, p, q, opens, trim);
  }

  /** A death with the whole payload but not its newline written. */
  lemma TornWhole(s: Store, p: Bytes)
    requires s.up && Terminated(s.file) && Readable(s.file) && Payload(p) && !Oversized(s, p)
    requires Size(Decode(s.file) + [p]) <= s.max
    ensures var r := Do(Do(s, CrashInAppend(p, |p|)), Boot(true, RewriteOk));
            && r.up && r.file == s.file + p && r.max == s.max
            && r.entries == Decode(s.file) + [p] && r.exits == s.exits
  {
    TornFile(s, p, |p|);
    TornPart(p, |p|);
    assert Torn(p, |p|) == p;
    DecodeConcat(s.file, p);
    BootAll(Do(s, CrashInAppend(p, |p|)));
  }

  lemma GlueOverflows(r: Store, f: Bytes, p: Bytes, q: Bytes, opens: bool, trim: RewriteFault)
    requires r.up && Terminated(f) && r.file == f + p && LF !in p && LF !in q && |p| + |q| >= 16_777_216
    requires Size(r.entries) + |q| + 1 <= r.max
    ensures var t := Do(r, Append(q, AppendOk, RewriteOk));
            && t.entries == r.entries + [q] && t.exits == r.exits
            && !Do(Do(t, Crash), Boot(opens, trim)).up
  {
    var t := Enter(r, q);
    EntersWhole(r, q);
    TailOf(f, p);
    ReadableAppend(r.file, q);
    StaysDown(t, opens, trim);
  }

  lemma EntersWhole(s: Store, p: Bytes)
    requires s.up && Size(s.entries) + |p| + 1 <= s.max
    ensures Do(s, Append(p, AppendOk, RewriteOk)) == Enter(s, p)
  {
    SizeSnoc(s.entries, p);
  }

  lemma StaysDown(s: Store, opens: bool, trim: RewriteFault)
    requires !Readable(s.file)
    ensures !Do(Do(s, Crash), Boot(opens, trim)).up
  {
  }

  lemma TailOf(f: Bytes, t: Bytes)
    requires Terminated(f) && LF !in t
    ensures Tail(f + t) == t
  {
    CompleteOfConcat(f, t);
    TerminatedComplete(f);
  }

  lemma TwoMore(lines: seq<Bytes>, p: Bytes, q: Bytes)
    ensures Size(lines + [p]) == Size(lines) + |p| + 1
    ensures Size([p, q]) == |p| + 1 + |q| + 1
    ensures lines + [p] + [q] == lines + [p, q]
  {
    SizeSnoc(lines, p);
    SizeSnoc([p], q);
    SizeOne(p);
    assert [p] + [q] == [p, q];
  }

  /** The promise fails after a torn append: a process dies with one byte of a
      line written, the next one loads it and accepts a payload, that process
      dies too, and the accepted payload is gone: never acknowledged, never
      evicted, and not in the queue. */
  lemma TornAppendLosesTheNext()
    ensures var torn: Bytes, next: Bytes := [65, 66], [67];
            var s := Run(Fresh(MEBIBYTE), [Boot(true, RewriteOk), CrashInAppend(torn, 1),
                                      Boot(true, RewriteOk), Append(next, AppendOk, RewriteOk),
                                      Crash, Boot(true, RewriteOk)]);
            && s.accepted == [next] && s.entries == [[65, 67]] && s.exits == []
  {
    var boot := Boot(true, RewriteOk);
    var first := [boot, CrashInAppend([65, 66], 1), boot];
    var second := [Append([67], AppendOk, RewriteOk), Crash, boot];
    TornHalf();
    LosingHalf();
    RunThree(Fresh(MEBIBYTE), first[0], first[1], first[2]);
    RunThree(Run(Fresh(MEBIBYTE), first), second[0], second[1], second[2]);
    RunConcat(Fresh(MEBIBYTE), first, second);
    assert first + second == [boot, CrashInAppend([65, 66], 1), boot, Append([67], AppendOk, RewriteOk), Crash, boot];
  }

  lemma RunThree(s: Store, a: Move, b: Move, c: Move)
    ensures Run(s, [a, b, c]) == Do(Do(Do(s, a), b), c)
  {
    var s1 := Do(s, a);
    var s2 := Do(s1, b);
    assert Run(s2, [c]) == Do(s2, c) by { assert [c][1..] == []; }
    assert Run(s1, [b, c]) == Run(s2, [c]) by { assert [b, c][1..] == [c]; }
    assert [a, b, c][1..] == [b, c];
  }

  /** Reading a file that is one unterminated or terminated line. */
  lemma DecodeOne(line: Bytes)
    requires Storable(line)
    ensures Decode(line) == [line] && Decode(Line(line)) == [line]
    ensures Readable(line) <==> |line| < MAX_TOKEN
    ensures Readable(Line(line)) <==> |line| < MAX_TOKEN
    ensures Size([line]) == |line| + 1
  {
    RawSingle(line);
    KeptOne(line);
    SizeOne(line);
  }

  /** A process that dies with one byte of a line on an empty file. */
  lemma TornStart(max: int, p: Bytes, byte: Byte)
    requires p != [] && p[0] == byte && byte != LF && byte != CR && |p| + 1 <= max
    ensures var s := Do(Do(Store(max, true, [], [], [], [], []), CrashInAppend(p, 1)), Boot(true, RewriteOk));
            s == Store(max, true, [[byte]], [false], [byte], [], [])
  {
    var d := Do(Store(max, true, [], [], [], [], []), CrashInAppend(p, 1));
    assert d == Store(max, false, [], [], [byte], [], []);
    DecodeOne([byte]);
    BootAll(d);
    assert Complete([byte]) == [];
    assert Loaded(d).solid == [false];
  }

  lemma TornHalf()
    ensures var a := Do(Do(Fresh(MEBIBYTE), Boot(true, RewriteOk)), CrashInAppend([65, 66], 1));
            var s := Do(a, Boot(true, RewriteOk));
            s == Store(MEBIBYTE, true, [[65]], [false], [65], [], [])
  {
    FirstBoot(MEBIBYTE);
    TornStart(MEBIBYTE, [65, 66], 65);
  }

  lemma FirstBoot(max: nat)
    ensures Do(Fresh(max), Boot(true, RewriteOk)) == Store(max, true, [], [], [], [], [])
  {
  }

  lemma GluedAppend()
    ensures var s := Store(MEBIBYTE, true, [[65]], [false], [65], [], []);
            Do(s, Append([67], AppendOk, RewriteOk)) ==
            Store(MEBIBYTE, true, [[65], [67]], [false, false], [65, 67, 10], [[67]], [])
  {
  }

  lemma RestartOneLine(s: Store, line: Bytes)
    requires s.up && s.file == Line(line) && Payload(line) && |line| + 1 <= s.max
    ensures var t := Do(Do(s, Crash), Boot(true, RewriteOk));
            t.accepted == s.accepted && t.exits == s.exits && t.entries == [line]
  {
    var d := s.(up := false);
    DecodeOne(line);
    BootAll(d);
    assert Do(s, Crash) == d;
  }

  lemma LosingHalf()
    ensures var s := Store(MEBIBYTE, true, [[65]], [false], [65], [], []);
            var t := Do(Do(Do(s, Append([67], AppendOk, RewriteOk)), Crash), Boot(true, RewriteOk));
            t.accepted == [[67]] && t.entries == [[65, 67]] && t.exits == []
  {
    GluedAppend();
    RestartOneLine(Store(MEBIBYTE, true, [[65], [67]], [false, false], [65, 67, 10], [[67]], []), [65, 67]);
  }
}
