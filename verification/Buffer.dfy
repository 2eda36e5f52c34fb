/** The disk-backed queue as the program keeps it: fields updated in place, a
    file that grows by appends and is replaced by write-to-temp and rename. */
module Buffer {
  import opened GoInt
  import opened LineFile
  import opened Queue
  import opened StoreModel
  import opened Durability

  /** What the disk shows at one instant. */
  datatype Image = Image(main: Bytes, temp: Bytes)

  /** The buffer path and its temp file. Every system call, and every byte a
      write puts down, adds an image to the trail: a process that dies leaves
      the disk at one of them. */
  class Disk {
    var present: bool
    var main: Bytes
    var temp: Bytes
    ghost var trail: seq<Image>

    ghost predicate Valid()
      reads this
    {
      && trail != [] && trail[|trail| - 1] == Image(main, temp)
      && (!present ==> main == [])
    }

    constructor (present: bool, contents: Bytes)
      requires !present ==> contents == []
      ensures Valid() && this.present == present && main == contents
    {
      this.present, main, temp := present, contents, [];
      trail := [Image(contents, [])];
    }

    /** Opens the buffer path for appending, creating it if it is missing. */
    method OpenAppend()
      requires Valid()
      modifies this
      ensures Valid() && present && main == old(main) && temp == old(temp)
      ensures trail == old(trail)
    {
      present := true;
    }

    /** Writes the first `count` bytes of data, in order, at the end. */
    method WriteMain(data: Bytes, count: nat)
      requires Valid() && present && count <= |data|
      modifies this
      ensures Valid() && present && temp == old(temp)
      ensures main == old(main) + data[..count]
      ensures old(trail) <= trail
      ensures forall k :: |old(trail)| <= k < |trail| ==>
                old(main) <= trail[k].main <= old(main) + data[..count]
    {
      var i := 0;
      while i < count
        invariant i <= count && Valid() && present && temp == old(temp)
        invariant main == old(main) + data[..i]
        invariant old(trail) <= trail
        invariant forall k :: |old(trail)| <= k < |trail| ==>
                    old(main) <= trail[k].main <= old(main) + data[..count]
      {
        assert data[..i + 1] == data[..i] + [data[i]];
        main := main + [data[i]];
        i := i + 1;
        assert data[..count] == data[..i] + data[i..count];
        assert main <= old(main) + data[..count];
        trail := trail + [Image(main, temp)];
      }
    }

    method CreateTemp()
      requires Valid()
      modifies this
      ensures Valid() && present == old(present) && main == old(main) && temp == []
      ensures old(trail) <= trail
      ensures forall k :: |old(trail)| <= k < |trail| ==> trail[k].main == main
    {
      temp := [];
      trail := trail + [Image(main, temp)];
    }

    method WriteTemp(data: Bytes, count: nat)
      requires Valid() && count <= |data|
      modifies this
      ensures Valid() && present == old(present) && main == old(main)
      ensures temp == old(temp) + data[..count]
      ensures old(trail) <= trail
      ensures forall k :: |old(trail)| <= k < |trail| ==> trail[k].main == main
    {
      var i := 0;
      while i < count
        invariant i <= count && Valid() && present == old(present) && main == old(main)
        invariant temp == old(temp) + data[..i]
        invariant old(trail) <= trail
        invariant forall k :: |old(trail)| <= k < |trail| ==> trail[k].main == main
      {
        assert data[..i + 1] == data[..i] + [data[i]];
        temp := temp + [data[i]];
        i := i + 1;
        trail := trail + [Image(main, temp)];
      }
    }

    /** Atomically puts the temp file at the buffer path. */
    method Rename()
      requires Valid()
      modifies this
      ensures Valid() && present && main == old(temp)
      ensures trail == old(trail) + [Image(old(temp), [])]
    {
      main, temp, present := temp, [], true;
      trail := trail + [Image(main, temp)];
    }
  }

  class Buffer {
    const disk: Disk
    const maxBytes: int
    var entries: seq<Bytes>
    var size: int
    ghost var log: Store

    /** The log describes this disk and this cap. */
    ghost predicate Linked()
      reads this, disk
    {
      disk.Valid() && log.file == disk.main && log.max == maxBytes
    }

    /** The running size is the true size, and the cap is met. */
    ghost predicate Valid()
      reads this, disk
    {
      && Linked() && log.up && log.entries == entries
      && size == Size(entries) && Fits(entries, maxBytes)
    }

    /** A new process on what the last one left behind. */
    constructor (disk: Disk, maxSizeMB: int, ghost left: Store)
      requires disk.Valid() && left.file == disk.main && !left.up
      ensures Linked() && this.disk == disk && entries == [] && size == 0
      ensures maxBytes == Int64(maxSizeMB * 1024 * 1024)
      ensures log == Do(left, Reconfigure(maxBytes))
    {
      this.disk := disk;
      maxBytes := Int64(maxSizeMB * 1024 * 1024);
      entries, size := [], 0;
      log := left.(max := Int64(maxSizeMB * 1024 * 1024));
    }

    /** Reads the file line by line, evicts down to the cap, and compacts the
        file if anything was evicted. On an error the process never starts. */
    method Load(opens: bool, trim: RewriteFault) returns (ok: bool)
      requires Linked() && !log.up && entries == [] && size == 0
      modifies this, disk
      ensures log == Do(old(log), Boot(opens || !old(disk.present), trim))
      ensures ok <==> log.up
      ensures var lines := Decode(old(disk.main));
              && (ok <==> !old(disk.present)
                          || (&& opens && Readable(old(disk.main))
                              && (Fits(lines, maxBytes) || Completes(trim, |Trim(lines, maxBytes)|))))
              && (ok ==> entries == Trim(lines, maxBytes))
              && disk.main == if ok && !Fits(lines, maxBytes) then Encode(entries) else old(disk.main)
      ensures if ok then Valid() else Linked()
      ensures old(disk.trail) <= disk.trail
      ensures forall k :: |old(disk.trail)| <= k < |disk.trail| ==>
                disk.trail[k].main == old(disk.main) || disk.trail[k].main == disk.main
    {
      if !disk.present {
        log := Loaded(log);
        return true;
      }
      if !opens {
        return false;
      }
      ok := Scan();
      if !ok {
        return false;
      }
      ghost var left, loaded := log, Loaded(log);
      BootCases(left, trim);
      log := loaded;
      var dropped := DropOldestToFit();
      if dropped {
        ok := WriteAll(trim);
        if !ok {
          log := left;
        }
      }
    }

    /** The scanning loop: every kept line of a readable file, in order. */
    method Scan() returns (ok: bool)
      requires Linked() && entries == [] && size == 0
      modifies this`entries, this`size
      ensures ok <==> forall line :: line in RawLines(disk.main) ==> |line| < 16_777_216
      ensures ok ==> entries == Decode(disk.main) && size == Size(entries)
    {
      ghost var all, readable := Decode(disk.main), Readable(disk.main);
      var rest := disk.main;
      while rest != []
        invariant all == entries + Decode(rest)
        invariant readable <==> Readable(rest)
        invariant size == Size(entries)
        decreases |rest|
      {
        ScanTurn(entries, rest);
        var end := LineEnd(rest);
        if end >= MAX_TOKEN {
          return false;
        }
        var line := DropCR(rest[..end]);
        if line != [] {
          entries := entries + [line];
          size := size + |line| + 1;
        }
        rest := Beyond(rest);
      }
      assert entries + [] == entries;
      ok := true;
    }

    /** Evicts the oldest entries until the running size meets the cap. */
    method DropOldestToFit() returns (dropped: bool)
      requires Linked() && log.up && log.entries == entries && size == Size(entries)
      modifies this`entries, this`size, this`log
      ensures Valid() && log == Shed(old(log))
      ensures entries == Trim(old(entries), maxBytes)
      ensures dropped <==> |entries| < |old(entries)|
    {
      dropped := false;
      ghost var before := entries;
      while size > maxBytes && |entries| > 0
        invariant Trim(entries, maxBytes) == Trim(before, maxBytes)
        invariant |entries| <= |before| && (dropped <==> |entries| < |before|)
        invariant size == Size(entries) && log == old(log)
      {
        size := size - (|entries[0]| + 1);
        entries := entries[1..];
        dropped := true;
      }
      TrimFits(before, maxBytes);
      log := Shed(log);
    }

    /** Replaces the file by the memory queue. Whatever fails, and wherever the
        process dies, the buffer path holds the old bytes or all the new ones. */
    method WriteAll(f: RewriteFault) returns (ok: bool)
      requires Valid()
      modifies disk, this`log
      ensures Valid() && log == Rewrite(old(log), f)
      ensures ok <==> Completes(f, |entries|)
      ensures f.RewriteOk? ==> ok
      ensures f.TempOpenFails? || f.TempCloseFails? || f.RenameFails? ==> !ok
      ensures f.TempWriteFails? ==> (ok <==> |entries| <= f.at)
      ensures ok ==> disk.main == Encode(entries)
      ensures !ok ==> disk.main == old(disk.main)
      ensures old(disk.trail) <= disk.trail
      ensures forall k :: |old(disk.trail)| <= k < |disk.trail| ==>
                disk.trail[k].main == old(disk.main) || disk.trail[k].main == disk.main
    {
      if f.TempOpenFails? {
        return false;
      }
      ok := WriteEntries(f);
      if !ok || f.TempCloseFails? || f.RenameFails? {
        return false;
      }
      disk.Rename();
      log := Rewrite(log, f);
    }

    /** The writing loop over a fresh temp file. */
    method WriteEntries(f: RewriteFault) returns (ok: bool)
      requires Valid()
      modifies disk
      ensures disk.Valid() && disk.main == old(disk.main)
      ensures ok <==> !(f.TempWriteFails? && f.at < |entries|)
      ensures ok ==> disk.temp == Encode(entries)
      ensures old(disk.trail) <= disk.trail
      ensures forall k :: |old(disk.trail)| <= k < |disk.trail| ==> disk.trail[k].main == disk.main
    {
      disk.CreateTemp();
      var i := 0;
      while i < |entries|
        invariant i <= |entries| && disk.Valid() && disk.main == old(disk.main)
        invariant disk.temp == Encode(entries[..i])
        invariant f.TempWriteFails? ==> i <= f.at
        invariant old(disk.trail) <= disk.trail
        invariant forall k :: |old(disk.trail)| <= k < |disk.trail| ==> disk.trail[k].main == disk.main
      {
        var line := Line(entries[i]);
        if f.TempWriteFails? && f.at == i {
          disk.WriteTemp(line, Min(f.wrote, |line|));
          return false;
        }
        disk.WriteTemp(line, |line|);
        assert line[..|line|] == line;
        EncodePrefix(entries, i);
        i := i + 1;
      }
      assert entries[..i] == entries;
      return true;
    }

    /** Adds a payload at the end. The line is on disk before it is in memory.
        Dropping an oversized payload is not an error; a failed compaction
        after an accepted payload is. */
    method Append(p: Bytes, f: AppendFault, trim: RewriteFault) returns (ok: bool)
      requires Valid()
      modifies this, disk
      ensures Valid() && log == Do(old(log), StoreModel.Append(p, f, trim))
      ensures 0 <= maxBytes ==> size <= maxBytes
      ensures ok <==> (|p| + 1 > maxBytes
                       || (f.AppendOk? && (Size(old(entries)) + |p| + 1 <= maxBytes || Completes(trim, |entries|))))
      ensures old(disk.trail) <= disk.trail
      ensures forall k :: |old(disk.trail)| <= k < |disk.trail| ==>
                AppendImage(old(disk.main), p, disk.main, disk.trail[k].main)
      ensures |p| + 1 > maxBytes ==> disk.trail == old(disk.trail)
    {
      if |p| + 1 > maxBytes {
        return true;
      }
      ok := AppendLine(p, f);
      if !ok {
        return;
      }
      ghost var grown := Enter(log, p);
      AppendCases(log, p, trim);
      SizeSnoc(entries, p);
      entries := entries + [p];
      size := size + |p| + 1;
      log := grown;
      var dropped := DropOldestToFit();
      if dropped {
        ok := WriteAll(trim);
      }
    }

    /** The append to the file: open, one write, close. */
    method AppendLine(p: Bytes, f: AppendFault) returns (ok: bool)
      requires Valid() && |p| + 1 <= maxBytes
      modifies disk, this`log
      ensures disk.Valid() && ok == f.AppendOk?
      ensures ok ==> log == old(log) && disk.main == old(disk.main) + Line(p)
      ensures !ok ==> Valid() && log == DoAppend(old(log), p, f, RewriteOk)
      ensures old(disk.trail) <= disk.trail
      ensures forall k :: |old(disk.trail)| <= k < |disk.trail| ==>
                old(disk.main) <= disk.trail[k].main <= old(disk.main) + Line(p)
    {
      if f.AppendOpenFails? {
        return false;
      }
      disk.OpenAppend();
      var line := Line(p);
      var count := if f.AppendWriteFails? then Min(f.wrote, |line|) else |line|;
      disk.WriteMain(line, count);
      PrefixOfPrefix(old(disk.main), line, count);
      assert line[..|line|] == line;
      if f.AppendWriteFails? || f.AppendCloseFails? {
        log := DoAppend(log, p, f, RewriteOk);
        return false;
      }
      return true;
    }

    method Peek() returns (e: Bytes, ok: bool)
      requires Valid()
      ensures ok <==> entries != []
      ensures ok ==> e == entries[0]
    {
      if |entries| == 0 {
        return [], false;
      }
      return entries[0], true;
    }

    /** Removes the oldest entry from memory; the file keeps its line. */
    method Pop() returns (e: Bytes, ok: bool)
      requires Valid()
      modifies this`entries, this`size, this`log
      ensures Valid() && log == Do(old(log), Deliver)
      ensures 0 <= maxBytes ==> size <= maxBytes
      ensures ok <==> old(entries) != []
      ensures ok ==> old(entries) == [e] + entries
      ensures !ok ==> entries == old(entries)
    {
      if |entries| == 0 {
        return [], false;
      }
      e, ok := entries[0], true;
      entries := entries[1..];
      size := size - (|e| + 1);
      log := DoDeliver(log);
    }

    method Persist(f: RewriteFault) returns (ok: bool)
      requires Valid()
      modifies disk, this`log
      ensures Valid() && log == Do(old(log), StoreModel.Persist(f))
      ensures ok <==> Completes(f, |entries|)
      ensures old(disk.trail) <= disk.trail
      ensures forall k :: |old(disk.trail)| <= k < |disk.trail| ==>
                disk.trail[k].main == old(disk.main) || disk.trail[k].main == disk.main
    {
      ok := WriteAll(f);
    }

    method Len() returns (n: nat)
      requires Valid()
      ensures n == |entries|
    {
      return |entries|;
    }
  }

  /** A new process: construct, then load. */
  method New(disk: Disk, maxSizeMB: int, opens: bool, trim: RewriteFault, ghost left: Store)
    returns (b: Buffer, ok: bool)
    requires disk.Valid() && left.file == disk.main && !left.up
    modifies disk
    ensures fresh(b) && b.disk == disk && b.maxBytes == Int64(maxSizeMB * 1024 * 1024)
    ensures b.log == Do(Do(left, Reconfigure(b.maxBytes)), Boot(opens || !old(disk.present), trim))
    ensures ok <==> b.log.up
    ensures ok ==> b.Valid() && (0 <= b.maxBytes ==> b.size <= b.maxBytes)
  {
    b := new Buffer(disk, maxSizeMB, left);
    ok := b.Load(opens, trim);
  }

  /** The images a dying append can leave: part of the new line behind the old
      file, or the file the append ends with. */
  predicate AppendImage(before: Bytes, p: Bytes, after: Bytes, image: Bytes) {
    before <= image <= before + Line(p) || image == after
  }

  lemma PrefixOfPrefix(f: Bytes, line: Bytes, n: nat)
    requires n <= |line|
    ensures f + line[..n] <= f + line
  {
    assert f + line == (f + line[..n]) + line[n..];
  }

  /** A boot on a readable file, by what eviction and compaction do. */
  lemma BootCases(s: Store, trim: RewriteFault)
    requires !s.up && Readable(s.file)
    ensures var b := Loaded(s);
            var kept := Trim(b.entries, s.max);
            && |kept| <= |b.entries|
            && (|kept| == |b.entries| ==> DoBoot(s, true, trim) == b == Shed(b))
            && (|kept| < |b.entries| && Completes(trim, |kept|) ==> DoBoot(s, true, trim) == Rewrite(Shed(b), trim))
            && (|kept| < |b.entries| && !Completes(trim, |kept|) ==> DoBoot(s, true, trim) == s)
  {
    TrimFits(Decode(s.file), s.max);
  }

  /** An append that wrote its line, by what eviction and compaction do. */
  lemma AppendCases(s: Store, p: Bytes, trim: RewriteFault)
    requires !Oversized(s, p)
    ensures var e := Enter(s, p);
            var kept := Trim(e.entries, s.max);
            && (|kept| < |e.entries| <==> Size(s.entries) + |p| + 1 > s.max)
            && |kept| <= |e.entries|
            && (|kept| == |e.entries| ==> DoAppend(s, p, AppendOk, trim) == e == Shed(e))
            && (|kept| < |e.entries| ==> DoAppend(s, p, AppendOk, trim) == Rewrite(Shed(e), trim))
  {
    TrimGrown(s.entries, p, s.max);
  }

  /** The bytes after the first line. */
  function Beyond(rest: Bytes): Bytes {
    if LineEnd(rest) < |rest| then rest[LineEnd(rest) + 1..] else []
  }

  lemma FirstRaw(rest: Bytes)
    requires rest != []
    ensures RawLines(rest) == [rest[..LineEnd(rest)]] + RawLines(Beyond(rest))
    ensures |Beyond(rest)| < |rest|
  {
    assert rest[..|rest|] == rest;
  }

  lemma FirstReadable(rest: Bytes)
    requires rest != []
    ensures Readable(rest) <==> LineEnd(rest) < MAX_TOKEN && Readable(Beyond(rest))
  {
    FirstRaw(rest);
    var raw, more := rest[..LineEnd(rest)], RawLines(Beyond(rest));
    assert forall l :: l in [raw] + more <==> l == raw || l in more;
  }

  /** One turn of the scanning loop. */
  lemma ScanTurn(kept: seq<Bytes>, rest: Bytes)
    requires rest != []
    ensures var line := DropCR(rest[..LineEnd(rest)]);
            var now := if line == [] then kept else kept + [line];
            && kept + Decode(rest) == now + Decode(Beyond(rest))
            && Size(now) == Size(kept) + if line == [] then 0 else |line| + 1
    ensures Readable(rest) <==> LineEnd(rest) < MAX_TOKEN && Readable(Beyond(rest))
    ensures |Beyond(rest)| < |rest|
  {
    var raw := rest[..LineEnd(rest)];
    var line := DropCR(raw);
    FirstRaw(rest);
    FirstReadable(rest);
    ScanKept(kept, raw, RawLines(Beyond(rest)));
    SizeSnoc(kept, line);
  }

  lemma ScanKept(kept: seq<Bytes>, raw: Bytes, more: seq<Bytes>)
    ensures kept + Kept([raw] + more) == (if DropCR(raw) == [] then kept else kept + [DropCR(raw)]) + Kept(more)
  {
  }

  /** While file and memory agree, an append never makes the file larger than
      twice the cap, at any instant. */
  lemma TransientBound(s: Store, p: Bytes, f: AppendFault, trim: RewriteFault, image: Bytes)
    requires s.file == Encode(s.entries) && Size(s.entries) <= s.max && !Oversized(s, p)
    requires AppendImage(s.file, p, DoAppend(s, p, f, trim).file, image)
    ensures |image| <= 2 * s.max
  {
    SizeIsFileLength(s.entries);
    if f.AppendOk? {
      SizeIsFileLength(Trim(s.entries + [p], s.max));
      TrimFits(s.entries + [p], s.max);
      AppendCases(s, p, trim);
    }
  }

  /** Loading never counts more than the file holds, and one missing newline. */
  lemma LoadSizeBound(f: Bytes)
    ensures Size(Decode(f)) <= |f| + 1
  {
    EncodedLength(RawLines(f));
    SizeIsFileLength(Decode(f));
    RawLength(f);
  }

  lemma {:induction false} RawLength(f: Bytes)
    ensures |Encode(RawLines(f))| <= |f| + 1
    decreases |f|
  {
    if f != [] {
      FirstRaw(f);
      EncodeCons(f[..LineEnd(f)], RawLines(Beyond(f)));
      if LineEnd(f) < |f| {
        RawLength(Beyond(f));
      }
    }
  }
}
