/** The on-disk format of the heartbeat buffer: one payload per line, read back
    by a line scanner that strips one trailing carriage return, skips empty
    lines and refuses a line that does not fit its token buffer. */
module LineFile {

  type Byte = bv8
  type Bytes = seq<Byte>

  const LF: Byte := 10
  const CR: Byte := 13

  /** The scanner's token buffer: a line and its newline must fit in it. */
  const MAX_TOKEN: nat := 16 * 1024 * 1024

  /** Index of the first newline, or the length when there is none. */
  function LineEnd(f: Bytes): (n: nat)
    ensures n <= |f| && forall i :: 0 <= i < n ==> f[i] != 10
    ensures n < |f| ==> f[n] == 10
  {
    if f == [] || f[0] == LF then 0 else 1 + LineEnd(f[1..])
  }

  /** The file cut at its newlines; a last line without one still counts. */
  function RawLines(f: Bytes): seq<Bytes> {
    if f == [] then []
    else
      var n := LineEnd(f);
      if n == |f| then [f] else [f[..n]] + RawLines(f[n + 1..])
  }

  function DropCR(line: Bytes): Bytes {
    if line != [] && line[|line| - 1] == CR then line[..|line| - 1] else line
  }

  /** What the loading loop keeps of the raw lines. */
  function Kept(raw: seq<Bytes>): seq<Bytes> {
    if raw == [] then []
    else
      var line := DropCR(raw[0]);
      (if line == [] then [] else [line]) + Kept(raw[1..])
  }

  function Decode(f: Bytes): seq<Bytes> {
    Kept(RawLines(f))
  }

  /** No line overflows the scanner's token buffer. */
  predicate Readable(f: Bytes) {
    forall line :: line in RawLines(f) ==> |line| < MAX_TOKEN
  }

  predicate Terminated(f: Bytes) {
    f == [] || f[|f| - 1] == LF
  }

  function Line(p: Bytes): Bytes {
    p + [LF]
  }

  function Encode(entries: seq<Bytes>): Bytes {
    if entries == [] then [] else Line(entries[0]) + Encode(entries[1..])
  }

  /** A payload that survives the line format. */
  predicate Storable(p: Bytes) {
    p != [] && LF !in p && p[|p| - 1] != CR
  }

  /** The contract of the JSON encoder: storable, and short enough to be scanned. */
  predicate Payload(p: Bytes) {
    Storable(p) && |p| < MAX_TOKEN
  }

  /** The longest newline-terminated prefix of a file. */
  function Complete(f: Bytes): (g: Bytes)
    ensures g <= f && Terminated(g) && LF !in f[|g|..]
  {
    if Terminated(f) then f
    else
      var g := Complete(f[..|f| - 1]);
      assert f[|g|..] == f[..|f| - 1][|g|..] + [f[|f| - 1]];
      g
  }

  // ------------------------------------------------------------ raw lines

  lemma LineEndIs(f: Bytes, m: nat)
    requires m <= |f| && (forall i :: 0 <= i < m ==> f[i] != LF) && (m < |f| ==> f[m] == LF)
    ensures LineEnd(f) == m
  {
  }

  /** Cutting at the first newline. */
  lemma RawStep(line: Bytes, rest: Bytes)
    requires LF !in line
    ensures RawLines(Line(line) + rest) == [line] + RawLines(rest)
  {
    var f := Line(line) + rest;
    LineEndIs(f, |line|);
    assert f[..|line|] == line && f[|line| + 1..] == rest;
  }

  lemma FirstLine(f: Bytes) returns (line: Bytes, rest: Bytes)
    requires Terminated(f) && f != []
    ensures f == Line(line) + rest && LF !in line && Terminated(rest)
  {
    assert f[|f| - 1] == LF;
    var n := LineEnd(f);
    line, rest := f[..n], f[n + 1..];
  }

  lemma {:induction false} RawConcat(a: Bytes, b: Bytes)
    requires Terminated(a)
    ensures RawLines(a + b) == RawLines(a) + RawLines(b)
    decreases |a|
  {
    if a == [] {
      assert a + b == b;
    } else {
      var line, rest := FirstLine(a);
      calc {
        RawLines(a + b);
        { assert a + b == Line(line) + (rest + b); RawStep(line, rest + b); }
        [line] + RawLines(rest + b);
        { RawConcat(rest, b); }
        [line] + (RawLines(rest) + RawLines(b));
        ([line] + RawLines(rest)) + RawLines(b);
        { RawStep(line, rest); }
        RawLines(a) + RawLines(b);
      }
    }
  }

  lemma RawSingle(p: Bytes)
    requires LF !in p
    ensures RawLines(Line(p)) == [p]
    ensures RawLines(p) == if p == [] then [] else [p]
  {
    assert Line(p)[..|p|] == p;
    LineEndIs(Line(p), |p|);
    assert Line(p)[|p| + 1..] == [];
    if p != [] {
      assert p[..|p|] == p;
      LineEndIs(p, |p|);
    }
  }

  lemma {:induction false} RawWithoutLF(f: Bytes)
    ensures forall line :: line in RawLines(f) ==> LF !in line
  {
    if f != [] && LineEnd(f) < |f| {
      RawWithoutLF(f[LineEnd(f) + 1..]);
    } else {
      assert f[..|f|] == f;
    }
  }

  // ------------------------------------------------------------ kept lines

  /** One carriage return is stripped, if there is one at the end. */
  lemma DroppedCR(line: Bytes)
    ensures var r := DropCR(line);
            line == r + [13] || (line == r && (line == [] || line[|line| - 1] != 13))
  {
    if line != [] { assert line == line[..|line| - 1] + [line[|line| - 1]]; }
  }

  lemma {:induction false} KeptConcat(a: seq<Bytes>, b: seq<Bytes>)
    ensures Kept(a + b) == Kept(a) + Kept(b)
  {
    if a == [] {
      assert a + b == b;
    } else {
      assert (a + b)[1..] == a[1..] + b;
      KeptConcat(a[1..], b);
    }
  }

  lemma KeptOne(line: Bytes)
    ensures Kept([line]) == if DropCR(line) == [] then [] else [DropCR(line)]
  {
  }

  lemma {:induction false} KeptSources(raw: seq<Bytes>)
    ensures |Kept(raw)| <= |raw|
    ensures forall line :: line in Kept(raw) ==> line != [] && exists l :: l in raw && line == DropCR(l)
  {
    if raw != [] {
      KeptSources(raw[1..]);
      forall line | line in Kept(raw)
        ensures line != [] && exists l :: l in raw && line == DropCR(l)
      {
        if line !in Kept(raw[1..]) {
          assert raw[0] in raw && line == DropCR(raw[0]);
        } else {
          var l :| l in raw[1..] && line == DropCR(l);
          assert l in raw;
        }
      }
    }
  }

  lemma {:induction false} KeptAll(raw: seq<Bytes>)
    ensures Kept(raw) == raw <==> forall line :: line in raw ==> line != [] && line[|line| - 1] != CR
  {
    if raw != [] {
      KeptAll(raw[1..]);
      assert raw == [raw[0]] + raw[1..];
      KeptSources(raw[1..]);
      if Kept(raw) == raw {
        var line := DropCR(raw[0]);
        assert line != [];
        assert Kept(raw)[0] == line == raw[0];
        assert Kept(raw)[1..] == Kept(raw[1..]);
      }
      if forall line :: line in raw ==> line != [] && line[|line| - 1] != CR {
        assert raw[0] in raw;
        assert forall line :: line in raw[1..] ==> line in raw;
      }
    }
  }

  // ------------------------------------------------------------ decoding

  lemma DecodeConcat(a: Bytes, b: Bytes)
    requires Terminated(a)
    ensures Decode(a + b) == Decode(a) + Decode(b)
    ensures Readable(a + b) <==> Readable(a) && Readable(b)
  {
    RawConcat(a, b);
    KeptConcat(RawLines(a), RawLines(b));
    assert forall line :: line in RawLines(a) ==> line in RawLines(a + b);
    assert forall line :: line in RawLines(b) ==> line in RawLines(a + b);
  }

  /** One line on its own. */
  lemma DecodeLine(line: Bytes)
    requires LF !in line
    ensures Decode(Line(line)) == if DropCR(line) == [] then [] else [DropCR(line)]
    ensures Readable(Line(line)) <==> |line| < MAX_TOKEN
  {
    RawSingle(line);
    KeptOne(line);
    assert line in RawLines(Line(line));
  }

  /** The unterminated tail of a file. */
  function Tail(f: Bytes): (t: Bytes)
    ensures f == Complete(f) + t && LF !in t
    ensures t == [] <==> Terminated(f)
  {
    TerminatedComplete(f);
    f[|Complete(f)|..]
  }

  lemma GlueSplit(f: Bytes, p: Bytes)
    ensures f + Line(p) == Complete(f) + Line(Tail(f) + p)
  {
    assert f + Line(p) == (Complete(f) + Tail(f)) + Line(p);
  }

  /** A line added to any file is glued to the unterminated tail, if there is one. */
  lemma GluedLine(f: Bytes, p: Bytes)
    requires LF !in p
    ensures var glued := Tail(f) + p;
            && LF !in glued
            && Decode(f + Line(p)) == Decode(Complete(f)) + Decode(Line(glued))
            && (Readable(f + Line(p)) <==> Readable(Complete(f)) && |glued| < MAX_TOKEN)
  {
    GlueSplit(f, p);
    DecodeConcat(Complete(f), Line(Tail(f) + p));
    DecodeLine(Tail(f) + p);
  }

  /** ... and what it decodes to, when it is storable. */
  lemma GluedStorable(f: Bytes, p: Bytes)
    requires Storable(p)
    ensures Decode(f + Line(p)) == Decode(Complete(f)) + [Tail(f) + p]
  {
    GluedLine(f, p);
    StorableBehind(Tail(f), p);
    DecodeStorable(Tail(f) + p);
  }

  lemma StorableBehind(t: Bytes, p: Bytes)
    requires LF !in t && Storable(p)
    ensures Storable(t + p)
  {
    assert (t + p)[|t + p| - 1] == p[|p| - 1];
  }

  lemma DecodeStorable(p: Bytes)
    requires Storable(p)
    ensures Decode(Line(p)) == [p]
  {
    DecodeLine(p);
  }

  /** One appended line decodes to the old list plus the payload exactly when
      the file it was appended to ended in a newline; otherwise the payload is
      glued to the unterminated tail and does not come back as itself. */
  lemma AppendExact(f: Bytes, p: Bytes)
    requires Storable(p)
    ensures Decode(f + Line(p)) == Decode(f) + [p] <==> Terminated(f)
  {
    GluedStorable(f, p);
    if Terminated(f) {
      TerminatedComplete(f);
      assert Tail(f) + p == p;
    } else {
      assert |Tail(f) + p| > |p|;
      LastDiffers(Decode(Complete(f)), Tail(f) + p, Decode(f), p);
    }
  }

  lemma LastDiffers(a: seq<Bytes>, x: Bytes, b: seq<Bytes>, y: Bytes)
    requires x != y
    ensures a + [x] != b + [y]
  {
    var s, t := a + [x], b + [y];
    assert s[|s| - 1] == x && t[|t| - 1] == y;
  }

  /** A file with one more line can be scanned exactly when its complete lines
      can, and the line, glued to whatever unterminated tail was there, fits the
      token buffer. */
  lemma ReadableAppend(f: Bytes, p: Bytes)
    requires LF !in p
    ensures Readable(f + Line(p)) <==> Readable(Complete(f)) && |Tail(f)| + |p| < 16_777_216
  {
    GluedLine(f, p);
  }

  lemma TerminatedComplete(f: Bytes)
    ensures Complete(f) == f <==> Terminated(f)
  {
  }

  /** An append stopped after any byte leaves the old lines intact, followed by
      at most one line that is a prefix of the payload. */
  lemma TornAppend(f: Bytes, p: Bytes, n: nat)
    requires Terminated(f) && Storable(p) && n <= |p|
    ensures var t := Line(p)[..n];
            && DropCR(t) <= p
            && Decode(f + t) == Decode(f) + (if DropCR(t) == [] then [] else [DropCR(t)])
            && Complete(f + t) == f
  {
    var t := Line(p)[..n];
    assert t == p[..n];
    DecodeTail(f, t);
    CompleteOfConcat(f, t);
  }

  lemma DecodeTail(f: Bytes, t: Bytes)
    requires Terminated(f) && LF !in t
    ensures Decode(f + t) == Decode(f) + (if DropCR(t) == [] then [] else [DropCR(t)])
  {
    DecodeConcat(f, t);
    RawSingle(t);
    if t != [] {
      KeptOne(t);
    }
  }

  lemma {:induction false} CompleteOfConcat(f: Bytes, t: Bytes)
    requires LF !in t
    ensures Complete(f + t) == Complete(f)
  {
    if t == [] {
      assert f + t == f;
    } else {
      assert t[|t| - 1] in t;
      assert (f + t)[..|f + t| - 1] == f + t[..|t| - 1];
      CompleteOfConcat(f, t[..|t| - 1]);
    }
  }

  /** A line of 16 MiB or more, its newline not counted, stops the scanner, and no
      shorter one does. */
  lemma LineLimit(p: Bytes)
    requires LF !in p
    ensures Readable(Line(p)) <==> |p| < 16_777_216
  {
    DecodeLine(p);
  }

  // ------------------------------------------------------------ encoding

  lemma {:induction false} EncodeConcat(a: seq<Bytes>, b: seq<Bytes>)
    ensures Encode(a + b) == Encode(a) + Encode(b)
  {
    if a == [] {
      assert a + b == b;
    } else {
      assert (a + b)[1..] == a[1..] + b;
      EncodeConcat(a[1..], b);
    }
  }

  lemma EncodePrefix(entries: seq<Bytes>, i: nat)
    requires i < |entries|
    ensures Encode(entries[..i + 1]) == Encode(entries[..i]) + Line(entries[i])
  {
    EncodeConcat(entries[..i], [entries[i]]);
    assert Encode([entries[i]]) == Line(entries[i]) by { assert [entries[i]][1..] == []; }
    assert entries[..i + 1] == entries[..i] + [entries[i]];
  }

  lemma {:induction false} EncodeTerminated(entries: seq<Bytes>)
    ensures Terminated(Encode(entries))
  {
    if entries != [] {
      EncodeTerminated(entries[1..]);
    }
  }

  lemma {:induction false} RawEncode(entries: seq<Bytes>)
    requires forall e :: e in entries ==> LF !in e
    ensures RawLines(Encode(entries)) == entries
  {
    if entries != [] {
      RawEncode(entries[1..]);
      RawSingle(entries[0]);
      RawConcat(Line(entries[0]), Encode(entries[1..]));
    }
  }

  /** Round trip: reading back what the rewrite wrote gives the same list
      exactly when every entry is storable. */
  lemma DecodeEncode(entries: seq<Bytes>)
    ensures Decode(Encode(entries)) == entries <==> forall e :: e in entries ==> Storable(e)
  {
    if forall e :: e in entries ==> LF !in e {
      RawEncode(entries);
      KeptAll(entries);
    } else {
      RawWithoutLF(Encode(entries));
      KeptSources(RawLines(Encode(entries)));
      var e :| e in entries && LF in e;
      assert forall l :: l in RawLines(Encode(entries)) ==> LF !in DropCR(l);
    }
  }

  lemma ReadableEncode(entries: seq<Bytes>)
    requires forall e :: e in entries ==> Payload(e)
    ensures Readable(Encode(entries))
  {
    RawEncode(entries);
  }

  /** The other round trip: rewriting what was read reproduces the file exactly
      when it is newline-terminated and no line is empty or ends in a carriage
      return. */
  lemma EncodeDecode(f: Bytes)
    ensures Encode(Decode(f)) == f <==>
            Terminated(f) && forall line :: line in RawLines(f) ==> line != [] && line[|line| - 1] != CR
  {
    EncodeTerminated(Decode(f));
    if Terminated(f) {
      EncodeRaw(f);
      KeptAll(RawLines(f));
      EncodedLength(RawLines(f));
    }
  }

  lemma {:induction false} EncodeRaw(f: Bytes)
    requires Terminated(f)
    ensures Encode(RawLines(f)) == f
    decreases |f|
  {
    if f != [] {
      var line, rest := FirstLine(f);
      RawStep(line, rest);
      EncodeRaw(rest);
      EncodeCons(line, RawLines(rest));
    }
  }

  lemma EncodeCons(line: Bytes, rest: seq<Bytes>)
    ensures Encode([line] + rest) == Line(line) + Encode(rest)
  {
    assert ([line] + rest)[1..] == rest;
  }

  /** Skipping or stripping any line makes the rewritten file shorter. */
  lemma {:induction false} EncodedLength(raw: seq<Bytes>)
    ensures |Encode(Kept(raw))| <= |Encode(raw)|
    ensures |Encode(Kept(raw))| == |Encode(raw)| ==> Kept(raw) == raw
  {
    if raw != [] {
      EncodedLength(raw[1..]);
      var line := DropCR(raw[0]);
      if line == [] {
        assert Kept(raw) == Kept(raw[1..]);
      } else {
        var kept := Kept(raw);
        assert kept[0] == line && kept[1..] == Kept(raw[1..]);
        assert |Encode(kept)| == |line| + 1 + |Encode(Kept(raw[1..]))|;
        if |Encode(kept)| == |Encode(raw)| {
          assert line == raw[0] && raw == [raw[0]] + raw[1..];
        }
      }
    }
  }
}
