/** Mount points as metric names: whatever the mount point, the sanitizer lands
    in the naming contract. */
module DiskMetric {
  import opened MetricName
  import opened Strings

  const PREFIX: string := "disk.usage_percent."

  /** Lower-casing maps one character to one character and leaves the
      characters of metric names alone. */
  ghost predicate LowerCasing(lower: char -> char) {
    forall c :: WordChar(c) ==> lower(c) == c
  }

  function Lowered(s: string, lower: char -> char): (r: string)
    ensures |r| == |s|
  {
    seq(|s|, i requires 0 <= i < |s| => lower(s[i]))
  }

  /** The non-empty pieces between slashes. */
  function Fields(s: string): seq<string>
    decreases |s|
  {
    if s == [] then []
    else if s[0] == '/' then Fields(s[1..])
    else
      var n := IndexOf(s, '/');
      [s[..n]] + Fields(s[n..])
  }

  function CleanChar(c: char): char {
    if WordChar(c) then c else '_'
  }

  function Clean(part: string): (r: string)
    ensures |r| == |part| && AllWord(r)
  {
    seq(|part|, i requires 0 <= i < |part| => CleanChar(part[i]))
  }

  function CleanAll(parts: seq<string>): seq<string> {
    if parts == [] then [] else [Clean(parts[0])] + CleanAll(parts[1..])
  }

  function Join(parts: seq<string>): string {
    if parts == [] then "" else if |parts| == 1 then parts[0] else parts[0] + "_" + Join(parts[1..])
  }

  /** The tag of a mount point. */
  function Tag(mountpoint: string, lower: char -> char): string {
    var parts := Fields(Lowered(mountpoint, lower));
    if parts == [] then "root" else Join(CleanAll(parts))
  }

  /** The building loop over one part. */
  method SanitizePart(part: string) returns (r: string)
    ensures r == Clean(part)
  {
    r := "";
    for i := 0 to |part|
      invariant r == Clean(part)[..i]
    {
      if 'a' <= part[i] <= 'z' || '0' <= part[i] <= '9' || part[i] == '_' {
        r := r + [part[i]];
      } else {
        r := r + ['_'];
      }
    }
  }

  /** Replaces every part in place, then joins. */
  method Sanitize(mountpoint: string, lower: char -> char) returns (r: string)
    ensures r == Tag(mountpoint, lower)
  {
    var parts := Fields(Lowered(mountpoint, lower));
    if |parts| == 0 {
      return "root";
    }
    ghost var raw := parts;
    for i := 0 to |parts|
      invariant |parts| == |raw|
      invariant CleanAll(raw) == parts[..i] + CleanAll(parts[i..])
    {
      var part := SanitizePart(parts[i]);
      assert parts[i..][0] == parts[i] && parts[i..][1..] == parts[i + 1..];
      assert CleanAll(parts[i..]) == [part] + CleanAll(parts[i + 1..]);
      ghost var before := parts;
      parts := parts[i := part];
      assert parts[..i + 1] == before[..i] + [part] && parts[i + 1..] == before[i + 1..];
    }
    assert CleanAll(raw) == parts + [] by {
      assert parts[..|parts|] == parts && parts[|parts|..] == [];
    }
    assert parts == CleanAll(raw);
    return Join(parts);
  }

  // ------------------------------------------------------------ slashes

  /** Lower-casing neither makes nor removes a slash. */
  ghost predicate KeepsSlashes(lower: char -> char) {
    forall c :: lower(c) == '/' <==> c == '/'
  }

  predicate Slashes(s: string) {
    forall i :: 0 <= i < |s| ==> s[i] == '/'
  }

  /** A path whose slashes only separate: none at either end and no two together. */
  predicate Path(s: string) {
    && s != "" && s[0] != '/' && s[|s| - 1] != '/'
    && forall i :: 0 <= i < |s| - 1 ==> s[i] != '/' || s[i + 1] != '/'
  }

  /** A slash separates the fields before it from those behind it. */
  lemma {:induction false} FieldsApart(a: string, b: string)
    ensures Fields(a + "/" + b) == Fields(a) + Fields(b)
    decreases |a|
  {
    var s := a + "/" + b;
    if a == [] {
      assert s[1..] == b;
    } else if a[0] == '/' {
      assert s[1..] == a[1..] + "/" + b;
      FieldsApart(a[1..], b);
    } else {
      var n := IndexOf(a, '/');
      IndexIs(s, '/', n);
      assert s[..n] == a[..n];
      assert s[n..] == a[n..] + "/" + b;
      FieldsApart(a[n..], b);
    }
  }

  lemma LoweredApart(a: string, b: string, lower: char -> char)
    requires KeepsSlashes(lower)
    ensures Lowered(a + "/" + b, lower) == Lowered(a, lower) + "/" + Lowered(b, lower)
  {
  }

  lemma FieldsOf(a: string, b: string, lower: char -> char)
    requires KeepsSlashes(lower)
    ensures Fields(Lowered(a + "/" + b, lower)) == Fields(Lowered(a, lower)) + Fields(Lowered(b, lower))
  {
    LoweredApart(a, b, lower);
    FieldsApart(Lowered(a, lower), Lowered(b, lower));
  }

  /** Leading, trailing and doubled slashes do not change the tag. */
  lemma SlashesOnlySeparate(a: string, b: string, lower: char -> char)
    requires KeepsSlashes(lower)
    ensures Tag("/" + a, lower) == Tag(a, lower) == Tag(a + "/", lower)
    ensures Tag(a + "//" + b, lower) == Tag(a + "/" + b, lower)
  {
    OuterSlash(a, lower);
    DoubledSlash(a, b, lower);
  }

  lemma OuterSlash(a: string, lower: char -> char)
    requires KeepsSlashes(lower)
    ensures Fields(Lowered("/" + a, lower)) == Fields(Lowered(a, lower)) == Fields(Lowered(a + "/", lower))
  {
    FieldsOf([], a, lower);
    FieldsOf(a, [], lower);
    assert [] + "/" + a == "/" + a && a + "/" + [] == a + "/";
    assert Fields(Lowered([], lower)) == [];
  }

  lemma DoubledSlash(a: string, b: string, lower: char -> char)
    requires KeepsSlashes(lower)
    ensures Fields(Lowered(a + "//" + b, lower)) == Fields(Lowered(a + "/" + b, lower))
  {
    OuterSlash(b, lower);
    FieldsOf(a, b, lower);
    FieldsOf(a, "/" + b, lower);
    assert a + "/" + ("/" + b) == a + "//" + b;
  }

  // ------------------------------------------------------------ spelling

  lemma PathTail(s: string, n: nat)
    requires Path(s) && 0 < n < |s| && s[n] == '/'
    ensures n + 1 < |s| && Path(s[n + 1..])
  {
    var t := s[n + 1..];
    assert t[0] == s[n + 1] && t[|t| - 1] == s[|s| - 1];
    forall i | 0 <= i < |t| - 1 ensures t[i] != '/' || t[i + 1] != '/' {
      assert t[i] == s[n + 1 + i] && t[i + 1] == s[n + 1 + i + 1];
    }
  }

  lemma FieldsFirst(s: string)
    requires s != "" && s[0] != '/'
    ensures var n := IndexOf(s, '/');
            Fields(s) == [s[..n]] + if n < |s| then Fields(s[n + 1..]) else []
  {
    var n := IndexOf(s, '/');
    if n < |s| { assert s[n..][1..] == s[n + 1..]; }
  }

  lemma CleanFirst(s: string, n: nat)
    requires n < |s| && s[n] == '/'
    ensures Clean(s) == Clean(s[..n]) + "_" + Clean(s[n + 1..])
  {
  }

  /** Joining the cleaned fields of a path is cleaning it, slashes and all. */
  lemma {:induction false} JoinedPath(s: string)
    requires Path(s)
    ensures Fields(s) != [] && Join(CleanAll(Fields(s))) == Clean(s)
    decreases |s|
  {
    var n := IndexOf(s, '/');
    FieldsFirst(s);
    if n == |s| {
      assert s[..n] == s && [s] + [] == [s];
      assert CleanAll([s]) == [Clean(s)] by { assert [s][1..] == []; }
    } else {
      PathTail(s, n);
      JoinedPath(s[n + 1..]);
      JoinFirst(s[..n], Fields(s[n + 1..]));
      CleanFirst(s, n);
    }
  }

  lemma JoinFirst(head: string, rest: seq<string>)
    requires rest != []
    ensures Join(CleanAll([head] + rest)) == Clean(head) + "_" + Join(CleanAll(rest))
  {
    assert ([head] + rest)[1..] == rest;
    CleanAllShape(rest);
    var all := CleanAll([head] + rest);
    assert all == [Clean(head)] + CleanAll(rest) && all[1..] == CleanAll(rest);
  }

  /** The tag of a path below the root is the path, lower-cased, with everything that
      no metric name may contain, slashes included, turned into underscores. */
  lemma TagSpells(path: string, lower: char -> char, i: nat)
    requires KeepsSlashes(lower) && Path(path) && i < |path|
    ensures var t := Tag("/" + path, lower);
            var c := lower(path[i]);
            && |t| == |path|
            && t[i] == if c in "abcdefghijklmnopqrstuvwxyz0123456789_" then c else '_'
  {
    var s := Lowered(path, lower);
    SlashesOnlySeparate(path, "", lower);
    LoweredPath(path, lower);
    JoinedPath(s);
    WordChars(s[i]);
  }

  lemma LoweredPath(path: string, lower: char -> char)
    requires KeepsSlashes(lower) && Path(path)
    ensures Path(Lowered(path, lower))
  {
    var s := Lowered(path, lower);
    assert forall i :: 0 <= i < |s| ==> s[i] == lower(path[i]);
  }

  // ------------------------------------------------------------ the root

  lemma {:induction false} NoFields(s: string)
    ensures Fields(s) == [] <==> Slashes(s)
    decreases |s|
  {
    if s != [] && s[0] == '/' {
      NoFields(s[1..]);
      assert Slashes(s) <==> Slashes(s[1..]) by {
        assert s == ['/'] + s[1..];
      }
    }
  }

  /** One field, between slashes only. */
  predicate OneField(s: string, i: nat, j: nat) {
    i < j <= |s| && Slashes(s[..i]) && Slashes(s[j..]) && '/' !in s[i..j]
  }

  lemma OneFieldIs(s: string, i: nat, j: nat)
    requires OneField(s, i, j)
    ensures Fields(s) == [s[i..j]]
  {
    Leading(s, i);
    var t := s[i..];
    assert t[..j - i] == s[i..j] && t[j - i..] == s[j..];
    assert forall k :: 0 <= k < j - i ==> t[k] in s[i..j];
    IndexIs(t, '/', j - i) by { assert j < |s| ==> s[j..][0] == '/'; }
    NoFields(s[j..]);
    assert t[0] in s[i..j];
  }

  lemma {:induction false} Leading(s: string, i: nat)
    requires i <= |s| && Slashes(s[..i])
    ensures Fields(s) == Fields(s[i..])
    decreases i
  {
    if i > 0 {
      assert s[..i][0] == '/';
      assert s[1..][..i - 1] == s[..i][1..];
      Leading(s[1..], i - 1);
      assert s[1..][i - 1..] == s[i..];
    } else {
      assert s[0..] == s;
    }
  }

  lemma {:induction false} FindField(s: string) returns (i: nat, j: nat)
    requires |Fields(s)| == 1
    ensures OneField(s, i, j) && Fields(s) == [s[i..j]]
    decreases |s|
  {
    if s[0] == '/' {
      i, j := FindField(s[1..]);
      assert s[..i + 1] == ['/'] + s[1..][..i];
      assert s[i + 1..j + 1] == s[1..][i..j] && s[j + 1..] == s[1..][j..];
      i, j := i + 1, j + 1;
    } else {
      i, j := 0, IndexOf(s, '/');
      NoFields(s[j..]);
      assert s[0..j] == s[..j];
    }
  }

  /** A tag of at least two fields has an underscore. */
  lemma JoinHasBar(parts: seq<string>)
    requires |parts| >= 2
    ensures '_' in Join(parts)
  {
    var rest := Join(parts[1..]);
    assert (parts[0] + "_" + rest)[|parts[0]|] == '_';
  }

  lemma CleanRoot(word: string)
    ensures Clean(word) == "root" <==> word == "root"
  {
    if Clean(word) == "root" {
      var c := Clean(word);
      assert c[0] == 'r' && c[1] == 'o' && c[2] == 'o' && c[3] == 't';
      assert CleanChar(word[0]) == 'r' && CleanChar(word[1]) == 'o';
      assert CleanChar(word[2]) == 'o' && CleanChar(word[3]) == 't';
      assert word == [word[0], word[1], word[2], word[3]];
    }
    assert Clean("root") == "root";
  }

  lemma RootByFields(s: string)
    ensures var parts := Fields(s);
            (if parts == [] then "root" else Join(CleanAll(parts))) == "root" <==> parts == [] || parts == ["root"]
  {
    var parts := Fields(s);
    if |parts| == 1 {
      assert CleanAll(parts) == [Clean(parts[0])] by { assert parts[1..] == []; }
      CleanRoot(parts[0]);
    } else if |parts| >= 2 {
      CleanAllShape(parts);
      JoinHasBar(CleanAll(parts));
      assert '_' !in "root";
    }
  }

  /** The tag is root exactly for the root, and for a single field that lower-cases to
      that word. */
  lemma TagIsRoot(m: string, lower: char -> char)
    requires KeepsSlashes(lower)
    ensures Tag(m, lower) == "root" <==>
            Slashes(m) || exists i: nat, j: nat :: OneField(m, i, j) && Lowered(m[i..j], lower) == "root"
  {
    var s := Lowered(m, lower);
    RootByFields(s);
    NoFields(s);
    assert Slashes(s) <==> Slashes(m) by { LoweredSlashes(m, lower); }
    if Fields(s) == ["root"] {
      var i, j := FindField(s);
      LoweredField(m, lower, i, j);
    }
    forall i: nat, j: nat | OneField(m, i, j) && Lowered(m[i..j], lower) == "root" ensures Fields(s) == ["root"] {
      LoweredField(m, lower, i, j);
      OneFieldIs(s, i, j);
    }
  }

  lemma LoweredSlashes(m: string, lower: char -> char)
    requires KeepsSlashes(lower)
    ensures Slashes(Lowered(m, lower)) <==> Slashes(m)
  {
    var s := Lowered(m, lower);
    assert forall i :: 0 <= i < |m| ==> s[i] == lower(m[i]);
    if Slashes(s) {
      forall i | 0 <= i < |m| ensures m[i] == '/' { assert s[i] == '/'; }
    }
  }

  lemma LoweredField(m: string, lower: char -> char, i: nat, j: nat)
    requires KeepsSlashes(lower) && i < j <= |m|
    ensures OneField(Lowered(m, lower), i, j) <==> OneField(m, i, j)
    ensures Lowered(m, lower)[i..j] == Lowered(m[i..j], lower)
  {
    var s := Lowered(m, lower);
    assert s[..i] == Lowered(m[..i], lower) && s[j..] == Lowered(m[j..], lower);
    assert s[i..j] == Lowered(m[i..j], lower);
    LoweredSlashes(m[..i], lower);
    LoweredSlashes(m[j..], lower);
    SlashInLowered(m[i..j], lower);
  }

  lemma SlashInLowered(w: string, lower: char -> char)
    requires KeepsSlashes(lower)
    ensures '/' in Lowered(w, lower) <==> '/' in w
  {
    var s := Lowered(w, lower);
    assert forall i :: 0 <= i < |w| ==> s[i] == lower(w[i]);
    if '/' in w {
      var i :| 0 <= i < |w| && w[i] == '/';
      assert s[i] == '/';
    }
  }

  // ------------------------------------------------------------ language and length

  function Total(parts: seq<string>): nat {
    if parts == [] then 0 else |parts[0]| + Total(parts[1..])
  }

  predicate NoneEmpty(parts: seq<string>) {
    forall i :: 0 <= i < |parts| ==> parts[i] != []
  }

  /** At least one slash separates any two pieces. */
  lemma {:induction false} FieldsFit(s: string)
    ensures NoneEmpty(Fields(s))
    ensures Fields(s) != [] ==> Total(Fields(s)) + |Fields(s)| - 1 <= |s|
    decreases |s|
  {
    if s == [] {
    } else if s[0] == '/' {
      FieldsFit(s[1..]);
    } else {
      var n := IndexOf(s, '/');
      var rest := s[n..];
      if rest == [] {
        assert Fields(s) == [s[..n]];
      } else {
        FieldsFit(rest[1..]);
        assert Fields(rest) == Fields(rest[1..]);
        assert Fields(s) == [s[..n]] + Fields(rest);
        assert Fields(s)[1..] == Fields(rest);
      }
    }
  }

  lemma {:induction false} CleanAllShape(parts: seq<string>)
    ensures |CleanAll(parts)| == |parts| && Total(CleanAll(parts)) == Total(parts)
    ensures NoneEmpty(parts) ==> Segments(CleanAll(parts))
  {
    if parts != [] {
      CleanAllShape(parts[1..]);
      var all := CleanAll(parts);
      assert all[0] == Clean(parts[0]) && all[1..] == CleanAll(parts[1..]);
    }
  }

  lemma {:induction false} JoinShape(parts: seq<string>)
    requires parts != [] && Segments(parts)
    ensures Segment(Join(parts)) && |Join(parts)| == Total(parts) + |parts| - 1
  {
    if |parts| == 1 {
      assert Total(parts[1..]) == 0;
    } else {
      JoinShape(parts[1..]);
    }
  }

  /** For any mount point the tag is one non-empty segment, no longer than the
      mount point or the word root. */
  lemma TagIsSegment(m: string, lower: char -> char)
    ensures Segment(Tag(m, lower))
    ensures |Tag(m, lower)| <= if |m| < 4 then 4 else |m|
  {
    var parts := Fields(Lowered(m, lower));
    FieldsFit(Lowered(m, lower));
    if parts != [] {
      CleanAllShape(parts);
      JoinShape(CleanAll(parts));
    }
  }

  /** Sanitizing a tag changes nothing. */
  lemma TagIsFixed(m: string, lower: char -> char)
    requires LowerCasing(lower)
    ensures Tag(Tag(m, lower), lower) == Tag(m, lower)
  {
    var t := Tag(m, lower);
    TagIsSegment(m, lower);
    assert Lowered(t, lower) == t;
    IndexIs(t, '/', |t|);
    assert t[..|t|] == t && Fields(t) == [t] + [];
    assert Clean(t) == t;
    assert CleanAll([t]) == [Clean(t)] + CleanAll([t][1..]);
  }

  /** A reported disk metric is valid exactly when its tag has at most 45
      characters, which every mount point of at most 45 has. */
  lemma DiskMetricValid(m: string, lower: char -> char)
    ensures ValidMetricName("disk.usage_percent." + Tag(m, lower)) <==> |Tag(m, lower)| <= 45
    ensures |m| <= 45 ==> ValidMetricName("disk.usage_percent." + Tag(m, lower))
  {
    var t := Tag(m, lower);
    TagIsSegment(m, lower);
    PrefixedName(PREFIX, "disk", "usage_percent", t);
    ValidNames(PREFIX + t);
  }

  lemma PrefixedName(prefix: string, a: string, b: string, t: string)
    requires prefix == a + "." + b + "." && Segment(a) && Segment(b) && Segment(t)
    ensures InLanguage(prefix + t)
  {
    assert prefix + t == a + "." + (b + "." + t);
    NoDots(t);
    SplitWhole(t, '.');
    SegmentsFirst(b, t);
    SegmentsFirst(a, b + "." + t);
  }
}
