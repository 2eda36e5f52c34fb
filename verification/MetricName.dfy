/** The naming contract between agent and server: the regular expression, and
    the language it stands for. */
module MetricName {
  import opened Strings

  const MAX_NAME_LEN: nat := 64

  predicate WordChar(c: char) {
    'a' <= c <= 'z' || '0' <= c <= '9' || c == '_'
  }

  lemma WordChars(c: char)
    ensures WordChar(c) <==> c in "abcdefghijklmnopqrstuvwxyz0123456789_"
  {
    Letters(c);
    Digits(c);
    assert "abcdefghijklmnopqrstuvwxyz0123456789_" == "abcdefghijklmnopqrstuvwxyz" + "0123456789" + "_";
  }

  lemma Letters(c: char)
    ensures 'a' <= c <= 'z' <==> c in "abcdefghijklmnopqrstuvwxyz"
  {
  }

  lemma Digits(c: char)
    ensures '0' <= c <= '9' <==> c in "0123456789"
  {
  }

  predicate AllWord(s: string) {
    forall i :: 0 <= i < |s| ==> WordChar(s[i])
  }

  // ------------------------------------------------------------ regular expressions

  datatype Regex =
    | Word                                // one of [a-z0-9_]
    | Dot                                 // a literal dot
    | Then(first: Regex, second: Regex)
    | Plus(inner: Regex)

  /** The whole string matches. */
  predicate Matches(r: Regex, s: string)
    decreases r, |s|
  {
    match r
    case Word => |s| == 1 && WordChar(s[0])
    case Dot => s == "."
    case Then(a, b) => exists i :: 0 <= i <= |s| && Matches(a, s[..i]) && Matches(b, s[i..])
    case Plus(a) =>
      || Matches(a, s)
      || exists i :: 0 < i < |s| && Matches(a, s[..i]) && Matches(r, s[i..])
  }

  const SEGMENT: Regex := Plus(Word)
  const DOTTED: Regex := Then(Dot, SEGMENT)
  const NAME: Regex := Then(SEGMENT, Plus(DOTTED))

  /** Bytes of the UTF-8 encoding. */
  function RuneLen(c: char): nat {
    if c as int < 0x80 then 1 else if c as int < 0x800 then 2 else if c as int < 0x1_0000 then 3 else 4
  }

  function ByteLen(s: string): nat {
    if s == [] then 0 else RuneLen(s[0]) + ByteLen(s[1..])
  }

  predicate ValidMetricName(name: string) {
    ByteLen(name) <= MAX_NAME_LEN && Matches(NAME, name)
  }

  // ------------------------------------------------------------ the language

  predicate Segment(s: string) {
    s != [] && AllWord(s)
  }

  predicate Segments(parts: seq<string>) {
    forall i :: 0 <= i < |parts| ==> Segment(parts[i])
  }

  predicate InLanguage(s: string) {
    |Split(s, '.')| >= 2 && Segments(Split(s, '.'))
  }

  lemma {:induction false} SegmentMatch(s: string)
    ensures Matches(SEGMENT, s) <==> Segment(s)
    decreases |s|
  {
    if |s| >= 2 {
      assert Matches(SEGMENT, s) <==> exists i :: 0 < i < |s| && Matches(Word, s[..i]) && Matches(SEGMENT, s[i..]);
      SegmentMatch(s[1..]);
      if Segment(s) {
        assert Matches(Word, s[..1]) && Segment(s[1..]);
      }
      if Matches(SEGMENT, s) {
        var i :| 0 < i < |s| && Matches(Word, s[..i]) && Matches(SEGMENT, s[i..]);
        assert i == 1 && s == [s[0]] + s[1..];
        assert AllWord(s[1..]);
      }
    }
  }

  lemma DottedMatch(s: string)
    ensures Matches(DOTTED, s) <==> s != [] && s[0] == '.' && Segment(s[1..])
  {
    if Matches(DOTTED, s) {
      var i :| 0 <= i <= |s| && Matches(Dot, s[..i]) && Matches(SEGMENT, s[i..]);
      assert i == 1;
      SegmentMatch(s[1..]);
    }
    if s != [] && s[0] == '.' && Segment(s[1..]) {
      SegmentMatch(s[1..]);
      assert Matches(Dot, s[..1]);
    }
  }

  lemma NoDots(s: string)
    requires AllWord(s)
    ensures '.' !in s
  {
  }

  lemma SegmentsFirst(head: string, rest: string)
    requires AllWord(head)
    ensures Segments(Split(head + "." + rest, '.')) <==> Segment(head) && Segments(Split(rest, '.'))
    ensures |Split(head + "." + rest, '.')| >= 2
  {
    NoDots(head);
    SplitFirst(head, '.', rest);
    var parts := [head] + Split(rest, '.');
    assert parts[0] == head && parts[1..] == Split(rest, '.');
    if Segments(parts) {
      forall i | 0 <= i < |Split(rest, '.')| ensures Segment(Split(rest, '.')[i]) {
        assert parts[i + 1] == Split(rest, '.')[i];
      }
    }
  }

  lemma {:induction false} TailSound(s: string)
    requires Matches(Plus(DOTTED), s)
    ensures s != [] && s[0] == '.' && Segments(Split(s[1..], '.'))
    decreases |s|, 0
  {
    if Matches(DOTTED, s) {
      DottedMatch(s);
      NoDots(s[1..]);
      SplitWhole(s[1..], '.');
    } else {
      var i :| 0 < i < |s| && Matches(DOTTED, s[..i]) && Matches(Plus(DOTTED), s[i..]);
      DottedMatch(s[..i]);
      TailSound(s[i..]);
      var word := s[..i][1..];
      assert s[1..] == word + "." + s[i..][1..];
      SegmentsFirst(word, s[i..][1..]);
    }
  }

  lemma {:induction false} TailComplete(s: string)
    requires s != [] && s[0] == '.' && Segments(Split(s[1..], '.'))
    ensures Matches(Plus(DOTTED), s)
    decreases |s|, 0
  {
    var t := s[1..];
    var n := IndexOf(t, '.');
    var parts := Split(t, '.');
    assert Segment(parts[0]);
    if n == |t| {
      DottedMatch(s);
    } else {
      var rest := t[n + 1..];
      assert t == t[..n] + "." + rest;
      SegmentsFirst(t[..n], rest);
      assert s[n + 1..] == "." + rest && s[n + 1..][1..] == rest;
      TailComplete(s[n + 1..]);
      assert s[..n + 1][1..] == t[..n];
      DottedMatch(s[..n + 1]);
    }
  }

  lemma NameSound(s: string)
    requires Matches(NAME, s)
    ensures InLanguage(s)
  {
    var i :| 0 <= i <= |s| && Matches(SEGMENT, s[..i]) && Matches(Plus(DOTTED), s[i..]);
    SegmentMatch(s[..i]);
    TailSound(s[i..]);
    assert s == s[..i] + "." + s[i..][1..];
    SegmentsFirst(s[..i], s[i..][1..]);
  }

  lemma NameComplete(s: string)
    requires InLanguage(s)
    ensures Matches(NAME, s)
  {
    var n := IndexOf(s, '.');
    assert Segment(Split(s, '.')[0]);
    assert n < |s|;
    assert s == s[..n] + "." + s[n + 1..];
    SegmentsFirst(s[..n], s[n + 1..]);
    SegmentMatch(s[..n]);
    assert s[n..][1..] == s[n + 1..];
    TailComplete(s[n..]);
  }

  lemma NameMatch(s: string)
    ensures Matches(NAME, s) <==> InLanguage(s)
  {
    if Matches(NAME, s) { NameSound(s); }
    if InLanguage(s) { NameComplete(s); }
  }

  /** The expression accepts exactly the strings of at least two dot-separated
      segments, each non-empty and over [a-z0-9_]. */
  lemma NameLanguage(s: string)
    ensures Matches(NAME, s) <==> InLanguage(s)
    ensures forall c :: WordChar(c) <==> c in "abcdefghijklmnopqrstuvwxyz0123456789_"
  {
    NameMatch(s);
    forall c ensures WordChar(c) <==> c in "abcdefghijklmnopqrstuvwxyz0123456789_" {
      WordChars(c);
    }
  }

  lemma {:induction false} AsciiLen(s: string)
    requires forall i :: 0 <= i < |s| ==> WordChar(s[i]) || s[i] == '.'
    ensures ByteLen(s) == |s|
  {
    if s != [] { AsciiLen(s[1..]); }
  }

  lemma {:induction false} LanguageChars(s: string)
    requires Segments(Split(s, '.'))
    ensures forall i :: 0 <= i < |s| ==> WordChar(s[i]) || s[i] == '.'
    decreases |s|
  {
    var n := IndexOf(s, '.');
    assert Segment(Split(s, '.')[0]);
    if n < |s| {
      var rest := s[n + 1..];
      assert s == s[..n] + "." + rest;
      SegmentsFirst(s[..n], rest);
      LanguageChars(rest);
      forall i | 0 <= i < |s| ensures WordChar(s[i]) || s[i] == '.' {
        if i < n { assert s[i] == s[..n][i]; } else if i > n { assert s[i] == rest[i - n - 1]; }
      }
    }
  }

  /** A name is valid exactly when it is in the language and has at most 64
      characters; the byte limit and the character limit agree on it. */
  lemma ValidNames(s: string)
    ensures ValidMetricName(s) <==> InLanguage(s) && |s| <= 64
  {
    NameMatch(s);
    if InLanguage(s) {
      LanguageChars(s);
      AsciiLen(s);
    }
  }

  // ------------------------------------------------------------ character by character

  /** Dots separate, and only separate: none at either end and no two together. */
  predicate DotsApart(s: string) {
    && s != "" && s[0] != '.' && s[|s| - 1] != '.'
    && forall i :: 0 <= i < |s| - 1 ==> s[i] != '.' || s[i + 1] != '.'
  }

  predicate NameChars(s: string) {
    forall i :: 0 <= i < |s| ==> WordChar(s[i]) || s[i] == '.'
  }

  lemma DottedAt(head: string, rest: string)
    ensures var s := head + "." + rest;
            && |s| == |head| + 1 + |rest| && s[|head|] == '.'
            && (forall i :: 0 <= i < |head| ==> s[i] == head[i])
            && (forall i :: 0 <= i < |rest| ==> s[|head| + 1 + i] == rest[i])
  {
  }

  lemma NameCharsFirst(head: string, rest: string)
    requires AllWord(head)
    ensures NameChars(head + "." + rest) <==> NameChars(rest)
  {
    var s := head + "." + rest;
    DottedAt(head, rest);
    if NameChars(s) {
      forall i | 0 <= i < |rest| ensures WordChar(rest[i]) || rest[i] == '.' {
        assert WordChar(s[|head| + 1 + i]) || s[|head| + 1 + i] == '.';
      }
    }
  }

  lemma DotsApartFirst(head: string, rest: string)
    requires AllWord(head)
    ensures DotsApart(head + "." + rest) <==> head != "" && DotsApart(rest)
  {
    var s := head + "." + rest;
    DottedAt(head, rest);
    if DotsApart(s) {
      ApartBehind(s, rest, |head| + 1);
    }
    if head != "" && DotsApart(rest) {
      ApartBoth(s, head, rest);
    }
  }

  lemma ApartBoth(s: string, head: string, rest: string)
    requires AllWord(head) && head != "" && DotsApart(rest)
    requires |s| == |head| + 1 + |rest|
    requires forall i :: 0 <= i < |head| ==> s[i] == head[i]
    requires forall i :: 0 <= i < |rest| ==> s[|head| + 1 + i] == rest[i]
    ensures DotsApart(s)
  {
    var n := |head| + 1;
    assert s[|s| - 1] == s[n + (|rest| - 1)];
    forall i | 0 <= i < |s| - 1 ensures s[i] != '.' || s[i + 1] != '.' {
      if i >= n {
        assert s[i] == s[n + (i - n)] == rest[i - n] && s[i + 1] == s[n + (i - n + 1)] == rest[i - n + 1];
      } else if i == |head| {
        assert s[i + 1] == s[n + 0] == rest[0];
      } else {
        assert WordChar(head[i]);
      }
    }
  }

  /** What follows a dot has its own dots apart. */
  lemma ApartBehind(s: string, rest: string, n: nat)
    requires DotsApart(s) && 0 < n && |s| == n + |rest| && s[n - 1] == '.'
    requires forall i :: 0 <= i < |rest| ==> s[n + i] == rest[i]
    ensures DotsApart(rest)
  {
    assert rest != "";
    assert rest[0] == s[n + 0];
    assert rest[|rest| - 1] == s[n + (|rest| - 1)];
    forall i | 0 <= i < |rest| - 1 ensures rest[i] != '.' || rest[i + 1] != '.' {
      assert s[n + i] == rest[i] && s[n + (i + 1)] == rest[i + 1];
    }
  }

  lemma {:induction false} SegmentsAre(s: string)
    ensures Segments(Split(s, '.')) <==> NameChars(s) && DotsApart(s)
    decreases |s|
  {
    var n := IndexOf(s, '.');
    var head := s[..n];
    if n == |s| {
      assert Split(s, '.') == [s] && head == s;
      assert Segments([s]) <==> Segment(s) by { assert [s][0] == s; }
    } else {
      var rest := s[n + 1..];
      assert s == head + "." + rest;
      if AllWord(head) {
        SegmentsFirst(head, rest);
        DotsApartFirst(head, rest);
        NameCharsFirst(head, rest);
        SegmentsAre(rest);
      } else {
        assert Split(s, '.')[0] == head;
        var i :| 0 <= i < |head| && !WordChar(head[i]);
        assert s[i] == head[i];
      }
    }
  }

  /** Valid names, character by character: at most 64, over [a-z0-9_.], with at least
      one dot, none at either end and no two together. */
  lemma ValidNamesAre(s: string)
    ensures ValidMetricName(s) <==>
            && |s| <= 64 && '.' in s && DotsApart(s)
            && forall i :: 0 <= i < |s| ==> s[i] in "abcdefghijklmnopqrstuvwxyz0123456789_" || s[i] == '.'
  {
    ValidNames(s);
    SegmentsAre(s);
    forall i | 0 <= i < |s|
      ensures WordChar(s[i]) <==> s[i] in "abcdefghijklmnopqrstuvwxyz0123456789_"
    {
      WordChars(s[i]);
    }
    if '.' in s {
      var n := IndexOf(s, '.');
      assert |Split(s[n + 1..], '.')| >= 1;
    } else {
      SplitWhole(s, '.');
    }
  }
}
