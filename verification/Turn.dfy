/** Coturn statistics: reading until both values are seen gives what draining
    the whole connection would. */
module Turn {
  import opened Strings

  datatype Option<T> = None | Some(value: T)

  /** The library calls: lower-casing of a line, and parsing of a number token. */
  datatype Library = Library(lower: string -> string, parse: string -> Option<real>)

  datatype Stats = Stats(sessions: real, bytes: real, ok: bool)

  predicate Contains(s: string, word: string) {
    |word| <= |s| && (s[..|word|] == word || (s != [] && Contains(s[1..], word)))
  }

  predicate Digit(c: char) {
    '0' <= c <= '9'
  }

  /** The first digit and everything after it. */
  function FromDigit(line: string): string {
    if line == [] || Digit(line[0]) then line else FromDigit(line[1..])
  }

  /** The leading digits and dots. */
  function Token(s: string): string {
    if s != [] && (Digit(s[0]) || s[0] == '.') then [s[0]] + Token(s[1..]) else []
  }

  function FirstNumber(line: string, lib: Library): Option<real> {
    var s := FromDigit(line);
    if s == [] then None else lib.parse(Token(s))
  }

  /** The scan for the end of the token. */
  method ReadNumber(line: string, lib: Library) returns (r: Option<real>)
    ensures r == FirstNumber(line, lib)
  {
    var s := FromDigit(line);
    if s == [] {
      return None;
    }
    var j := 0;
    while j < |s| && (Digit(s[j]) || s[j] == '.')
      invariant j <= |s| && Token(s) == s[..j] + Token(s[j..])
    {
      assert s[j..][1..] == s[j + 1..];
      j := j + 1;
    }
    assert Token(s[j..]) == [];
    assert s[..j] + [] == s[..j];
    return lib.parse(s[..j]);
  }

  /** A line's number, if it mentions the word. */
  function Mentioned(line: string, word: string, lib: Library): Option<real> {
    if Contains(lib.lower(line), word) then FirstNumber(line, lib) else None
  }

  /** The first line that mentions the word and has a number decides. */
  function FirstMention(lines: seq<string>, word: string, lib: Library): Option<real> {
    if lines == [] then None
    else if Mentioned(lines[0], word, lib).Some? then Mentioned(lines[0], word, lib)
    else FirstMention(lines[1..], word, lib)
  }

  function OrZero(o: Option<real>): real {
    if o.Some? then o.value else 0.0
  }

  /** What the statistics in these lines are, independent of how they arrive. */
  function Parsed(lines: seq<string>, lib: Library): Stats {
    var sessions := FirstMention(lines, "session", lib);
    var bytes := FirstMention(lines, "byte", lib);
    Stats(OrZero(sessions), OrZero(bytes), sessions.Some? && bytes.Some?)
  }

  /** The parsing loop over one text, with its found flags. */
  method ParseCoturnStats(text: string, lib: Library) returns (r: Stats)
    ensures r == Parsed(Split(text, '\n'), lib)
    ensures Statistics(Split(text, '\n'), lib, r)
  {
    var lines := Split(text, '\n');
    var sessions, bytes := 0.0, 0.0;
    var foundSessions, foundBytes := false, false;
    for i := 0 to |lines|
      invariant Found(foundSessions, sessions, FirstMention(lines[..i], "session", lib))
      invariant Found(foundBytes, bytes, FirstMention(lines[..i], "byte", lib))
    {
      var line := lines[i];
      var lower := lib.lower(line);
      MentionSnoc(lines[..i], line, "session", lib);
      MentionSnoc(lines[..i], line, "byte", lib);
      assert lines[..i] + [line] == lines[..i + 1];
      if !foundSessions && Contains(lower, "session") {
        var n := ReadNumber(line, lib);
        if n.Some? {
          sessions, foundSessions := n.value, true;
        }
      }
      if !foundBytes && Contains(lower, "byte") {
        var n := ReadNumber(line, lib);
        if n.Some? {
          bytes, foundBytes := n.value, true;
        }
      }
    }
    assert lines[..|lines|] == lines;
    r := Stats(sessions, bytes, foundSessions && foundBytes);
    ParsedIs(lines, lib);
  }

  predicate Found(found: bool, value: real, o: Option<real>) {
    found == o.Some? && value == OrZero(o)
  }

  /** What the builder holds after these lines were read. */
  function Text(lines: seq<string>): string {
    if lines == [] then "" else lines[0] + "\n" + Text(lines[1..])
  }

  /** The reading loop: one line at a time, parse again, stop at the first
      success. The scanner hands over lines without newlines. */
  method ReadCoturnStats(lines: seq<string>, lib: Library) returns (r: Stats)
    requires forall i :: 0 <= i < |lines| ==> '\n' !in lines[i]
    ensures r == Parsed(lines, lib)
  {
    var buf := "";
    for i := 0 to |lines|
      invariant buf == Text(lines[..i])
    {
      buf := buf + lines[i] + "\n";
      TextTurn(lines, i, lib);
      r := ParseCoturnStats(buf, lib);
      if r.ok {
        return r;
      }
    }
    assert lines[..|lines|] == lines;
    TextParsed(lines, lib);
    r := ParseCoturnStats(buf, lib);
  }

  /** Reading one more line. */
  lemma TextTurn(lines: seq<string>, i: nat, lib: Library)
    requires i < |lines| && forall k :: 0 <= k < |lines| ==> '\n' !in lines[k]
    ensures var text := Text(lines[..i + 1]);
            && text == Text(lines[..i]) + lines[i] + "\n"
            && Parsed(Split(text, '\n'), lib) == Parsed(lines[..i + 1], lib)
            && (Parsed(lines[..i + 1], lib).ok ==> Parsed(lines[..i + 1], lib) == Parsed(lines, lib))
  {
    TextSnoc(lines[..i], lines[i]);
    assert lines[..i] + [lines[i]] == lines[..i + 1];
    TextParsed(lines[..i + 1], lib);
    if Parsed(lines[..i + 1], lib).ok {
      ParsedStable(lines[..i + 1], lines[i + 1..], lib);
      assert lines[..i + 1] + lines[i + 1..] == lines;
    }
  }

  /** The text built from lines parses like the lines. */
  lemma TextParsed(lines: seq<string>, lib: Library)
    requires forall i :: 0 <= i < |lines| ==> '\n' !in lines[i]
    ensures Parsed(Split(Text(lines), '\n'), lib) == Parsed(lines, lib)
  {
    SplitText(lines);
    TrailingEmpty(lines, lib);
  }

  // ------------------------------------------------------------ prefix stability

  lemma {:induction false} MentionConcat(a: seq<string>, b: seq<string>, word: string, lib: Library)
    ensures FirstMention(a + b, word, lib) ==
            if FirstMention(a, word, lib).Some? then FirstMention(a, word, lib) else FirstMention(b, word, lib)
  {
    if a == [] {
      assert a + b == b;
    } else {
      assert (a + b)[1..] == a[1..] + b;
      MentionConcat(a[1..], b, word, lib);
    }
  }

  lemma MentionSnoc(lines: seq<string>, line: string, word: string, lib: Library)
    ensures FirstMention(lines + [line], word, lib) ==
            if FirstMention(lines, word, lib).Some? then FirstMention(lines, word, lib) else Mentioned(line, word, lib)
  {
    MentionConcat(lines, [line], word, lib);
    assert FirstMention([line][1..], word, lib) == None;
  }

  /** Once both values are found, no further line changes the result. */
  lemma ParsedStable(a: seq<string>, b: seq<string>, lib: Library)
    requires Parsed(a, lib).ok
    ensures Parsed(a + b, lib) == Parsed(a, lib)
  {
    MentionConcat(a, b, "session", lib);
    MentionConcat(a, b, "byte", lib);
  }

  /** An empty line has no number. */
  lemma EmptyLine(word: string, lib: Library)
    ensures Mentioned("", word, lib).None?
  {
  }

  /** The trailing empty piece of the text never matters. */
  lemma TrailingEmpty(lines: seq<string>, lib: Library)
    ensures Parsed(lines + [""], lib) == Parsed(lines, lib)
  {
    EmptyLine("session", lib);
    EmptyLine("byte", lib);
    MentionSnoc(lines, "", "session", lib);
    MentionSnoc(lines, "", "byte", lib);
  }

  lemma {:induction false} TextSnoc(lines: seq<string>, line: string)
    ensures Text(lines + [line]) == Text(lines) + line + "\n"
  {
    if lines == [] {
      assert lines + [line] == [line];
      assert Text([line][1..]) == "";
    } else {
      assert (lines + [line])[1..] == lines[1..] + [line];
      TextSnoc(lines[1..], line);
    }
  }

  lemma {:induction false} SplitText(lines: seq<string>)
    requires forall i :: 0 <= i < |lines| ==> '\n' !in lines[i]
    ensures Split(Text(lines), '\n') == lines + [""]
  {
    if lines == [] {
      SplitWhole("", '\n');
    } else {
      var rest := Text(lines[1..]);
      calc {
        Split(Text(lines), '\n');
        { assert Text(lines) == lines[0] + ['\n'] + rest; SplitFirst(lines[0], '\n', rest); }
        [lines[0]] + Split(rest, '\n');
        { SplitText(lines[1..]); }
        [lines[0]] + (lines[1..] + [""]);
        lines + [""];
      }
    }
  }

  // ------------------------------------------------------------ by index

  predicate At(s: string, word: string, i: nat) {
    i + |word| <= |s| && s[i..i + |word|] == word
  }

  /** The word occurs somewhere. */
  ghost predicate Occurs(s: string, word: string) {
    exists i: nat :: At(s, word, i)
  }

  lemma AtTail(s: string, word: string, i: nat)
    requires s != ""
    ensures At(s[1..], word, i) <==> At(s, word, i + 1)
  {
    if i + 1 + |word| <= |s| {
      assert s[1..][i..i + |word|] == s[i + 1..i + 1 + |word|];
    }
  }

  lemma {:induction false} ContainsIs(s: string, word: string)
    ensures Contains(s, word) <==> Occurs(s, word)
    decreases |s|
  {
    if |word| <= |s| && s[..|word|] == word {
      assert s[0..0 + |word|] == s[..|word|];
      assert At(s, word, 0);
    } else if s != "" {
      ContainsIs(s[1..], word);
      if Occurs(s[1..], word) {
        var i: nat :| At(s[1..], word, i);
        AtTail(s, word, i);
      }
      if Occurs(s, word) {
        var i: nat :| At(s, word, i);
        assert i > 0 by { assert s[0..|word|] == s[..|word|]; }
        AtTail(s, word, i - 1);
      }
    }
  }

  predicate InNumber(c: char) {
    c in "0123456789."
  }

  /** The first number on a line: from its first digit, as far as digits and dots go. */
  predicate IsNumberAt(line: string, i: nat, j: nat) {
    && i < j <= |line| && line[i] in "0123456789"
    && (forall k :: 0 <= k < i ==> line[k] !in "0123456789")
    && (forall k :: i <= k < j ==> InNumber(line[k]))
    && (j < |line| ==> !InNumber(line[j]))
  }

  lemma DigitIs(c: char)
    ensures Digit(c) <==> c in "0123456789"
    ensures InNumber(c) <==> Digit(c) || c == '.'
  {
  }

  lemma {:induction false} FromDigitIs(line: string, i: nat)
    requires i <= |line| && (forall k :: 0 <= k < i ==> !Digit(line[k])) && (i < |line| ==> Digit(line[i]))
    ensures FromDigit(line) == line[i..]
  {
    if i > 0 {
      FromDigitIs(line[1..], i - 1);
      assert line[1..][i - 1..] == line[i..];
    } else {
      assert line[0..] == line;
    }
  }

  lemma {:induction false} TokenIs(s: string, n: nat)
    requires n <= |s| && (forall k :: 0 <= k < n ==> Digit(s[k]) || s[k] == '.')
    requires n < |s| ==> !Digit(s[n]) && s[n] != '.'
    ensures Token(s) == s[..n]
  {
    if n > 0 {
      TokenIs(s[1..], n - 1);
      assert s[..n] == [s[0]] + s[1..][..n - 1];
    }
  }

  /** The number read is the parse of exactly those characters. */
  lemma NumberAt(line: string, lib: Library, i: nat, j: nat)
    requires IsNumberAt(line, i, j)
    ensures FirstNumber(line, lib) == lib.parse(line[i..j])
  {
    forall k | 0 <= k < |line|
      ensures (Digit(line[k]) <==> line[k] in "0123456789") && (InNumber(line[k]) <==> Digit(line[k]) || line[k] == '.')
    {
      DigitIs(line[k]);
    }
    FromDigitIs(line, i);
    TokenIs(line[i..], j - i);
    assert line[i..][..j - i] == line[i..j];
  }

  /** A line with a digit has such a number, and no other line has one. */
  lemma FindNumber(line: string, k: nat) returns (i: nat, j: nat)
    requires k < |line| && line[k] in "0123456789"
    ensures IsNumberAt(line, i, j)
  {
    i := 0;
    while line[i] !in "0123456789"
      invariant i <= k && forall l :: 0 <= l < i ==> line[l] !in "0123456789"
      decreases k - i
    {
      i := i + 1;
    }
    j := i + 1;
    DigitIs(line[i]);
    while j < |line| && InNumber(line[j])
      invariant i < j <= |line| && forall l :: i <= l < j ==> InNumber(line[l])
      decreases |line| - j
    {
      j := j + 1;
    }
  }

  lemma NoNumber(line: string, lib: Library)
    requires forall k :: 0 <= k < |line| ==> line[k] !in "0123456789"
    ensures FirstNumber(line, lib) == None
  {
    forall k | 0 <= k < |line| ensures !Digit(line[k]) {
      DigitIs(line[k]);
    }
    FromDigitIs(line, |line|);
  }

  /** The line mentions the word, and this is its number. */
  ghost predicate Tells(line: string, word: string, lib: Library, v: real) {
    && Occurs(lib.lower(line), word)
    && exists i: nat, j: nat :: IsNumberAt(line, i, j) && lib.parse(line[i..j]) == Some(v)
  }

  lemma MentionedIs(line: string, word: string, lib: Library, v: real)
    ensures Tells(line, word, lib, v) <==> Mentioned(line, word, lib) == Some(v)
  {
    ContainsIs(lib.lower(line), word);
    if Tells(line, word, lib, v) {
      var i: nat, j: nat :| IsNumberAt(line, i, j) && lib.parse(line[i..j]) == Some(v);
      NumberAt(line, lib, i, j);
    }
    if Mentioned(line, word, lib) == Some(v) {
      if k :| 0 <= k < |line| && line[k] in "0123456789" {
        var i, j := FindNumber(line, k);
        NumberAt(line, lib, i, j);
      } else {
        NoNumber(line, lib);
      }
    }
  }


  /** Line k tells the word's value, and no line before it tells any. */
  ghost predicate FirstTold(lines: seq<string>, word: string, lib: Library, v: real, k: nat) {
    && k < |lines| && Tells(lines[k], word, lib, v)
    && forall l, u :: 0 <= l < k ==> !Tells(lines[l], word, lib, u)
  }

  ghost predicate Decides(lines: seq<string>, word: string, lib: Library, v: real) {
    exists k: nat :: FirstTold(lines, word, lib, v, k)
  }

  lemma {:induction false} FirstMentionIs(lines: seq<string>, word: string, lib: Library, v: real)
    ensures Decides(lines, word, lib, v) <==> FirstMention(lines, word, lib) == Some(v)
  {
    if lines != [] {
      var line, rest := lines[0], lines[1..];
      forall u ensures Tells(line, word, lib, u) <==> Mentioned(line, word, lib) == Some(u) {
        MentionedIs(line, word, lib, u);
      }
      if Mentioned(line, word, lib).Some? {
        assert Tells(line, word, lib, Mentioned(line, word, lib).value);
        DecidedAtOnce(lines, word, lib, v);
      } else {
        FirstMentionIs(rest, word, lib, v);
        DecidedLater(lines, word, lib, v);
      }
    }
  }

  lemma DecidedAtOnce(lines: seq<string>, word: string, lib: Library, v: real)
    requires lines != [] && exists u :: Tells(lines[0], word, lib, u)
    ensures Decides(lines, word, lib, v) <==> Tells(lines[0], word, lib, v)
  {
    if Tells(lines[0], word, lib, v) {
      assert FirstTold(lines, word, lib, v, 0);
    }
    if Decides(lines, word, lib, v) {
      var k: nat :| FirstTold(lines, word, lib, v, k);
    }
  }

  lemma DecidedLater(lines: seq<string>, word: string, lib: Library, v: real)
    requires lines != [] && forall u :: !Tells(lines[0], word, lib, u)
    ensures Decides(lines, word, lib, v) <==> Decides(lines[1..], word, lib, v)
  {
    var rest := lines[1..];
    if Decides(lines, word, lib, v) {
      var k: nat :| FirstTold(lines, word, lib, v, k);
      assert rest[k - 1] == lines[k];
      assert forall l :: 0 <= l < k - 1 ==> rest[l] == lines[l + 1];
      assert FirstTold(rest, word, lib, v, k - 1);
    }
    if Decides(rest, word, lib, v) {
      var k: nat :| FirstTold(rest, word, lib, v, k);
      assert lines[k + 1] == rest[k];
      assert forall l :: 0 < l <= k ==> lines[l] == rest[l - 1];
      assert FirstTold(lines, word, lib, v, k + 1);
    }
  }

  /** The value of the first line that mentions the word and has a number, or zero if
      no line does. */
  ghost predicate ValueOf(lines: seq<string>, word: string, lib: Library, v: real) {
    Decides(lines, word, lib, v) || (v == 0.0 && forall u :: !Decides(lines, word, lib, u))
  }

  /** What the statistics are: each value from its own word, and complete exactly when
      both words decide one. */
  ghost predicate Statistics(lines: seq<string>, lib: Library, r: Stats) {
    && ValueOf(lines, "session", lib, r.sessions)
    && ValueOf(lines, "byte", lib, r.bytes)
    && (r.ok <==> (exists v :: Decides(lines, "session", lib, v)) && (exists v :: Decides(lines, "byte", lib, v)))
  }

  lemma ParsedIs(lines: seq<string>, lib: Library)
    ensures Statistics(lines, lib, Parsed(lines, lib))
  {
    ValueIs(lines, "session", lib);
    ValueIs(lines, "byte", lib);
  }

  lemma ValueIs(lines: seq<string>, word: string, lib: Library)
    ensures var o := FirstMention(lines, word, lib);
            && ValueOf(lines, word, lib, OrZero(o))
            && (o.Some? <==> exists v :: Decides(lines, word, lib, v))
  {
    forall v ensures Decides(lines, word, lib, v) <==> FirstMention(lines, word, lib) == Some(v) {
      FirstMentionIs(lines, word, lib, v);
    }
  }
}
