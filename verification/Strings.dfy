/** Splitting strings at a separator. */
module Strings {

  function IndexOf(s: string, sep: char): (n: nat)
    ensures n <= |s| && forall i :: 0 <= i < n ==> s[i] != sep
    ensures n < |s| ==> s[n] == sep
  {
    if s == [] || s[0] == sep then 0 else 1 + IndexOf(s[1..], sep)
  }

  /** The pieces between separators, empty ones included; at least one piece. */
  function Split(s: string, sep: char): seq<string> {
    var n := IndexOf(s, sep);
    if n == |s| then [s] else [s[..n]] + Split(s[n + 1..], sep)
  }

  lemma IndexIs(s: string, sep: char, n: nat)
    requires n <= |s| && (forall i :: 0 <= i < n ==> s[i] != sep) && (n < |s| ==> s[n] == sep)
    ensures IndexOf(s, sep) == n
  {
  }

  lemma SplitWhole(s: string, sep: char)
    requires sep !in s
    ensures Split(s, sep) == [s]
  {
  }

  lemma SplitFirst(head: string, sep: char, rest: string)
    requires sep !in head
    ensures Split(head + [sep] + rest, sep) == [head] + Split(rest, sep)
  {
    var s := head + [sep] + rest;
    IndexIs(s, sep, |head|);
    assert s[..|head|] == head && s[|head| + 1..] == rest;
  }

  /** The pieces with a separator between any two. */
  function Joined(parts: seq<string>, sep: char): string
    requires parts != []
  {
    if |parts| == 1 then parts[0] else parts[0] + [sep] + Joined(parts[1..], sep)
  }

  /** Splitting cuts at every separator and loses nothing else. */
  lemma {:induction false} SplitJoined(s: string, sep: char)
    ensures Split(s, sep) != [] && Joined(Split(s, sep), sep) == s
    ensures forall part :: part in Split(s, sep) ==> sep !in part
    decreases |s|
  {
    var n := IndexOf(s, sep);
    if n == |s| {
      SplitWhole(s, sep);
    } else {
      SplitJoined(s[n + 1..], sep);
      JoinedFirst(s[..n], sep, Split(s[n + 1..], sep));
      assert s == s[..n] + [sep] + s[n + 1..];
    }
  }

  lemma JoinedFirst(head: string, sep: char, rest: seq<string>)
    requires rest != []
    ensures Joined([head] + rest, sep) == head + [sep] + Joined(rest, sep)
  {
    assert ([head] + rest)[1..] == rest;
  }
}
