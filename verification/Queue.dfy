/** The capped queue on values: running size, eviction of the oldest entries,
    and the suffix and subsequence relations the durability proofs speak in. */
module Queue {
  import opened LineFile

  /** Bytes the entries take on disk, one newline each. */
  function Size(entries: seq<Bytes>): nat {
    if entries == [] then 0 else |entries[0]| + 1 + Size(entries[1..])
  }

  /** What is left after evicting oldest entries until the cap is met. */
  function Trim(entries: seq<Bytes>, max: int): seq<Bytes> {
    if Size(entries) > max && entries != [] then Trim(entries[1..], max) else entries
  }

  predicate IsSuffix<T(==)>(a: seq<T>, b: seq<T>) {
    |a| <= |b| && b[|b| - |a|..] == a
  }

  predicate IsSubseq<T(==)>(a: seq<T>, b: seq<T>) {
    || a == []
    || (b != [] && ((a[0] == b[0] && IsSubseq(a[1..], b[1..])) || IsSubseq(a, b[1..])))
  }

  // ------------------------------------------------------------ size and trim

  lemma {:induction false} SizeConcat(a: seq<Bytes>, b: seq<Bytes>)
    ensures Size(a + b) == Size(a) + Size(b)
  {
    if a == [] {
      assert a + b == b;
    } else {
      assert (a + b)[1..] == a[1..] + b;
      SizeConcat(a[1..], b);
    }
  }

  lemma SizeSnoc(entries: seq<Bytes>, p: Bytes)
    ensures Size(entries + [p]) == Size(entries) + |p| + 1
  {
    SizeConcat(entries, [p]);
    SizeOne(p);
  }

  lemma SizeOne(p: Bytes)
    ensures Size([p]) == |p| + 1
  {
  }

  /** The running size is the size of the file a rewrite would produce. */
  lemma {:induction false} SizeIsFileLength(entries: seq<Bytes>)
    ensures |Encode(entries)| == Size(entries)
  {
    if entries != [] {
      SizeIsFileLength(entries[1..]);
    }
  }

  lemma {:induction false} TrimFits(entries: seq<Bytes>, max: int)
    ensures IsSuffix(Trim(entries, max), entries)
    ensures Size(Trim(entries, max)) <= max || Trim(entries, max) == []
  {
    if Size(entries) > max && entries != [] {
      TrimFits(entries[1..], max);
    }
  }

  /** Eviction drops the fewest oldest entries that suffice. */
  lemma {:induction false} TrimIsLongestFit(entries: seq<Bytes>, max: int, k: nat)
    requires k < |entries| - |Trim(entries, max)|
    ensures Size(entries[k..]) > max
  {
    if k == 0 {
      assert entries[0..] == entries;
    } else {
      assert entries[1..][k - 1..] == entries[k..];
      TrimIsLongestFit(entries[1..], max, k - 1);
    }
  }

  /** Any suffix that fits survives eviction: stale entries in front of live
      ones never push a live one out, and the newest payload is never dropped. */
  lemma {:induction false} TrimKeepsFittingSuffix(live: seq<Bytes>, all: seq<Bytes>, max: int)
    requires IsSuffix(live, all) && (Size(live) <= max || live == [])
    ensures IsSuffix(live, Trim(all, max))
  {
    var kept := Trim(all, max);
    TrimFits(all, max);
    if |kept| < |live| {
      TrimIsLongestFit(all, max, |all| - |live|);
    }
    SuffixOfSuffix(live, kept, all);
  }

  /** One more entry makes eviction drop something exactly when it takes the queue
      over the cap. */
  lemma TrimGrown(entries: seq<Bytes>, p: Bytes, max: int)
    ensures var kept := Trim(entries + [p], max);
            && |kept| <= |entries| + 1
            && (|kept| == |entries| + 1 ==> kept == entries + [p])
            && (|kept| < |entries| + 1 <==> Size(entries) + |p| + 1 > max)
  {
    var all := entries + [p];
    SizeSnoc(entries, p);
    TrimFits(all, max);
    if Size(all) > max { TrimFits(all[1..], max); }
  }

  /** The newest entry survives exactly when it fits on its own; otherwise
      nothing does. */
  lemma TrimLast(older: seq<Bytes>, last: Bytes, max: int)
    ensures var kept := Trim(older + [last], max);
            if |last| + 1 <= max then kept != [] && kept[|kept| - 1] == last else kept == []
  {
    var all := older + [last];
    var kept := Trim(all, max);
    TrimFits(all, max);
    SizeOne(last);
    if |last| + 1 <= max {
      TrimKeepsFittingSuffix([last], all, max);
      assert kept[|kept| - 1..] == [last];
    } else if kept != [] {
      assert kept == kept[..|kept| - 1] + [last];
      SizeSnoc(kept[..|kept| - 1], last);
    }
  }

  lemma ConcatAssoc<T>(a: seq<T>, b: seq<T>, c: seq<T>)
    ensures (a + b) + c == a + (b + c)
  {
  }

  // ------------------------------------------------------------ suffixes

  lemma SuffixOfSuffix<T>(a: seq<T>, b: seq<T>, c: seq<T>)
    requires |a| <= |b| && IsSuffix(a, c) && IsSuffix(b, c)
    ensures IsSuffix(a, b)
  {
  }

  lemma SuffixTransitive<T>(a: seq<T>, b: seq<T>, c: seq<T>)
    requires IsSuffix(a, b) && IsSuffix(b, c)
    ensures IsSuffix(a, c)
  {
  }

  lemma SuffixSnoc<T>(a: seq<T>, b: seq<T>, x: T)
    requires IsSuffix(a, b)
    ensures IsSuffix(a + [x], b + [x])
  {
  }

  // ------------------------------------------------------------ subsequences

  lemma {:induction false} SubseqPadFront<T>(a: seq<T>, front: seq<T>, b: seq<T>)
    requires IsSubseq(a, b)
    ensures IsSubseq(a, front + b)
  {
    if front == [] {
      assert front + b == b;
    } else {
      SubseqPadFront(a, front[1..], b);
      assert (front + b)[1..] == front[1..] + b;
    }
  }

  lemma {:induction false} SubseqSelf<T>(a: seq<T>)
    ensures IsSubseq(a, a)
  {
    if a != [] {
      SubseqSelf(a[1..]);
    }
  }

  lemma {:induction false} SubseqDropFirst<T>(a: seq<T>, b: seq<T>)
    requires a != [] && IsSubseq(a, b)
    ensures IsSubseq(a[1..], b)
  {
    if !(a[0] == b[0] && IsSubseq(a[1..], b[1..])) {
      SubseqDropFirst(a, b[1..]);
    }
  }

  lemma {:induction false} SubseqAppendBoth<T>(a: seq<T>, b: seq<T>, c: seq<T>)
    requires IsSubseq(a, b)
    ensures IsSubseq(a + c, b + c)
  {
    if a == [] {
      assert a + c == c;
      SubseqSelf(c);
      SubseqPadFront(c, b, c);
    } else {
      assert (a + c)[1..] == a[1..] + c;
      assert (b + c)[1..] == b[1..] + c;
      if a[0] == b[0] && IsSubseq(a[1..], b[1..]) {
        SubseqAppendBoth(a[1..], b[1..], c);
      } else {
        SubseqAppendBoth(a, b[1..], c);
      }
    }
  }
}
