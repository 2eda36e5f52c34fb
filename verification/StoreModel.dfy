/** The buffer as a state machine: the memory queue, the bytes at the buffer
    path, and the logs the promises are stated in. One move is one buffer
    operation with its disk faults, or the death of the process. */
module StoreModel {
  import opened LineFile
  import opened Queue

  /** Faults of the temp-file rewrite. Every one leaves the buffer path alone. */
  datatype RewriteFault =
    | RewriteOk
    | TempOpenFails
    | TempWriteFails(at: nat, wrote: nat)  // the write of entry `at` stops after `wrote` bytes
    | TempCloseFails
    | RenameFails

  /** Faults of the append to the buffer file. */
  datatype AppendFault =
    | AppendOk
    | AppendOpenFails
    | AppendWriteFails(wrote: nat)         // a short write: at most `wrote` bytes reach the file
    | AppendCloseFails                     // the whole line is on disk, yet the call errors

  /** How the accepted payload with this index left the queue. */
  datatype Exit = Delivered(index: int) | Evicted(index: int)

  datatype Store = Store(
    max: int,                // cap in bytes
    up: bool,                // is a process running; if not, entries is what died with it
    entries: seq<Bytes>,     // memory, oldest first
    solid: seq<bool>,        // per entry: does it have a line of its own on disk
    file: Bytes,             // contents at the buffer path, empty when the file is missing
    accepted: seq<Bytes>,    // every payload that entered the queue
    exits: seq<Exit>         // every departure, in order
  )

  datatype Move =
    | Append(p: Bytes, append: AppendFault, trim: RewriteFault)
    | Deliver                                 // the server acknowledged the oldest entry; pop it
    | Persist(rewrite: RewriteFault)
    | Boot(opens: bool, trim: RewriteFault)   // a new process loads the file
    | Reconfigure(max: int)                   // the cap of the next process
    | Crash
    | CrashInAppend(p: Bytes, wrote: nat)     // dies with `wrote` bytes of the line on disk

  function Min(a: int, b: int): int {
    if a < b then a else b
  }

  function All(n: nat): (s: seq<bool>) {
    seq(n, _ => true)
  }

  predicate Completes(f: RewriteFault, count: nat) {
    f.RewriteOk? || (f.TempWriteFails? && f.at >= count)
  }

  predicate Oversized(s: Store, p: Bytes) {
    |p| + 1 > s.max
  }

  /** What a short write of the line leaves behind. */
  function Torn(p: Bytes, wrote: nat): Bytes {
    Line(p)[..Min(wrote, |p| + 1)]
  }

  function Head(s: Store): int {
    |s.accepted| - |s.entries|
  }

  function Evictions(first: int, n: nat): seq<Exit>
    decreases n
  {
    if n == 0 then [] else [Evicted(first)] + Evictions(first + 1, n - 1)
  }

  // ------------------------------------------------------------ operations

  function Rewrite(s: Store, f: RewriteFault): Store {
    if Completes(f, |s.entries|) then s.(file := Encode(s.entries), solid := All(|s.entries|)) else s
  }

  /** Evicts down to the cap in memory only. */
  function Shed(s: Store): Store {
    var kept := Trim(s.entries, s.max);
    var n := |s.entries| - |kept|;
    if n <= 0 then s
    else s.(entries := kept,
            solid := if n <= |s.solid| then s.solid[n..] else [],
            exits := s.exits + Evictions(Head(s), n))
  }

  /** Evicts down to the cap, and rewrites the file if anything was dropped. */
  function Fit(s: Store, f: RewriteFault): Store {
    if |Trim(s.entries, s.max)| == |s.entries| then s else Rewrite(Shed(s), f)
  }

  /** The payload is on disk as a full line and in memory. */
  function Enter(s: Store, p: Bytes): Store {
    s.(file := s.file + Line(p),
       entries := s.entries + [p],
       solid := s.solid + [Terminated(s.file)],
       accepted := s.accepted + [p])
  }

  function DoAppend(s: Store, p: Bytes, f: AppendFault, trim: RewriteFault): Store {
    if Oversized(s, p) then s
    else
      match f
      case AppendOpenFails => s
      case AppendWriteFails(wrote) => s.(file := s.file + Torn(p, wrote))
      case AppendCloseFails => s.(file := s.file + Line(p))
      case AppendOk => Fit(Enter(s, p), trim)
  }

  function DoDeliver(s: Store): Store {
    if s.entries == [] then s
    else s.(entries := s.entries[1..],
            solid := if s.solid == [] then [] else s.solid[1..],
            exits := s.exits + [Delivered(Head(s))])
  }

  /** What a new process holds in memory before it evicts anything. */
  function Loaded(s: Store): Store {
    var lines := Decode(s.file);
    s.(up := true,
       entries := lines,
       solid := seq(|lines|, i => i < |Decode(Complete(s.file))|))
  }

  function DoBoot(s: Store, opens: bool, trim: RewriteFault): Store {
    if s.up || !opens || !Readable(s.file) then s
    else
      var b := Loaded(s);
      var kept := Trim(b.entries, b.max);
      if |kept| == |b.entries| || Completes(trim, |kept|) then Fit(b, trim) else s
  }

  function Do(s: Store, m: Move): Store {
    match m
    case Append(p, f, trim) => if s.up then DoAppend(s, p, f, trim) else s
    case Deliver => if s.up then DoDeliver(s) else s
    case Persist(f) => if s.up then Rewrite(s, f) else s
    case Boot(opens, trim) => DoBoot(s, opens, trim)
    case Reconfigure(max) => if s.up then s else s.(max := max)
    case Crash => s.(up := false)
    case CrashInAppend(p, wrote) =>
      if !s.up || Oversized(s, p) then s.(up := false)
      else s.(up := false,
              file := s.file + Torn(p, wrote),
              accepted := s.accepted + if wrote > |p| then [p] else [])
  }

  function Run(s: Store, moves: seq<Move>): Store
    decreases |moves|
  {
    if moves == [] then s else Run(Do(s, moves[0]), moves[1..])
  }

  lemma {:induction false} RunConcat(s: Store, a: seq<Move>, b: seq<Move>)
    ensures Run(s, a + b) == Run(Run(s, a), b)
    decreases |a|
  {
    if a == [] {
      assert a + b == b;
    } else {
      assert (a + b)[1..] == a[1..] + b;
      RunConcat(Do(s, a[0]), a[1..], b);
    }
  }
}
