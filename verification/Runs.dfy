/** Runs of volume operations: what every run keeps. */
module VolumeRuns {
  import opened BlockMaps
  import opened Ranges
  import opened Bitmaps
  import opened Summaries
  import opened FreeExtentCaches
  import opened BitmapViews
  import opened Searches
  import opened Accounts
  import opened VolumeSteps
  import opened Volumes
  import opened FreeScans

  /** An operation of a caller. Reservations are named by their place in the list; a place
      past the end is a reservation that is gone. */
  datatype Op =
    | Alloc(req: Request, rover: nat, loaned: nat, backing: Backing, answers: seq<nat>)
    | Use(at: nat, req: Request, rover: nat, loaned: nat, backing: Backing, answers: seq<nat>)
    | CommitOp(at: nat, req: Request)
    | DropTentative(at: nat)
    | DropLocked(at: nat)
    | Dealloc(start: nat, count: nat)
    | Written(extents: seq<Extent>)
    | Scan(ioWords: nat)
  {
    predicate Ok(limit: nat) {
      match this
      case Alloc(req, _, _, _, answers) => req.Ok() && forall i :: 0 <= i < |answers| ==> answers[i] <= limit
      case Use(_, req, _, _, _, answers) =>
        req.Ok() && !req.kind.Tentative? && forall i :: 0 <= i < |answers| ==> answers[i] <= limit
      case Scan(n) => n > 0 && n % 2 == 0
      case _ => true
    }

    /** A tentative request made when so little is free that tentative ranges are ignored. */
    predicate Cancels(free: int, locked: int, tentative: int) {
      && Alloc? && req.kind.Tentative?
      && (req.ignoreTentative || FreeForUse(free, locked, loaned, backing) < tentative + req.min)
    }
  }

  /** What an operation did to the bitmap. */
  datatype Event = Nothing | Grant(start: nat, count: nat) | Freed(start: nat, count: nat)

  /** The bitmap after an event. */
  function Apply(u: seq<bool>, e: Event): (r: seq<bool>)
    ensures |r| == |u|
  {
    match e
    case Nothing => u
    case Grant(s, n) => if s + n <= |u| then SetRange(u, s, n) else u
    case Freed(s, n) => if s + n <= |u| then ClearRange(u, s, n) else u
  }

  /** Only clear blocks are granted and only set blocks are freed. */
  ghost predicate Allowed(u: seq<bool>, e: Event) {
    match e
    case Nothing => true
    case Grant(s, n) => s + n <= |u| && AllClear(u, s, s + n)
    case Freed(s, n) => s + n <= |u| && AllSet(u, s, s + n)
  }

  function Replay(u: seq<bool>, log: seq<Event>): (r: seq<bool>)
    ensures |r| == |u|
  { if log == [] then u else Apply(Replay(u, log[..|log| - 1]), log[|log| - 1]) }

  /** A history in which no block is granted while it is in use, nor freed while it is free. */
  ghost predicate Legal(u: seq<bool>, log: seq<Event>) {
    forall i :: 0 <= i < |log| ==> Allowed(Replay(u, log[..i]), log[i])
  }

  lemma LegalMore(u: seq<bool>, log: seq<Event>, e: Event)
    requires Legal(u, log) && Allowed(Replay(u, log), e)
    ensures Legal(u, log + [e]) && Replay(u, log + [e]) == Apply(Replay(u, log), e)
  {
    hide Allowed, Replay, Apply;
    var more := log + [e];
    assert more[..|log|] == log;
    forall i | 0 <= i < |more| ensures Allowed(Replay(u, more[..i]), more[i]) {
      if i < |log| { assert more[..i] == log[..i]; }
    }
    ReplayLast(u, log, e);
  }

  lemma ReplayLast(u: seq<bool>, log: seq<Event>, e: Event)
    ensures Replay(u, log + [e]) == Apply(Replay(u, log), e)
  {
    hide Apply;
    assert (log + [e])[..|log|] == log;
  }

  /** In a legal history a block granted earlier and not freed since is not granted again. */
  lemma {:induction false} NotGrantedTwice(u: seq<bool>, log: seq<Event>, i: nat, j: nat, b: nat)
    requires Legal(u, log) && i < j < |log| && Grants(log[i], b) && Grants(log[j], b)
    ensures exists m :: i < m < j && Frees(log[m], b)
  {
    var m := i + 1;
    hide Replay, Legal;
    StepKeeps(u, log, i, b);
    while m < j
      invariant i < m <= j && b < |u| && Replay(u, log[..m])[b]
      invariant forall q :: i < q < m ==> !Frees(log[q], b)
    {
      if Frees(log[m], b) { return; }
      StepKeeps(u, log, m, b);
      m := m + 1;
    }
    LegalAt(u, log, j);
    assert false;
  }

  predicate Grants(e: Event, b: nat) { e.Grant? && e.start <= b < e.start + e.count }

  predicate Frees(e: Event, b: nat) { e.Freed? && e.start <= b < e.start + e.count }

  lemma LegalAt(u: seq<bool>, log: seq<Event>, i: nat)
    requires Legal(u, log) && i < |log|
    ensures Allowed(Replay(u, log[..i]), log[i])
  {
    hide Replay, Allowed;
  }

  lemma StepKeeps(u: seq<bool>, log: seq<Event>, i: nat, b: nat)
    requires Legal(u, log) && i < |log|
    requires Grants(log[i], b) || (b < |u| && Replay(u, log[..i])[b] && !Frees(log[i], b))
    ensures b < |u| && Replay(u, log[..i+1])[b]
  {
    hide Replay, Legal, Apply, Allowed, Grants, Frees;
    LegalAt(u, log, i);
    assert log[..i+1] == log[..i] + [log[i]];
    ReplayLast(u, log[..i], log[i]);
    ApplyKeeps(Replay(u, log[..i]), log[i], b);
  }

  lemma ApplyKeeps(u: seq<bool>, e: Event, b: nat)
    requires Allowed(u, e) && (Grants(e, b) || (b < |u| && u[b] && !Frees(e, b)))
    ensures b < |u| && Apply(u, e)[b]
  {
    hide SetRange, ClearRange;
    match e
    case Nothing =>
    case Grant(s, n) => SetRangeAt(u, s, n);
    case Freed(s, n) => ClearRangeAt(u, s, n);
  }

  /** Whether every block of the extents is awaiting a trim. */
  predicate Pending(extents: seq<Extent>, trim: set<nat>) {
    forall i :: 0 <= i < |extents| ==> forall b: nat :: extents[i].start <= b < extents[i].End() ==> b in trim
  }

  lemma PendingCovers(extents: seq<Extent>, trim: set<nat>)
    requires Pending(extents, trim)
    ensures forall b: nat :: Covers(extents, b) ==> b in trim
  {
  }

  /** Whether a deallocation meets a clear block, but not in the first word of its range. */
  ghost predicate LeavesBehind(u: seq<bool>, total: nat, op: Op) {
    && op.Dealloc? && op.start + op.count <= total <= |u|
    && !AllSet(u, op.start, op.start + op.count)
    && AllSet(u, op.start, op.start + FirstPart(op.start, op.count))
  }

  /** Whether a request, granted as `took` says, cancelled its own tentative range and left the
      summary wrong. */
  ghost predicate Spoils(z: Sizes, k: Books, op: Op, took: SearchResult)
    requires z.w > 0
  {
    took.Fit? && op.Cancels(k.free, k.lockedBlocks, k.tentativeBlocks) && !CancelSafe(z, k, took.start, took.count)
  }

  /** Carry out one operation. `ok` is false when a deallocation met unallocated blocks, `took`
      is what an allocation was granted, and `lost` counts the blocks that became clear without
      being counted. */
  method Step(v: Volume, op: Op) returns (ok: bool, took: SearchResult, lost: nat, e: Event)
    requires v.Valid() && Apportioned(v.Z(), v.K()) && Counted(v.Z(), v.K()) && op.Ok(v.allocLimit)
    modifies v, v.bm.words, v.st.bytes, v.cache`cnt, v.cache.ext
    ensures v.Valid() && Apportioned(v.Z(), v.K())
    ensures lost == 0 <==> Counted(v.Z(), v.K())
    ensures lost > 0 <==> LeavesBehind(old(v.bm.Bits()), v.totalBlocks, op)
    ensures ClearIn(v.bm.Bits(), 0, v.totalBlocks) == v.freeBlocks + lost
    ensures old(Sound(v.Z(), v.K())) ==> (Sound(v.Z(), v.K()) <==> !Spoils(v.Z(), old(v.K()), op, took))
    ensures op.Scan? && v.hasSummary ==> Sound(v.Z(), v.K())
    ensures !ok <==> op.Dealloc? && op.count > 0 &&
                     !(op.start + op.count <= v.totalBlocks && AllSet(old(v.bm.Bits()), op.start, op.start + op.count))
    ensures Allowed(old(v.bm.Bits()), e) && v.bm.Bits() == Apply(old(v.bm.Bits()), e)
    ensures !ok ==> e == Nothing || (e.Freed? && e.start == op.start && 0 < e.count == lost < op.count)
  {
    hide WellFormed, Covers, FullOf, BitsOf, Apportioned, Counted, Sound, Held, View, ClearIn, Allowed, Apply, LeavesBehind,
         CancelSafe, AllSet;
    ok, took, lost, e := true, DiskFull, 0, Nothing;
    NothingAllowed(v.bm.Bits());
    NotBehind(v.bm.Bits(), v.totalBlocks, op);
    match op {
      case Alloc(req, rover, loaned, backing, answers) => took, e := StepAlloc(v, op);
      case Use(at, req, rover, loaned, backing, answers) => e := StepUse(v, op);
      case CommitOp(at, req) => if at < |v.locked| { e := StepCommit(v, at, req); }
      case DropTentative(at) => if at < |v.tentative| { v.FreeTentative(at); }
      case DropLocked(at) => if at < |v.locked| { v.FreeLocked(at); }
      case Dealloc(s, n) => ok, lost, e := StepDealloc(v, op);
      case Written(extents) => StepWritten(v, extents);
      case Scan(n) => if v.hasSummary { var _ := ScanVolume(v, n); }
    }
    if lost == 0 { CountedFree(v.Z(), v.K()); }
  }

  lemma NothingAllowed(u: seq<bool>)
    ensures Allowed(u, Nothing) && Apply(u, Nothing) == u
  {
  }

  lemma NotBehind(u: seq<bool>, total: nat, op: Op)
    ensures LeavesBehind(u, total, op) ==> op.Dealloc?
  {
  }

  method StepAlloc(v: Volume, op: Op) returns (took: SearchResult, e: Event)
    requires v.Valid() && Apportioned(v.Z(), v.K()) && Counted(v.Z(), v.K()) && op.Alloc? && op.Ok(v.allocLimit)
    modifies v, v.bm.words, v.st.bytes, v.cache`cnt, v.cache.ext
    ensures v.Valid() && Apportioned(v.Z(), v.K()) && Counted(v.Z(), v.K())
    ensures old(Sound(v.Z(), v.K())) ==> (Sound(v.Z(), v.K()) <==> !Spoils(v.Z(), old(v.K()), op, took))
    ensures Allowed(old(v.bm.Bits()), e) && v.bm.Bits() == Apply(old(v.bm.Bits()), e)
  {
    hide WellFormed, Covers, FullOf, BitsOf, Apportioned, Counted, Sound, SetRange, Seen, Plain, Exhausted, Held, View,
         CancelSafe, Stolen;
    e := Nothing;
    took := v.Allocate(op.req, op.rover, op.loaned, op.backing, op.answers);
    if took.Fit? && op.req.kind.Permanent? { e := Grant(took.start, took.count); }
  }

  method StepUse(v: Volume, op: Op) returns (e: Event)
    requires v.Valid() && Apportioned(v.Z(), v.K()) && Counted(v.Z(), v.K()) && op.Use? && op.Ok(v.allocLimit)
    modifies v, v.bm.words, v.st.bytes, v.cache`cnt, v.cache.ext
    ensures v.Valid() && Apportioned(v.Z(), v.K()) && Counted(v.Z(), v.K())
    ensures old(Sound(v.Z(), v.K())) ==> Sound(v.Z(), v.K())
    ensures Allowed(old(v.bm.Bits()), e) && v.bm.Bits() == Apply(old(v.bm.Bits()), e)
  {
    hide WellFormed, Covers, FullOf, BitsOf, Apportioned, Counted, Sound, SetRange, Held, View, Shrunk;
    e := Nothing;
    var r, _ := v.AllocateTentative(op.at, op.req, op.rover, op.loaned, op.backing, op.answers);
    if r.Fit? && op.req.kind.Permanent? { e := Grant(r.start, r.count); }
  }

  method StepDealloc(v: Volume, op: Op) returns (ok: bool, lost: nat, e: Event)
    requires v.Valid() && Apportioned(v.Z(), v.K()) && Counted(v.Z(), v.K()) && op.Dealloc?
    modifies v, v.bm.words, v.st.bytes, v.cache`cnt, v.cache.ext
    ensures v.Valid() && Apportioned(v.Z(), v.K())
    ensures lost == 0 <==> Counted(v.Z(), v.K())
    ensures lost > 0 <==> LeavesBehind(old(v.bm.Bits()), v.totalBlocks, op)
    ensures ClearIn(v.bm.Bits(), 0, v.totalBlocks) == v.freeBlocks + lost
    ensures old(Sound(v.Z(), v.K())) ==> Sound(v.Z(), v.K())
    ensures ok <==> op.count == 0 ||
                    (op.start + op.count <= v.totalBlocks && AllSet(old(v.bm.Bits()), op.start, op.start + op.count))
    ensures Allowed(old(v.bm.Bits()), e) && v.bm.Bits() == Apply(old(v.bm.Bits()), e)
    ensures !ok ==> e == Nothing || (e.Freed? && e.start == op.start && 0 < e.count == lost < op.count)
  {
    hide WellFormed, Covers, FullOf, BitsOf, Apportioned, Counted, Sound, ClearRange, Held, View, ClearIn, StopsAt,
         FirstPart;
    e := Nothing;
    var cleared;
    ok, cleared := v.Deallocate(op.start, op.count);
    lost := if ok then 0 else cleared;
    if cleared > 0 { e := Freed(op.start, cleared); }
  }

  method StepWritten(v: Volume, extents: seq<Extent>)
    requires v.Valid() && Apportioned(v.Z(), v.K()) && Counted(v.Z(), v.K())
    modifies v, v.bm.words, v.st.bytes, v.cache`cnt, v.cache.ext
    ensures v.Valid() && Apportioned(v.Z(), v.K()) && Counted(v.Z(), v.K())
    ensures old(Sound(v.Z(), v.K())) ==> Sound(v.Z(), v.K())
    ensures v.bm.Bits() == old(v.bm.Bits())
  {
    hide WellFormed, Covers, FullOf, BitsOf, Apportioned, Counted, Sound, Held, View;
    if Pending(extents, v.trim) {
      PendingCovers(extents, v.trim);
      var _ := v.TrimCallback(extents);
    }
  }

  lemma CountedFree(z: Sizes, k: Books)
    requires Counted(z, k)
    ensures ClearIn(k.used, 0, z.total) == k.free
  {
  }

  /** hfs_find_free_extents on a volume: the report counts exactly the blocks that are neither
      allocated nor reserved, and the summary is sound afterwards, even if it was not. */
  method ScanVolume(v: Volume, ioWords: nat) returns (runs: seq<Extent>)
    requires v.Valid() && Apportioned(v.Z(), v.K()) && Counted(v.Z(), v.K()) && v.hasSummary
    requires ioWords > 0 && ioWords % 2 == 0
    modifies v.st.bytes
    ensures v.Valid() && Apportioned(v.Z(), v.K()) && Counted(v.Z(), v.K()) && Sound(v.Z(), v.K())
    ensures v.K() == old(v.K()).(full := v.K().full)
    ensures RunsBelow(Plain(v.K(), false), v.totalBlocks, v.totalBlocks, runs)
    ensures TotalCount(runs) == v.freeBlocks - v.tentativeBlocks - v.lockedBlocks
  {
    hide WellFormed, Covers, FullOf, BitsOf, Held, View, ClearIn, RunsBelow, Summarized, TotalCount, ListOk, TotalLen;
    ghost var z, k := v.Z(), v.K();
    EvenWords(v.bm);
    ListIsOk(z, k);
    ProperLists(k, z.limit);
    var scan := new BitmapScan(v.bm, v.st, v.tentative, v.locked, v.totalBlocks, ioWords);
    runs := scan.FindFreeExtents();
    ghost var k' := v.K();
    assert k' == k.(full := k'.full);
    CountersMatchView(z, k, false);
    ScannedSound(z, k');
  }

  lemma EvenWords(bm: Bitmap)
    requires bm.Valid() && bm.wordsPerChunk % 2 == 0
    ensures bm.words.Length % 2 == 0
  {
    var q, w := bm.words.Length / bm.wordsPerChunk, bm.wordsPerChunk;
    assert bm.words.Length == w * q;
    EvenProduct(w / 2, q);
    assert w * q == 2 * (w / 2 * q);
  }

  lemma EvenProduct(h: nat, q: nat)
    ensures (2 * h) * q == 2 * (h * q)
  {
  }

  lemma ProperLists(k: Books, limit: nat)
    requires ListOk(k.tentative, limit) && ListOk(k.locked, limit)
    ensures Proper(k.tentative) && Proper(k.locked)
  {
  }

  /** A summary rebuilt from the whole view is sound. */
  lemma ScannedSound(z: Sizes, k: Books)
    requires z.w > 0 && 0 < z.total <= |k.used|
    requires Summarized(View(k.used, k.tentative + k.locked), k.full, z.total, z.w)
    ensures Sound(z, k)
  {
    hide ChunkIndex, Held;
    var v := View(k.used, k.tentative + k.locked);
    forall b: nat | b < z.total && InFull(k.full, b, z.w) ensures !FreeAt(k, b) {
      ChunkIndexMonotone(b, z.total - 1, z.w);
      assert NoClear(v, ChunkIndex(b, z.w), z.total, z.w);
      assert v[b];
      HeldConcat(k.tentative, k.locked, b);
    }
  }

  method StepCommit(v: Volume, at: nat, req: Request) returns (e: Event)
    requires v.Valid() && Apportioned(v.Z(), v.K()) && Counted(v.Z(), v.K()) && at < |v.locked|
    modifies v, v.bm.words, v.st.bytes, v.cache`cnt, v.cache.ext
    ensures v.Valid() && Apportioned(v.Z(), v.K()) && Counted(v.Z(), v.K())
    ensures old(Sound(v.Z(), v.K())) ==> Sound(v.Z(), v.K())
    ensures Allowed(old(v.bm.Bits()), e) && v.bm.Bits() == Apply(old(v.bm.Bits()), e)
  {
    hide WellFormed, Covers, FullOf, BitsOf, Apportioned, Counted, Sound, SetRange, Aligned;
    LockedFacts(v.Z(), v.K(), at);
    var s, n := v.CommitLocked(at, req);
    e := Grant(s, n);
  }

  /** The blocks of a locked reservation are clear. */
  lemma LockedFacts(z: Sizes, k: Books, i: nat)
    requires Apportioned(z, k) && i < |k.locked|
    ensures var r := k.locked[i]; 0 <= r.start <= r.last < |k.used| && AllClear(k.used, r.start, r.last + 1)
  {
    hide Covers;
    var r := k.locked[i];
    forall b: nat | r.start <= b < r.last + 1 ensures Held(k.locked, b) { assert k.locked[i].Holds(b); }
  }

  /** Whether an operation rebuilds the summary. */
  predicate Rebuilds(op: Op, hasSummary: bool) { op.Scan? && hasSummary }

  /** Before state `i` of a run a request spoiled the summary, and no scan has rebuilt it since. */
  ghost predicate SpoiledBefore(z: Sizes, books: seq<Books>, ops: seq<Op>, took: seq<SearchResult>, hasSummary: bool,
                                i: nat)
    requires z.w > 0 && i <= |ops| && i <= |took| && i <= |books|
  {
    exists j :: 0 <= j < i && Spoils(z, books[j], ops[j], took[j]) && forall q :: j < q < i ==> !Rebuilds(ops[q], hasSummary)
  }

  /** Any sequence of operations, stopped by the first deallocation that leaves the free
      count behind the bitmap. Conservation, agreement of all views of free space and a legal
      history of the bitmap hold throughout; the summary is wrong only between a request that
      spoils it and the next scan. */
  method Run(v: Volume, ops: seq<Op>)
    returns (done: nat, lost: nat, took: seq<SearchResult>, log: seq<Event>, ghost books: seq<Books>)
    requires v.Valid() && Apportioned(v.Z(), v.K()) && Counted(v.Z(), v.K()) && Sound(v.Z(), v.K())
    requires forall i :: 0 <= i < |ops| ==> ops[i].Ok(v.allocLimit)
    modifies v, v.bm.words, v.st.bytes, v.cache`cnt, v.cache.ext
    ensures done <= |ops| && |log| == |took| == done && |books| == done + 1 && (lost == 0 ==> done == |ops|)
    ensures v.Valid() && books[0] == old(v.K()) && books[done] == v.K()
    ensures forall i :: 0 <= i <= done ==> Apportioned(v.Z(), books[i])
    ensures lost == 0 <==> Counted(v.Z(), v.K())
    ensures ClearIn(v.bm.Bits(), 0, v.totalBlocks) == v.freeBlocks + lost
    ensures lost == 0 ==> v.tentativeBlocks + v.lockedBlocks <= v.freeBlocks
    ensures forall i :: 0 <= i <= done ==>
              Sound(v.Z(), books[i]) || SpoiledBefore(v.Z(), books, ops, took, v.hasSummary, i)
    ensures forall i :: 0 <= i < done && Sound(v.Z(), books[i]) ==>
              (Sound(v.Z(), books[i + 1]) <==> !Spoils(v.Z(), books[i], ops[i], took[i]))
    ensures Legal(old(v.bm.Bits()), log) && v.bm.Bits() == Replay(old(v.bm.Bits()), log)
    ensures forall i :: 0 <= i < done ==>
              (LeavesBehind(Replay(old(v.bm.Bits()), log[..i]), v.totalBlocks, ops[i]) <==> lost > 0 && i == done - 1)
  {
    hide WellFormed, Covers, FullOf, BitsOf, Apportioned, Counted, Sound, Replay, Apply, Allowed, Legal, Held, AllSet, View,
         ClearIn, LeavesBehind, SpoiledBefore, Spoils;
    ghost var u := v.bm.Bits();
    done, lost, took, log, books := 0, 0, [], [], [v.K()];
    LegalNone(u);
    CountedFree(v.Z(), v.K());
    while done < |ops| && lost == 0
      invariant done <= |ops| && |log| == |took| == done && |books| == done + 1 && v.Valid()
      invariant books[0] == old(v.K()) && books[done] == v.K()
      invariant forall i :: 0 <= i <= done ==> Apportioned(v.Z(), books[i])
      invariant lost == 0 <==> Counted(v.Z(), v.K())
      invariant ClearIn(v.bm.Bits(), 0, v.totalBlocks) == v.freeBlocks + lost
      invariant forall i :: 0 <= i <= done ==>
                  Sound(v.Z(), books[i]) || SpoiledBefore(v.Z(), books, ops, took, v.hasSummary, i)
      invariant forall i :: 0 <= i < done && Sound(v.Z(), books[i]) ==>
                  (Sound(v.Z(), books[i + 1]) <==> !Spoils(v.Z(), books[i], ops[i], took[i]))
      invariant Legal(u, log) && v.bm.Bits() == Replay(u, log)
      invariant forall i :: 0 <= i < done ==>
                  (LeavesBehind(Replay(u, log[..i]), v.totalBlocks, ops[i]) <==> lost > 0 && i == done - 1)
    {
      var _, r, l, e := Step(v, ops[done]);
      SpoiledStep(v.Z(), books, v.K(), ops, took, r, v.hasSummary);
      LegalMore(u, log, e);
      SamePrefixes(log, e);
      log, took, books, lost, done := log + [e], took + [r], books + [v.K()], l, done + 1;
    }
    if lost == 0 { CountersMatchView(v.Z(), v.K(), false); }
  }

  lemma SpoiledStep(z: Sizes, books: seq<Books>, k: Books, ops: seq<Op>, took: seq<SearchResult>, r: SearchResult,
                    hasSummary: bool)
    requires z.w > 0 && |took| < |ops| && |books| == |took| + 1
    requires forall i :: 0 <= i <= |took| ==> Sound(z, books[i]) || SpoiledBefore(z, books, ops, took, hasSummary, i)
    requires Sound(z, books[|took|]) ==> (Sound(z, k) <==> !Spoils(z, books[|took|], ops[|took|], r))
    requires Rebuilds(ops[|took|], hasSummary) ==> Sound(z, k)
    ensures var more, now := books + [k], took + [r];
            forall i :: 0 <= i <= |took| + 1 ==> Sound(z, more[i]) || SpoiledBefore(z, more, ops, now, hasSummary, i)
  {
    hide Sound, Spoils;
    var m := |took|;
    var more, now := books + [k], took + [r];
    forall i | 0 <= i <= m + 1 ensures Sound(z, more[i]) || SpoiledBefore(z, more, ops, now, hasSummary, i) {
      if i <= m {
        if SpoiledBefore(z, books, ops, took, hasSummary, i) { SpoiledStill(z, books, k, ops, took, r, hasSummary, i); }
      } else if !Sound(z, k) {
        if Sound(z, books[m]) {
          assert Spoils(z, more[m], ops[m], now[m]);
        } else {
          SpoiledStill(z, books, k, ops, took, r, hasSummary, m);
        }
      }
    }
  }

  lemma SpoiledStill(z: Sizes, books: seq<Books>, k: Books, ops: seq<Op>, took: seq<SearchResult>, r: SearchResult,
                     hasSummary: bool, i: nat)
    requires z.w > 0 && i <= |took| < |ops| && |books| == |took| + 1
    requires SpoiledBefore(z, books, ops, took, hasSummary, i)
    ensures SpoiledBefore(z, books + [k], ops, took + [r], hasSummary, i)
    ensures i == |took| && !Rebuilds(ops[i], hasSummary) ==>
              SpoiledBefore(z, books + [k], ops, took + [r], hasSummary, i + 1)
  {
    hide Spoils, Rebuilds;
    var j :| 0 <= j < i && Spoils(z, books[j], ops[j], took[j]) && forall q :: j < q < i ==> !Rebuilds(ops[q], hasSummary);
    assert (books + [k])[j] == books[j] && (took + [r])[j] == took[j];
  }

  lemma SamePrefixes(log: seq<Event>, e: Event)
    ensures forall i :: 0 <= i <= |log| ==> (log + [e])[..i] == log[..i]
    ensures log[..|log|] == log
  {
  }

  lemma LegalNone(u: seq<bool>)
    ensures Legal(u, []) && Replay(u, []) == u
  {
  }
}
