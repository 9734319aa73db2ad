/** The volume: allocation, reservation, stealing, commit and deallocation of blocks. */
module Volumes {
  import opened BlockMaps
  import opened Ranges
  import opened BitmapViews
  import opened Bitmaps
  import opened Summaries
  import opened FreeExtentCaches
  import opened Searches
  import opened Accounts
  import opened VolumeSteps

  lemma NothingStolenYet(was: seq<Range>, s: int, e: int)
    ensures Stolen(was[..0], s, e) == [] && Stolen(was[..0], s, e) + was[0..] == was
  {
  }

  lemma AllStolen(was: seq<Range>, m: nat, s: int, e: int)
    requires m <= |was| && |Stolen(was[..m], s, e) + was[m..]| <= |Stolen(was[..m], s, e)|
    ensures m == |was| && was[..m] == was && Stolen(was[..m], s, e) + was[m..] == Stolen(was, s, e)
  {
    hide Stolen;
  }

  lemma NoParts(was: seq<Range>, s: int, e: int)
    ensures StealParts(was[..0], s, e) == []
  {
  }

  lemma LimitStart(z: Sizes, rs: seq<Range>, full: seq<bool>)
    requires z.w > 0 && |rs| > 3
    ensures rs[..3] + rs[3..] == rs && Cleared(z, full, full, PartsOf(rs[3..3]))
  {
    assert PartsOf(rs[3..3]) == [];
  }

  lemma LimitStep(rs: seq<Range>, m: nat)
    requires 3 <= m < |rs|
    ensures var now := rs[..3] + rs[m..]; now[3] == rs[m] && Without(now, 3) == rs[..3] + rs[m + 1..]
  {
  }

  lemma TakingProper(z: Sizes, k: Books, s: int, e: int)
    requires Taking(z, k, s, e)
    ensures Proper(k.tentative)
  {
  }

  /** One step of the pass over a list. */
  lemma StolenStep(was: seq<Range>, m: nat, list: seq<Range>, now: seq<Range>, i: nat, s: int, e: int)
    requires m < |was| && list == Stolen(was[..m], s, e) + was[m..] && i == |Stolen(was[..m], s, e)|
    requires now == list[..i] + LeftOf(list[i], s, e) + list[i + 1..]
    ensures now == Stolen(was[..m + 1], s, e) + was[m + 1..]
    ensures i + |LeftOf(list[i], s, e)| == |Stolen(was[..m + 1], s, e)|
  {
    hide LeftOf, Stolen;
    StolenMore(was, m, s, e);
    assert list[..i] == Stolen(was[..m], s, e) && list[i] == was[m] && list[i + 1..] == was[m + 1..];
  }

  /** The largest block number. */
  const MAX_BLOCK: nat := 0xFFFF_FFFF

  class Volume {
    const bm: Bitmap
    const st: SummaryTable
    const cache: FreeExtentCache
    const totalBlocks: nat
    const allocLimit: nat
    const hasSummary: bool
    const hasJournal: bool

    var tentative: seq<Range>
    var locked: seq<Range>
    var freeBlocks: int
    var tentativeBlocks: int
    var lockedBlocks: int
    var trim: set<nat>

    ghost predicate Valid()
      reads this, bm, st, cache, cache.ext
    {
      && bm.Valid() && st.Valid() && cache.Valid()
      && bm.wordsPerChunk % 2 == 0 && st.wordsPerChunk == bm.wordsPerChunk
      && st.totalBlocks == totalBlocks && cache.allocLimit == allocLimit
      && 1 <= allocLimit <= totalBlocks <= 32 * bm.words.Length && totalBlocks <= MAX_BLOCK
      && cache.ext as object != bm.words && cache.ext as object != st.bytes && bm.words as object != st.bytes
    }

    ghost function Z(): Sizes { Sizes(allocLimit, totalBlocks, bm.wordsPerChunk) }

    ghost function K(): (k: Books)
      reads this, bm, bm.words, st, st.bytes, cache, cache.ext
      requires Valid()
      ensures |k.used| == 32 * bm.words.Length
    {
      Books(bm.Bits(), tentative, locked, cache.Contents(), trim, if hasSummary then st.Full() else [],
            freeBlocks, tentativeBlocks, lockedBlocks)
    }

    /** Mount: the bitmap and the free count come from the disk; nothing is cached, reserved
        or pending yet. */
    constructor (bm: Bitmap, totalBlocks: nat, allocLimit: nat, freeBlocks: nat, sparse: bool, hasSummary: bool,
                 hasJournal: bool)
      requires bm.Valid() && bm.wordsPerChunk % 2 == 0 && 1 <= allocLimit <= totalBlocks <= 32 * bm.words.Length
      requires totalBlocks <= MAX_BLOCK
      requires freeBlocks == ClearIn(bm.Bits(), 0, totalBlocks)
      ensures Valid() && this.bm == bm && this.totalBlocks == totalBlocks && this.allocLimit == allocLimit
      ensures fresh(cache) && fresh(cache.ext) && fresh(st) && fresh(st.bytes)
      ensures Apportioned(Z(), K()) && Counted(Z(), K()) && Sound(Z(), K())
    {
      this.bm := bm;
      this.totalBlocks, this.allocLimit, this.freeBlocks := totalBlocks, allocLimit, freeBlocks;
      this.hasSummary, this.hasJournal := hasSummary, hasJournal;
      st := new SummaryTable(bm.wordsPerChunk, totalBlocks);
      cache := new FreeExtentCache(sparse, allocLimit);
      tentative, locked, tentativeBlocks, lockedBlocks, trim := [], [], 0, 0, {};
    }

    /** hfs_release_summary. */
    method ReleaseSummary(start: nat, count: nat)
      requires Valid()
      modifies st.bytes
      ensures Valid()
      ensures Narrowed(Z(), old(K()).full, K().full, start, if start + count <= totalBlocks then start + count else start)
      ensures Cleared(Z(), old(K()).full, K().full, [Extent(start, count)])
    {
      hide WellFormed, FullOf, ChunkIndex, BitsOf, Cleared;
      ghost var was := K().full;
      if hasSummary {
        var w := bm.wordsPerChunk;
        var ok := st.Release(start, count);
        if ok {
          forall b: nat | start <= b < start + count ensures !InFull(st.Full(), b, w) {
            ChunkIndexMonotone(start, b, w);
            ChunkIndexMonotone(b, start + count - 1, w);
          }
        }
      }
      ClearedOne(Z(), was, K().full, Extent(start, count));
    }

    /** Blocks that are neither allocated nor reserved any more: clear the summary over
        them and offer them to the cache. */
    method FreePart(start: nat, count: nat)
      requires Valid() && start + count <= totalBlocks
      modifies st.bytes, cache`cnt, cache.ext
      ensures Valid()
      ensures Narrowed(Z(), old(K()).full, K().full, start, start + count)
      ensures Cleared(Z(), old(K()).full, K().full, [Extent(start, count)])
      ensures AddedTo(cache.sparse, allocLimit, old(cache.Contents()), cache.Contents(), start, count)
      ensures forall b: nat :: Covers(cache.Contents(), b) ==> Covers(old(cache.Contents()), b) || start <= b < start + count
    {
      hide WellFormed, AddedTo, Covers, FullOf, BitsOf, Narrowed, Cleared;
      ReleaseSummary(start, count);
      ghost var f, was := st.Full(), cache.Contents();
      var _ := cache.Add(start, count);
      assert st.Full() == f;
      forall b: nat | Covers(cache.Contents(), b) ensures Covers(was, b) || start <= b < start + count {
        AddCovers(cache.sparse, cache.allocLimit, was, cache.Contents(), start, count, b);
      }
    }

    /** hfs_release_reserved on a tentative reservation. */
    method ReleaseTentative(i: nat)
      requires Valid() && i < |tentative| && Apportioned(Z(), K())
      modifies this`tentative, this`tentativeBlocks, st.bytes, cache`cnt, cache.ext
      ensures Valid() && Apportioned(Z(), K())
      ensures old(Sound(Z(), K())) ==> Sound(Z(), K())
      ensures tentative == Without(old(tentative), i) && tentativeBlocks == old(tentativeBlocks - tentative[i].Len())
      ensures var r := old(tentative)[i];
              0 <= r.start <= r.last && AddedTo(cache.sparse, allocLimit, old(cache.Contents()), cache.Contents(), r.start, r.Len())
      ensures forall b: nat :: Covers(cache.Contents(), b) ==> Covers(old(cache.Contents()), b) || Held(old(tentative), b)
      ensures Cleared(Z(), old(K()).full, K().full, [PartOf(old(tentative)[i])])
    {
      hide WellFormed, ListOk, Covers, Held, FullOf, Narrowed, BitsOf, AddedTo, Cleared;
      ghost var z, k := Z(), K();
      var r := tentative[i];
      RangeFits(tentative, i, allocLimit);
      WithoutHeld(tentative, i, allocLimit);
      tentative := Without(tentative, i);
      tentativeBlocks := tentativeBlocks - r.Len();
      FreePart(r.start, r.Len());
      ghost var k' := K();
      assert k'.used == k.used;
      AfterGivingUp(z, k, k', r.start, r.start + r.Len());
    }

    /** The pass that takes the blocks [s, e] away from the tentative ranges. */
    method StealTentative(s: nat, e: nat)
      requires Valid() && s <= e && Taking(Z(), K(), s, e)
      modifies this`tentative, this`tentativeBlocks, st.bytes, cache`cnt, cache.ext
      ensures Valid() && Apportioned(Z(), K())
      ensures tentative == Stolen(old(tentative), s, e)
      ensures forall b: nat :: Held(tentative, b) ==> Held(old(tentative), b) && !(s <= b <= e)
      ensures tentativeBlocks - TotalLen(tentative) == old(tentativeBlocks - TotalLen(tentative))
      ensures old(SoundOutside(Z(), K(), s, e)) ==> SoundOutside(Z(), K(), s, e)
      ensures Cleared(Z(), old(K()).full, K().full, StealParts(old(tentative), s, e))
    {
      hide WellFormed, Covers, Held, FullOf, Narrowed, BitsOf, Taking, SoundOutside, TotalLen, LeftOf, Stolen, Cleared,
           StealParts, CutParts;
      ghost var was, m: nat, full := tentative, 0, K().full;
      ClearedNone(Z(), full);
      NoParts(was, s, e);
      NothingStolenYet(was, s, e);
      TakingProper(Z(), K(), s, e);
      var i: nat := 0;
      while i < |tentative|
        invariant i <= |tentative| && Valid() && Taking(Z(), K(), s, e)
        invariant m <= |was| && tentative == Stolen(was[..m], s, e) + was[m..] && i == |Stolen(was[..m], s, e)|
        invariant tentativeBlocks - TotalLen(tentative) == old(tentativeBlocks - TotalLen(tentative))
        invariant old(SoundOutside(Z(), K(), s, e)) ==> SoundOutside(Z(), K(), s, e)
        invariant Cleared(Z(), full, K().full, StealParts(was[..m], s, e))
        decreases |tentative| - i
      {
        ghost var list, at, now := tentative, i, K().full;
        i := StealAt(i, s, e);
        StolenStep(was, m, list, tentative, at, s, e);
        StealPartsMore(was, m, s, e);
        ClearedThen(Z(), full, now, K().full, StealParts(was[..m], s, e), CutParts(was[m], s, e));
        m := m + 1;
      }
      AllStolen(was, m, s, e);
      StolenMeans(was, s, e);
      TakenAll(Z(), K(), s, e);
    }

    /** One range of the pass; returns the index to go on with. */
    method StealAt(i: nat, s: nat, e: nat) returns (next: nat)
      requires Valid() && s <= e && i < |tentative| && Taking(Z(), K(), s, e)
      modifies this`tentative, this`tentativeBlocks, st.bytes, cache`cnt, cache.ext
      ensures Valid() && Taking(Z(), K(), s, e)
      ensures tentative == old(tentative)[..i] + LeftOf(old(tentative)[i], s, e) + old(tentative)[i + 1..]
      ensures next == i + |LeftOf(old(tentative)[i], s, e)| && i <= next <= i + 1
      ensures next <= |tentative| && tentative[..i] == old(tentative)[..i] && |tentative| - next < old(|tentative|) - i
      ensures tentativeBlocks - TotalLen(tentative) == old(tentativeBlocks - TotalLen(tentative))
      ensures old(SoundOutside(Z(), K(), s, e)) ==> SoundOutside(Z(), K(), s, e)
      ensures Cleared(Z(), old(K()).full, K().full, CutParts(old(tentative)[i], s, e))
    {
      hide WellFormed, Covers, Held, FullOf, BitsOf, StealFrom, Taking, SoundOutside, TotalLen, Cleared;
      ghost var k := K();
      ClearedNone(Z(), k.full);
      var r := tentative[i];
      TakingEntry(Z(), k, i, s, e);
      StealMeans(r, s, e);
      match StealFrom(r, s, e) {
        case Kept(q) =>
          ReplacedLen(tentative, i, q);
          tentativeBlocks := tentativeBlocks - (r.Len() - q.Len());
          tentative := tentative[i := q];
          AfterCut(Z(), k, K(), i, q, s, e, 0, 0);
          next := i + 1;
        case Cut(q, from, count) =>
          ReplacedLen(tentative, i, q);
          CutFits(r, q, s, e, from, count);
          tentativeBlocks := tentativeBlocks - (r.Len() - q.Len());
          tentative := tentative[i := q];
          FreePart(from, count);
          AfterCut(Z(), k, K(), i, q, s, e, from, count);
          next := i + 1;
        case Dropped =>
          WithoutLen(tentative, i);
          tentativeBlocks := tentativeBlocks - r.Len();
          tentative := Without(tentative, i);
          AfterDrop(Z(), k, K(), i, s, e);
          next := i;
      }
    }

    /** hfs_release_reserved on a locked reservation. */
    method ReleaseLocked(i: nat)
      requires Valid() && i < |locked| && Apportioned(Z(), K())
      modifies this`locked, this`lockedBlocks, st.bytes, cache`cnt, cache.ext
      ensures Valid() && Apportioned(Z(), K())
      ensures old(Sound(Z(), K())) ==> Sound(Z(), K())
      ensures locked == Without(old(locked), i) && lockedBlocks == old(lockedBlocks - locked[i].Len())
      ensures var r := old(locked)[i];
              0 <= r.start <= r.last && AddedTo(cache.sparse, allocLimit, old(cache.Contents()), cache.Contents(), r.start, r.Len())
    {
      hide WellFormed, ListOk, Covers, Held, FullOf, Narrowed, BitsOf, AddedTo;
      ghost var z, k := Z(), K();
      var r := locked[i];
      RangeFits(locked, i, allocLimit);
      WithoutHeld(locked, i, allocLimit);
      locked := Without(locked, i);
      lockedBlocks := lockedBlocks - r.Len();
      FreePart(r.start, r.Len());
      ghost var k' := K();
      assert k'.used == k.used;
      AfterGivingUp(z, k, k', r.start, r.start + r.Len());
    }

    /** Blocks [s, s + n) leave the pending trims and the cache. */
    method Claim(s: nat, n: nat)
      requires Valid() && n > 0
      modifies this`trim, cache`cnt, cache.ext
      ensures Valid() && Claimed(old(K()), K(), s, n)
      ensures trim == set b | b in old(trim) && !(s <= b < s + n)
    {
      hide WellFormed, BestOf, AllPieces, NoneMeets, Covers, FullOf, BitsOf;
      trim := set b | b in trim && !(s <= b < s + n);
      ghost var was := cache.Contents();
      CacheFacts(cache.sparse, cache.allocLimit, was);
      cache.Remove(s, n);
      forall b: nat | Covers(cache.Contents(), b) ensures Covers(was, b) && !(s <= b < s + n) {
        RemovalCoverage(cache.sparse, was, cache.Contents(), s, s + n, b);
      }
    }

    /** At most three tentative reservations survive a new one. */
    method LimitTentative()
      requires Valid() && Apportioned(Z(), K())
      modifies this`tentative, this`tentativeBlocks, st.bytes, cache`cnt, cache.ext
      ensures Valid() && Apportioned(Z(), K())
      ensures old(Sound(Z(), K())) ==> Sound(Z(), K())
      ensures tentative == FirstThree(old(tentative))
      ensures Cleared(Z(), old(K()).full, K().full, LimitParts(old(tentative)))
      ensures tentativeBlocks - TotalLen(tentative) == old(tentativeBlocks - TotalLen(tentative))
      ensures forall b: nat :: Covers(cache.Contents(), b) ==> Covers(old(cache.Contents()), b) || Held(old(tentative), b)
    {
      hide WellFormed, Covers, Held, FullOf, BitsOf, Apportioned, Sound, TotalLen, Cleared, PartsOf;
      ghost var was, full := tentative, K().full;
      if |tentative| <= 3 {
        ClearedNone(Z(), full);
        return;
      }
      ghost var m: nat := 3;
      LimitStart(Z(), was, full);
      while |tentative| > 3
        invariant Valid() && Apportioned(Z(), K())
        invariant old(Sound(Z(), K())) ==> Sound(Z(), K())
        invariant 3 <= m <= |was| && tentative == was[..3] + was[m..]
        invariant forall b: nat :: Held(tentative, b) ==> Held(was, b)
        invariant tentativeBlocks - TotalLen(tentative) == old(tentativeBlocks - TotalLen(tentative))
        invariant forall b: nat :: Covers(cache.Contents(), b) ==> Covers(old(cache.Contents()), b) || Held(was, b)
        invariant Cleared(Z(), full, K().full, PartsOf(was[3..m]))
        decreases |tentative|
      {
        ghost var now := K().full;
        ListIsOk(Z(), K());
        WithoutHeld(tentative, 3, allocLimit);
        WithoutLen(tentative, 3);
        LimitStep(was, m);
        ReleaseTentative(3);
        PartsMore(was, m);
        ClearedThen(Z(), full, now, K().full, PartsOf(was[3..m]), [PartOf(was[m])]);
        m := m + 1;
      }
      assert was[3..m] == was[3..];
    }

    method EnterTentative(s: nat, n: nat, ghost ignoreTentative: bool, ghost k: Books)
      requires Valid() && Apportioned(Z(), k) && Counted(Z(), k) && Available(Z(), k, ignoreTentative, s, n)
      requires Claimed(k, K(), s, n) && K() == k.(cached := K().cached, trim := K().trim)
      modifies this`tentativeBlocks, this`tentative, st.bytes, cache`cnt, cache.ext
      ensures Valid() && Taking(Z(), K(), s, s + n - 1) && Counted(Z(), K())
      ensures Sound(Z(), k) ==> SoundOutside(Z(), K(), s, s + n - 1)
      ensures !ignoreTentative ==> Apportioned(Z(), K()) && (Sound(Z(), k) ==> Sound(Z(), K()))
      ensures tentative == [Range(s, s + n - 1)] + FirstThree(old(tentative))
      ensures Cleared(Z(), k.full, K().full, LimitParts(k.tentative))
    {
      hide WellFormed, Covers, Held, FullOf, BitsOf, Apportioned, Taking, TotalLen, ClearIn, InFull, Cleared,
           LimitParts;
      tentativeBlocks := tentativeBlocks + n;
      ghost var k1 := K();
      AfterClaim(Z(), k, k1, s, n);
      LimitTentative();
      ghost var k2 := K();
      assert k2.used == k1.used && k2.trim == k1.trim;
      forall b: nat ensures Held(tentative, b) ==> Held(k1.tentative, b) {
        if |k1.tentative| > 3 { PrefixHeld(k1.tentative, 3, b); }
      }
      tentative := [Range(s, s + n - 1)] + tentative;
      TakeTentative(Z(), k2, K(), s, n, ignoreTentative);
    }

    /** Mark blocks allocated or reserve them, and move them out of the cache, the trims and
        the counters. Tentative ranges that overlap them are dealt with afterwards. */
    method Enter(s: nat, n: nat, kind: Kind, ghost ignoreTentative: bool)
      requires Valid() && Apportioned(Z(), K()) && Counted(Z(), K()) && Available(Z(), K(), ignoreTentative, s, n)
      modifies this`trim, this`freeBlocks, this`lockedBlocks, this`tentativeBlocks, this`tentative, this`locked
      modifies bm.words, st.bytes, cache`cnt, cache.ext
      ensures Valid() && Taking(Z(), K(), s, s + n - 1) && Counted(Z(), K())
      ensures kind.Tentative? || Taken(K(), s, n)
      ensures old(Sound(Z(), K())) ==> SoundOutside(Z(), K(), s, s + n - 1)
      ensures kind.Tentative? && !ignoreTentative ==>
                Apportioned(Z(), K()) && (old(Sound(Z(), K())) ==> Sound(Z(), K()))
      ensures trim == set b | b in old(trim) && !(s <= b < s + n)
      ensures bm.Bits() == if kind.Permanent? then SetRange(old(bm.Bits()), s, n) else old(bm.Bits())
      ensures locked == (if kind.Locked? then [Range(s, s + n - 1)] else []) + old(locked)
      ensures kind.Tentative? ==> tentative == [Range(s, s + n - 1)] + FirstThree(old(tentative))
      ensures kind.Tentative? ==> Cleared(Z(), old(K()).full, K().full, LimitParts(old(tentative)))
      ensures !kind.Tentative? ==> tentative == old(tentative)
    {
      hide WellFormed, Covers, Held, FullOf, BitsOf, Apportioned, Sound, SoundOutside, TotalLen, SetRange, Taking,
           Counted, Taken, Cleared, LimitParts;
      ghost var z, k := Z(), K();
      Claim(s, n);
      match kind {
        case Permanent =>
          bm.MarkAllocated(s, n);
          freeBlocks := freeBlocks - n;
          TakeForGood(z, k, K(), s, n, ignoreTentative);
        case Locked =>
          lockedBlocks := lockedBlocks + n;
          locked := [Range(s, s + n - 1)] + locked;
          TakeLocked(z, k, K(), s, n, ignoreTentative);
        case Tentative =>
          EnterTentative(s, n, ignoreTentative, k);
      }
    }

    /** Take blocks; when tentative ranges were ignored in finding them, shrink those that
        lose blocks. A tentative request that ignores tentative ranges loses its own range. */
    method Take(s: nat, n: nat, kind: Kind, ignoreTentative: bool)
      requires Valid() && Apportioned(Z(), K()) && Counted(Z(), K()) && Available(Z(), K(), ignoreTentative, s, n)
      modifies this`trim, this`freeBlocks, this`lockedBlocks, this`tentativeBlocks, this`tentative, this`locked
      modifies bm.words, st.bytes, cache`cnt, cache.ext
      ensures Valid() && Apportioned(Z(), K()) && Counted(Z(), K())
      ensures old(Sound(Z(), K())) && !(kind.Tentative? && ignoreTentative) ==> Sound(Z(), K())
      ensures Granted(old(K()), K(), kind, ignoreTentative, s, n)
      ensures old(Sound(Z(), K())) && kind.Tentative? && ignoreTentative ==>
                (Sound(Z(), K()) <==> CancelSafe(Z(), old(K()), s, n))
    {
      hide WellFormed, Covers, Held, FullOf, BitsOf, Apportioned, Sound, SoundOutside, TotalLen, SetRange, Taking,
           ClearIn, InFull, Cleared, LimitParts, StealParts, CancelSafe;
      ghost var z, k0 := Z(), K();
      Enter(s, n, kind, ignoreTentative);
      ghost var k := K();
      if ignoreTentative {
        StealTentative(s, s + n - 1);
        ghost var k' := K();
        assert k'.used == k.used && k'.locked == k.locked && k'.free == k.free && k'.trim == k.trim;
        if !kind.Tentative? {
          assert Taken(k', s, n);
          if Sound(z, k0) { Settled(z, k', s, n); }
        } else {
          LimitedHeld(k0.tentative, Range(s, s + n - 1));
          assert k'.locked == k0.locked && k'.used == k0.used;
          forall b: nat | s <= b < s + n ensures FreeAt(k', b) { }
          ClearedThen(z, k0.full, k.full, k'.full, LimitParts(k0.tentative), StealParts(k.tentative, s, s + n - 1));
          if Sound(z, k0) { SelfCancelSound(z, k0, k', s, n); }
        }
      } else if !kind.Tentative? {
        NothingStolen(z, k, s, n);
        if Sound(z, k0) { Settled(z, k, s, n); }
      }
    }

    /** Use the first `n` blocks of a tentative reservation, for good or as a locked one. */
    method UseTentative(i: nat, n: nat, lock: bool) returns (s: nat)
      requires Valid() && Apportioned(Z(), K()) && Counted(Z(), K())
      requires i < |tentative| && 0 < n <= tentative[i].Len()
      modifies this`trim, this`freeBlocks, this`lockedBlocks, this`tentativeBlocks, this`tentative, this`locked, bm.words
      ensures Valid() && Apportioned(Z(), K()) && Counted(Z(), K())
      ensures old(Sound(Z(), K())) ==> Sound(Z(), K())
      ensures s == old(tentative[i].start) && trim == old(trim)
      ensures tentative == Shrunk(old(tentative), i, n)
      ensures bm.Bits() == if lock then old(bm.Bits()) else SetRange(old(bm.Bits()), s, n)
      ensures locked == (if lock then [Range(s, s + n - 1)] else []) + old(locked)
    {
      hide WellFormed, Covers, Held, FullOf, BitsOf, Apportioned, Sound, TotalLen, SetRange, ClearIn, Shrunk;
      ghost var z, k := Z(), K();
      ListIsOk(z, k);
      RangeFits(tentative, i, allocLimit);
      ShrunkMeans(tentative, i, n, allocLimit);
      s := tentative[i].start;
      NotPending(z, k, s, n);
      trim := set b | b in trim && !(s <= b < s + n);
      if !lock { bm.MarkAllocated(s, n); }
      tentative := Shrunk(tentative, i, n);
      tentativeBlocks := tentativeBlocks - n;
      if lock {
        lockedBlocks := lockedBlocks + n;
        locked := [Range(s, s + n - 1)] + locked;
        UseLocked(z, k, K(), i, n);
      } else {
        freeBlocks := freeBlocks - n;
        UseForGood(z, k, K(), i, n);
      }
    }

    /** Commit the first `n` blocks of a locked reservation and release the rest of it. */
    method Commit(i: nat, n: nat) returns (s: nat)
      requires Valid() && Apportioned(Z(), K()) && Counted(Z(), K())
      requires i < |locked| && 0 < n <= locked[i].Len()
      modifies this`trim, this`freeBlocks, this`lockedBlocks, this`locked, bm.words, st.bytes, cache`cnt, cache.ext
      ensures Valid() && Apportioned(Z(), K()) && Counted(Z(), K())
      ensures old(Sound(Z(), K())) ==> Sound(Z(), K())
      ensures s == old(locked[i].start) && trim == old(trim)
      ensures locked == Without(old(locked), i)
      ensures bm.Bits() == SetRange(old(bm.Bits()), s, n)
    {
      hide WellFormed, Covers, Held, FullOf, BitsOf, Apportioned, Sound, TotalLen, SetRange, ClearIn;
      ghost var z, k := Z(), K();
      ListIsOk(z, k);
      RangeFits(locked, i, allocLimit);
      ShrunkMeans(locked, i, n, allocLimit);
      s := locked[i].start;
      NotPending(z, k, s, n);
      trim := set b | b in trim && !(s <= b < s + n);
      bm.MarkAllocated(s, n);
      var whole := n == locked[i].Len();
      locked := Shrunk(locked, i, n);
      lockedBlocks := lockedBlocks - n;
      freeBlocks := freeBlocks - n;
      ghost var k1 := K();
      CommitForGood(z, k, k1, i, n);
      if !whole {
        WithoutLen(locked, i);
        ReleaseLocked(i);
        assert K().used == k1.used;
        assert locked == Without(k.locked, i);
      }
    }

    /** BlockFindContiguous on this volume. */
    method FindRun(start: nat, end: nat, min: nat, max: nat, hard: bool, ignoreTentative: bool, trust: bool)
      returns (r: SearchResult)
      requires Valid() && Apportioned(Z(), K()) && Counted(Z(), K())
      requires start <= end <= allocLimit && 0 < min <= max
      modifies st.bytes, cache`cnt, cache.ext
      ensures Valid() && Searched(Z(), old(K()), K(), ignoreTentative)
      ensures r.Fit? ==> Available(Z(), K(), ignoreTentative, r.start, r.count)
      ensures var v := old(Plain(K(), ignoreTentative));
              var x := if trust then old(Seen(Z(), K(), ignoreTentative)) else v;
              match r
              case DiskFull => NoRun(x, start, end, min)
              case Fit(s, n) => if hard then BestFit(v, x, start, end, min, max, s, n) else FirstFit(v, x, start, end, min, max, s, n)
      ensures !hard && !ignoreTentative && old(Sound(Z(), K())) ==>
                PlainAnswer(old(Plain(K(), ignoreTentative)), start, end, min, max, r)
    {
      hide WellFormed, Covers, Held, FullOf, BitsOf, Apportioned, Sound, TotalLen, View, CacheGrew, Masked, ClearIn, NoRun, FullChunk,
        PlainAnswer;
      ghost var z, k := Z(), K();
      ListIsOk(z, k);
      RemainingBound(z, k, ignoreTentative, start, end);
      NothingMasked(Plain(k, ignoreTentative), z.w);
      var ctx := Context(bm, st, tentative, locked, ignoreTentative, hasSummary, trust, allocLimit);
      var remaining: int := freeBlocks - lockedBlocks - (if ignoreTentative then 0 else tentativeBlocks);
      r := FindContiguous(ctx, cache, trim, start, end, min, max, hard, remaining);
      ghost var k' := K();
      assert k'.used == k.used;
      SearchedBy(z, k, k', ignoreTentative);
      if r.Fit? { ClearIsAvailable(z, k', ignoreTentative, r.start, r.count); }
      if !hard && !ignoreTentative && Sound(z, k) {
        SeenIsFree(z, k);
        GuidedIsPlain(Plain(k, false), if trust then Seen(z, k, false) else Plain(k, false), start, end, min, max, r);
      }
    }

    /** BlockFindKnown: the first cached extent. */
    method FindKnown(max: nat) returns (r: SearchResult)
      requires Valid() && Apportioned(Z(), K()) && max > 0
      ensures r.DiskFull? <==> cache.Contents() == [] || cache.Contents()[0].count == 0
      ensures r.Fit? ==>
                r.start == cache.Contents()[0].start && r.count == FreeExtentCaches.Min(max, cache.Contents()[0].count)
      ensures r.Fit? ==> Available(Z(), K(), false, r.start, r.count)
    {
      hide WellFormed, FullOf, BitsOf, Apportioned, Available;
      if cache.cnt == 0 || cache.ext[0].count == 0 { return DiskFull; }
      var e := cache.ext[0];
      CacheFacts(cache.sparse, cache.allocLimit, cache.Contents());
      assert e == cache.Contents()[0];
      var found := if e.count > max then max else e.count;
      KnownAvailable(Z(), K(), e.start, found);
      r := Fit(e.start, found);
    }

    /** hfs_alloc_try_hard: the longest run of free blocks, up to `max` of them. */
    method TryHard(start: nat, min: nat, max: nat, ignoreTentative: bool) returns (r: SearchResult)
      requires Valid() && Apportioned(Z(), K()) && Counted(Z(), K()) && 0 < min <= max
      modifies st.bytes, cache`cnt, cache.ext
      ensures Valid() && Searched(Z(), old(K()), K(), ignoreTentative)
      ensures r.Fit? ==> Available(Z(), K(), ignoreTentative, r.start, r.count) && min <= r.count <= max
      ensures var x := old(Seen(Z(), K(), ignoreTentative));
              match r
              case DiskFull => NoRun(x, 1, allocLimit, min)
              case Fit(s, n) => n == max || NoRun(x, 1, allocLimit, n + 1)
      ensures !ignoreTentative && old(Sound(Z(), K())) ==>
              var v := old(Plain(K(), ignoreTentative));
              match r
              case DiskFull => NoRun(v, 1, allocLimit, min)
              case Fit(s, n) => n == max || NoRun(v, 1, allocLimit, n + 1)
      ensures HardChoice(old(Plain(K(), ignoreTentative)), old(Seen(Z(), K(), ignoreTentative)), old(cache.Contents()), cache.Contents(),
                         start, allocLimit, min, max, r)
    {
      r := TryHardRounds(start, min, max, ignoreTentative);
      hide *;
      ghost var z, k := Z(), old(K());
      if !ignoreTentative && Sound(z, k) {
        SeenIsFree(z, k);
        var n := if r.DiskFull? then min else r.count + 1;
        if r.DiskFull? || r.count != max { NoRunAgree(Seen(z, k, false), Plain(k, false), 1, allocLimit, n); }
      }
    }

    method TryHardRounds(start: nat, min: nat, max: nat, ignoreTentative: bool) returns (r: SearchResult)
      requires Valid() && Apportioned(Z(), K()) && Counted(Z(), K()) && 0 < min <= max
      modifies st.bytes, cache`cnt, cache.ext
      ensures Valid() && Searched(Z(), old(K()), K(), ignoreTentative)
      ensures r.Fit? ==> Available(Z(), K(), ignoreTentative, r.start, r.count) && min <= r.count <= max
      ensures var x := old(Seen(Z(), K(), ignoreTentative));
              match r
              case DiskFull => NoRun(x, 1, allocLimit, min)
              case Fit(s, n) => n == max || NoRun(x, 1, allocLimit, n + 1)
      ensures HardChoice(old(Plain(K(), ignoreTentative)), old(Seen(Z(), K(), ignoreTentative)), old(cache.Contents()), cache.Contents(),
                         start, allocLimit, min, max, r)
    {
      hide WellFormed, Covers, FullOf, BitsOf, Apportioned, Counted, Sound, Masked, NoRun, NoRunBefore, ClearRun, Seen,
           View;
      ghost var z, k := Z(), K();
      SearchedNothing(z, k, ignoreTentative);
      if 0 < start < allocLimit && allocLimit - start > max {
        r := FindRun(start, start + max, max, max, true, ignoreTentative, true);
        if r.Fit? {
          ExactFit(Plain(k, ignoreTentative), Seen(z, k, ignoreTentative), start, max, r.start, r.count);
          return;
        }
      }
      r := FindKnown(max);
      if r.Fit? && r.count >= max {
        MoreAvailable(z, K(), ignoreTentative, r.start, r.count);
        return;
      }
      r := FindRun(1, allocLimit, min, max, true, ignoreTentative, true);
    }

    /** One round of BlockFindContig: from `current` on, then from the start of the volume. */
    method FindAround(current: nat, min: nat, max: nat, ignoreTentative: bool) returns (r: SearchResult)
      requires Valid() && Apportioned(Z(), K()) && Counted(Z(), K()) && 0 < min <= max && current <= allocLimit
      modifies st.bytes, cache`cnt, cache.ext
      ensures Valid() && Searched(Z(), old(K()), K(), ignoreTentative)
      ensures r.Fit? ==> Available(Z(), K(), ignoreTentative, r.start, r.count) && min <= r.count <= max
      ensures AroundFit(old(Plain(K(), ignoreTentative)), old(Seen(Z(), K(), ignoreTentative)), current, allocLimit,
                        if hasSummary then allocLimit else current, min, max, r)
    {
      hide WellFormed, Covers, FullOf, BitsOf, Apportioned, Counted, Sound, NoRun, NoRunBefore, ClearRun, Seen,
           Available;
      ghost var z, k := Z(), K();
      r := FindRun(current, allocLimit, min, max, false, ignoreTentative, true);
      if r.DiskFull? && current != 0 {
        ghost var k' := K();
        r := FindRun(1, if hasSummary then allocLimit else current, min, max, false, ignoreTentative, false);
        SearchedTrans(z, k, k', K(), ignoreTentative);
      }
    }

    /** BlockFindContig. `answers` holds, for each extent found that is still awaiting a trim,
        where the journal says the overlap ends. */
    method FindContig(start: nat, min: nat, max: nat, ignoreTentative: bool, reuse: bool,
                      answers: seq<nat>) returns (r: SearchResult, gaveUp: bool)
      requires Valid() && Apportioned(Z(), K()) && Counted(Z(), K()) && 0 < min <= max && start <= allocLimit
      requires forall i :: 0 <= i < |answers| ==> answers[i] <= allocLimit
      modifies st.bytes, cache`cnt, cache.ext
      ensures Valid() && Searched(Z(), old(K()), K(), ignoreTentative)
      ensures r.Fit? ==> Available(Z(), K(), ignoreTentative, r.start, r.count) && min <= r.count <= max
      ensures r.Fit? && hasJournal && !reuse ==> forall b: nat :: r.start <= b < r.start + r.count ==> b !in trim
      ensures || AroundFit(old(Plain(K(), ignoreTentative)), old(Seen(Z(), K(), ignoreTentative)), start, allocLimit,
                           if hasSummary then allocLimit else start, min, max, r)
              || (hasJournal && PendingRun(old(Plain(K(), ignoreTentative)), allocLimit, trim, min, max))
      ensures r.DiskFull? && reuse ==>
                gaveUp || FitsFrom(old(Plain(K(), ignoreTentative)), old(Seen(Z(), K(), ignoreTentative)), [start] + answers,
                                   allocLimit, hasSummary, min, max, r)
      ensures r.Fit? ==>
                FitsFrom(old(Plain(K(), ignoreTentative)), old(Seen(Z(), K(), ignoreTentative)), [start] + answers,
                         allocLimit, hasSummary, min, max, r)
      ensures gaveUp ==> r.DiskFull? && hasJournal
    {
      hide WellFormed, Covers, FullOf, BitsOf, Apportioned, Counted, Sound, Seen, View, Available, AroundFit,
           PendingRun, FitsFrom;
      ghost var z, k := Z(), K();
      SearchedNothing(z, k, ignoreTentative);
      gaveUp := false;
      var current: nat, i: nat := start, 0;
      var collisionStart: nat, collisionCount: nat := 0, 0;
      while true
        invariant 0 <= i <= |answers| && current <= allocLimit && Valid() && (!hasJournal ==> i == 0)
        invariant Searched(z, k, K(), ignoreTentative)
        invariant i == 0 ==> current == start && collisionStart == 0
        invariant i > 0 ==> current == answers[i - 1]
        invariant !gaveUp
        invariant i > 0 ==> PendingRun(Plain(k, ignoreTentative), allocLimit, trim, min, max)
        invariant collisionStart != 0 ==>
                  min <= collisionCount <= max && Available(z, K(), ignoreTentative, collisionStart, collisionCount)
        invariant collisionStart != 0 ==>
                    FitsFrom(Plain(k, ignoreTentative), Seen(z, k, ignoreTentative), [start] + answers, allocLimit, hasSummary,
                             min, max, Fit(collisionStart, collisionCount))
        decreases |answers| - i
      {
        ghost var k1 := K();
        r := FindAround(current, min, max, ignoreTentative);
        SearchedTrans(z, k, k1, K(), ignoreTentative);
        FoundFrom(Plain(k, ignoreTentative), Seen(z, k, ignoreTentative), start, answers, i, allocLimit, hasSummary, min, max,
                  r);
        if r.DiskFull? { return; }
        if collisionStart != 0 {
          StillAvailable(z, k1, K(), ignoreTentative, collisionStart, collisionCount);
          if ExtentsOverlap(r.start, r.count, collisionStart, collisionCount) {
            r := if reuse then Fit(collisionStart, collisionCount) else DiskFull;
            return;
          }
        }
        var pending := exists b :: b in trim && r.start <= b < r.start + r.count;
        if !hasJournal || !pending { return; }
        PendingFound(z, K(), ignoreTentative, min, max, r.start, r.count);
        if i == |answers| { return DiskFull, true; }
        if collisionStart == 0 { collisionStart, collisionCount := r.start, r.count; }
        current, i := answers[i], i + 1;
      }
    }

    /** BlockFindAny on this volume; blocks awaiting a trim are avoided unless a journal flush
        is allowed. */
    method FindSome(start: nat, end: nat, max: nat, ignoreTentative: bool, trust: bool,
                    flush: bool) returns (r: SearchResult)
      requires Valid() && Apportioned(Z(), K()) && Counted(Z(), K()) && end <= allocLimit && 0 < max
      modifies st.bytes
      ensures Valid() && Searched(Z(), old(K()), K(), ignoreTentative)
      ensures r.Fit? ==> Available(Z(), K(), ignoreTentative, r.start, r.count) && r.count <= max
      ensures AnyFit(old(Plain(K(), ignoreTentative)),
                     Avoiding(old(Seen(Z(), K(), ignoreTentative)), if hasJournal && !flush then trim else {}), start, end, max, r)
      ensures r.DiskFull? ==> forall b: nat :: start <= b < end ==>
                old(Seen(Z(), K(), ignoreTentative))[b] || (hasJournal && !flush && b in trim)
      ensures (!hasJournal || flush) && !ignoreTentative && old(Sound(Z(), K())) ==>
                PlainAnswer(old(Plain(K(), ignoreTentative)), start, end, 1, max, r)
      ensures r.Fit? && hasJournal && !flush ==> r.start !in trim
    {
      hide WellFormed, Covers, Held, FullOf, BitsOf, Apportioned, Sound, TotalLen, View, Masked, ClearIn, FullChunk,
           PlainAnswer;
      ghost var z, k := Z(), K();
      ListIsOk(z, k);
      ghost var v := Plain(k, ignoreTentative);
      NothingMasked(v, z.w);
      var avoid := if hasJournal && !flush then trim else {};
      var ctx := Context(bm, st, tentative, locked, ignoreTentative, hasSummary, trust, allocLimit);
      r := FindAny(ctx, avoid, start, end, max);
      ghost var k' := K();
      assert k'.used == k.used && k'.cached == k.cached;
      CacheGrewNothing(k.cached, View(k.used, k.tentative + k.locked), k.trim);
      SearchedBy(z, k, k', ignoreTentative);
      if r.Fit? {
        ClearIsAvailable(z, k', ignoreTentative, r.start, r.count);
      } else {
        SeenSize(z, k, ignoreTentative);
        NoFreeBlock(Seen(z, k, ignoreTentative), avoid, start, end);
      }
      if (!hasJournal || flush) && !ignoreTentative && Sound(z, k) {
        SeenIsFree(z, k);
        GuidedIsPlain(v, Avoiding(Seen(z, k, false), {}), start, end, 1, max, r);
      }
    }

    /** The search for blocks that need not be contiguous. */
    method FindAnywhere(start: nat, max: nat, ignoreTentative: bool, flush: bool) returns (r: SearchResult)
      requires Valid() && Apportioned(Z(), K()) && Counted(Z(), K()) && start < allocLimit && 0 < max
      modifies st.bytes
      ensures Valid() && Searched(Z(), old(K()), K(), ignoreTentative)
      ensures r.Fit? ==> Available(Z(), K(), ignoreTentative, r.start, r.count) && r.count <= max
      ensures |old(Seen(Z(), K(), ignoreTentative))| == 32 * bm.words.Length
      ensures r.DiskFull? ==> forall b: nat :: 1 <= b < allocLimit ==>
                old(Seen(Z(), K(), ignoreTentative))[b] || (hasJournal && !flush && b in trim)
      ensures AnyChoice(old(Plain(K(), ignoreTentative)), old(Seen(Z(), K(), ignoreTentative)),
                        if hasJournal then trim else {}, cache.Contents(), start, allocLimit,
                        if hasSummary then allocLimit else start, max, flush, r)
      ensures r.Fit? && hasJournal && !flush ==>
                r.start !in trim || (cache.Contents() != [] && r.start == cache.Contents()[0].start)
    {
      hide WellFormed, Covers, FullOf, BitsOf, Apportioned, Counted, Sound, Seen, View, Available, AnyFit, Avoiding;
      ghost var z, k := Z(), K();
      SearchedNothing(z, k, ignoreTentative);
      SeenSize(z, k, ignoreTentative);
      r := FindKnown(max);
      if r.Fit? {
        MoreAvailable(z, k, ignoreTentative, r.start, r.count);
        return;
      }
      r := FindSome(start, allocLimit, max, ignoreTentative, true, false);
      ghost var k1 := K();
      if r.Fit? { return; }
      r := FindSome(1, if hasSummary then allocLimit else start, max, ignoreTentative, false, false);
      ghost var k2 := K();
      SearchedTrans(z, k, k1, k2, ignoreTentative);
      if r.Fit? || !flush { return; }
      r := FindSome(1, allocLimit, max, ignoreTentative, false, true);
      SearchedTrans(z, k, k2, K(), ignoreTentative);
    }

    /** The search stage of an allocation. */
    method Search(req: Request, start: nat, min: nat, max: nat, ignoreTentative: bool,
                  answers: seq<nat>) returns (r: SearchResult)
      requires Valid() && Apportioned(Z(), K()) && Counted(Z(), K()) && 0 < min <= max && start < allocLimit
      requires forall i :: 0 <= i < |answers| ==> answers[i] <= allocLimit
      modifies st.bytes, cache`cnt, cache.ext
      ensures Valid() && Searched(Z(), old(K()), K(), ignoreTentative)
      ensures r.Fit? ==> Available(Z(), K(), ignoreTentative, r.start, r.count) && r.count <= max
      ensures r.Fit? && req.Whole() ==> min <= r.count
      ensures r.Fit? ==>
                Chosen(req, old(Seen(Z(), K(), ignoreTentative)), old(Plain(K(), ignoreTentative)), old(cache.Contents()),
                       cache.Contents(), answers, start,
                       allocLimit, min, max, hasSummary, hasJournal, trim, r)
      ensures r.Fit? && req.hard ==>
                r.count == max || NoRun(old(Seen(Z(), K(), ignoreTentative)), 1, allocLimit, r.count + 1)
      ensures r.DiskFull? ==>
                Exhausted(req, old(Seen(Z(), K(), ignoreTentative)), old(Plain(K(), ignoreTentative)), start, allocLimit, min, max,
                          hasSummary, hasJournal, trim)
    {
      hide WellFormed, Covers, FullOf, BitsOf, Apportioned, Counted, Sound, Seen, Plain, Available, AroundFit, NoRun, Searched,
           PendingRun, AnyChoice, HardChoice, FitsFrom;
      if req.hard {
        r := TryHard(req.start, min, max, ignoreTentative);
      } else if req.contiguous {
        var gaveUp;
        r, gaveUp := FindContig(start, min, max, ignoreTentative, req.flush, answers);
      } else {
        r := FindAnywhere(start, max, ignoreTentative, req.flush);
      }
    }

    /** hfs_block_alloc_int for a new allocation or reservation. */
    method Allocate(req: Request, rover: nat, loaned: nat, backing: Backing,
                    answers: seq<nat>) returns (r: SearchResult)
      requires Valid() && Apportioned(Z(), K()) && Counted(Z(), K()) && req.Ok()
      requires forall i :: 0 <= i < |answers| ==> answers[i] <= allocLimit
      modifies this`trim, this`freeBlocks, this`lockedBlocks, this`tentativeBlocks, this`tentative, this`locked
      modifies bm.words, st.bytes, cache`cnt, cache.ext
      ensures Valid() && Apportioned(Z(), K()) && Counted(Z(), K())
      ensures var free := FreeForUse(old(freeBlocks), old(lockedBlocks), loaned, backing);
              var steal := req.ignoreTentative || free < old(tentativeBlocks) + req.min;
              && (old(Sound(Z(), K())) && !(r.Fit? && req.kind.Tentative? && steal) ==> Sound(Z(), K()))
              && match r
                 case Fit(s, n) =>
                   && (old(Sound(Z(), K())) && req.kind.Tentative? && steal ==>
                         (Sound(Z(), K()) <==> CancelSafe(Z(), old(K()), s, n)))
                   && n <= Lesser(req.Max(), free) && (req.Whole() ==> req.min <= n)
                   && n + loaned + old(lockedBlocks) <= old(freeBlocks) && (backing.Limited? ==> n <= backing.free)
                   && Served(Z(), old(K()), steal, req, answers, StartOf(req, rover, allocLimit), Lesser(req.min, free),
                             Lesser(req.Max(), free), hasSummary, hasJournal, s, n)
                   && old(Available(Z(), K(), steal, s, n))
                   && Granted(old(K()), K(), req.kind, steal, s, n)
                 case DiskFull =>
                   && Searched(Z(), old(K()), K(), steal)
                   && (free == 0 || (req.Whole() && free < req.min) ||
                       Exhausted(req, old(Seen(Z(), K(), steal)), old(Plain(K(), steal)), StartOf(req, rover, allocLimit), allocLimit,
                                 Lesser(req.min, free), Lesser(req.Max(), free), hasSummary, hasJournal, trim))
    {
      hide WellFormed, Covers, Held, FullOf, BitsOf, Apportioned, Counted, Sound, Seen, Plain, Granted, Exhausted,
           CancelSafe, Chosen, Rounded;
      ghost var z, k := Z(), K();
      var free := FreeForUse(freeBlocks, lockedBlocks, loaned, backing);
      var steal := req.ignoreTentative || free < tentativeBlocks + req.min;
      SearchedNothing(z, k, steal);
      if free == 0 || (req.Whole() && free < req.min) { return DiskFull; }
      var min, max := Lesser(req.min, free), Lesser(req.Max(), free);
      r := Search(req, StartOf(req, rover, allocLimit), min, max, steal, answers);
      if r.DiskFull? { return; }
      var n := Aligned(req, min, r.count);
      ghost var k1 := K();
      assert ServedBy(z, k, k1, steal, req, answers, StartOf(req, rover, allocLimit), min, max, hasSummary, hasJournal, r.start,
                      r.count);
      FewerAvailable(z, k, k1, steal, r.start, r.count, n);
      Take(r.start, n, req.kind, steal);
      GrantedFrom(k, k1, K(), req.kind, steal, r.start, n);
      CancelSafeBefore(z, k, k1, steal, r.start, n);
      r := Fit(r.start, n);
    }

    /** hfs_block_alloc_int for the use of a tentative reservation: its first blocks if it still
        exists and is large enough, else it is freed and blocks are allocated anew. */
    method AllocateTentative(reservation: nat, req: Request, rover: nat, loaned: nat, backing: Backing,
                             answers: seq<nat>)
      returns (r: SearchResult, used: bool)
      requires Valid() && Apportioned(Z(), K()) && Counted(Z(), K()) && req.Ok() && !req.kind.Tentative?
      requires forall i :: 0 <= i < |answers| ==> answers[i] <= allocLimit
      modifies this`trim, this`freeBlocks, this`lockedBlocks, this`tentativeBlocks, this`tentative, this`locked
      modifies bm.words, st.bytes, cache`cnt, cache.ext
      ensures Valid() && Apportioned(Z(), K()) && Counted(Z(), K())
      ensures old(Sound(Z(), K())) ==> Sound(Z(), K())
      ensures used <==> reservation < old(|tentative|) &&
                        Lesser(Lesser(req.Max(), Length(old(tentative)[reservation])),
                               FreeForUse(old(freeBlocks), old(lockedBlocks), loaned, backing)) >= req.min
      ensures used ==>
                var count := Lesser(Lesser(req.Max(), Length(old(tentative)[reservation])),
                                    FreeForUse(old(freeBlocks), old(lockedBlocks), loaned, backing));
                r.Fit? && Rounded(req, req.min, count, r.count)
      ensures used ==> r.Fit? && r.start == old(tentative)[reservation].start && req.min <= r.count
                       && 0 < r.count <= old(tentative)[reservation].Len()
                       && tentative == Shrunk(old(tentative), reservation, r.count)
      ensures !used && r.DiskFull? ==>
                tentative == Remaining(old(tentative), reservation) && locked == old(locked) && trim == old(trim)
      ensures !used && r.Fit? ==>
                GrantedFor(old(K()).(tentative := Remaining(old(tentative), reservation)), K(), req.kind, r.start, r.count)
      ensures r.Fit? ==> 0 < r.count <= req.Max() && r.start + r.count <= allocLimit
      ensures r.Fit? ==> forall b: nat :: r.start <= b < r.start + r.count ==>
                           !old(bm.Bits())[b] && !Held(old(locked), b) && !Held(tentative, b)
      ensures r.Fit? ==>
                locked == (if req.kind.Locked? then [Range(r.start, r.start + r.count - 1)] else []) + old(locked)
      ensures bm.Bits() == if r.Fit? && req.kind.Permanent? then SetRange(old(bm.Bits()), r.start, r.count) else old(bm.Bits())
    {
      hide WellFormed, Covers, Held, FullOf, BitsOf, Apportioned, Counted, Sound, Shrunk, SetRange, GrantedFor, Without,
           Rounded;
      ghost var z, k := Z(), K();
      used := false;
      ListIsOk(z, k);
      if reservation < |tentative| {
        RangeFits(tentative, reservation, allocLimit);
        var usable := FreeForUse(freeBlocks, lockedBlocks, loaned, backing);
        var count := Lesser(Lesser(req.Max(), Length(tentative[reservation])), usable);
        if count >= req.min {
          used := true;
          var n := Aligned(req, req.min, count);
          var s := UsePart(reservation, n, req.kind.Locked?);
          return Fit(s, n), true;
        }
        WithoutHeld(tentative, reservation, allocLimit);
        FreeTentative(reservation);
      }
      ghost var k1 := K();
      ghost var rest := Remaining(k.tentative, reservation);
      assert k1.used == k.used && k1.locked == k.locked && k1.trim == k.trim && bm.Bits() == old(bm.Bits());
      r := AllocateInstead(req, rover, loaned, backing, answers);
      if r.Fit? {
        GrantedAfterFree(k, k1, K(), rest, req.kind, r.start, r.count);
      }
    }

    /** UseTentative, with what it says about the blocks used. */
    method UsePart(i: nat, n: nat, lock: bool) returns (s: nat)
      requires Valid() && Apportioned(Z(), K()) && Counted(Z(), K())
      requires i < |tentative| && 0 < n <= tentative[i].Len()
      modifies this`trim, this`freeBlocks, this`lockedBlocks, this`tentativeBlocks, this`tentative, this`locked, bm.words
      ensures Valid() && Apportioned(Z(), K()) && Counted(Z(), K())
      ensures old(Sound(Z(), K())) ==> Sound(Z(), K())
      ensures s == old(tentative)[i].start && s + n <= allocLimit && tentative == Shrunk(old(tentative), i, n)
      ensures forall b: nat :: s <= b < s + n ==> !old(bm.Bits())[b] && !Held(old(locked), b) && !Held(tentative, b)
      ensures locked == (if lock then [Range(s, s + n - 1)] else []) + old(locked)
      ensures bm.Bits() == if lock then old(bm.Bits()) else SetRange(old(bm.Bits()), s, n)
    {
      hide WellFormed, Covers, Held, FullOf, BitsOf, Apportioned, Counted, Sound, Shrunk, SetRange;
      ghost var z, k := Z(), K();
      ListIsOk(z, k);
      RangeFits(tentative, i, allocLimit);
      HeldFacts(z, k, i, n);
      ShrunkMeans(tentative, i, n, allocLimit);
      s := UseTentative(i, n, lock);
    }

    /** An ordinary allocation in place of a tentative reservation that cannot be used. */
    method AllocateInstead(req: Request, rover: nat, loaned: nat, backing: Backing,
                           answers: seq<nat>) returns (r: SearchResult)
      requires Valid() && Apportioned(Z(), K()) && Counted(Z(), K()) && req.Ok() && !req.kind.Tentative?
      requires forall i :: 0 <= i < |answers| ==> answers[i] <= allocLimit
      modifies this`trim, this`freeBlocks, this`lockedBlocks, this`tentativeBlocks, this`tentative, this`locked
      modifies bm.words, st.bytes, cache`cnt, cache.ext
      ensures Valid() && Apportioned(Z(), K()) && Counted(Z(), K())
      ensures old(Sound(Z(), K())) ==> Sound(Z(), K())
      ensures r.DiskFull? ==> tentative == old(tentative) && locked == old(locked) && trim == old(trim)
      ensures r.Fit? ==> GrantedFor(old(K()), K(), req.kind, r.start, r.count)
      ensures r.Fit? ==> 0 < r.count <= req.Max() && r.start + r.count <= allocLimit
      ensures r.Fit? ==> forall b: nat :: r.start <= b < r.start + r.count ==>
                           !old(bm.Bits())[b] && !Held(old(locked), b) && !Held(tentative, b)
      ensures r.Fit? ==>
                locked == (if req.kind.Locked? then [Range(r.start, r.start + r.count - 1)] else []) + old(locked)
      ensures bm.Bits() == if r.Fit? && req.kind.Permanent? then SetRange(old(bm.Bits()), r.start, r.count) else old(bm.Bits())
    {
      hide WellFormed, Covers, Held, FullOf, BitsOf, Apportioned, Counted, Sound, Seen, Plain, Exhausted, SetRange,
           Stolen;
      ghost var k := K();
      r := Allocate(req, rover, loaned, backing, answers);
      if r.Fit? { GrantedClear(Z(), k, K(), req.kind, r.start, r.count); }
    }

    /** hfs_free_tentative. */
    method FreeTentative(i: nat)
      requires Valid() && i < |tentative| && Apportioned(Z(), K()) && Counted(Z(), K())
      modifies this`tentative, this`tentativeBlocks, st.bytes, cache`cnt, cache.ext
      ensures Valid() && Apportioned(Z(), K()) && Counted(Z(), K())
      ensures old(Sound(Z(), K())) ==> Sound(Z(), K())
      ensures tentative == Without(old(tentative), i)
    {
      hide WellFormed, Covers, Held, FullOf, BitsOf, Apportioned, Sound, ClearIn, TotalLen;
      ghost var k := K();
      WithoutLen(tentative, i);
      ReleaseTentative(i);
      assert K().used == k.used;
    }

    /** hfs_free_locked. */
    method FreeLocked(i: nat)
      requires Valid() && i < |locked| && Apportioned(Z(), K()) && Counted(Z(), K())
      modifies this`locked, this`lockedBlocks, st.bytes, cache`cnt, cache.ext
      ensures Valid() && Apportioned(Z(), K()) && Counted(Z(), K())
      ensures old(Sound(Z(), K())) ==> Sound(Z(), K())
      ensures locked == Without(old(locked), i)
    {
      hide WellFormed, Covers, Held, FullOf, BitsOf, Apportioned, Sound, ClearIn, TotalLen;
      ghost var k := K();
      WithoutLen(locked, i);
      ReleaseLocked(i);
      assert K().used == k.used;
    }

    /** hfs_block_alloc_int for a commit: allocate a locked reservation, rounded down for
        alignment, and release the rest of it. */
    method CommitLocked(i: nat, req: Request) returns (s: nat, n: nat)
      requires Valid() && i < |locked| && Apportioned(Z(), K()) && Counted(Z(), K())
      modifies this`trim, this`freeBlocks, this`lockedBlocks, this`locked, bm.words, st.bytes, cache`cnt, cache.ext
      ensures Valid() && Apportioned(Z(), K()) && Counted(Z(), K())
      ensures old(Sound(Z(), K())) ==> Sound(Z(), K())
      ensures s == old(locked[i].start) && Rounded(req, req.min, Length(old(locked[i])), n) && trim == old(trim)
      ensures bm.Bits() == SetRange(old(bm.Bits()), s, n)
      ensures locked == if n == 0 then old(locked) else Without(old(locked), i)
    {
      hide WellFormed, Covers, Held, FullOf, BitsOf, Apportioned, Counted, Sound, SetRange, Rounded;
      ListIsOk(Z(), K());
      RangeFits(locked, i, allocLimit);
      s, n := locked[i].start, Aligned(req, req.min, Length(locked[i]));
      if n > 0 {
        s := Commit(i, n);
      } else {
        SetNothing(bm.Bits(), s);
      }
    }

    /** How far a trim around [s, s + n) may reach without meeting a reservation. */
    method UnmapBounds(s: nat, n: nat) returns (lo: nat, hi: nat)
      requires Valid() && Apportioned(Z(), K()) && n > 0
      ensures s + n <= totalBlocks && AllSet(bm.Bits(), s, s + n) ==>
                lo <= s && s + n <= hi && forall b: nat :: lo <= b < hi ==> !Held(tentative, b) && !Held(locked, b)
      ensures s + n <= totalBlocks && AllSet(bm.Bits(), s, s + n) ==>
                && (lo == 0 || Held(tentative, lo - 1) || Held(locked, lo - 1))
                && (hi == MAX_BLOCK || Held(tentative, hi) || Held(locked, hi))
    {
      hide WellFormed, Covers, Held, FullOf, BitsOf, Apportioned, Bounds;
      ListIsOk(Z(), K());
      var lo1, hi1 := TightenBounds(tentative, s, n, 0, MAX_BLOCK);
      lo, hi := TightenBounds(locked, s, n, lo1, hi1);
      if s + n <= totalBlocks && AllSet(bm.Bits(), s, s + n) {
        AllocatedApart(Z(), K(), s, n);
        TighterBounds(tentative, s, n, lo1, hi1, lo, hi);
        EndsHeld(tentative, lo1, hi1, 0, MAX_BLOCK);
        EndsHeld(locked, lo, hi, lo1, hi1);
        WithinBounds(tentative, s, n, lo, hi);
        WithinBounds(locked, s, n, lo, hi);
      }
    }

    /** BlockDeallocate. It succeeds exactly on allocated blocks of the volume. */
    method Deallocate(s: nat, n: nat) returns (ok: bool, cleared: nat)
      requires Valid() && Apportioned(Z(), K()) && Counted(Z(), K())
      modifies this`trim, this`freeBlocks, bm.words, st.bytes, cache`cnt, cache.ext
      ensures Valid() && Apportioned(Z(), K())
      ensures ok <==> n == 0 || (s + n <= totalBlocks && AllSet(old(bm.Bits()), s, s + n))
      ensures old(Sound(Z(), K())) ==> Sound(Z(), K())
      ensures freeBlocks == old(freeBlocks) + if ok then n else 0
      ensures cleared > 0 ==> s + cleared <= totalBlocks && AllSet(old(bm.Bits()), s, s + cleared)
      ensures bm.Bits() == if cleared == 0 then old(bm.Bits()) else ClearRange(old(bm.Bits()), s, cleared)
      ensures ok ==> cleared == n
      ensures !ok ==> if s + n > totalBlocks then cleared == 0 else StopsAt(old(bm.Bits()), s, n, cleared)
      ensures ClearIn(bm.Bits(), 0, totalBlocks) == freeBlocks + if ok then 0 else cleared
      ensures Counted(Z(), K()) <==>
                ok || s + n > totalBlocks || !AllSet(old(bm.Bits()), s, s + FirstPart(s, n))
      ensures Counted(Z(), K()) <==> ok || cleared == 0
      ensures ok && n > 0 && hasJournal ==> TrimsAround(old(K()), K(), bm.wordsPerChunk, MAX_BLOCK, s, n)
      ensures !ok || !hasJournal ==> trim == old(trim)
      ensures if ok && n > 0 && !hasJournal
              then AddedTo(cache.sparse, allocLimit, old(cache.Contents()), cache.Contents(), s, n)
              else cache.Contents() == old(cache.Contents())
      ensures n == 0 ==> K() == old(K())
    {
      hide WellFormed, Covers, Held, FullOf, BitsOf, Apportioned, Sound, ClearRange, Narrowed, AddedTo, ClearIn,
           StopsAt, FirstPart, TrimsAround, ChunkBase;
      if n == 0 { return true, 0; }
      ghost var z, k := Z(), K();
      var lo, hi := UnmapBounds(s, n);
      ReleaseSummary(s, n);
      assert K() == k.(full := K().full);
      var start: nat, count: nat;
      ok, start, count, cleared := bm.MarkFree(s, n, true, totalBlocks, lo, hi);
      assert K() == k.(full := K().full, used := K().used);
      if !ok {
        if s + n > totalBlocks {
          AfterRelease(z, k, K(), s, s);
        } else {
          if cleared == 0 { SetNothing(k.used, s); }
          AfterFailedFree(z, k, K(), s, n, cleared);
        }
        return;
      }
      hide Counted;
      NoteFreed(s, n, lo, hi, start, start + count, k);
    }

    /** The blocks [s, s + n) have been cleared: count them, and offer them to the cache or to the
        journal, with the free blocks around them. */
    method NoteFreed(s: nat, n: nat, ghost lo: nat, ghost hi: nat, from: nat, to: nat, ghost k: Books)
      requires Valid() && Apportioned(Z(), k) && Counted(Z(), k) && n > 0 && s + n <= totalBlocks
      requires AllSet(k.used, s, s + n)
      requires K() == k.(used := ClearRange(k.used, s, n), full := K().full)
      requires Narrowed(Z(), k.full, K().full, s, s + n)
      requires |K().used| == |k.used| && lo <= from <= s && s + n <= to <= hi && to <= |k.used|
      requires AllClear(K().used, from, to)
      requires forall b: nat :: lo <= b < hi ==> !Held(k.tentative, b) && !Held(k.locked, b)
      requires lo == 0 || Held(k.tentative, lo - 1) || Held(k.locked, lo - 1)
      requires hi == MAX_BLOCK || Held(k.tentative, hi) || Held(k.locked, hi)
      requires from <= lo || from == 32 * ChunkBase(s, bm.wordsPerChunk) || K().used[from - 1]
      requires to >= hi || to == 32 * (ChunkBase(s + n - 1, bm.wordsPerChunk) + bm.wordsPerChunk) || (to < |k.used| && K().used[to])
      modifies this`trim, this`freeBlocks, cache`cnt, cache.ext
      ensures Valid() && Apportioned(Z(), K()) && Counted(Z(), K()) && (Sound(Z(), k) ==> Sound(Z(), K()))
      ensures bm.Bits() == old(bm.Bits()) && freeBlocks == old(freeBlocks) + n
      ensures hasJournal ==> TrimsAround(k, K(), bm.wordsPerChunk, MAX_BLOCK, s, n)
      ensures !hasJournal ==> trim == old(trim)
      ensures if hasJournal then cache.Contents() == old(cache.Contents())
              else AddedTo(cache.sparse, allocLimit, old(cache.Contents()), cache.Contents(), s, n)
    {
      hide WellFormed, Covers, Held, FullOf, BitsOf, Apportioned, Sound, ClearRange, Narrowed, AddedTo, ClearIn, Counted,
           TrimsAround, ChunkBase;
      freeBlocks := freeBlocks + n;
      if hasJournal {
        trim := trim + Span(from, to);
      } else {
        OfferFreed(s, n);
      }
      AfterFree(Z(), k, K(), s, n, from, to);
      if hasJournal { TrimsWidened(k, K(), bm.wordsPerChunk, s, n, lo, hi, from, to); }
    }

    /** Offer freed blocks to the cache. */
    method OfferFreed(s: nat, n: nat)
      requires Valid()
      modifies cache`cnt, cache.ext
      ensures Valid() && K() == old(K()).(cached := K().cached)
      ensures AddedTo(cache.sparse, allocLimit, old(cache.Contents()), cache.Contents(), s, n)
      ensures forall b: nat :: Covers(cache.Contents(), b) ==> Covers(old(cache.Contents()), b) || s <= b < s + n
    {
      hide WellFormed, AddedTo, Covers, FullOf, BitsOf;
      ghost var was := cache.Contents();
      var _ := cache.Add(s, n);
      forall b: nat | Covers(cache.Contents(), b) ensures Covers(was, b) || s <= b < s + n {
        AddCovers(cache.sparse, cache.allocLimit, was, cache.Contents(), s, n, b);
      }
    }

    /** hfs_trim_callback: the journal has written the transaction that freed these extents. */
    method TrimCallback(extents: seq<Extent>) returns (ghost caches: seq<seq<Extent>>)
      requires Valid() && Apportioned(Z(), K()) && Counted(Z(), K())
      requires forall b: nat :: Covers(extents, b) ==> b in trim
      modifies this`trim, cache`cnt, cache.ext
      ensures Valid() && Apportioned(Z(), K()) && Counted(Z(), K())
      ensures old(Sound(Z(), K())) ==> Sound(Z(), K())
      ensures trim == set b | b in old(trim) && !Covers(extents, b)
      ensures |caches| == |extents| + 1 && caches[0] == old(cache.Contents()) && caches[|extents|] == cache.Contents()
      ensures forall i :: 0 <= i < |extents| ==>
                AddedTo(cache.sparse, allocLimit, caches[i], caches[i + 1], extents[i].start, extents[i].count)
    {
      hide WellFormed, Covers, Held, FullOf, BitsOf, Apportioned, Sound, AddedTo;
      ghost var z, k := Z(), K();
      caches := [cache.Contents()];
      var i: nat := 0;
      while i < |extents|
        invariant i <= |extents| && Valid() && K() == k.(cached := K().cached)
        invariant |caches| == i + 1 && caches[0] == k.cached && caches[i] == cache.Contents()
        invariant forall j :: 0 <= j < i ==>
                    AddedTo(cache.sparse, allocLimit, caches[j], caches[j + 1], extents[j].start, extents[j].count)
        invariant forall b: nat :: Covers(cache.Contents(), b) ==> Covers(k.cached, b) || b in trim
      {
        forall b: nat | extents[i].start <= b < extents[i].End() ensures b in trim { CoversOne(extents, i, b); }
        OfferFreed(extents[i].start, extents[i].count);
        caches := caches + [cache.Contents()];
        i := i + 1;
      }
      trim := set b | b in trim && !Covers(extents, b);
      Trimmed(z, k, K());
    }
  }

  lemma CoversOne(s: seq<Extent>, i: nat, b: nat)
    requires i < |s| && s[i].start <= b < s[i].End()
    ensures Covers(s, b)
  {
    assert s[i].Holds(b);
  }

  /** Trimmed blocks may be cached. */
  lemma Trimmed(z: Sizes, k: Books, k': Books)
    requires Apportioned(z, k) && k' == k.(cached := k'.cached, trim := k'.trim) && k'.trim <= k.trim
    requires forall b: nat :: Covers(k'.cached, b) ==> Covers(k.cached, b) || b in k.trim
    ensures Apportioned(z, k')
    ensures Sound(z, k) ==> Sound(z, k')
  {
    hide Covers, Held, ListOk, InFull;
  }

  function Lesser(a: nat, b: nat): nat { if a < b then a else b }

  function Length(r: Range): nat { if r.Len() < 0 then 0 else r.Len() }

  lemma FewerAvailable(z: Sizes, k: Books, k': Books, ignoreTentative: bool, s: nat, n: nat, m: nat)
    requires Searched(z, k, k', ignoreTentative) && Available(z, k', ignoreTentative, s, n) && 0 < m <= n
    ensures Available(z, k', ignoreTentative, s, m) && Available(z, k, ignoreTentative, s, m)
  {
    hide Apportioned, Counted, Sound, Seen, Held;
  }

  lemma GrantedFrom(k: Books, k1: Books, k': Books, kind: Kind, ignoreTentative: bool, s: nat, n: nat)
    requires k1 == k.(cached := k1.cached, full := k1.full) && Granted(k1, k', kind, ignoreTentative, s, n)
    ensures Granted(k, k', kind, ignoreTentative, s, n)
  {
  }

  /** The first blocks of a tentative reservation are clear and not locked. */
  lemma HeldFacts(z: Sizes, k: Books, i: nat, n: nat)
    requires Apportioned(z, k) && i < |k.tentative| && n <= k.tentative[i].Len() && k.tentative[i].start >= 0
    ensures k.tentative[i].start + n <= |k.used|
    ensures forall b: nat :: k.tentative[i].start <= b < k.tentative[i].start + n ==> !k.used[b] && !Held(k.locked, b)
  {
    hide Covers;
    forall b: nat | k.tentative[i].start <= b < k.tentative[i].start + n ensures !k.used[b] && !Held(k.locked, b) {
      assert k.tentative[i].Holds(b);
      assert Held(k.tentative, b);
    }
  }

  /** The reservations other than `i`. */
  function Remaining(rs: seq<Range>, i: nat): seq<Range> { if i < |rs| then Without(rs, i) else rs }

  /** Granted, with or without stealing. */
  ghost predicate GrantedFor(k: Books, k': Books, kind: Kind, s: nat, n: nat) {
    exists steal :: Granted(k, k', kind, steal, s, n)
  }

  lemma GrantedAfterFree(k: Books, k1: Books, k': Books, rest: seq<Range>, kind: Kind, s: nat, n: nat)
    requires k1.used == k.used && k1.locked == k.locked && k1.trim == k.trim && k1.tentative == rest
    requires GrantedFor(k1, k', kind, s, n)
    ensures GrantedFor(k.(tentative := rest), k', kind, s, n)
  {
    var steal :| Granted(k1, k', kind, steal, s, n);
    assert Granted(k.(tentative := rest), k', kind, steal, s, n);
  }

  /** Granted blocks were clear and unlocked, and are in no tentative range afterwards. */
  lemma GrantedClear(z: Sizes, k: Books, k': Books, kind: Kind, s: nat, n: nat)
    requires !kind.Tentative?
    requires exists steal :: Available(z, k, steal, s, n) && Granted(k, k', kind, steal, s, n)
    ensures s + n <= z.limit
    ensures forall b: nat :: s <= b < s + n ==> !k.used[b] && !Held(k.locked, b) && !Held(k'.tentative, b)
  {
    hide Held;
  }

  lemma LimitedHeld(rs: seq<Range>, r: Range)
    ensures forall b: nat :: Held([r] + (if |rs| > 3 then rs[..3] else rs), b) ==> Held(rs, b) || r.Holds(b)
  {
    forall b: nat | Held([r] + (if |rs| > 3 then rs[..3] else rs), b) ensures Held(rs, b) || r.Holds(b) {
      HeldConcat([r], if |rs| > 3 then rs[..3] else rs, b);
      HeldOne(r, b);
    }
  }

  lemma ListIsOk(z: Sizes, k: Books)
    requires Apportioned(z, k)
    ensures ListOk(k.tentative, z.limit) && ListOk(k.locked, z.limit)
  {
  }

  lemma CacheFacts(sparse: bool, limit: nat, s: seq<Extent>)
    requires WellFormed(sparse, limit, s)
    ensures |s| <= MAX_FREE_EXTENTS && Separated(s) && Within(s, limit)
  {
  }

  lemma SearchedNothing(z: Sizes, k: Books, ignoreTentative: bool)
    requires Apportioned(z, k) && Counted(z, k) && z.w > 0
    ensures Searched(z, k, k, ignoreTentative)
  {
  }

  lemma MoreAvailable(z: Sizes, k: Books, ignoreTentative: bool, s: nat, n: nat)
    requires Available(z, k, false, s, n)
    ensures Available(z, k, ignoreTentative, s, n)
  {
  }

  /** The head of the cache may be taken. */
  lemma KnownAvailable(z: Sizes, k: Books, s: nat, n: nat)
    requires Apportioned(z, k) && k.cached != [] && Within(k.cached, z.limit)
    requires k.cached[0].start == s && 0 < n <= k.cached[0].count
    ensures Available(z, k, false, s, n)
  {
    hide Held, ListOk;
    assert k.cached[0].End() <= z.limit;
    forall b: nat | s <= b < s + n ensures !k.used[b] && !Held(k.locked, b) && !Held(k.tentative, b) {
      assert k.cached[0].Holds(b);
      assert Covers(k.cached, b);
    }
  }

  /** A run of all of [s, s + n) starts at s. */
  lemma ExactFit(v: seq<bool>, x: seq<bool>, s: nat, n: nat, at: nat, count: nat)
    requires BestFit(v, x, s, s + n, n, n, at, count)
    ensures at == s && count == n
  {
  }

  lemma EndsHeld(rs: seq<Range>, lo: nat, hi: nat, lo0: nat, hi0: nat)
    requires Proper(rs) && (lo == lo0 || exists i :: 0 <= i < |rs| && lo == rs[i].last + 1)
    requires hi == hi0 || exists i :: 0 <= i < |rs| && hi == rs[i].start
    ensures lo == lo0 || Held(rs, lo - 1)
    ensures hi == hi0 || Held(rs, hi)
  {
    if lo != lo0 {
      var i :| 0 <= i < |rs| && lo == rs[i].last + 1;
      assert rs[i].Holds(lo - 1);
    }
    if hi != hi0 {
      var i :| 0 <= i < |rs| && hi == rs[i].start;
      assert rs[i].Holds(hi);
    }
  }

  /** The range that a deallocation reports cannot be widened. */
  lemma UnmapWidened(k: Books, k': Books, w: nat, s: nat, n: nat, lo: nat, hi: nat, from: nat, to: nat)
    requires w > 0 && n > 0 && k'.tentative == k.tentative && k'.locked == k.locked
    requires lo <= s && s + n <= hi && forall b: nat :: lo <= b < hi ==> !Held(k.tentative, b) && !Held(k.locked, b)
    requires lo == 0 || Held(k.tentative, lo - 1) || Held(k.locked, lo - 1)
    requires hi == MAX_BLOCK || Held(k.tentative, hi) || Held(k.locked, hi)
    requires lo <= from <= s && s + n <= to <= hi && to <= |k'.used| && AllClear(k'.used, from, to)
    requires from <= lo || from == 32 * ChunkBase(s, w) || k'.used[from - 1]
    requires to >= hi || to == 32 * (ChunkBase(s + n - 1, w) + w) || (to < |k'.used| && k'.used[to])
    ensures Widened(k', w, MAX_BLOCK, s, n, from, to)
  {
    hide Held, ChunkBase;
  }

  lemma TrimsWidened(k: Books, k': Books, w: nat, s: nat, n: nat, lo: nat, hi: nat, from: nat, to: nat)
    requires w > 0 && n > 0 && k'.tentative == k.tentative && k'.locked == k.locked
    requires lo <= s && s + n <= hi && forall b: nat :: lo <= b < hi ==> !Held(k.tentative, b) && !Held(k.locked, b)
    requires lo == 0 || Held(k.tentative, lo - 1) || Held(k.locked, lo - 1)
    requires hi == MAX_BLOCK || Held(k.tentative, hi) || Held(k.locked, hi)
    requires lo <= from <= s && s + n <= to <= hi && to <= |k'.used| && AllClear(k'.used, from, to)
    requires from <= lo || from == 32 * ChunkBase(s, w) || k'.used[from - 1]
    requires to >= hi || to == 32 * (ChunkBase(s + n - 1, w) + w) || (to < |k'.used| && k'.used[to])
    requires k'.trim == k.trim + Span(from, to)
    ensures TrimsAround(k, k', w, MAX_BLOCK, s, n)
  {
    hide Held, ChunkBase, Widened, Span;
    UnmapWidened(k, k', w, s, n, lo, hi, from, to);
  }

  lemma NoFreeBlock(x: seq<bool>, avoid: set<nat>, s: nat, e: nat)
    requires NoRun(Avoiding(x, avoid), s, e, 1) && e <= |x|
    ensures forall b: nat :: s <= b < e ==> x[b] || b in avoid
  {
    forall b: nat | s <= b < e ensures x[b] || b in avoid {
      assert !ClearRun(Avoiding(x, avoid), b, 1);
    }
  }

  lemma SeenSize(z: Sizes, k: Books, ignoreTentative: bool)
    requires z.w > 0
    ensures |Seen(z, k, ignoreTentative)| == |k.used|
  {
  }
}
