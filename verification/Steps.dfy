/** The steps of the volume operations, on the books. */
module VolumeSteps {
  import opened BlockMaps
  import opened Ranges
  import opened BitmapViews
  import opened Bitmaps
  import opened Summaries
  import opened FreeExtentCaches
  import opened Searches
  import opened Accounts

  // ------------------------------------------------------------- steps on the books

  /** A search may add free extents to the cache and full bitmap blocks to the summary. */
  lemma AfterSearch(z: Sizes, k: Books, k': Books, ignoreTentative: bool)
    requires Apportioned(z, k) && z.w > 0
    requires k' == k.(cached := k'.cached, full := k'.full)
    requires CacheGrew(k.cached, k'.cached, View(k.used, k.tentative + k.locked), k.trim)
    requires Learned(k.full, k'.full, View(k.used, Included(k.tentative, k.locked, ignoreTentative)), z.w)
    ensures Apportioned(z, k')
    ensures Counted(z, k) ==> Counted(z, k')
    ensures Sound(z, k) ==> Sound(z, k')
  {
    hide ListOk, ClearIn, Held, Covers;
    forall b: nat | Covers(k'.cached, b) ensures FreeAt(k', b) {
      if !Covers(k.cached, b) { HeldConcat(k.tentative, k.locked, b); }
    }
    if Sound(z, k) { LearnedSound(z, k, k', ignoreTentative); }
  }

  lemma LearnedSound(z: Sizes, k: Books, k': Books, ignoreTentative: bool)
    requires Sound(z, k) && k' == k.(cached := k'.cached, full := k'.full)
    requires Learned(k.full, k'.full, View(k.used, Included(k.tentative, k.locked, ignoreTentative)), z.w)
    ensures Sound(z, k')
  {
    hide ChunkIndex, Held;
    var v := View(k.used, Included(k.tentative, k.locked, ignoreTentative));
    forall b: nat | b < z.total && InFull(k'.full, b, z.w) ensures !FreeAt(k', b) {
      if !InFull(k.full, b, z.w) && b < |v| {
        assert v[b];
        HeldConcat(if ignoreTentative then [] else k.tentative, k.locked, b);
        HeldNone(b);
      }
    }
  }

  lemma HeldNone(b: int)
    ensures !Held([], b)
  {
  }

  /** The only blocks that change hands are those of [lo, hi): they leave a list, may enter
      the cache, and their bitmap blocks are not called full. */
  ghost predicate GivenUp(z: Sizes, k: Books, k': Books, lo: int, hi: int) {
    && k'.used == k.used && k'.trim == k.trim
    && (forall b: nat :: Held(k'.tentative, b) ==> Held(k.tentative, b))
    && (forall b: nat :: Held(k'.locked, b) ==> Held(k.locked, b))
    && (forall b: nat :: Covers(k'.cached, b) ==> Covers(k.cached, b) || (lo <= b < hi && FreeAt(k', b)))
    && (forall b: nat :: FreeAt(k', b) && !FreeAt(k, b) ==> lo <= b < hi)
    && Narrowed(z, k.full, k'.full, lo, hi)
  }

  /** Summary bits are only cleared, and are clear over [lo, hi). */
  ghost predicate Narrowed(z: Sizes, was: seq<bool>, now: seq<bool>, lo: int, hi: int) {
    && z.w > 0 && |was| == |now| && (forall q :: 0 <= q < |was| && now[q] ==> was[q])
    && forall b: nat :: lo <= b < hi && b < z.total ==> !InFull(now, b, z.w)
  }

  /** Whether hfs_release_summary on an extent clears summary bit `i`. */
  predicate Clears(z: Sizes, e: Extent, i: nat)
    requires z.w > 0
  {
    && e.start < z.total && 1 <= e.start + e.count <= z.total
    && ChunkIndex(e.start, z.w) <= i <= ChunkIndex(e.start + e.count - 1, z.w)
  }

  predicate ClearedBy(z: Sizes, parts: seq<Extent>, i: nat)
    requires z.w > 0
  { exists j :: 0 <= j < |parts| && Clears(z, parts[j], i) }

  /** The summary after the parts have been released, bit by bit. */
  ghost predicate Cleared(z: Sizes, was: seq<bool>, now: seq<bool>, parts: seq<Extent>) {
    && z.w > 0 && |now| == |was| && forall i :: 0 <= i < |was| ==> now[i] == (was[i] && !ClearedBy(z, parts, i))
  }

  lemma ClearedNone(z: Sizes, full: seq<bool>)
    requires z.w > 0
    ensures Cleared(z, full, full, [])
  {
  }

  lemma ClearedOne(z: Sizes, was: seq<bool>, now: seq<bool>, e: Extent)
    requires z.w > 0 && |now| == |was| && forall i :: 0 <= i < |was| ==> now[i] == (was[i] && !Clears(z, e, i))
    ensures Cleared(z, was, now, [e])
  {
    hide Clears;
    forall i | 0 <= i < |was| ensures ClearedBy(z, [e], i) <==> Clears(z, e, i) { assert [e][0] == e; }
  }

  lemma ClearedThen(z: Sizes, a: seq<bool>, b: seq<bool>, c: seq<bool>, p: seq<Extent>, q: seq<Extent>)
    requires Cleared(z, a, b, p) && Cleared(z, b, c, q)
    ensures Cleared(z, a, c, p + q)
  {
    hide Clears;
    forall i | 0 <= i < |a| ensures ClearedBy(z, p + q, i) <==> ClearedBy(z, p, i) || ClearedBy(z, q, i) {
      ClearedByEither(z, p, q, i);
    }
  }

  lemma ClearedByEither(z: Sizes, p: seq<Extent>, q: seq<Extent>, i: nat)
    requires z.w > 0
    ensures ClearedBy(z, p + q, i) <==> ClearedBy(z, p, i) || ClearedBy(z, q, i)
  {
    hide Clears;
    if ClearedBy(z, p, i) {
      var j :| 0 <= j < |p| && Clears(z, p[j], i);
      assert (p + q)[j] == p[j];
    }
    if ClearedBy(z, q, i) {
      var j :| 0 <= j < |q| && Clears(z, q[j], i);
      assert (p + q)[|p| + j] == q[j];
    }
  }

  /** The extents of reserved ranges. */
  function PartOf(r: Range): Extent { if 0 <= r.start <= r.last then Extent(r.start, r.Len()) else Extent(0, 0) }

  function PartsOf(rs: seq<Range>): seq<Extent> { seq(|rs|, i requires 0 <= i < |rs| => PartOf(rs[i])) }

  /** The tentative ranges that a new one leaves. */
  function FirstThree(rs: seq<Range>): seq<Range> { if |rs| > 3 then rs[..3] else rs }

  /** What is released to keep within three. */
  function LimitParts(rs: seq<Range>): seq<Extent> { if |rs| > 3 then PartsOf(rs[3..]) else [] }

  lemma PartsMore(rs: seq<Range>, m: nat)
    requires 3 <= m < |rs|
    ensures PartsOf(rs[3..m + 1]) == PartsOf(rs[3..m]) + [PartOf(rs[m])]
  {
  }

  lemma AfterGivingUp(z: Sizes, k: Books, k': Books, lo: int, hi: int)
    requires Apportioned(z, k) && GivenUp(z, k, k', lo, hi)
    requires ListOk(k'.tentative, z.limit) && ListOk(k'.locked, z.limit)
    ensures Apportioned(z, k')
    ensures Sound(z, k) ==> Sound(z, k')
  {
    hide ListOk, Held, Covers, ChunkIndex;
  }

  // ------------------------------------------------------------------- stealing

  /** What the stealing pass leaves of one tentative range when [s, e] is taken: the range
      kept, if any, and the part given back to the free space. */
  datatype Steal = Kept(r: Range) | Cut(r: Range, from: int, count: int) | Dropped

  function StealFrom(r: Range, s: int, e: int): Steal {
    match OverlapOf(r, s, e)
    case ContainsRange =>
      if s - r.start > r.last - e then Cut(r.(last := s - 1), e + 1, r.last - e)
      else Cut(r.(start := e + 1), r.start, s - r.start)
    case Matching => Dropped
    case IsContained => Dropped
    case StartsBefore => Kept(r.(last := s - 1))
    case EndsAfter => Kept(r.(start := e + 1))
    case NoOverlap => Kept(r)
  }

  /** What is left of one range. */
  function LeftOf(r: Range, s: int, e: int): seq<Range> {
    match StealFrom(r, s, e)
    case Kept(q) => [q]
    case Cut(q, _, _) => [q]
    case Dropped => []
  }

  /** What the pass leaves of a list. */
  function Stolen(rs: seq<Range>, s: int, e: int): seq<Range> {
    if rs == [] then [] else Stolen(rs[..|rs| - 1], s, e) + LeftOf(rs[|rs| - 1], s, e)
  }

  /** The part of one range that the pass gives back. */
  function CutParts(r: Range, s: int, e: int): seq<Extent> {
    match StealFrom(r, s, e)
    case Kept(_) => []
    case Cut(_, from, count) => if from >= 0 && count >= 0 then [Extent(from, count)] else []
    case Dropped => []
  }

  /** The parts that the pass over a list gives back. */
  function StealParts(rs: seq<Range>, s: int, e: int): seq<Extent> {
    if rs == [] then [] else StealParts(rs[..|rs| - 1], s, e) + CutParts(rs[|rs| - 1], s, e)
  }

  lemma StealPartsMore(rs: seq<Range>, m: nat, s: int, e: int)
    requires m < |rs|
    ensures StealParts(rs[..m + 1], s, e) == StealParts(rs[..m], s, e) + CutParts(rs[m], s, e)
  {
    assert rs[..m + 1][..m] == rs[..m];
  }

  lemma StolenMore(rs: seq<Range>, m: nat, s: int, e: int)
    requires m < |rs|
    ensures Stolen(rs[..m + 1], s, e) == Stolen(rs[..m], s, e) + LeftOf(rs[m], s, e)
  {
    hide LeftOf;
    assert rs[..m + 1][..m] == rs[..m];
  }

  /** Every block of the range outside [s, e] is either kept or given back, none in both,
      and what is kept is not empty. */
  lemma StealMeans(r: Range, s: int, e: int)
    requires r.start <= r.last && s <= e
    ensures match StealFrom(r, s, e)
            case Kept(q) =>
              && q.start <= q.last
              && forall b: int :: q.Holds(b) <==> r.Holds(b) && !(s <= b <= e)
            case Cut(q, from, count) =>
              && q.start <= q.last && count >= 0 && q.Len() >= count
              && (forall b: int :: r.Holds(b) && !(s <= b <= e) <==> q.Holds(b) || from <= b < from + count)
              && (forall b: int :: !(q.Holds(b) && from <= b < from + count))
            case Dropped => forall b: int :: r.Holds(b) ==> s <= b <= e
  {
  }

  /** What the pass leaves avoids the taken blocks and was reserved before. */
  lemma {:induction false} StolenMeans(rs: seq<Range>, s: int, e: int)
    requires s <= e && Proper(rs)
    ensures forall i :: 0 <= i < |Stolen(rs, s, e)| ==> Avoids(Stolen(rs, s, e)[i], s, e)
    ensures forall b: int :: Held(Stolen(rs, s, e), b) ==> Held(rs, b) && !(s <= b <= e)
  {
    if rs != [] {
      var front, r := rs[..|rs| - 1], rs[|rs| - 1];
      assert rs == front + [r];
      StolenMeans(front, s, e);
      LeftMeans(r, s, e);
      var a, l := Stolen(front, s, e), LeftOf(r, s, e);
      hide LeftOf, Held;
      assert Stolen(rs, s, e) == a + l;
      forall b: int | Held(a + l, b) ensures Held(rs, b) && !(s <= b <= e) {
        HeldConcat(a, l, b);
        HeldConcat(front, [r], b);
        HeldOne(r, b);
      }
    }
  }

  lemma LeftMeans(r: Range, s: int, e: int)
    requires s <= e && r.start <= r.last
    ensures forall i :: 0 <= i < |LeftOf(r, s, e)| ==> Avoids(LeftOf(r, s, e)[i], s, e)
    ensures forall b: int :: Held(LeftOf(r, s, e), b) ==> r.Holds(b) && !(s <= b <= e)
  {
    StealMeans(r, s, e);
    hide StealFrom;
    match StealFrom(r, s, e)
    case Kept(q) => AvoidsNow(q, s, e);
    case Cut(q, _, _) => AvoidsNow(q, s, e);
    case Dropped =>
  }

  predicate Avoids(r: Range, s: int, e: int) { r.last < s || e < r.start }

  /** Ranges that share a block share it inside [s, e]. */
  ghost predicate OverlapOnly(rs: seq<Range>, s: int, e: int) {
    forall i, j, b: int :: 0 <= i < j < |rs| && rs[i].Holds(b) && rs[j].Holds(b) ==> s <= b <= e
  }

  /** Apportioned, but for the tentative ranges that [s, e] has just been taken from. */
  ghost predicate Taking(z: Sizes, k: Books, s: int, e: int) {
    && z.limit <= z.total <= |k.used| && s <= e
    && Proper(k.tentative) && Inside(k.tentative, 0, z.limit) && OverlapOnly(k.tentative, s, e)
    && ListOk(k.locked, z.limit)
    && (forall b: nat :: Held(k.tentative, b) && !(s <= b <= e) ==> b < |k.used| && !k.used[b] && !Held(k.locked, b))
    && (forall b: nat :: Held(k.locked, b) ==> b < |k.used| && !k.used[b])
    && (forall b: nat :: Covers(k.cached, b) ==>
          b < |k.used| && !k.used[b] && !Held(k.locked, b) && (Held(k.tentative, b) ==> s <= b <= e))
    && (forall b: nat :: b in k.trim ==> FreeAt(k, b))
  }

  ghost predicate SoundOutside(z: Sizes, k: Books, s: int, e: int) {
    z.w > 0 && forall b: nat :: b < z.total && !(s <= b <= e) && InFull(k.full, b, z.w) ==> !FreeAt(k, b)
  }

  lemma TakenAll(z: Sizes, k: Books, s: int, e: int)
    requires Taking(z, k, s, e) && forall i :: 0 <= i < |k.tentative| ==> Avoids(k.tentative[i], s, e)
    ensures Apportioned(z, k)
    ensures forall b: int :: Held(k.tentative, b) ==> !(s <= b <= e)
  {
    hide Covers;
    var rs := k.tentative;
    forall i, j | 0 <= i < j < |rs| ensures rs[i].last < rs[j].start || rs[j].last < rs[i].start {
      var x := if rs[i].start >= rs[j].start then rs[i].start else rs[j].start;
      assert rs[i].Holds(x) && rs[j].Holds(x) ==> s <= x <= e;
    }
  }

  /** Replacing entry `i` by a part of it. */
  lemma CutEntry(rs: seq<Range>, i: nat, q: Range, s: int, e: int, limit: nat)
    requires i < |rs| && Proper(rs) && Inside(rs, 0, limit) && OverlapOnly(rs, s, e)
    requires q.start <= q.last && forall b: int :: q.Holds(b) ==> rs[i].Holds(b)
    ensures var ns := rs[i := q]; Proper(ns) && Inside(ns, 0, limit) && OverlapOnly(ns, s, e)
    ensures forall b: int :: Held(rs[i := q], b) ==> Held(rs, b)
    ensures forall b: int :: Held(rs, b) && !Held(rs[i := q], b) ==> rs[i].Holds(b) && !q.Holds(b)
    ensures forall b: int :: rs[i].Holds(b) ==> Held(rs, b)
    ensures forall b: int :: rs[i].Holds(b) && !q.Holds(b) && Held(rs[i := q], b) ==> s <= b <= e
  {
    var ns := rs[i := q];
    assert q.Holds(q.start) && q.Holds(q.last);
    forall b: int
      ensures Held(ns, b) ==> Held(rs, b)
      ensures Held(rs, b) && !Held(ns, b) ==> rs[i].Holds(b) && !q.Holds(b)
      ensures rs[i].Holds(b) && !q.Holds(b) && Held(ns, b) ==> s <= b <= e
    {
      if Held(ns, b) {
        var j :| 0 <= j < |ns| && ns[j].Holds(b);
        assert rs[j].Holds(b);
      }
      if Held(rs, b) {
        var j :| 0 <= j < |rs| && rs[j].Holds(b);
        if j != i { assert ns[j].Holds(b); }
      }
      if q.Holds(b) { assert ns[i].Holds(b); }
    }
  }

  lemma DropEntry(rs: seq<Range>, i: nat, s: int, e: int, limit: nat)
    requires i < |rs| && Proper(rs) && Inside(rs, 0, limit) && OverlapOnly(rs, s, e)
    requires forall b: int :: rs[i].Holds(b) ==> s <= b <= e
    ensures var ns := Without(rs, i); Proper(ns) && Inside(ns, 0, limit) && OverlapOnly(ns, s, e)
    ensures forall b: int :: Held(Without(rs, i), b) ==> Held(rs, b)
    ensures forall b: int :: Held(rs, b) && !Held(Without(rs, i), b) ==> s <= b <= e
  {
    var ns := Without(rs, i);
    assert forall j :: 0 <= j < |ns| ==> ns[j] == rs[if j < i then j else j + 1];
    forall b: int ensures (Held(ns, b) ==> Held(rs, b)) && (Held(rs, b) && !Held(ns, b) ==> s <= b <= e) {
      if Held(ns, b) {
        var j :| 0 <= j < |ns| && ns[j].Holds(b);
        assert rs[if j < i then j else j + 1].Holds(b);
      }
      if Held(rs, b) {
        var j :| 0 <= j < |rs| && rs[j].Holds(b);
        if j != i { assert ns[if j < i then j else j - 1].Holds(b); }
      }
    }
  }

  lemma TakingEntry(z: Sizes, k: Books, i: nat, s: int, e: int)
    requires Taking(z, k, s, e) && i < |k.tentative|
    ensures s <= e && 0 <= k.tentative[i].start <= k.tentative[i].last < z.limit
  {
  }

  lemma AvoidsNow(q: Range, s: int, e: int)
    requires q.start <= q.last && forall b: int :: q.Holds(b) ==> !(s <= b <= e)
    requires s <= e
    ensures Avoids(q, s, e)
  {
    if q.start <= s <= q.last { assert q.Holds(s); }
    if s <= q.start <= e { assert q.Holds(q.start); }
  }

  lemma CutFits(r: Range, q: Range, s: int, e: int, from: int, count: int)
    requires 0 <= r.start <= r.last && count >= 0
    requires forall b: int :: r.Holds(b) && !(s <= b <= e) <==> q.Holds(b) || from <= b < from + count
    requires StealFrom(r, s, e) == Cut(q, from, count) && s <= e
    ensures 0 <= from && from + count <= r.last + 1
    ensures forall b: int :: q.Holds(b) ==> r.Holds(b) && !(s <= b <= e)
  {
  }

  /** Dropping a range that [s, e] covers, on the books. */
  lemma AfterDrop(z: Sizes, k: Books, k': Books, i: nat, s: int, e: int)
    requires Taking(z, k, s, e) && i < |k.tentative|
    requires k' == k.(tentative := Without(k.tentative, i), tentativeBlocks := k'.tentativeBlocks)
    requires forall b: int :: k.tentative[i].Holds(b) ==> s <= b <= e
    ensures Taking(z, k', s, e)
    ensures forall b: int :: Held(k'.tentative, b) ==> Held(k.tentative, b)
    ensures SoundOutside(z, k, s, e) ==> SoundOutside(z, k', s, e)
  {
    hide Held, Covers, ListOk, InFull, Without;
    DropEntry(k.tentative, i, s, e, z.limit);
  }

  /** Stealing from one range, on the books. */
  lemma AfterCut(z: Sizes, k: Books, k': Books, i: nat, q: Range, s: int, e: int, from: int, count: int)
    requires Taking(z, k, s, e) && i < |k.tentative| && count >= 0
    requires k'.tentative == k.tentative[i := q] && k'.locked == k.locked && k'.used == k.used && k'.trim == k.trim
    requires q.start <= q.last
    requires forall b: int :: k.tentative[i].Holds(b) && !(s <= b <= e) <==> q.Holds(b) || from <= b < from + count
    requires forall b: int :: !(q.Holds(b) && from <= b < from + count)
    requires forall b: nat :: Covers(k'.cached, b) ==> Covers(k.cached, b) || from <= b < from + count
    requires Narrowed(z, k.full, k'.full, from, from + count)
    ensures Taking(z, k', s, e)
    ensures forall b: int :: Held(k'.tentative, b) ==> Held(k.tentative, b)
    ensures SoundOutside(z, k, s, e) ==> SoundOutside(z, k', s, e)
  {
    hide Held, Covers, ListOk, OverlapOnly, Proper, Inside, SoundOutside, Narrowed;
    var r := k.tentative[i];
    CutEntry(k.tentative, i, q, s, e, z.limit);
    forall b: nat | Covers(k'.cached, b)
      ensures b < |k.used| && !k.used[b] && !Held(k.locked, b) && (Held(k'.tentative, b) ==> s <= b <= e)
    {
      if !Covers(k.cached, b) { assert r.Holds(b) && !q.Holds(b); }
    }
    forall b: nat | b in k'.trim ensures FreeAt(k', b) { assert FreeAt(k, b); }
    forall b: nat | Held(k'.tentative, b) && !(s <= b <= e) ensures b < |k.used| && !k.used[b] && !Held(k.locked, b) {
      assert Held(k.tentative, b);
    }
    assert Taking(z, k', s, e);
    if SoundOutside(z, k, s, e) { CutSound(z, k, k', i, q, s, e, from, count); }
  }

  lemma CutSound(z: Sizes, k: Books, k': Books, i: nat, q: Range, s: int, e: int, from: int, count: int)
    requires Taking(z, k, s, e) && i < |k.tentative| && count >= 0
    requires k'.tentative == k.tentative[i := q] && k'.locked == k.locked && k'.used == k.used && k'.trim == k.trim
    requires q.start <= q.last
    requires forall b: int :: k.tentative[i].Holds(b) && !(s <= b <= e) <==> q.Holds(b) || from <= b < from + count
    requires forall b: int :: !(q.Holds(b) && from <= b < from + count)
    requires Narrowed(z, k.full, k'.full, from, from + count) && SoundOutside(z, k, s, e)
    ensures SoundOutside(z, k', s, e)
  {
    hide Held, Covers, ListOk, OverlapOnly, InFull;
    var r := k.tentative[i];
    CutEntry(k.tentative, i, q, s, e, z.limit);
    forall b: nat | b < z.total && !(s <= b <= e) && InFull(k'.full, b, z.w) ensures !FreeAt(k', b) {
      FullBefore(k.full, k'.full, b, z.w);
      assert !FreeAt(k, b);
      assert r.Holds(b) && !q.Holds(b) ==> from <= b < from + count;
      assert Held(k.tentative, b) ==> Held(k'.tentative, b);
    }
  }

  lemma FullBefore(was: seq<bool>, now: seq<bool>, b: nat, w: nat)
    requires w > 0 && |was| == |now| && InFull(now, b, w)
    requires forall j :: 0 <= j < |was| && now[j] ==> was[j]
    ensures InFull(was, b, w)
  {
    hide ChunkIndex;
  }

  lemma RangeFits(rs: seq<Range>, i: nat, limit: nat)
    requires i < |rs| && ListOk(rs, limit)
    ensures 0 <= rs[i].start <= rs[i].last < limit
  {
  }

  // ---------------------------------------------------------------- taking blocks

  /** How blocks are taken: for good, as a tentative reservation or as a locked one. */
  datatype Kind = Permanent | Tentative | Locked

  /** Blocks [s, s + n) may be taken; tentative ones only when tentative ranges are ignored. */
  ghost predicate Available(z: Sizes, k: Books, ignoreTentative: bool, s: nat, n: nat) {
    && n > 0 && s + n <= z.limit <= |k.used|
    && forall b: nat :: s <= b < s + n ==>
         !k.used[b] && !Held(k.locked, b) && (ignoreTentative || !Held(k.tentative, b))
  }

  /** Blocks [s, s + n) have left the cache and the pending trims, which only shrank. */
  ghost predicate Claimed(k: Books, k': Books, s: nat, n: nat) {
    && (forall b: nat :: Covers(k'.cached, b) ==> Covers(k.cached, b) && !(s <= b < s + n))
    && (forall b: nat :: b in k'.trim ==> b in k.trim && !(s <= b < s + n))
  }

  /** Blocks [s, s + n) are allocated or locked. */
  ghost predicate Taken(k: Books, s: nat, n: nat) {
    s + n <= |k.used| && forall b: nat :: s <= b < s + n ==> k.used[b] || Held(k.locked, b)
  }

  lemma TakeForGood(z: Sizes, k: Books, k': Books, s: nat, n: nat, ignoreTentative: bool)
    requires Apportioned(z, k) && Counted(z, k) && Available(z, k, ignoreTentative, s, n)
    requires Claimed(k, k', s, n)
    requires k' == k.(used := SetRange(k.used, s, n), cached := k'.cached, trim := k'.trim, free := k.free - n)
    ensures Taking(z, k', s, s + n - 1) && Counted(z, k') && Taken(k', s, n)
    ensures Sound(z, k) ==> SoundOutside(z, k', s, s + n - 1)
  {
    hide SetRange, ClearIn, Held, Covers, InFull;
    SetRangeAt(k.used, s, n);
    CountSetIn(k.used, z.total, s, n);
    StillApart(k.tentative, s, s + n - 1);
  }

  lemma StillApart(rs: seq<Range>, s: int, e: int)
    requires Disjoint(rs)
    ensures OverlapOnly(rs, s, e)
  {
  }

  lemma TakeLocked(z: Sizes, k: Books, k': Books, s: nat, n: nat, ignoreTentative: bool)
    requires Apportioned(z, k) && Counted(z, k) && Available(z, k, ignoreTentative, s, n)
    requires Claimed(k, k', s, n)
    requires k' == k.(locked := [Range(s, s + n - 1)] + k.locked, cached := k'.cached, trim := k'.trim,
                      lockedBlocks := k.lockedBlocks + n)
    ensures Taking(z, k', s, s + n - 1) && Counted(z, k') && Taken(k', s, n)
    ensures Sound(z, k) ==> SoundOutside(z, k', s, s + n - 1)
  {
    hide ClearIn, Held, Covers, InFull, TotalLen;
    AddedHeld(k.locked, Range(s, s + n - 1), z.limit);
    StillApart(k.tentative, s, s + n - 1);
  }

  /** A new tentative range; its blocks are out of the pending trims, and out of the cache
      unless other tentative ranges are ignored. */
  lemma TakeTentative(z: Sizes, k: Books, k': Books, s: nat, n: nat, ignoreTentative: bool)
    requires Apportioned(z, k) && Available(z, k, ignoreTentative, s, n)
    requires forall b: nat :: b in k.trim ==> !(s <= b < s + n)
    requires !ignoreTentative ==> forall b: nat :: Covers(k.cached, b) ==> !(s <= b < s + n)
    requires k' == k.(tentative := [Range(s, s + n - 1)] + k.tentative)
    ensures Taking(z, k', s, s + n - 1) && TotalLen(k'.tentative) == TotalLen(k.tentative) + n
    ensures Sound(z, k) ==> Sound(z, k')
    ensures !ignoreTentative ==> Apportioned(z, k')
  {
    hide ClearIn, Held, Covers, InFull, TotalLen;
    var r := Range(s, s + n - 1);
    AddedOverlap(k.tentative, r, z.limit);
    if !ignoreTentative { AddedHeld(k.tentative, r, z.limit); }
  }

  /** Blocks leaving the cache and the trims do no harm. */
  lemma AfterClaim(z: Sizes, k: Books, k': Books, s: nat, n: nat)
    requires Apportioned(z, k) && Claimed(k, k', s, n)
    requires k' == k.(cached := k'.cached, trim := k'.trim, tentativeBlocks := k'.tentativeBlocks)
    ensures Apportioned(z, k')
    ensures Sound(z, k) ==> Sound(z, k')
  {
    hide Held, Covers, ListOk, InFull;
  }

  /** The head of a tentative list. */
  lemma PrefixHeld(rs: seq<Range>, n: nat, b: int)
    requires n <= |rs|
    ensures Held(rs[..n], b) ==> Held(rs, b)
  {
  }

  lemma AddedOverlap(rs: seq<Range>, r: Range, limit: nat)
    requires ListOk(rs, limit) && 0 <= r.start <= r.last < limit
    ensures var ns := [r] + rs;
            Proper(ns) && Inside(ns, 0, limit) && OverlapOnly(ns, r.start, r.last) && TotalLen(ns) == TotalLen(rs) + r.Len()
    ensures forall b: int :: Held([r] + rs, b) <==> Held(rs, b) || r.Holds(b)
  {
    var ns := [r] + rs;
    assert ns[1..] == rs;
    forall b: int ensures Held(ns, b) <==> Held(rs, b) || r.Holds(b) {
      HeldConcat([r], rs, b);
      HeldOne(r, b);
    }
  }

  /** Nothing tentative was taken: the books are in order again. */
  lemma NothingStolen(z: Sizes, k: Books, s: nat, n: nat)
    requires n > 0 && Taking(z, k, s, s + n - 1) && forall b: nat :: s <= b < s + n ==> !Held(k.tentative, b)
    ensures Apportioned(z, k)
  {
    hide Covers, ListOk;
    HeldAvoids(k.tentative, s, n);
    TakenAll(z, k, s, s + n - 1);
  }

  lemma Settled(z: Sizes, k: Books, s: nat, n: nat)
    requires n > 0 && SoundOutside(z, k, s, s + n - 1) && Taken(k, s, n)
    ensures Sound(z, k)
  {
    hide InFull, Held;
  }

  /** The books once [s, s + n) has been granted. */
  ghost predicate Granted(k: Books, k': Books, kind: Kind, ignoreTentative: bool, s: nat, n: nat) {
    && s + n <= |k.used|
    && k'.used == (if kind.Permanent? then SetRange(k.used, s, n) else k.used)
    && k'.trim == (set b | b in k.trim && !(s <= b < s + n))
    && k'.locked == (if kind.Locked? then [Range(s, s + n - 1)] else []) + k.locked
    && var listed := if kind.Tentative? then [Range(s, s + n - 1)] + FirstThree(k.tentative) else k.tentative;
       if ignoreTentative then
         && k'.tentative == Stolen(listed, s, s + n - 1)
         && forall b: nat :: Held(k'.tentative, b) ==> Held(k.tentative, b) && !(s <= b < s + n)
       else k'.tentative == listed
  }

  /** A run clear in the view of a search may be taken. */
  lemma ClearIsAvailable(z: Sizes, k: Books, ignoreTentative: bool, s: nat, n: nat)
    requires n > 0 && s + n <= z.limit <= |k.used|
    requires ClearRun(View(k.used, Included(k.tentative, k.locked, ignoreTentative)), s, n)
    ensures Available(z, k, ignoreTentative, s, n)
  {
    hide Held;
    var v := View(k.used, Included(k.tentative, k.locked, ignoreTentative));
    forall b: nat | s <= b < s + n
      ensures !k.used[b] && !Held(k.locked, b) && (ignoreTentative || !Held(k.tentative, b))
    {
      assert !v[b];
      HeldConcat(if ignoreTentative then [] else k.tentative, k.locked, b);
    }
  }

  // ------------------------------------------------------------ using reservations

  /** The list once the first `n` blocks of entry `i` have been used. */
  function Shrunk(rs: seq<Range>, i: nat, n: nat): seq<Range>
    requires i < |rs|
  { if n == rs[i].Len() then Without(rs, i) else rs[i := Range(rs[i].start + n, rs[i].last)] }

  lemma ShrunkMeans(rs: seq<Range>, i: nat, n: nat, limit: nat)
    requires i < |rs| && ListOk(rs, limit) && 0 < n <= rs[i].Len()
    ensures ListOk(Shrunk(rs, i, n), limit) && TotalLen(Shrunk(rs, i, n)) == TotalLen(rs) - n
    ensures forall b: int :: Held(Shrunk(rs, i, n), b) <==> Held(rs, b) && !(rs[i].start <= b < rs[i].start + n)
    ensures forall b: int :: rs[i].start <= b < rs[i].start + n ==> Held(rs, b)
  {
    hide TotalLen, Held, ListOk, Without;
    var r := rs[i];
    WithoutHeld(rs, i, limit);
    if n == r.Len() {
      WithoutLen(rs, i);
    } else {
      ReplacedLen(rs, i, Range(r.start + n, r.last));
      ReplacedOk(rs, i, n, limit);
      forall b: int ensures Held(Shrunk(rs, i, n), b) <==> Held(rs, b) && !(r.start <= b < r.start + n) {
        ReplacedHeld(rs, i, n, limit, b);
      }
    }
  }

  lemma ReplacedOk(rs: seq<Range>, i: nat, n: nat, limit: nat)
    requires i < |rs| && ListOk(rs, limit) && 0 < n < rs[i].Len()
    ensures ListOk(rs[i := Range(rs[i].start + n, rs[i].last)], limit)
  {
  }

  lemma ReplacedHeld(rs: seq<Range>, i: nat, n: nat, limit: nat, b: int)
    requires i < |rs| && ListOk(rs, limit) && 0 < n < rs[i].Len()
    ensures Held(rs[i := Range(rs[i].start + n, rs[i].last)], b) <==>
              Held(rs, b) && !(rs[i].start <= b < rs[i].start + n)
  {
    var ns := rs[i := Range(rs[i].start + n, rs[i].last)];
    if Held(ns, b) {
      var j :| 0 <= j < |ns| && ns[j].Holds(b);
      assert rs[j].Holds(b);
    }
    if Held(rs, b) && !(rs[i].start <= b < rs[i].start + n) {
      var j :| 0 <= j < |rs| && rs[j].Holds(b);
      assert ns[j].Holds(b);
    }
  }

  /** The first blocks of a tentative reservation become allocated. */
  lemma UseForGood(z: Sizes, k: Books, k': Books, i: nat, n: nat)
    requires Apportioned(z, k) && Counted(z, k) && i < |k.tentative| && 0 < n <= k.tentative[i].Len()
    requires k.tentative[i].start >= 0
    requires k' == k.(used := SetRange(k.used, k.tentative[i].start, n), tentative := Shrunk(k.tentative, i, n),
                      free := k.free - n, tentativeBlocks := k.tentativeBlocks - n)
    ensures Apportioned(z, k') && Counted(z, k')
    ensures Sound(z, k) ==> Sound(z, k')
  {
    hide SetRange, ClearIn, Held, Covers, InFull, Shrunk, TotalLen;
    var s := k.tentative[i].start;
    ShrunkMeans(k.tentative, i, n, z.limit);
    SetRangeAt(k.used, s, n);
    CountSetIn(k.used, z.total, s, n);
  }

  /** The first blocks of a tentative reservation become locked. */
  lemma UseLocked(z: Sizes, k: Books, k': Books, i: nat, n: nat)
    requires Apportioned(z, k) && Counted(z, k) && i < |k.tentative| && 0 < n <= k.tentative[i].Len()
    requires k.tentative[i].start >= 0
    requires k' == k.(tentative := Shrunk(k.tentative, i, n),
                      locked := [Range(k.tentative[i].start, k.tentative[i].start + n - 1)] + k.locked,
                      tentativeBlocks := k.tentativeBlocks - n, lockedBlocks := k.lockedBlocks + n)
    ensures Apportioned(z, k') && Counted(z, k')
    ensures Sound(z, k) ==> Sound(z, k')
  {
    hide ClearIn, Held, Covers, InFull, Shrunk, TotalLen;
    var s := k.tentative[i].start;
    ShrunkMeans(k.tentative, i, n, z.limit);
    AddedHeld(k.locked, Range(s, s + n - 1), z.limit);
  }

  /** The first blocks of a locked reservation become allocated. */
  lemma CommitForGood(z: Sizes, k: Books, k': Books, i: nat, n: nat)
    requires Apportioned(z, k) && Counted(z, k) && i < |k.locked| && 0 < n <= k.locked[i].Len()
    requires k.locked[i].start >= 0
    requires k' == k.(used := SetRange(k.used, k.locked[i].start, n), locked := Shrunk(k.locked, i, n),
                      free := k.free - n, lockedBlocks := k.lockedBlocks - n)
    ensures Apportioned(z, k') && Counted(z, k')
    ensures Sound(z, k) ==> Sound(z, k')
  {
    hide SetRange, ClearIn, Held, Covers, InFull, Shrunk, TotalLen;
    var s := k.locked[i].start;
    ShrunkMeans(k.locked, i, n, z.limit);
    SetRangeAt(k.used, s, n);
    CountSetIn(k.used, z.total, s, n);
  }

  /** Reserved blocks are in no pending trim. */
  lemma NotPending(z: Sizes, k: Books, s: nat, n: nat)
    requires Apportioned(z, k) && forall b: nat :: s <= b < s + n ==> Held(k.tentative, b) || Held(k.locked, b)
    ensures k.trim == set b | b in k.trim && !(s <= b < s + n)
  {
    hide Covers, ListOk, Held;
  }

  // ------------------------------------------------------------------- searching

  /** The view of a search that does not consult the summary. */
  ghost function Plain(k: Books, ignoreTentative: bool): seq<bool> {
    View(k.used, Included(k.tentative, k.locked, ignoreTentative))
  }

  /** The view of a search that trusts the summary. */
  ghost function Seen(z: Sizes, k: Books, ignoreTentative: bool): seq<bool>
    requires z.w > 0
  { Masked(Plain(k, ignoreTentative), k.full, z.w) }

  /** What a search leaves: more may be cached and more bitmap blocks known to be full, but
      the books stay in order and the search sees the same blocks as before. */
  ghost predicate Searched(z: Sizes, k: Books, k': Books, ignoreTentative: bool) {
    && z.w > 0 && k' == k.(cached := k'.cached, full := k'.full)
    && Apportioned(z, k') && Counted(z, k') && (Sound(z, k) ==> Sound(z, k'))
    && Seen(z, k', ignoreTentative) == Seen(z, k, ignoreTentative)
  }

  lemma SearchedBy(z: Sizes, k: Books, k': Books, ignoreTentative: bool)
    requires Apportioned(z, k) && Counted(z, k) && z.w > 0
    requires k' == k.(cached := k'.cached, full := k'.full)
    requires CacheGrew(k.cached, k'.cached, View(k.used, k.tentative + k.locked), k.trim)
    requires Learned(k.full, k'.full, Plain(k, ignoreTentative), z.w)
    ensures Searched(z, k, k', ignoreTentative)
  {
    hide CacheGrew, Learned, Apportioned, Counted, Sound, View, Masked;
    AfterSearch(z, k, k', ignoreTentative);
    LearnedMasked(k.full, k'.full, Plain(k, ignoreTentative), z.w);
  }

  lemma NothingMasked(v: seq<bool>, w: nat)
    requires w > 0
    ensures Masked(v, [], w) == v
  {
  }

  /** With a sound summary and nothing ignored, a search sees exactly the free blocks. */
  lemma SeenIsFree(z: Sizes, k: Books)
    requires Sound(z, k) && z.total <= |k.used|
    ensures |Plain(k, false)| == |k.used| == |Seen(z, k, false)|
    ensures forall b: nat :: b < z.total ==> Seen(z, k, false)[b] == !FreeAt(k, b) == Plain(k, false)[b]
  {
    hide InFull, Held;
    forall b: nat | b < z.total ensures Seen(z, k, false)[b] == !FreeAt(k, b) == Plain(k, false)[b] {
      HeldConcat(k.tentative, k.locked, b);
    }
  }

  /** A search that may take tentative blocks sees all it may take exactly when no tentative
      block lies in a bitmap block that the summary calls full. */
  lemma StealingSees(z: Sizes, k: Books)
    requires Apportioned(z, k) && Sound(z, k)
    ensures |Plain(k, true)| == |k.used| == |Seen(z, k, true)|
    ensures (forall b: nat :: b < z.total ==> Seen(z, k, true)[b] == Plain(k, true)[b])
            <==> (forall b: nat :: b < z.total && Held(k.tentative, b) ==> !InFull(k.full, b, z.w))
  {
    hide InFull, Held, ListOk, Covers;
    assert [] + k.locked == k.locked;
    forall b: nat | b < z.total && Held(k.tentative, b) && InFull(k.full, b, z.w) ensures Seen(z, k, true)[b] != Plain(k, true)[b] { }
    forall b: nat | b < z.total && Seen(z, k, true)[b] != Plain(k, true)[b] ensures Held(k.tentative, b) && InFull(k.full, b, z.w) {
      assert !FreeAt(k, b);
    }
  }

  /** The books of a volume with one free block, number 64, held by a tentative range in a bitmap
      block that the summary rightly calls full: the search that may take it does not see it. */
  lemma StealingMisses(u: seq<bool>, k: Books)
    requires |u| == 128 && forall b :: 0 <= b < 128 ==> u[b] == (b != 64)
    requires k == Books(u, [Range(64, 64)], [], [], {}, [false, true], 1, 1, 0)
    ensures var z := Sizes(128, 128, 2);
            && Apportioned(z, k) && Counted(z, k) && Sound(z, k)
            && |Plain(k, true)| == |Seen(z, k, true)| == 128 && Seen(z, k, true)[64] && !Plain(k, true)[64]
  {
    hide ClearIn;
    var z := Sizes(128, 128, 2);
    OneClear(u, 64, 128);
    OneRange(64);
    hide Held, TotalLen;
    assert InFull(k.full, 64, 2);
    StealingSees(z, k);
  }

  lemma ClearInSub(u: seq<bool>, a: nat, b: nat, n: nat)
    requires a <= b <= n <= |u|
    ensures ClearIn(u, a, b) <= ClearIn(u, 0, n)
  {
    hide ClearIn;
    ClearInSplit(u, 0, a, n);
    ClearInSplit(u, a, b, n);
  }

  /** The counters bound the free blocks of any part of the volume. */
  lemma RemainingBound(z: Sizes, k: Books, ignoreTentative: bool, a: nat, b: nat)
    requires Apportioned(z, k) && Counted(z, k) && a <= b <= z.limit
    ensures |Plain(k, ignoreTentative)| == |k.used|
    ensures ClearIn(Plain(k, ignoreTentative), a, b)
            <= k.free - k.lockedBlocks - (if ignoreTentative then 0 else k.tentativeBlocks)
  {
    hide ClearIn, ListOk;
    CountersMatchView(z, k, ignoreTentative);
    ClearInSub(Plain(k, ignoreTentative), a, b, z.total);
  }

  /** The answer of a first fit that starts at `start`, sees `x`, and on failure goes back to
      the start of the volume with the plain view `v`, up to `back`. */
  ghost predicate AroundFit(v: seq<bool>, x: seq<bool>, start: nat, limit: nat, back: nat, min: nat, max: nat,
                            r: SearchResult) {
    match r
    case DiskFull => NoRun(x, start, limit, min) && (start != 0 ==> NoRun(v, 1, back, min))
    case Fit(s, n) =>
      || FirstFit(v, x, start, limit, min, max, s, n)
      || (NoRun(x, start, limit, min) && start != 0 && FirstFit(v, v, 1, back, min, max, s, n))
  }

  /** The answer is that of a first fit from one of the starting points. */
  ghost predicate FitsFrom(v: seq<bool>, x: seq<bool>, starts: seq<nat>, limit: nat, hasSummary: bool, min: nat,
                           max: nat,
                           r: SearchResult) {
    exists i :: 0 <= i < |starts| &&
      AroundFit(v, x, starts[i], limit, if hasSummary then limit else starts[i], min, max, r)
  }

  lemma FoundFrom(v: seq<bool>, x: seq<bool>, start: nat, answers: seq<nat>, i: nat, limit: nat, hasSummary: bool,
                  min: nat, max: nat, r: SearchResult)
    requires i <= |answers|
    requires var c := if i == 0 then start else answers[i - 1];
             AroundFit(v, x, c, limit, if hasSummary then limit else c, min, max, r)
    ensures FitsFrom(v, x, [start] + answers, limit, hasSummary, min, max, r)
  {
    hide AroundFit;
    assert ([start] + answers)[i] == if i == 0 then start else answers[i - 1];
  }

  /** Some run of min..max clear blocks holds a block that is still awaiting a trim. */
  ghost predicate PendingRun(v: seq<bool>, limit: nat, trim: set<nat>, min: nat, max: nat) {
    exists s: nat, n: nat :: PendingAt(v, limit, trim, min, max, s, n)
  }

  ghost predicate PendingAt(v: seq<bool>, limit: nat, trim: set<nat>, min: nat, max: nat, s: nat, n: nat) {
    && min <= n <= max && s + n <= limit <= |v| && AllClear(v, s, s + n)
    && exists b :: b in trim && s <= b < s + n
  }

  lemma PendingFound(z: Sizes, k: Books, ignoreTentative: bool, min: nat, max: nat, s: nat, n: nat)
    requires Available(z, k, ignoreTentative, s, n) && min <= n <= max && exists b :: b in k.trim && s <= b < s + n
    ensures PendingRun(Plain(k, ignoreTentative), z.limit, k.trim, min, max)
  {
    hide Held;
    var v := Plain(k, ignoreTentative);
    forall b: nat | s <= b < s + n ensures !v[b] {
      if ignoreTentative { assert [] + k.locked == k.locked; } else { HeldConcat(k.tentative, k.locked, b); }
    }
    assert PendingAt(v, z.limit, k.trim, min, max, s, n);
  }

  /** Whether [a, a + m) and [b, b + n) share a block. */
  predicate ExtentsOverlap(a: nat, m: nat, b: nat, n: nat) { a < b + n && b < a + m }

  lemma OverlapMeans(a: nat, m: nat, b: nat, n: nat)
    ensures ExtentsOverlap(a, m, b, n) && m > 0 && n > 0 <==>
              exists x: nat :: Extent(a, m).Holds(x) && Extent(b, n).Holds(x)
  {
    if ExtentsOverlap(a, m, b, n) && m > 0 && n > 0 {
      var x := if a >= b then a else b;
      assert Extent(a, m).Holds(x) && Extent(b, n).Holds(x);
    }
  }

  lemma SearchedTrans(z: Sizes, k: Books, k': Books, k'': Books, ignoreTentative: bool)
    requires Searched(z, k, k', ignoreTentative) && Searched(z, k', k'', ignoreTentative)
    ensures Searched(z, k, k'', ignoreTentative)
  {
    hide Apportioned, Counted, Sound, Seen;
  }

  lemma StillAvailable(z: Sizes, k: Books, k': Books, ignoreTentative: bool, s: nat, n: nat)
    requires Searched(z, k, k', ignoreTentative) && Available(z, k, ignoreTentative, s, n)
    ensures Available(z, k', ignoreTentative, s, n)
  {
    hide Apportioned, Counted, Sound, Seen, Held;
  }

  // ------------------------------------------------------------------- requests

  /** An allocation request: a preferred block (0 for none), at least `min` blocks if they
      must be contiguous, at most `max` (0 for `min`). */
  datatype Request = Request(start: nat, min: nat, max: nat, kind: Kind, contiguous: bool, hard: bool,
                             ignoreTentative: bool, flush: bool, alignment: nat, alignmentOffset: nat)
  {
    predicate Ok() { 0 < min && (max == 0 || min <= max) }
    function Max(): nat { if max == 0 then min else max }
    predicate Whole() { contiguous || hard }
  }

  /** Free space of the volume that backs a sparse device, if there is one. */
  datatype Backing = Unlimited | Limited(free: nat)

  /** hfs_freeblks: what may be handed out once loaned and locked blocks are set aside. It is the
      most that leaves those blocks free and that the backing store can hold. */
  function FreeForUse(free: int, locked: int, loaned: nat, backing: Backing): (r: nat)
    ensures r > 0 ==> r + loaned + locked <= free
    ensures backing.Limited? ==> r <= backing.free
    ensures r + 1 + loaned + locked > free || (backing.Limited? && r + 1 > backing.free)
  {
    var f := if free > loaned + locked then free - (loaned + locked) else 0;
    if backing.Limited? && backing.free < f then backing.free else f
  }

  /** Where a search for a request starts: at the block asked for, or at the roving pointer if
      none is, or at the front if that is past the end. */
  function StartOf(req: Request, rover: nat, limit: nat): (r: nat)
    ensures r > 0 ==> r < limit && (r == req.start || (req.start == 0 && r == rover))
    ensures 0 < req.start < limit ==> r == req.start
    ensures req.start == 0 && rover < limit ==> r == rover
  {
    var s := if req.start == 0 then rover else req.start;
    if s >= limit then 0 else s
  }

  /** Whether a length ends on the alignment. */
  predicate OnBoundary(req: Request, q: nat)
    requires req.alignment > 0
  { (q + req.alignmentOffset) % req.alignment == 0 }

  /** What a length becomes: unless it is the maximum, the largest length from `min` to it that
      ends on the alignment, if there is one. */
  ghost predicate Rounded(req: Request, min: nat, count: nat, r: nat) {
    if req.alignment == 0 || count >= req.max then r == count
    else if exists q: nat :: min <= q <= count && OnBoundary(req, q) then
      min <= r <= count && OnBoundary(req, r) && forall q: nat :: r < q <= count ==> !OnBoundary(req, q)
    else r == count
  }

  /** What is left of `count` blocks once rounded down for alignment; never below `min`. */
  function Aligned(req: Request, min: nat, count: nat): (r: nat)
    ensures r <= count && (count >= min ==> r >= min) && (count < min ==> r == count)
    ensures Rounded(req, min, count, r)
  {
    if req.alignment == 0 || count >= req.max then count
    else
      var rounding := (count + req.alignmentOffset) % req.alignment;
      RoundsTo(req, min, count, rounding);
      if count >= min + rounding then count - rounding else count
  }

  lemma RoundsTo(req: Request, min: nat, count: nat, rounding: nat)
    requires req.alignment > 0 && count < req.max && rounding == (count + req.alignmentOffset) % req.alignment
    ensures Rounded(req, min, count, if count >= min + rounding then count - rounding else count)
  {
    var a, d := count + req.alignmentOffset, req.alignment;
    forall q: nat | q <= count && count - q <= rounding ensures OnBoundary(req, q) <==> count - q == rounding {
      ModBelow(a, d, count - q);
      assert q + req.alignmentOffset == a - (count - q);
    }
  }

  lemma ModBelow(a: nat, d: nat, j: nat)
    requires d > 0 && j <= a % d
    ensures (a - j) % d == a % d - j
  {
    DivUnique(a - j, d, a / d, a % d - j);
  }

  /** Any clear blocks: the first run from `s` on, or that there is none. */
  ghost predicate AnyFit(v: seq<bool>, x: seq<bool>, s: nat, e: nat, max: nat, r: SearchResult) {
    match r
    case DiskFull => NoRun(x, s, e, 1)
    case Fit(at, n) => FirstFit(v, x, s, e, 1, max, at, n)
  }

  /** The blocks given to a request that need not be contiguous: the head of the cache; else the
      first run from the start on; else the first from the front; and, if the journal may be
      flushed, else the first that is awaiting a trim. */
  ghost predicate AnyChoice(v: seq<bool>, x: seq<bool>, pending: set<nat>, cached: seq<Extent>, start: nat, limit: nat,
                            back: nat, max: nat, flush: bool, r: SearchResult) {
    if cached != [] && cached[0].count > 0 then
      r == Fit(cached[0].start, FreeExtentCaches.Min(max, cached[0].count))
    else
      var y := Avoiding(x, pending);
      || (r.Fit? && AnyFit(v, y, start, limit, max, r))
      || (AnyFit(v, y, start, limit, max, DiskFull) && (r.Fit? || !flush) && AnyFit(v, y, 1, back, max, r))
      || (AnyFit(v, y, start, limit, max, DiskFull) && AnyFit(v, y, 1, back, max, DiskFull) && flush
          && AnyFit(v, Avoiding(x, {}), 1, limit, max, r))
  }

  /** The blocks given to a request that tries hard: all of the maximum at the block asked for;
      else the head of the cache, if it holds the maximum; else the leftmost longest run. The
      look at the block asked for may have added to the cache. */
  ghost predicate HardChoice(v: seq<bool>, x: seq<bool>, cached: seq<Extent>, after: seq<Extent>, start: nat,
                             limit: nat,
                             min: nat, max: nat, r: SearchResult) {
    var tries := 0 < start < limit && limit - start > max;
    if tries && !NoRun(x, start, start + max, max) then r == Fit(start, max)
    else if !tries && cached != [] && cached[0].count >= max then r == Fit(cached[0].start, max)
    else
      match r
      case DiskFull => NoRun(x, 1, limit, min)
      case Fit(s, n) =>
        || (tries && (r == Fit(start, max) || (after != [] && after[0].start == s && after[0].count >= max == n)))
        || BestFit(v, x, 1, limit, min, max, s, n)
  }

  /** Which blocks the search stage gives to a request. `seen` is the view that trusts the
      summary, `plain` the one that does not; `after` is the cache at the end of the search. */
  ghost predicate Chosen(req: Request, seen: seq<bool>, plain: seq<bool>, cached: seq<Extent>, after: seq<Extent>,
                         answers: seq<nat>,
                         start: nat, limit: nat, min: nat, max: nat, hasSummary: bool, hasJournal: bool, trim: set<nat>,
                         r: SearchResult) {
    var back := if hasSummary then limit else start;
    if req.hard then HardChoice(plain, seen, cached, after, req.start, limit, min, max, r)
    else if req.contiguous then
      || AroundFit(plain, seen, start, limit, back, min, max, r)
      || (hasJournal && PendingRun(plain, limit, trim, min, max)
          && FitsFrom(plain, seen, [start] + answers, limit, hasSummary, min, max, r))
    else AnyChoice(plain, seen, if hasJournal then trim else {}, cached, start, limit, back, max, req.flush, r)
  }

  /** The blocks granted are those the search stage chose, rounded down for alignment. */
  ghost predicate Served(z: Sizes, k: Books, steal: bool, req: Request, answers: seq<nat>, start: nat, min: nat,
                         max: nat,
                         hasSummary: bool, hasJournal: bool, s: nat, n: nat)
    requires z.w > 0
  {
    exists k1: Books, m: nat ::
      ServedBy(z, k, k1, steal, req, answers, start, min, max, hasSummary, hasJournal, s, m) && Rounded(req, min, m, n)
  }

  ghost predicate ServedBy(z: Sizes, k: Books, k1: Books, steal: bool, req: Request, answers: seq<nat>, start: nat,
                           min: nat, max: nat, hasSummary: bool, hasJournal: bool, s: nat, m: nat)
    requires z.w > 0
  {
    && Searched(z, k, k1, steal)
    && Chosen(req, Seen(z, k, steal), Plain(k, steal), k.cached, k1.cached, answers, start, z.limit, min, max, hasSummary, hasJournal,
              k.trim, Fit(s, m))
  }

  /** Why a search came back empty. `seen` is the view that trusts the summary, `plain` the
      one that does not. */
  ghost predicate Exhausted(req: Request, seen: seq<bool>, plain: seq<bool>, start: nat, limit: nat, min: nat, max: nat,
                            hasSummary: bool, hasJournal: bool, trim: set<nat>) {
    if req.hard then NoRun(seen, 1, limit, min)
    else if req.contiguous then
      || AroundFit(plain, seen, start, limit, if hasSummary then limit else start, min, max, DiskFull)
      || (hasJournal && PendingRun(plain, limit, trim, min, max))
    else
      && limit <= |seen|
      && forall b: nat :: 1 <= b < limit ==> seen[b] || (hasJournal && !req.flush && b in trim)
  }

  lemma NoRunAgree(x: seq<bool>, v: seq<bool>, s: nat, e: nat, n: nat)
    requires |x| == |v| && (forall i :: 0 <= i < e && i < |x| ==> x[i] == v[i]) && NoRun(x, s, e, n)
    ensures NoRun(v, s, e, n)
  {
    forall p | s <= p && p + n <= e ensures !ClearRun(v, p, n) { assert !ClearRun(x, p, n); }
  }

  // ---------------------------------------------------------------- deallocation

  /** The blocks of [a, e). */
  function Span(a: nat, e: nat): (s: set<nat>)
    ensures forall b: nat :: b in s <==> a <= b < e
    decreases e - a
  { if a >= e then {} else {a} + Span(a + 1, e) }

  /** Deallocated blocks: [s, s + n) leaves the bitmap, [lo, hi) around it may enter the
      trims or, with no journal, the cache. */
  lemma AfterFree(z: Sizes, k: Books, k': Books, s: nat, n: nat, lo: nat, hi: nat)
    requires Apportioned(z, k) && Counted(z, k) && s + n <= z.total && AllSet(k.used, s, s + n)
    requires k' == k.(used := ClearRange(k.used, s, n), cached := k'.cached, trim := k'.trim, full := k'.full, free := k.free + n)
    requires Narrowed(z, k.full, k'.full, s, s + n)
    requires lo <= s && s + n <= hi <= |k.used| && AllClear(k'.used, lo, hi)
    requires forall b: nat :: lo <= b < hi ==> !Held(k.tentative, b) && !Held(k.locked, b)
    requires forall b: nat :: Covers(k'.cached, b) ==> Covers(k.cached, b) || s <= b < s + n
    requires forall b: nat :: b in k'.trim ==> b in k.trim || lo <= b < hi
    ensures Apportioned(z, k') && Counted(z, k')
    ensures Sound(z, k) ==> Sound(z, k')
  {
    hide ClearRange, ClearIn, Held, Covers, ListOk, InFull;
    ClearRangeAt(k.used, s, n);
    CountClearedIn(k.used, z.total, s, n);
    if Sound(z, k) {
      forall b: nat | b < z.total && InFull(k'.full, b, z.w) ensures !FreeAt(k', b) { FullBefore(k.full, k'.full, b, z.w); }
    }
  }

  /** A deallocation that fails part way: only the counter is out of step. */
  lemma AfterFailedFree(z: Sizes, k: Books, k': Books, s: nat, n: nat, m: nat)
    requires Apportioned(z, k) && s + n <= z.total
    requires StopsAt(k.used, s, n, m)
    requires k' == k.(used := ClearRange(k.used, s, m), full := k'.full)
    requires Narrowed(z, k.full, k'.full, s, s + n)
    ensures Apportioned(z, k')
    ensures Sound(z, k) ==> Sound(z, k')
    ensures AllSet(k.used, s, s + m)
    ensures ClearIn(k'.used, 0, z.total) == ClearIn(k.used, 0, z.total) + m
    ensures m == 0 <==> !AllSet(k.used, s, s + FirstPart(s, n))
  {
    hide ClearRange, Held, Covers, ListOk, InFull, ClearIn, FirstPart;
    ClearRangeAt(k.used, s, m);
    if Sound(z, k) {
      forall b: nat | b < z.total && InFull(k'.full, b, z.w) ensures !FreeAt(k', b) { FullBefore(k.full, k'.full, b, z.w); }
    }
    StopsFirst(k.used, s, n, m);
    CountClearedIn(k.used, z.total, s, m);
  }

  /** A volume of 64 blocks with only block 32 clear: freeing the first 33 blocks is refused,
      yet 32 of them end up clear and the free count still says one. */
  lemma FailedFreeExample(u: seq<bool>, k: Books, k': Books)
    requires |u| == 64 && forall b :: 0 <= b < 64 ==> (u[b] <==> b != 32)
    requires k == Books(u, [], [], [], {}, [false], 1, 0, 0)
    requires k' == k.(used := ClearRange(u, 0, 32))
    ensures Apportioned(Sizes(64, 64, 2), k) && Counted(Sizes(64, 64, 2), k) && Sound(Sizes(64, 64, 2), k)
    ensures StopsAt(u, 0, 33, 32)
    ensures Apportioned(Sizes(64, 64, 2), k') && !Counted(Sizes(64, 64, 2), k')
    ensures ClearIn(k'.used, 0, 64) == 33 && k'.free == 1
  {
    hide ClearIn;
    var z := Sizes(64, 64, 2);
    OneClear(u, 32, 64);
    assert !u[32];
    assert ChunkIndex(0, 2) == 0;
    AfterFailedFree(z, k, k', 0, 33, 32);
  }

  /** Clearing summary bits is always safe. */
  lemma AfterRelease(z: Sizes, k: Books, k': Books, lo: int, hi: int)
    requires Apportioned(z, k) && k' == k.(full := k'.full) && Narrowed(z, k.full, k'.full, lo, hi)
    ensures Apportioned(z, k')
    ensures Sound(z, k) ==> Sound(z, k')
  {
    hide Held, Covers, ListOk, InFull;
    if Sound(z, k) {
      forall b: nat | b < z.total && InFull(k'.full, b, z.w) ensures !FreeAt(k', b) { FullBefore(k.full, k'.full, b, z.w); }
    }
  }

  /** Bounds for a trim around [s, s + n): past reserved ranges before it, short of those after. */
  ghost predicate Bounds(rs: seq<Range>, s: nat, n: nat, lo: int, hi: int) {
    && (forall i :: 0 <= i < |rs| && rs[i].start < s ==> rs[i].last < lo)
    && (forall i :: 0 <= i < |rs| && rs[i].last >= s + n ==> hi <= rs[i].start)
  }

  /** A range of free blocks around [s, s + n) that cannot be widened: on each side it ends at a
      used or reserved block, or at the end of the bitmap block there, or of the block numbers. */
  ghost predicate Widened(k: Books, w: nat, last: nat, s: nat, n: nat, lo: nat, hi: nat)
    requires w > 0 && n > 0
  {
    && lo <= s && s + n <= hi <= |k.used| && (forall b: nat :: lo <= b < hi ==> FreeAt(k, b))
    && (lo == 0 || lo == 32 * ChunkBase(s, w) || !FreeAt(k, lo - 1))
    && (hi >= last || hi == 32 * (ChunkBase(s + n - 1, w) + w) || !FreeAt(k, hi))
  }

  /** The pending trims have grown by a range around [s, s + n) that cannot be widened. */
  ghost predicate TrimsAround(k: Books, k': Books, w: nat, last: nat, s: nat, n: nat)
    requires w > 0 && n > 0
  {
    exists lo: nat, hi: nat :: k'.trim == k.trim + Span(lo, hi) && Widened(k', w, last, s, n, lo, hi)
  }

  /** Tighten the bounds by one list of reservations. */
  method TightenBounds(rs: seq<Range>, s: nat, n: nat, lo0: nat, hi0: nat) returns (lo: nat, hi: nat)
    requires forall i :: 0 <= i < |rs| ==> 0 <= rs[i].start <= rs[i].last
    ensures Bounds(rs, s, n, lo, hi) && lo0 <= lo && hi <= hi0
    ensures lo0 <= s && s + n <= hi0 && (forall i :: 0 <= i < |rs| ==> Avoids(rs[i], s, s + n - 1)) && n > 0
            ==> lo <= s && s + n <= hi
    ensures lo == lo0 || exists i :: 0 <= i < |rs| && lo == rs[i].last + 1
    ensures hi == hi0 || exists i :: 0 <= i < |rs| && hi == rs[i].start
  {
    lo, hi := lo0, hi0;
    var i: nat := 0;
    while i < |rs|
      invariant i <= |rs| && Bounds(rs[..i], s, n, lo, hi) && lo0 <= lo && hi <= hi0
      invariant lo0 <= s && s + n <= hi0 && (forall j :: 0 <= j < i ==> Avoids(rs[j], s, s + n - 1)) && n > 0
                ==> lo <= s && s + n <= hi
      invariant lo == lo0 || exists j :: 0 <= j < i && lo == rs[j].last + 1
      invariant hi == hi0 || exists j :: 0 <= j < i && hi == rs[j].start
    {
      var r := rs[i];
      if r.start < s && r.last >= lo { lo := r.last + 1; }
      if r.last >= s + n && r.start < hi { hi := r.start; }
      i := i + 1;
    }
    assert rs[..i] == rs;
  }

  lemma TighterBounds(rs: seq<Range>, s: nat, n: nat, lo: int, hi: int, lo': int, hi': int)
    requires Bounds(rs, s, n, lo, hi) && lo <= lo' && hi' <= hi
    ensures Bounds(rs, s, n, lo', hi')
  {
  }

  /** Allocated blocks are in no reserved range. */
  lemma AllocatedApart(z: Sizes, k: Books, s: nat, n: nat)
    requires Apportioned(z, k) && s + n <= |k.used| && AllSet(k.used, s, s + n) && n > 0
    ensures forall b: nat :: s <= b < s + n ==> !Held(k.tentative, b) && !Held(k.locked, b)
    ensures forall i :: 0 <= i < |k.tentative| ==> Avoids(k.tentative[i], s, s + n - 1)
    ensures forall i :: 0 <= i < |k.locked| ==> Avoids(k.locked[i], s, s + n - 1)
  {
    hide Covers, Held;
    HeldAvoids(k.tentative, s, n);
    HeldAvoids(k.locked, s, n);
  }

  lemma HeldAvoids(rs: seq<Range>, s: nat, n: nat)
    requires Proper(rs) && n > 0 && forall b: nat :: s <= b < s + n ==> !Held(rs, b)
    ensures forall i :: 0 <= i < |rs| ==> Avoids(rs[i], s, s + n - 1)
  {
    forall i | 0 <= i < |rs| ensures Avoids(rs[i], s, s + n - 1) {
      var q := rs[i];
      forall b: int | q.Holds(b) ensures !(s <= b <= s + n - 1) { if s <= b { assert Held(rs, b); } }
      AvoidsNow(q, s, s + n - 1);
    }
  }

  /** Reserved ranges that avoid [s, s + n) avoid everything within the bounds. */
  lemma WithinBounds(rs: seq<Range>, s: nat, n: nat, lo: int, hi: int)
    requires n > 0 && Proper(rs) && Bounds(rs, s, n, lo, hi) && forall b: nat :: s <= b < s + n ==> !Held(rs, b)
    ensures forall b: nat :: lo <= b < hi ==> !Held(rs, b)
  {
    forall i | 0 <= i < |rs| ensures rs[i].last < lo || hi <= rs[i].start {
      if rs[i].start >= s && rs[i].last < s + n {
        assert rs[i].Holds(rs[i].start);
        assert Held(rs, rs[i].start);
      }
    }
  }

  // ------------------------------------------------------------- the cancelled range

  /** What a tentative request for [s, s + n) that ignores tentative ranges releases: the ranges
      beyond the third, and the parts cut off the others. */
  function CancelParts(rs: seq<Range>, s: nat, n: nat): seq<Extent> {
    LimitParts(rs) + StealParts([Range(s, s + n - 1)] + FirstThree(rs), s, s + n - 1)
  }

  /** Every block of the request lies in a bitmap block that is not called full, or that a
      released part reaches into. */
  ghost predicate CancelSafe(z: Sizes, k: Books, s: nat, n: nat)
    requires z.w > 0
  {
    forall b: nat :: s <= b < s + n && InFull(k.full, b, z.w) ==>
      ClearedBy(z, CancelParts(k.tentative, s, n), ChunkIndex(b, z.w))
  }

  /** A tentative request that ignored tentative ranges cancels its own range and leaves its
      blocks free without clearing their summary bits: the summary stays sound if and only if
      those bits were clear before, or are cleared by what it releases. */
  lemma SelfCancelSound(z: Sizes, k: Books, k': Books, s: nat, n: nat)
    requires n > 0 && s + n <= z.total && SoundOutside(z, k', s, s + n - 1)
    requires forall b: nat :: s <= b < s + n ==> FreeAt(k', b)
    requires Cleared(z, k.full, k'.full, CancelParts(k.tentative, s, n))
    ensures Sound(z, k') <==> CancelSafe(z, k, s, n)
  {
    hide FreeAt, CancelParts, ClearedBy, ChunkIndex;
    if Sound(z, k') {
      forall b: nat | s <= b < s + n && InFull(k.full, b, z.w)
        ensures ClearedBy(z, CancelParts(k.tentative, s, n), ChunkIndex(b, z.w))
      {
        assert FreeAt(k', b);
        assert !InFull(k'.full, b, z.w);
      }
    }
    if CancelSafe(z, k, s, n) {
      forall b: nat | b < z.total && InFull(k'.full, b, z.w) ensures !FreeAt(k', b) {
        assert InFull(k.full, b, z.w) && !ClearedBy(z, CancelParts(k.tentative, s, n), ChunkIndex(b, z.w));
      }
    }
  }

  /** A search does not change which blocks that it may take are in bitmap blocks called full. */
  lemma CancelSafeBefore(z: Sizes, k: Books, k': Books, ignoreTentative: bool, s: nat, n: nat)
    requires Searched(z, k, k', ignoreTentative) && Available(z, k, ignoreTentative, s, n)
    ensures ignoreTentative ==> (CancelSafe(z, k', s, n) <==> CancelSafe(z, k, s, n))
  {
    hide CancelParts, ClearedBy, Apportioned, Counted, Sound, ChunkIndex;
    if ignoreTentative {
      var v := Plain(k, true);
      forall b: nat | s <= b < s + n ensures InFull(k'.full, b, z.w) <==> InFull(k.full, b, z.w) {
        SeenAt(z, k, k', b);
      }
    }
  }

  lemma SeenAt(z: Sizes, k: Books, k': Books, b: nat)
    requires z.w > 0 && b < |k.used| && !k.used[b] && !Held(k.locked, b)
    requires k' == k.(cached := k'.cached, full := k'.full) && Seen(z, k', true) == Seen(z, k, true)
    ensures InFull(k'.full, b, z.w) <==> InFull(k.full, b, z.w)
  {
    hide InFull, Held;
    assert [] + k.locked == k.locked;
    assert !Plain(k, true)[b];
    assert Seen(z, k, true)[b] == InFull(k.full, b, z.w);
    assert Seen(z, k', true)[b] == InFull(k'.full, b, z.w);
  }

  /** One free block, held by a tentative range, in a bitmap block called full: taking it
      tentatively a second time cancels both ranges and leaves the summary wrong. */
  lemma SelfCancelExample(u: seq<bool>, k: Books, k': Books)
    requires |u| == 128 && forall i :: 0 <= i < 128 ==> u[i] == (i != 64)
    requires k == Books(u, [Range(64, 64)], [], [], {}, [false, true], 1, 1, 0)
    requires k' == k.(tentative := [], tentativeBlocks := 0)
    ensures var z := Sizes(128, 128, 2);
            && Apportioned(z, k) && Counted(z, k) && Sound(z, k) && Available(z, k, true, 64, 1)
            && Granted(k, k', Tentative, true, 64, 1) && !CancelSafe(z, k, 64, 1)
            && Apportioned(z, k') && Counted(z, k') && !Sound(z, k')
  {
    SelfCancelGranted(u, k, k');
    SelfCancelSummary(u, k, k');
    SelfCancelUnsafe(k);
    SelfCancelBefore(u, k);
    SelfCancelAfter(u, k');
    hide Apportioned, Counted, Granted, CancelSafe, Sound, Available;
  }

  lemma SelfCancelBefore(u: seq<bool>, k: Books)
    requires |u| == 128 && forall i :: 0 <= i < 128 ==> u[i] == (i != 64)
    requires k == Books(u, [Range(64, 64)], [], [], {}, [false, true], 1, 1, 0)
    ensures Apportioned(Sizes(128, 128, 2), k) && Counted(Sizes(128, 128, 2), k)
    ensures Available(Sizes(128, 128, 2), k, true, 64, 1)
  {
    OneClear(u, 64, 128);
    OneRange(64);
    hide ClearIn, Held, TotalLen;
    assert forall b: int :: !Held([], b) by { NoneHeld(); }
    assert TotalLen([]) == 0 by { NoneHeld(); }
  }

  lemma SelfCancelAfter(u: seq<bool>, k: Books)
    requires |u| == 128 && forall i :: 0 <= i < 128 ==> u[i] == (i != 64)
    requires k == Books(u, [], [], [], {}, [false, true], 1, 0, 0)
    ensures Apportioned(Sizes(128, 128, 2), k) && Counted(Sizes(128, 128, 2), k)
  {
    OneClear(u, 64, 128);
    hide ClearIn;
  }

  lemma NoneHeld()
    ensures TotalLen([]) == 0 && forall b: int :: !Held([], b)
  {
  }

  lemma SelfCancelUnsafe(k: Books)
    requires k.tentative == [Range(64, 64)] && InFull(k.full, 64, 2)
    ensures !CancelSafe(Sizes(128, 128, 2), k, 64, 1)
  {
    NothingReleased(64);
    hide CancelParts, InFull;
  }

  lemma SelfCancelGranted(u: seq<bool>, k: Books, k': Books)
    requires |u| == 128 && k == Books(u, [Range(64, 64)], [], [], {}, [false, true], 1, 1, 0)
    requires k' == k.(tentative := [], tentativeBlocks := 0)
    ensures Granted(k, k', Tentative, true, 64, 1)
  {
    hide Stolen;
    assert k'.trim == set b | b in k.trim && !(64 <= b < 65);
    StolenTwice(64);
  }

  lemma OneClear(u: seq<bool>, at: nat, n: nat)
    requires at < n == |u| && forall i :: 0 <= i < n ==> u[i] == (i != at)
    ensures ClearIn(u, 0, n) == 1
  {
    hide ClearIn;
    ClearInSplit(u, 0, at, n);
    ClearInSplit(u, at, at + 1, n);
    ClearInAllSet(u, 0, at);
    ClearInAllClear(u, at, at + 1);
    ClearInAllSet(u, at + 1, n);
  }

  lemma OneRange(at: nat)
    ensures TotalLen([Range(at, at)]) == 1
    ensures forall b: int :: Held([Range(at, at)], b) <==> b == at
  {
    assert [Range(at, at)][1..] == [];
    forall b: int ensures Held([Range(at, at)], b) <==> b == at { HeldOne(Range(at, at), b); }
  }

  lemma StolenTwice(at: nat)
    ensures Stolen([Range(at, at)] + [Range(at, at)], at, at) == []
  {
    var r := Range(at, at);
    assert ([r] + [r])[..1] == [r] && [r][..0] == [];
    assert Stolen([r], at, at) == [];
  }

  lemma NothingReleased(at: nat)
    ensures CancelParts([Range(at, at)], at, 1) == []
  {
    var r := Range(at, at);
    assert ([r] + [r])[..1] == [r] && [r][..0] == [];
    assert StealParts([r], at, at) == [];
    assert at + 1 - 1 == at;
  }

  lemma SelfCancelSummary(u: seq<bool>, k: Books, k': Books)
    requires |u| == 128 && forall i :: 0 <= i < 128 ==> u[i] == (i != 64)
    requires k == Books(u, [Range(64, 64)], [], [], {}, [false, true], 1, 1, 0)
    requires k' == k.(tentative := [], tentativeBlocks := 0)
    ensures Sound(Sizes(128, 128, 2), k) && !Sound(Sizes(128, 128, 2), k') && InFull(k.full, 64, 2)
  {
    OneRange(64);
    forall b: nat | b < 128 ensures !FreeAt(k, b) { }
    assert FreeAt(k', 64);
    assert Quotient(64, 64) == 1;
    assert InFull(k'.full, 64, 2);
  }
}
