/** Word-by-word searches of the bitmap, across bitmap blocks, with the summary table
    used to skip full blocks and updated on the way. */
module Searches {
  import opened Words
  import opened BlockMaps
  import opened Bitmaps
  import opened Ranges
  import opened BitmapViews
  import opened Summaries
  import opened FreeExtentCaches

  // ------------------------------------------------------------------ specification

  /** `n` blocks from `p` on are clear. */
  predicate ClearRun(u: seq<bool>, p: nat, n: nat) { p + n <= |u| && AllClear(u, p, p + n) }

  /** No run of `n` clear blocks lies in [s, e). */
  ghost predicate NoRun(u: seq<bool>, s: nat, e: nat, n: nat) {
    forall p :: s <= p && p + n <= e ==> !ClearRun(u, p, n)
  }

  /** No run of `n` clear blocks inside [.., e) starts in [s, t). */
  ghost predicate NoRunBefore(u: seq<bool>, s: nat, t: nat, e: nat, n: nat) {
    forall p :: s <= p < t && p + n <= e ==> !ClearRun(u, p, n)
  }

  /** The view with the blocks of every bitmap block the summary calls full hidden. */
  ghost function Masked(v: seq<bool>, full: seq<bool>, w: nat): seq<bool>
    requires w > 0
  {
    seq(|v|, b requires 0 <= b < |v| => v[b] || InFull(full, b, w))
  }

  predicate InFull(full: seq<bool>, b: nat, w: nat)
    requires w > 0
  { ChunkIndex(b, w) < |full| && full[ChunkIndex(b, w)] }

  /** Blocks [start, start + count) are the first run of at least `min` clear blocks of
      [s, e): free in `v`, cut only at `max`, `e` or a used block. */
  ghost predicate FirstFit(v: seq<bool>, x: seq<bool>, s: nat, e: nat, min: nat, max: nat, start: nat, count: nat) {
    && s <= start && start + count <= e && min <= count <= max
    && ClearRun(v, start, count)
    && (count == max || start + count == e || (start + count < |v| && v[start + count]))
    && NoRunBefore(x, s, start, e, min)
  }

  /** Blocks [start, start + count) are the leftmost longest run of clear blocks of
      [s, e), cut only at `max`. */
  ghost predicate BestFit(v: seq<bool>, x: seq<bool>, s: nat, e: nat, min: nat, max: nat, start: nat, count: nat) {
    && s <= start && start + count <= e && min <= count <= max
    && ClearRun(v, start, count)
    && (count == max || NoRun(x, s, e, count + 1))
    && NoRunBefore(x, s, start, e, count)
  }

  // ------------------------------------------------------------------- within a word

  /** Step over set bits from bit `k` on. */
  method SkipSet(word: bv32, k: nat) returns (j: nat)
    requires k < 32
    ensures k <= j <= 32 && (j < 32 ==> !Bit(word, j))
    ensures forall i :: k <= i < j ==> Bit(word, i)
  {
    hide Test, Mask, Forward;
    var mask := Mask(k);
    j := k;
    ZeroMask(word);
    while Test(word, mask)
      invariant k <= j <= 32 && mask == if j == 32 then 0 else Mask(j)
      invariant forall i :: k <= i < j ==> Bit(word, i)
      decreases 32 - j
    {
      MaskForward(j);
      mask := Forward(mask);
      j := j + 1;
    }
  }

  /** Step over clear bits from bit `k` on. */
  method SkipClear(word: bv32, k: nat) returns (j: nat)
    requires k < 32
    ensures k <= j <= 32 && (j < 32 ==> Bit(word, j))
    ensures forall i :: k <= i < j ==> !Bit(word, i)
  {
    hide Test, Mask, Forward;
    var mask := Mask(k);
    j := k;
    MaskForward(k);
    while mask != 0 && !Test(word, mask)
      invariant k <= j <= 32 && mask == if j == 32 then 0 else Mask(j)
      invariant forall i :: k <= i < j ==> !Bit(word, i)
      decreases 32 - j
    {
      MaskForward(j);
      mask := Forward(mask);
      j := j + 1;
    }
    if j < 32 { MaskNonZero(j); }
  }

  lemma ZeroMask(word: bv32)
    ensures !Test(word, 0)
  {
  }

  lemma MaskNonZero(k: nat)
    requires k < 32
    ensures Mask(k) != 0
  {
    MaskOneBit(k);
    hide Mask;
  }

  // ------------------------------------------------------------- position in the bitmap

  /** A place in the bitmap: the current block, the bitmap block it is in and the index
      of its word there (wordsPerChunk once the bitmap block is used up). */
  datatype Cursor = Cursor(block: nat, buffer: seq<bv32>, base: nat, word: nat)

  ghost predicate CursorOk(c: Cursor, v: seq<bool>, w: nat) {
    && w > 0 && |c.buffer| == w && c.word <= w
    && 32 * (c.base + w) <= |v| && c.base == ChunkBase(32 * c.base, w)
    && BitsOf(c.buffer) == v[32 * c.base..32 * (c.base + w)]
    && 32 * (c.base + c.word) <= c.block < 32 * (c.base + c.word) + 32
    && (c.word == w ==> c.block == 32 * (c.base + w))
  }

  lemma CursorBit(c: Cursor, v: seq<bool>, w: nat, k: nat)
    requires CursorOk(c, v, w) && c.word < w && k < 32
    ensures 32 * (c.base + c.word) + k < |v|
    ensures Bit(c.buffer[c.word], k) == v[32 * (c.base + c.word) + k]
  {
    hide Bit, BitsOf;
    BitsAt(c.buffer, c.word, k);
  }

  lemma WordStates(c: Cursor, v: seq<bool>, w: nat)
    requires CursorOk(c, v, w) && c.word < w
    ensures 32 * (c.base + c.word) + 32 <= |v|
    ensures forall b :: 32 * (c.base + c.word) <= b < 32 * (c.base + c.word) + 32 ==>
              v[b] == Bit(c.buffer[c.word], b - 32 * (c.base + c.word))
  {
    hide Bit, BitsOf;
    CursorBit(c, v, w, 31);
    forall b | 32 * (c.base + c.word) <= b < 32 * (c.base + c.word) + 32
      ensures v[b] == Bit(c.buffer[c.word], b - 32 * (c.base + c.word))
    {
      CursorBit(c, v, w, b - 32 * (c.base + c.word));
    }
  }

  /** Within the current word, the next block not in use. */
  method NextClearInWord(c: Cursor, ghost v: seq<bool>, w: nat) returns (block: nat)
    requires CursorOk(c, v, w) && c.word < w
    ensures c.block <= block <= 32 * (c.base + c.word) + 32 <= |v|
    ensures AllSet(v, c.block, block)
    ensures block < 32 * (c.base + c.word) + 32 ==> !v[block]
  {
    hide Bit, BitsOf;
    WordStates(c, v, w);
    var at := 32 * (c.base + c.word);
    var j := SkipSet(c.buffer[c.word], c.block - at);
    block := at + j;
  }

  /** Within the current word, the next block in use. */
  method NextSetInWord(c: Cursor, ghost v: seq<bool>, w: nat) returns (block: nat)
    requires CursorOk(c, v, w) && c.word < w
    ensures c.block <= block <= 32 * (c.base + c.word) + 32 <= |v|
    ensures AllClear(v, c.block, block)
    ensures block < 32 * (c.base + c.word) + 32 ==> v[block]
  {
    hide Bit, BitsOf;
    WordStates(c, v, w);
    var at := 32 * (c.base + c.word);
    var j := SkipClear(c.buffer[c.word], c.block - at);
    block := at + j;
  }

  // --------------------------------------------------------------- the search context

  /** What a search reads: the bitmap, the reservations laid over it, and the sizes. */
  datatype Context = Context(bm: Bitmap, st: SummaryTable, tentative: seq<Range>, locked: seq<Range>,
                             ignoreTentative: bool, hasSummary: bool, trust: bool, allocLimit: nat)
  {
    ghost predicate Valid()
      reads bm, st
    {
      && bm.Valid() && st.Valid() && bm.wordsPerChunk % 2 == 0
      && st.wordsPerChunk == bm.wordsPerChunk
      && 1 <= allocLimit <= st.totalBlocks <= 32 * bm.words.Length
      && Proper(tentative) && Proper(locked)
    }

    ghost function V(): (v: seq<bool>)
      reads bm, bm.words
      ensures |v| == 32 * bm.words.Length
    { View(bm.Bits(), Included(tentative, locked, ignoreTentative)) }

    /** The view as the search sees it: full bitmap blocks are hidden when the summary
        is trusted. */
    ghost function X(): (x: seq<bool>)
      reads bm, bm.words, st, st.bytes
      requires Valid()
      ensures |x| == 32 * bm.words.Length
    { if hasSummary && trust then Masked(V(), st.Full(), st.wordsPerChunk) else V() }
  }

  /** Summary bits are only added, and only for bitmap blocks full in `v`. */
  ghost predicate Learned(was: seq<bool>, now: seq<bool>, v: seq<bool>, w: nat)
    requires w > 0
  {
    && |was| == |now|
    && (forall q :: 0 <= q < |was| && was[q] ==> now[q])
    && (forall q :: 0 <= q < |was| && now[q] && !was[q] ==> q > 0 && FullChunk(v, q, w))
  }

  ghost predicate FullChunk(v: seq<bool>, q: nat, w: nat)
    requires w > 0
  { forall b :: 0 <= b < |v| && ChunkIndex(b, w) == q ==> v[b] }

  lemma LearnedMasked(was: seq<bool>, now: seq<bool>, v: seq<bool>, w: nat)
    requires w > 0 && Learned(was, now, v, w)
    ensures Masked(v, now, w) == Masked(v, was, w)
  {
    hide ChunkIndex;
    var l, r := Masked(v, now, w), Masked(v, was, w);
    forall b | 0 <= b < |v| ensures l[b] == r[b] {
      var q := ChunkIndex(b, w);
      if InFull(now, b, w) && !InFull(was, b, w) { assert FullChunk(v, q, w); }
    }
  }

  lemma LearnedNothing(a: seq<bool>, v: seq<bool>, w: nat)
    requires w > 0
    ensures Learned(a, a, v, w)
  {
  }

  lemma LearnedMore(a: seq<bool>, b: seq<bool>, v: seq<bool>, w: nat, q: nat)
    requires w > 0 && Learned(a, b, v, w) && 0 < q < |b| && FullChunk(v, q, w)
    ensures Learned(a, b[q := true], v, w)
  {
    hide FullChunk;
  }

  /** All blocks of a bitmap block that was scanned without finding a clear bit. */
  lemma ScannedChunk(v: seq<bool>, base: nat, w: nat, block: nat)
    requires w > 0 && base == ChunkBase(block, w) && 32 * (base + w) <= |v|
    requires AllSet(v, 32 * base, 32 * (base + w))
    ensures FullChunk(v, ChunkIndex(block, w), w)
    ensures base > 0 ==> ChunkIndex(block, w) > 0
  {
    hide ChunkIndex;
    forall b | 0 <= b < |v| && ChunkIndex(b, w) == ChunkIndex(block, w) ensures v[b] {
      ChunkIndexBounds(b, w);
      assert w * ChunkIndex(b, w) == base;
    }
  }

  /** Moving from `a` to the suggestion `b` passes only hidden blocks. */
  lemma SuggestionHidden(v: seq<bool>, full: seq<bool>, w: nat, a: nat, b: nat)
    requires w > 0 && a <= b && ChunkIndex(b, w) <= |full|
    requires forall q :: ChunkIndex(a, w) <= q < ChunkIndex(b, w) ==> full[q]
    requires b == a || b == 32 * ChunkBase(b, w)
    ensures forall i :: a <= i < b && i < |v| ==> Masked(v, full, w)[i]
  {
    hide ChunkIndex;
    forall i | a <= i < b && i < |v| ensures Masked(v, full, w)[i] {
      ChunkIndexMonotone(a, i, w);
      ChunkBefore(i, b, w);
    }
  }

  lemma ChunkBefore(i: nat, b: nat, w: nat)
    requires w > 0 && i < b && b == 32 * ChunkBase(b, w)
    ensures ChunkIndex(i, w) < ChunkIndex(b, w)
  {
    hide ChunkIndex;
    ChunkIndexBounds(i, w);
    var p, q := ChunkIndex(i, w), ChunkIndex(b, w);
    if q <= p { MulMonotone(w, q, p); }
  }

  lemma HiddenToEnd(v: seq<bool>, full: seq<bool>, w: nat, a: nat, limit: nat)
    requires w > 0 && 1 <= limit <= |v| && ChunkIndex(limit - 1, w) < |full|
    requires forall q :: ChunkIndex(a, w) <= q <= ChunkIndex(limit - 1, w) ==> full[q]
    ensures forall i :: a <= i < limit ==> Masked(v, full, w)[i]
  {
    hide ChunkIndex;
    forall i | a <= i < limit ensures Masked(v, full, w)[i] {
      ChunkIndexMonotone(a, i, w);
      ChunkIndexMonotone(i, limit - 1, w);
    }
  }

  lemma ChunkBaseStart(block: nat, w: nat)
    requires w > 0
    ensures ChunkBase(32 * ChunkBase(block, w), w) == ChunkBase(block, w)
    ensures block == 32 * ChunkBase(block, w) ==> WordInChunk(block, w) == 0
  {
    hide ChunkIndex, WordInChunk;
    var q := ChunkIndex(block, w);
    ChunkStart(q, w);
    assert q * (32 * w) == 32 * (q * w);
    ChunkWord(block, w);
  }

  /** Read the bitmap block holding `block` and stand at it. */
  method ReadAt(ctx: Context, block: nat) returns (c: Cursor)
    requires ctx.Valid() && block < 32 * ctx.bm.words.Length
    ensures c.block == block && CursorOk(c, ctx.V(), ctx.bm.wordsPerChunk) && c.word < ctx.bm.wordsPerChunk
    ensures c.base == ChunkBase(block, ctx.bm.wordsPerChunk)
  {
    hide BitsOf, View, ChunkBase, WordInChunk;
    var w := ctx.bm.wordsPerChunk;
    var buffer := ReadBitmapBlock(ctx.bm, block, ctx.tentative, ctx.locked, ctx.ignoreTentative);
    ChunkWord(block, w);
    ChunkBaseStart(block, w);
    c := Cursor(block, buffer, ChunkBase(block, w), WordInChunk(block, w));
  }

  /** Note a bitmap block that was scanned to its end without a clear bit. */
  method NoteFull(ctx: Context, base: nat, scan: nat)
    requires ctx.Valid() && 32 * (base + ctx.bm.wordsPerChunk) <= 32 * ctx.bm.words.Length
    requires scan != 0 ==>
              scan == 32 * base && base == ChunkBase(scan, ctx.bm.wordsPerChunk) && scan < ctx.st.totalBlocks
    requires scan != 0 ==> AllSet(ctx.V(), scan, 32 * (base + ctx.bm.wordsPerChunk))
    modifies ctx.st.bytes
    ensures Learned(old(ctx.st.Full()), ctx.st.Full(), ctx.V(), ctx.bm.wordsPerChunk)
    ensures ctx.X() == old(ctx.X())
  {
    hide BitsOf, View, ChunkBase, Masked, Learned, FullChunk, ChunkIndex;
    var st, w := ctx.st, ctx.bm.wordsPerChunk;
    ghost var v, f0 := ctx.V(), st.Full();
    LearnedNothing(f0, v, w);
    if ctx.hasSummary && scan != 0 {
      ChunkIndexMonotone(scan, st.totalBlocks - 1, w);
      ScannedChunk(v, base, w, scan);
      LearnedMore(f0, f0, v, w, ChunkIndex(scan, w));
      st.Set(ChunkIndex(scan, w), true);
      LearnedMasked(f0, st.Full(), v, w);
    }
  }

  /** Where the summary lets the search go on from `block`; `exit` when no bitmap block
      before `stop` may hold a free block. */
  method Suggest(ctx: Context, block: nat, stop: nat) returns (next: nat, exit: bool)
    requires ctx.Valid() && block < stop <= ctx.allocLimit
    ensures exit ==> forall b :: block <= b < stop ==> ctx.X()[b]
    ensures !exit ==> block <= next < stop && AllSet(ctx.X(), block, next)
    ensures !exit && next != block ==> next == 32 * ChunkBase(next, ctx.bm.wordsPerChunk)
  {
    hide BitsOf, View, ChunkBase, Masked, ChunkIndex;
    if !(ctx.trust && ctx.hasSummary) { return block, false; }
    var r := ctx.st.FindFree(block, ctx.allocLimit);
    ghost var v, f, w := ctx.V(), ctx.st.Full(), ctx.bm.wordsPerChunk;
    if r.NoSpace? {
      HiddenToEnd(v, f, w, block, ctx.allocLimit);
      return block, true;
    }
    SuggestionHidden(v, f, w, block, r.block);
    return r.block, r.block >= stop;
  }

  /** Move on from a used-up bitmap block: note it as full if all of it was scanned,
      skip what the summary calls full, and read the next bitmap block. */
  method NextBlock(ctx: Context, c0: Cursor, scan: nat, stop: nat) returns (c: Cursor, exit: bool)
    requires ctx.Valid() && CursorOk(c0, ctx.V(), ctx.bm.wordsPerChunk)
    requires c0.word == ctx.bm.wordsPerChunk && c0.block < stop <= ctx.allocLimit
    requires scan != 0 ==> scan == 32 * c0.base && AllSet(ctx.V(), scan, c0.block)
    modifies ctx.st.bytes
    ensures Learned(old(ctx.st.Full()), ctx.st.Full(), ctx.V(), ctx.bm.wordsPerChunk)
    ensures ctx.X() == old(ctx.X())
    ensures exit ==> forall b :: c0.block <= b < stop ==> ctx.X()[b]
    ensures !exit ==>
              && c0.block <= c.block < stop && CursorOk(c, ctx.V(), ctx.bm.wordsPerChunk)
              && c.word == 0 && c.block == 32 * c.base && c.block != 0
              && AllSet(ctx.X(), c0.block, c.block)
  {
    hide BitsOf, View, ChunkBase, WordInChunk, Masked, Learned;
    var w := ctx.bm.wordsPerChunk;
    NoteFull(ctx, c0.base, scan);
    NextChunk(32 * c0.base, w);
    var next;
    next, exit := Suggest(ctx, c0.block, stop);
    c := c0;
    if exit { return; }
    c := ReadAt(ctx, next);
    ChunkBaseStart(next, w);
    ChunkWord(next, w);
  }

  lemma AllSetIn(v: seq<bool>, x: seq<bool>, a: nat, m: nat, b: nat)
    requires |v| == |x| && a <= m <= b <= |x| && AllSet(x, a, m) && AllSet(v, m, b)
    requires forall i :: 0 <= i < |v| && v[i] ==> x[i]
    ensures AllSet(x, a, b)
  {
  }

  lemma ViewHidden(ctx: Context)
    requires ctx.Valid()
    ensures forall i :: 0 <= i < |ctx.V()| && ctx.V()[i] ==> ctx.X()[i]
  {
    hide View, ChunkIndex;
  }

  lemma LearnedTrans(a: seq<bool>, b: seq<bool>, c: seq<bool>, v: seq<bool>, w: nat)
    requires w > 0 && Learned(a, b, v, w) && Learned(b, c, v, w)
    ensures Learned(a, c, v, w)
  {
    hide FullChunk;
  }

  lemma CursorWithin(c: Cursor, v: seq<bool>, w: nat, block: nat)
    requires CursorOk(c, v, w) && c.word < w && c.block <= block < 32 * (c.base + c.word) + 32
    ensures CursorOk(c.(block := block), v, w)
  {
    hide BitsOf, ChunkBase;
  }

  lemma CursorOnward(c: Cursor, v: seq<bool>, w: nat)
    requires CursorOk(c, v, w) && c.word < w
    ensures CursorOk(Cursor(32 * (c.base + c.word) + 32, c.buffer, c.base, c.word + 1), v, w)
  {
    hide BitsOf, ChunkBase;
  }

  lemma CursorFacts(c: Cursor, v: seq<bool>, w: nat)
    requires CursorOk(c, v, w)
    ensures w > 0 && c.word <= w == |c.buffer| && c.block <= |v| && 32 * (c.base + w) <= |v|
    ensures c.base == ChunkBase(32 * c.base, w)
    ensures c.word == w ==> c.block == 32 * (c.base + w)
    ensures c.block % 32 != 0 ==> c.word < w
    ensures c.block % 32 == 0 ==> c.block == 32 * (c.base + c.word)
  {
    hide BitsOf, ChunkBase;
  }

  lemma FullWordAt(c: Cursor, v: seq<bool>, w: nat, block: nat)
    requires CursorOk(c, v, w) && c.word < w
    requires c.block <= block <= 32 * (c.base + c.word) + 32 <= |v|
    requires c.buffer[c.word] == ALL_BITS && (block < 32 * (c.base + c.word) + 32 ==> !v[block])
    ensures block == 32 * (c.base + c.word) + 32
  {
    hide BitsOf, Bit, ChunkBase;
    IsAllBits(c.buffer[c.word]);
    if block < 32 * (c.base + c.word) + 32 { CursorBit(c, v, w, block - 32 * (c.base + c.word)); }
  }

  lemma AllClearIn(v: seq<bool>, a: nat, m: nat, b: nat)
    requires a <= m <= b <= |v| && AllClear(v, a, m) && AllClear(v, m, b)
    ensures AllClear(v, a, b)
  {
  }

  lemma ZeroWordAt(c: Cursor, v: seq<bool>, w: nat, block: nat)
    requires CursorOk(c, v, w) && c.word < w && c.block == 32 * (c.base + c.word)
    requires c.block <= block <= 32 * (c.base + c.word) + 32 <= |v|
    requires AllClear(v, c.block, block) && (block < 32 * (c.base + c.word) + 32 ==> v[block])
    ensures c.buffer[c.word] != 0 <==> block < 32 * (c.base + c.word) + 32
  {
    hide BitsOf, Bit, ChunkBase;
    IsZero(c.buffer[c.word]);
    if block < 32 * (c.base + c.word) + 32 { CursorBit(c, v, w, block - 32 * (c.base + c.word)); }
    forall k | 0 <= k < 32 ensures Bit(c.buffer[c.word], k) == v[c.block + k] { CursorBit(c, v, w, k); }
  }

  lemma AllClearNone(v: seq<bool>, a: nat)
    requires a <= |v|
    ensures AllClear(v, a, a)
  {
  }

  /** Scan one word for a block not in use: `found` when the cursor stands at one,
      otherwise the cursor is at the next word. */
  method UsedStep(c: Cursor, ghost v: seq<bool>, w: nat) returns (c': Cursor, found: bool)
    requires CursorOk(c, v, w) && c.word < w
    ensures CursorOk(c', v, w) && c.block <= c'.block <= |v| && AllSet(v, c.block, c'.block)
    ensures c'.base == c.base
    ensures found ==> c'.word < w && c'.block < |v| && !v[c'.block]
    ensures !found ==> c'.block % 32 == 0 && c'.block > c.block
  {
    hide BitsOf, ChunkBase, CursorOk;
    CursorFacts(c, v, w);
    var next := 32 * (c.base + c.word) + 32;
    var block := NextClearInWord(c, v, w);
    CursorOnward(c, v, w);
    if c.block % 32 == 0 && c.buffer[c.word] == ALL_BITS {
      FullWordAt(c, v, w, block);
      return Cursor(next, c.buffer, c.base, c.word + 1), false;
    }
    if block < next {
      CursorWithin(c, v, w, block);
      return c.(block := block), true;
    }
    return Cursor(next, c.buffer, c.base, c.word + 1), false;
  }

  /** Scan one word for a block in use. */
  method FreeStep(c: Cursor, ghost v: seq<bool>, w: nat) returns (c': Cursor, found: bool)
    requires CursorOk(c, v, w) && c.word < w
    ensures CursorOk(c', v, w) && c.block <= c'.block <= |v| && AllClear(v, c.block, c'.block)
    ensures found ==> c'.block < |v| && v[c'.block]
    ensures !found ==> c'.block % 32 == 0 && c'.block > c.block
  {
    hide BitsOf, ChunkBase, CursorOk;
    CursorFacts(c, v, w);
    var next := 32 * (c.base + c.word) + 32;
    var block := NextSetInWord(c, v, w);
    CursorOnward(c, v, w);
    if c.block % 32 == 0 && c.buffer[c.word] == 0 {
      ZeroWordAt(c, v, w, block);
      return Cursor(next, c.buffer, c.base, c.word + 1), false;
    }
    if block < next {
      CursorWithin(c, v, w, block);
      return c.(block := block), true;
    }
    return Cursor(next, c.buffer, c.base, c.word + 1), false;
  }

  /** Read the bitmap block after a used-up one. */
  method ReadNext(ctx: Context, c0: Cursor) returns (c: Cursor)
    requires ctx.Valid() && CursorOk(c0, ctx.V(), ctx.bm.wordsPerChunk)
    requires c0.word == ctx.bm.wordsPerChunk && c0.block < 32 * ctx.bm.words.Length
    ensures c.block == c0.block && CursorOk(c, ctx.V(), ctx.bm.wordsPerChunk)
    ensures c.word == 0 && c.block == 32 * c.base
  {
    hide BitsOf, View, ChunkBase, CursorOk, WordInChunk;
    var w := ctx.bm.wordsPerChunk;
    CursorFacts(c0, ctx.V(), w);
    NextChunk(32 * c0.base, w);
    c := ReadAt(ctx, c0.block);
    ChunkBaseStart(c.block, w);
    ChunkWord(c.block, w);
    CursorFacts(c, ctx.V(), w);
  }

  /** First inner loop of BlockFindContiguous: find the next block not in use. */
  method FindUnused(ctx: Context, c0: Cursor, stop: nat) returns (c: Cursor, exit: bool)
    requires ctx.Valid() && CursorOk(c0, ctx.V(), ctx.bm.wordsPerChunk)
    requires c0.block < stop <= ctx.allocLimit
    modifies ctx.st.bytes
    ensures Learned(old(ctx.st.Full()), ctx.st.Full(), ctx.V(), ctx.bm.wordsPerChunk)
    ensures ctx.X() == old(ctx.X())
    ensures exit ==> forall b :: c0.block <= b < stop ==> ctx.X()[b]
    ensures !exit ==> c0.block <= c.block <= |ctx.X()| && AllSet(ctx.X(), c0.block, c.block)
    ensures !exit && c.block < stop ==>
              CursorOk(c, ctx.V(), ctx.bm.wordsPerChunk) && c.word < ctx.bm.wordsPerChunk && !ctx.V()[c.block]
  {
    hide BitsOf, View, ChunkBase, Masked, Learned, CursorOk;
    var w := ctx.bm.wordsPerChunk;
    ghost var v, x, f0 := ctx.V(), ctx.X(), ctx.st.Full();
    ViewHidden(ctx);
    LearnedNothing(f0, v, w);
    CursorFacts(c0, v, w);
    c, exit := c0, false;
    var found := false;
    if c.block % 32 != 0 {
      c, found := UsedStep(c, v, w);
    }
    var scan := 0;
    while c.block < stop && !found
      invariant c0.block <= c.block <= |v| && CursorOk(c, v, w)
      invariant ctx.X() == x && AllSet(x, c0.block, c.block)
      invariant Learned(f0, ctx.st.Full(), v, w)
      invariant 0 <= scan && (scan != 0 ==> scan == 32 * c.base && scan <= c.block && AllSet(v, scan, c.block))
      invariant found ==> c.word < w && c.block < |v| && !v[c.block]
      decreases !found, stop - c.block
    {
      CursorFacts(c, v, w);
      if c.word == w {
        ghost var f := ctx.st.Full();
        c, exit := NextBlock(ctx, c, scan, stop);
        LearnedTrans(f0, f, ctx.st.Full(), v, w);
        if exit { return; }
        scan := c.block;
      }
      ghost var was := c.block;
      c, found := UsedStep(c, v, w);
      AllSetIn(v, x, c0.block, was, c.block);
    }
  }

  /** Second inner loop: the end of the run of free blocks the cursor stands at. The
      run is followed to its end, to `end`, or until it has `max` blocks. */
  method CountFree(ctx: Context, c0: Cursor, end: nat, max: nat) returns (c: Cursor)
    requires ctx.Valid() && CursorOk(c0, ctx.V(), ctx.bm.wordsPerChunk) && c0.word < ctx.bm.wordsPerChunk
    requires c0.block < end <= ctx.allocLimit && !ctx.V()[c0.block]
    ensures c0.block < c.block <= |ctx.V()| && AllClear(ctx.V(), c0.block, c.block)
    ensures c.block >= end || c.block - c0.block >= max || (CursorOk(c, ctx.V(), ctx.bm.wordsPerChunk) && ctx.V()[c.block])
  {
    hide BitsOf, View, ChunkBase, CursorOk, AllClear;
    var w := ctx.bm.wordsPerChunk;
    ghost var v := ctx.V();
    AllClearNone(v, c0.block);
    c := c0;
    var found := false;
    if c.block % 32 != 0 {
      c, found := FreeStep(c, v, w);
    }
    while c.block < end && !found
      invariant c0.block <= c.block <= |v| && CursorOk(c, v, w)
      invariant AllClear(v, c0.block, c.block)
      invariant found ==> c.block < |v| && v[c.block]
      decreases !found, end - c.block
    {
      CursorFacts(c, v, w);
      if c.word == w { c := ReadNext(ctx, c); }
      ghost var was := c.block;
      c, found := FreeStep(c, v, w);
      AllClearIn(v, c0.block, was, c.block);
      if !found && c.block - c0.block >= max { return; }
    }
  }

  // ------------------------------------------------------------- reasoning about runs

  lemma LongerRun(x: seq<bool>, s: nat, t: nat, e: nat, k: nat, m: nat)
    requires NoRunBefore(x, s, t, e, k) && k <= m
    ensures NoRunBefore(x, s, t, e, m)
  {
    forall p | s <= p < t && p + m <= e ensures !ClearRun(x, p, m) {
      assert !ClearRun(x, p, k);
    }
  }

  /** No window starts in a stretch of blocks in use. */
  lemma PastUsed(x: seq<bool>, s: nat, a: nat, b: nat, e: nat, k: nat)
    requires NoRunBefore(x, s, a, e, k) && k > 0 && a <= b
    requires forall i :: a <= i < b && i < e ==> i < |x| && x[i]
    ensures NoRunBefore(x, s, b, e, k)
  {
    forall p | s <= p < b && p + k <= e ensures !ClearRun(x, p, k) {
      if a <= p < |x| { assert x[p]; }
    }
  }

  /** A run shorter than `k` that ends at a block in use, or at `e`, starts no window. */
  lemma PastRun(x: seq<bool>, s: nat, first: nat, cur: nat, e: nat, k: nat)
    requires NoRunBefore(x, s, first, e, k) && first <= cur <= e && cur - first < k
    requires cur == e || (cur < |x| && x[cur])
    ensures NoRunBefore(x, s, cur, e, k)
  {
    forall p | s <= p < cur && p + k <= e ensures !ClearRun(x, p, k) {
      if p >= first { assert p <= cur < p + k; }
    }
  }

  lemma NothingBefore(x: seq<bool>, s: nat, e: nat, k: nat)
    ensures NoRunBefore(x, s, s, e, k)
  {
  }

  /** Windows of `k` blocks starting at or after `stop` do not fit below `e`. */
  lemma BeforeStop(x: seq<bool>, s: nat, stop: nat, e: nat, k: nat)
    requires NoRunBefore(x, s, stop, e, k) && stop + k > e
    ensures NoRun(x, s, e, k)
  {
  }

  /** The early stop of the exhaustive search: what is left cannot hold a longer run. */
  lemma EnoughLeft(v: seq<bool>, x: seq<bool>, s: nat, cur: nat, e: nat, best: nat)
    requires |v| == |x| && cur <= e <= |v| && NoRunBefore(x, s, cur, e, best + 1)
    requires forall i :: 0 <= i < |v| && v[i] ==> x[i]
    requires ClearIn(v, cur, e) <= best
    ensures NoRun(x, s, e, best + 1)
  {
    var m := best + 1;
    forall p | s <= p && p + m <= e ensures !ClearRun(x, p, m) {
      if p >= cur && ClearRun(x, p, m) {
        assert AllClear(v, p, p + m);
        ClearRunFits(v, cur, e, p, p + m);
      }
    }
  }

  lemma FreeLeft(v: seq<bool>, a: nat, first: nat, cur: nat, e: nat)
    requires a <= first <= cur <= e <= |v| && AllClear(v, first, cur)
    ensures ClearIn(v, cur, e) + (cur - first) <= ClearIn(v, a, e)
  {
    ClearInSplit(v, a, first, e);
    ClearInSplit(v, first, cur, e);
    ClearInAllClear(v, first, cur);
  }

  // ----------------------------------------------------------- BlockFindContiguous

  datatype SearchResult = Fit(start: nat, count: nat) | DiskFull

  /** The part of a free run that no tentative range holds. */
  method WithoutTentative(first: nat, count: nat, tentative: seq<Range>) returns (r: Range)
    requires Proper(tentative) && count > 0
    ensures r.Len() >= 0
    ensures forall b: int :: r.Holds(b) ==> first <= b < first + count && !Held(tentative, b)
  {
    hide Subtract;
    r := Range(first, first + count - 1);
    var i := 0;
    while i < |tentative|
      invariant 0 <= i <= |tentative| && r.Len() >= 0
      invariant forall b :: r.Holds(b) ==> first <= b < first + count && forall j :: 0 <= j < i ==> !tentative[j].Holds(b)
    {
      SubtractMeans(r, tentative[i]);
      r := Subtract(r, tentative[i]);
      i := i + 1;
    }
  }

  /** New cache contents hold only old ones and blocks free in `v` and not awaiting a trim. */
  ghost predicate CacheGrew(was: seq<Extent>, now: seq<Extent>, v: seq<bool>, trim: set<nat>) {
    forall b: nat :: Covers(now, b) ==> Covers(was, b) || (b < |v| && !v[b] && b !in trim)
  }

  lemma CacheGrewNothing(a: seq<Extent>, v: seq<bool>, trim: set<nat>)
    ensures CacheGrew(a, a, v, trim)
  {
  }

  lemma CacheGrewTrans(a: seq<Extent>, b: seq<Extent>, c: seq<Extent>, v: seq<bool>, trim: set<nat>)
    requires CacheGrew(a, b, v, trim) && CacheGrew(b, c, v, trim)
    ensures CacheGrew(a, c, v, trim)
  {
    hide Covers;
  }

  /** The whole reservation view: nothing ignored. */
  ghost function WholeView(ctx: Context): (v: seq<bool>)
    reads ctx.bm, ctx.bm.words
    ensures |v| == 32 * ctx.bm.words.Length
  { View(ctx.bm.Bits(), ctx.tentative + ctx.locked) }

  lemma WholeViewAt(ctx: Context, b: nat)
    requires b < 32 * ctx.bm.words.Length && !ctx.V()[b]
    requires ctx.ignoreTentative ==> !Held(ctx.tentative, b)
    ensures !WholeView(ctx)[b]
  {
    hide Held;
    HeldConcat(ctx.tentative, ctx.locked, b);
    HeldConcat([], ctx.locked, b);
    HeldConcat(if ctx.ignoreTentative then [] else ctx.tentative, ctx.locked, b);
  }

  /** The cache array is not one of the arrays being searched. */
  ghost predicate Separate(ctx: Context, cache: FreeExtentCache) {
    cache.ext as object != ctx.bm.words && cache.ext as object != ctx.st.bytes
  }

  /** A run too short for the request goes into the free extent cache. */
  method CacheRun(ctx: Context, cache: FreeExtentCache, trim: set<nat>, first: nat, count: nat)
    requires ctx.Valid() && cache.Valid() && Separate(ctx, cache) && count > 0 && ClearRun(ctx.V(), first, count)
    modifies cache`cnt, cache.ext
    ensures cache.Valid() && CacheGrew(old(cache.Contents()), cache.Contents(), WholeView(ctx), trim)
  {
    hide View, Covers, Held, WellFormed, BestOf, Grown, Untouched;
    var start: nat, n: nat := first, count;
    var r := Range(first, first + count - 1);
    if ctx.ignoreTentative {
      r := WithoutTentative(first, count, ctx.tentative);
      if r.Len() == 0 { return; }
      assert r.Holds(r.start) && r.Holds(r.last);
      start, n := r.start, r.Len();
    }
    var recent := exists b :: start <= b < start + n && b in trim;
    if !recent {
      ghost var was, v := cache.Contents(), ctx.V();
      var _ := cache.Add(start, n);
      assert ctx.V() == v;
      forall b: nat | Covers(cache.Contents(), b)
        ensures Covers(was, b) || (b < |WholeView(ctx)| && !WholeView(ctx)[b] && b !in trim)
      {
        AddCovers(cache.sparse, cache.allocLimit, was, cache.Contents(), start, n, b);
        if !Covers(was, b) {
          assert r.Holds(b);
          WholeViewAt(ctx, b);
        }
      }
    }
  }

  lemma AddCovers(sparse: bool, limit: nat, was: seq<Extent>, now: seq<Extent>, start: nat, n: nat, b: nat)
    requires AddedTo(sparse, limit, was, now, start, n)
    ensures Covers(now, b) ==> Covers(was, b) || start <= b < start + n
  {
    hide BestOf, Grown, Untouched, Covers;
    if start < limit { AdditionCoverage(sparse, was, now, start, FreeExtentCaches.Min(start + n, limit), b); }
  }

  /** The next run of free blocks: `exit` when none starts before `stop`. */
  method NextRun(ctx: Context, c0: Cursor, stop: nat, end: nat, max: nat)
    returns (exit: bool, c: Cursor, first: nat, cur: nat)
    requires ctx.Valid() && CursorOk(c0, ctx.V(), ctx.bm.wordsPerChunk)
    requires c0.block < stop <= end <= ctx.allocLimit && max > 0
    modifies ctx.st.bytes
    ensures Learned(old(ctx.st.Full()), ctx.st.Full(), ctx.V(), ctx.bm.wordsPerChunk)
    ensures ctx.X() == old(ctx.X())
    ensures exit ==> forall b :: c0.block <= b < stop ==> ctx.X()[b]
    ensures !exit ==>
              && c0.block <= first < stop && first < cur <= end && AllSet(ctx.X(), c0.block, first)
              && AllClear(ctx.V(), first, cur)
              && (cur - first < max ==> cur == end || (ctx.V()[cur] && c.block == cur && CursorOk(c, ctx.V(), ctx.bm.wordsPerChunk)))
  {
    hide BitsOf, View, Masked, Learned, CursorOk;
    c, exit := FindUnused(ctx, c0, stop);
    first, cur := 0, 0;
    if exit || c.block >= stop {
      exit := true;
      return;
    }
    first := c.block;
    c := CountFree(ctx, c, end, max);
    cur := if c.block > end then end else c.block;
  }

  /** The search loop that stops at the first run that is long enough. */
  method FirstOf(ctx: Context, cache: FreeExtentCache, trim: set<nat>, c0: Cursor, ghost start: nat, stop: nat,
                 end: nat, min: nat, max: nat)
    returns (r: SearchResult)
    requires ctx.Valid() && cache.Valid() && Separate(ctx, cache) && CursorOk(c0, ctx.V(), ctx.bm.wordsPerChunk)
    requires start <= c0.block < stop && stop + min == end + 1 && end <= ctx.allocLimit && 0 < min <= max
    requires AllSet(ctx.X(), start, c0.block)
    modifies ctx.st.bytes, cache`cnt, cache.ext
    ensures cache.Valid() && CacheGrew(old(cache.Contents()), cache.Contents(), WholeView(ctx), trim)
    ensures Learned(old(ctx.st.Full()), ctx.st.Full(), ctx.V(), ctx.bm.wordsPerChunk)
    ensures r.DiskFull? ==> NoRun(old(ctx.X()), start, end, min)
    ensures r.Fit? ==> FirstFit(ctx.V(), old(ctx.X()), start, end, min, max, r.start, r.count)
  {
    hide BitsOf, View, Masked, Learned, CursorOk, CacheGrew, NoRun, NoRunBefore;
    ghost var v, x, f0, k0, wv, w := ctx.V(), ctx.X(), ctx.st.Full(), cache.Contents(), WholeView(ctx), ctx.bm.wordsPerChunk;
    ViewHidden(ctx);
    LearnedNothing(f0, v, w);
    CacheGrewNothing(k0, wv, trim);
    NothingBefore(x, start, end, min);
    PastUsed(x, start, start, c0.block, end, min);
    var c := c0;
    while true
      invariant start <= c.block < stop && CursorOk(c, v, w) && cache.Valid()
      invariant ctx.V() == v && ctx.X() == x && WholeView(ctx) == wv
      invariant Learned(f0, ctx.st.Full(), v, w) && CacheGrew(k0, cache.Contents(), wv, trim)
      invariant NoRunBefore(x, start, c.block, end, min)
      decreases stop - c.block
    {
      ghost var f, k, a := ctx.st.Full(), cache.Contents(), c.block;
      var exit, first, cur;
      exit, c, first, cur := NextRun(ctx, c, stop, end, max);
      assert ctx.V() == v && WholeView(ctx) == wv;
      LearnedTrans(f0, f, ctx.st.Full(), v, w);
      if exit {
        PastUsed(x, start, a, stop, end, min);
        BeforeStop(x, start, stop, end, min);
        return DiskFull;
      }
      PastUsed(x, start, a, first, end, min);
      var found := cur - first;
      if found > max { found := max; }
      if found >= min { return Fit(first, found); }
      CacheRun(ctx, cache, trim, first, found);
      CacheGrewTrans(k0, k, cache.Contents(), wv, trim);
      PastRun(x, start, first, cur, end, min);
      if cur >= stop {
        BeforeStopAt(x, start, cur, stop, end, min);
        return DiskFull;
      }
    }
  }

  lemma BeforeStopAt(x: seq<bool>, s: nat, t: nat, stop: nat, e: nat, k: nat)
    requires NoRunBefore(x, s, t, e, k) && stop <= t && stop + k > e
    ensures NoRun(x, s, e, k)
  {
  }

  /** The best run kept so far: clear, and leftmost of its length. */
  ghost predicate GoodBest(v: seq<bool>, x: seq<bool>, s: nat, e: nat, best: Extent) {
    && s <= best.start && best.End() <= e && ClearRun(v, best.start, best.count)
    && NoRunBefore(x, s, best.start, e, best.count)
  }

  /** Progress of the exhaustive search up to `at`: no run longer than the best one
      starts earlier, and at most `remaining` free blocks are still to come. */
  ghost predicate Progress(v: seq<bool>, x: seq<bool>, s: nat, at: nat, e: nat, max: nat, remaining: nat,
                           best: Extent) {
    && |v| == |x| && at <= e <= |v|
    && (forall i :: 0 <= i < |v| && v[i] ==> x[i])
    && NoRunBefore(x, s, at, e, best.count + 1)
    && best.count < max && (best.count > 0 ==> GoodBest(v, x, s, e, best))
    && ClearIn(v, at, e) <= remaining
  }

  /** The next run [first, cur) seen from `at`. */
  ghost predicate SeenRun(v: seq<bool>, x: seq<bool>, at: nat, first: nat, cur: nat, e: nat, max: nat) {
    && at <= first < cur <= e <= |v| == |x| && AllSet(x, at, first) && AllClear(v, first, cur)
    && (cur - first < max ==> cur == e || v[cur])
  }

  function Better(best: Extent, first: nat, found: nat): Extent {
    if found > best.count then Extent(first, found) else best
  }

  function Less(remaining: nat, found: nat): nat {
    if remaining == 0 then 0 else if found > remaining then 0xFFFF_FFFF else remaining - found
  }

  lemma ProgressStart(v: seq<bool>, x: seq<bool>, s: nat, at: nat, e: nat, max: nat, remaining: nat)
    requires |v| == |x| && s <= at <= e <= |v| && max > 0 && ClearIn(v, s, e) <= remaining
    requires forall i :: 0 <= i < |v| && v[i] ==> x[i]
    requires AllSet(x, s, at)
    ensures Progress(v, x, s, at, e, max, remaining, Extent(0, 0))
  {
    hide NoRunBefore, ClearIn;
    NothingBefore(x, s, e, 1);
    PastUsed(x, s, s, at, e, 1);
    FreeLeft(v, s, at, at, e);
  }

  lemma ProgressRun(v: seq<bool>, x: seq<bool>, s: nat, at: nat, first: nat, cur: nat, e: nat, max: nat, remaining: nat,
                    best: Extent)
    requires Progress(v, x, s, at, e, max, remaining, best) && SeenRun(v, x, at, first, cur, e, max) && s <= at
    requires cur - first < max
    ensures Progress(v, x, s, cur, e, max, Less(remaining, cur - first), Better(best, first, cur - first))
  {
    hide NoRunBefore, ClearIn;
    var found := cur - first;
    var best' := Better(best, first, found);
    PastUsed(x, s, at, first, e, best.count + 1);
    FreeLeft(v, at, first, cur, e);
    if found > best.count { LongerRun(x, s, first, e, best.count + 1, found); }
    LongerRun(x, s, first, e, best.count + 1, best'.count + 1);
    PastRun(x, s, first, cur, e, best'.count + 1);
  }

  lemma ProgressFull(v: seq<bool>, x: seq<bool>, s: nat, at: nat, first: nat, cur: nat, e: nat, min: nat, max: nat,
                     remaining: nat, best: Extent)
    requires Progress(v, x, s, at, e, max, remaining, best) && SeenRun(v, x, at, first, cur, e, max) && s <= at
    requires cur - first >= max >= min
    ensures BestFit(v, x, s, e, min, max, first, max)
  {
    hide NoRunBefore, ClearIn;
    PastUsed(x, s, at, first, e, best.count + 1);
    LongerRun(x, s, first, e, best.count + 1, max);
  }

  /** No run starts between `at` and `stop`, past which none of `min` blocks fits. */
  lemma ProgressEnd(v: seq<bool>, x: seq<bool>, s: nat, at: nat, stop: nat, e: nat, min: nat, max: nat, remaining: nat,
                    best: Extent)
    requires Progress(v, x, s, at, e, max, remaining, best) && stop + min == e + 1 && 0 < min
    requires forall i :: at <= i < stop ==> x[i]
    ensures best.count >= min ==> BestFit(v, x, s, e, min, max, best.start, best.count)
    ensures best.count < min ==> NoRun(x, s, e, min)
  {
    hide NoRunBefore, ClearIn, NoRun;
    var k := best.count + 1;
    var t := if at < stop then stop else at;
    PastUsed(x, s, at, t, e, k);
    if best.count >= min {
      BeforeStopAt(x, s, t, stop, e, k);
    } else {
      LongerRun(x, s, t, e, k, min);
      BeforeStopAt(x, s, t, stop, e, min);
    }
  }

  /** The blocks still to come are too few for a longer run. */
  lemma ProgressEnough(v: seq<bool>, x: seq<bool>, s: nat, at: nat, e: nat, min: nat, max: nat, remaining: nat,
                       best: Extent)
    requires Progress(v, x, s, at, e, max, remaining, best) && 0 < min && best.count >= remaining
    ensures best.count >= min ==> BestFit(v, x, s, e, min, max, best.start, best.count)
    ensures best.count < min ==> NoRun(x, s, e, min)
  {
    EnoughLeft(v, x, s, at, e, best.count);
    if best.count < min {
      forall p | s <= p && p + min <= e ensures !ClearRun(x, p, min) {
        assert !ClearRun(x, p, best.count + 1);
      }
    }
  }

  /** The exhaustive search loop: it stops at a run of `max` blocks, or when the blocks
      still unseen are too few for a longer run than the best so far. */
  method Exhaust(ctx: Context, cache: FreeExtentCache, trim: set<nat>, c0: Cursor, ghost start: nat, stop: nat,
                 end: nat, min: nat, max: nat, remaining0: nat)
    returns (r: SearchResult)
    requires ctx.Valid() && cache.Valid() && Separate(ctx, cache) && CursorOk(c0, ctx.V(), ctx.bm.wordsPerChunk)
    requires start <= c0.block < stop && stop + min == end + 1 && end <= ctx.allocLimit && 0 < min <= max
    requires AllSet(ctx.X(), start, c0.block)
    requires ClearIn(ctx.V(), start, end) <= remaining0
    modifies ctx.st.bytes, cache`cnt, cache.ext
    ensures cache.Valid() && CacheGrew(old(cache.Contents()), cache.Contents(), WholeView(ctx), trim)
    ensures Learned(old(ctx.st.Full()), ctx.st.Full(), ctx.V(), ctx.bm.wordsPerChunk)
    ensures r.DiskFull? ==> NoRun(old(ctx.X()), start, end, min)
    ensures r.Fit? ==> BestFit(ctx.V(), old(ctx.X()), start, end, min, max, r.start, r.count)
  {
    hide BitsOf, View, Masked, Learned, CursorOk, CacheGrew, NoRun, ClearIn, Progress, BestFit;
    ghost var v, x, f0, k0, wv, w := ctx.V(), ctx.X(), ctx.st.Full(), cache.Contents(), WholeView(ctx), ctx.bm.wordsPerChunk;
    ViewHidden(ctx);
    LearnedNothing(f0, v, w);
    CacheGrewNothing(k0, wv, trim);
    ProgressStart(v, x, start, c0.block, end, max, remaining0);
    var c, remaining, best := c0, remaining0, Extent(0, 0);
    while true
      invariant start <= c.block < stop && CursorOk(c, v, w) && cache.Valid()
      invariant ctx.V() == v && ctx.X() == x && WholeView(ctx) == wv
      invariant Learned(f0, ctx.st.Full(), v, w) && CacheGrew(k0, cache.Contents(), wv, trim)
      invariant Progress(v, x, start, c.block, end, max, remaining, best)
      decreases stop - c.block
    {
      ghost var f, k, a := ctx.st.Full(), cache.Contents(), c.block;
      var exit, first, cur;
      exit, c, first, cur := NextRun(ctx, c, stop, end, max);
      assert ctx.V() == v && WholeView(ctx) == wv;
      LearnedTrans(f0, f, ctx.st.Full(), v, w);
      if exit {
        ProgressEnd(v, x, start, a, stop, end, min, max, remaining, best);
        return if best.count >= min then Fit(best.start, best.count) else DiskFull;
      }
      assert SeenRun(v, x, a, first, cur, end, max);
      if cur - first >= max {
        ProgressFull(v, x, start, a, first, cur, end, min, max, remaining, best);
        return Fit(first, max);
      }
      var found := cur - first;
      ProgressRun(v, x, start, a, first, cur, end, max, remaining, best);
      remaining, best := Less(remaining, found), Better(best, first, found);
      if best.count >= remaining {
        ProgressEnough(v, x, start, cur, end, min, max, remaining, best);
        return if best.count >= min then Fit(best.start, best.count) else DiskFull;
      }
      CacheRun(ctx, cache, trim, first, found);
      CacheGrewTrans(k0, k, cache.Contents(), wv, trim);
      if cur >= stop {
        ProgressEnd(v, x, start, cur, stop, end, min, max, remaining, best);
        return if best.count >= min then Fit(best.start, best.count) else DiskFull;
      }
    }
  }

  /** BlockFindContiguous. `remaining` is the number of free blocks the counters report
      for the view searched; `hard` is the exhaustive search. */
  method FindContiguous(ctx: Context, cache: FreeExtentCache, trim: set<nat>, start: nat, end: nat, min: nat, max: nat,
                        hard: bool, remaining0: nat)
    returns (r: SearchResult)
    requires ctx.Valid() && cache.Valid() && Separate(ctx, cache)
    requires start <= end <= ctx.allocLimit && 0 < min <= max
    requires hard ==> ClearIn(ctx.V(), start, end) <= remaining0
    modifies ctx.st.bytes, cache`cnt, cache.ext
    ensures cache.Valid() && CacheGrew(old(cache.Contents()), cache.Contents(), WholeView(ctx), trim)
    ensures Learned(old(ctx.st.Full()), ctx.st.Full(), ctx.V(), ctx.bm.wordsPerChunk)
    ensures r.DiskFull? ==> NoRun(old(ctx.X()), start, end, min)
    ensures r.Fit? && !hard ==> FirstFit(ctx.V(), old(ctx.X()), start, end, min, max, r.start, r.count)
    ensures r.Fit? && hard ==> BestFit(ctx.V(), old(ctx.X()), start, end, min, max, r.start, r.count)
  {
    hide BitsOf, View, Masked, Learned, CursorOk, CacheGrew, NoRun, NoRunBefore;
    ghost var v, x, f0, k0, wv, w := ctx.V(), ctx.X(), ctx.st.Full(), cache.Contents(), WholeView(ctx), ctx.bm.wordsPerChunk;
    ViewHidden(ctx);
    LearnedNothing(f0, v, w);
    CacheGrewNothing(k0, wv, trim);
    NothingBefore(x, start, end, min);
    if end - start < min {
      BeforeStop(x, start, start, end, min);
      return DiskFull;
    }
    var stop := end - min + 1;
    var at, exit := Suggest(ctx, start, stop);
    assert ctx.X() == x;
    if exit {
      PastUsed(x, start, start, stop, end, min);
      BeforeStop(x, start, stop, end, min);
      return DiskFull;
    }
    var c := ReadAt(ctx, at);
    if hard {
      r := Exhaust(ctx, cache, trim, c, start, stop, end, min, max, remaining0);
    } else {
      r := FirstOf(ctx, cache, trim, c, start, stop, end, min, max);
    }
  }

  // ------------------------------------------------------- BlockFindAny and its scan

  /** A view with the blocks awaiting a trim counted as in use. */
  ghost function Avoiding(v: seq<bool>, avoid: set<nat>): seq<bool> {
    seq(|v|, b requires 0 <= b < |v| => v[b] || b in avoid)
  }

  /** Step one bit on; at the end of a bitmap block note it if it was scanned whole, and
      read the next one. */
  method StepBit(ctx: Context, c0: Cursor, scan0: nat, end: nat, note: bool) returns (c: Cursor, scan: nat)
    requires ctx.Valid() && CursorOk(c0, ctx.V(), ctx.bm.wordsPerChunk) && c0.word < ctx.bm.wordsPerChunk
    requires c0.block < end <= ctx.allocLimit
    requires note && scan0 != 0 ==> scan0 == 32 * c0.base && scan0 <= c0.block && AllSet(ctx.V(), scan0, c0.block + 1)
    modifies ctx.st.bytes
    ensures Learned(old(ctx.st.Full()), ctx.st.Full(), ctx.V(), ctx.bm.wordsPerChunk)
    ensures !note ==> ctx.st.Full() == old(ctx.st.Full())
    ensures c.block == c0.block + 1
    ensures c.block < end ==> CursorOk(c, ctx.V(), ctx.bm.wordsPerChunk) && c.word < ctx.bm.wordsPerChunk
    ensures c.block < end && note && scan != 0 ==>
              scan == 32 * c.base && scan <= c.block && AllSet(ctx.V(), scan, c.block)
  {
    hide BitsOf, View, ChunkBase, Masked, Learned, CursorOk;
    var w := ctx.bm.wordsPerChunk;
    ghost var v, f0 := ctx.V(), ctx.st.Full();
    LearnedNothing(f0, v, w);
    CursorFacts(c0, v, w);
    CursorOnward(c0, v, w);
    scan := scan0;
    var next := 32 * (c0.base + c0.word) + 32;
    InWord(c0, v, w);
    if c0.block + 1 < next {
      CursorWithin(c0, v, w, c0.block + 1);
      c := c0.(block := c0.block + 1);
      return;
    }
    c := Cursor(next, c0.buffer, c0.base, c0.word + 1);
    if c.word < w { return; }
    if note { NoteFull(ctx, c.base, scan); }
    assert ctx.V() == v;
    CursorFacts(c, v, w);
    if c.block < end {
      c := ReadNext(ctx, c);
      scan := c.block;
    }
  }

  lemma InWord(c: Cursor, v: seq<bool>, w: nat)
    requires CursorOk(c, v, w)
    ensures c.block < 32 * (c.base + c.word) + 32
  {
    hide BitsOf, ChunkBase;
  }

  method BitAt(c: Cursor, ghost v: seq<bool>, w: nat) returns (used: bool)
    requires CursorOk(c, v, w) && c.word < w
    ensures c.block < |v| && used == v[c.block]
  {
    hide BitsOf, ChunkBase, Test, Mask;
    CursorBit(c, v, w, c.block - 32 * (c.base + c.word));
    used := Test(c.buffer[c.word], Mask(c.block % 32));
  }

  /** Where to go on from a block that awaits a trim: past the blocks that do. */
  method PastTrim(block: nat, end: nat, trim: set<nat>) returns (next: nat)
    requires block in trim
    ensures block < next && forall b :: block <= b < next ==> b in trim
  {
    next := block + 1;
    while next < end && next in trim
      invariant block < next && forall b :: block <= b < next ==> b in trim
    {
      next := next + 1;
    }
  }

  /** First loop of BlockFindAnyBitmap: the first block not in use, or `end`. */
  method FirstUnused(ctx: Context, start: nat, end: nat) returns (c: Cursor)
    requires ctx.Valid() && start < end <= ctx.allocLimit
    modifies ctx.st.bytes
    ensures Learned(old(ctx.st.Full()), ctx.st.Full(), ctx.V(), ctx.bm.wordsPerChunk)
    ensures start <= c.block <= end && AllSet(ctx.V(), start, c.block)
    ensures c.block < end ==>
              CursorOk(c, ctx.V(), ctx.bm.wordsPerChunk) && c.word < ctx.bm.wordsPerChunk && !ctx.V()[c.block]
  {
    hide BitsOf, View, ChunkBase, Masked, Learned, CursorOk;
    var w := ctx.bm.wordsPerChunk;
    ghost var v, f0 := ctx.V(), ctx.st.Full();
    LearnedNothing(f0, v, w);
    c := ReadAt(ctx, start);
    var scan := 0;
    while c.block < end
      invariant start <= c.block <= end && AllSet(v, start, c.block) && ctx.V() == v
      invariant Learned(f0, ctx.st.Full(), v, w)
      invariant c.block < end ==> CursorOk(c, v, w) && c.word < w
      invariant c.block < end && scan != 0 ==> scan == 32 * c.base && scan <= c.block && AllSet(v, scan, c.block)
      invariant 0 <= scan
    {
      var used := BitAt(c, v, w);
      if !used { return; }
      ghost var f := ctx.st.Full();
      c, scan := StepBit(ctx, c, scan, end, true);
      LearnedTrans(f0, f, ctx.st.Full(), v, w);
    }
  }

  /** Second loop: follow the run of free blocks up to `end`. */
  method FollowRun(ctx: Context, c0: Cursor, end: nat) returns (block: nat)
    requires ctx.Valid() && CursorOk(c0, ctx.V(), ctx.bm.wordsPerChunk) && c0.word < ctx.bm.wordsPerChunk
    requires c0.block < end <= ctx.allocLimit && !ctx.V()[c0.block]
    modifies ctx.st.bytes
    ensures ctx.st.Full() == old(ctx.st.Full())
    ensures c0.block < block <= end && AllClear(ctx.V(), c0.block, block)
    ensures block == end || ctx.V()[block]
  {
    hide BitsOf, View, ChunkBase, Masked, Learned, CursorOk;
    var w := ctx.bm.wordsPerChunk;
    ghost var v := ctx.V();
    var c, used, scan := c0, false, 0;
    while c.block < end
      invariant c0.block <= c.block <= end && AllClear(v, c0.block, c.block) && ctx.V() == v
      invariant ctx.st.Full() == old(ctx.st.Full())
      invariant c.block < end ==> CursorOk(c, v, w) && c.word < w
      invariant c.block == c0.block ==> !v[c.block]
    {
      used := BitAt(c, v, w);
      if used { break; }
      c, scan := StepBit(ctx, c, 0, end, false);
    }
    block := c.block;
  }

  /** BlockFindAnyBitmap. `avoid` holds the blocks awaiting a trim that the caller may not
      use; a search that meets one restarts past it. */
  method FindAnyBitmap(ctx: Context, avoid: set<nat>, start0: nat, end: nat, max0: nat) returns (r: SearchResult)
    requires ctx.Valid() && end <= ctx.allocLimit && max0 > 0
    modifies ctx.st.bytes
    ensures Learned(old(ctx.st.Full()), ctx.st.Full(), ctx.V(), ctx.bm.wordsPerChunk)
    ensures r.DiskFull? ==> NoRun(Avoiding(ctx.V(), avoid), start0, end, 1)
    ensures r.Fit? ==> FirstFit(ctx.V(), Avoiding(ctx.V(), avoid), start0, end, 1, max0, r.start, r.count)
    ensures r.Fit? ==> r.start !in avoid
  {
    hide BitsOf, View, ChunkBase, Masked, Learned, CursorOk, NoRun, NoRunBefore;
    ghost var v, f0, w := ctx.V(), ctx.st.Full(), ctx.bm.wordsPerChunk;
    ghost var x := Avoiding(v, avoid);
    LearnedNothing(f0, v, w);
    NothingBefore(x, start0, end, 1);
    var start := start0;
    while start < end
      invariant start0 <= start && ctx.V() == v && Learned(f0, ctx.st.Full(), v, w)
      invariant NoRunBefore(x, start0, start, end, 1)
    {
      var max := if max0 > end - start then end - start else max0;
      ghost var f := ctx.st.Full();
      var c := FirstUnused(ctx, start, end);
      LearnedTrans(f0, f, ctx.st.Full(), v, w);
      PastUsed(x, start0, start, c.block, end, 1);
      if c.block >= end {
        BeforeStopAt(x, start0, c.block, end, end, 1);
        return DiskFull;
      }
      if c.block in avoid {
        var next := PastTrim(c.block, end, avoid);
        PastUsed(x, start0, c.block, next, end, 1);
        start := next;
      } else {
        var limit := if c.block < end - max then c.block + max else end;
        var last := FollowRun(ctx, c, limit);
        return Fit(c.block, last - c.block);
      }
    }
    BeforeStopAt(x, start0, start, if start < end then start else end, end, 1);
    r := DiskFull;
  }

  /** The view BlockFindAny is complete for: full bitmap blocks and avoided blocks hidden. */
  ghost function AnyView(ctx: Context, avoid: set<nat>): seq<bool>
    reads ctx.bm, ctx.bm.words, ctx.st, ctx.st.bytes
    requires ctx.Valid()
  {
    Avoiding(if ctx.hasSummary then Masked(ctx.V(), ctx.st.Full(), ctx.bm.wordsPerChunk) else ctx.V(), avoid)
  }

  lemma FewerRuns(u: seq<bool>, x: seq<bool>, s: nat, t: nat, e: nat, k: nat)
    requires |u| == |x| && NoRunBefore(u, s, t, e, k) && forall i :: 0 <= i < |u| && u[i] ==> x[i]
    ensures NoRunBefore(x, s, t, e, k)
  {
    forall p | s <= p < t && p + k <= e ensures !ClearRun(x, p, k) {
      assert !ClearRun(u, p, k);
    }
  }

  lemma NoRunJoin(x: seq<bool>, s: nat, m: nat, t: nat, e: nat, k: nat)
    requires NoRunBefore(x, s, m, e, k) && NoRunBefore(x, m, t, e, k)
    ensures NoRunBefore(x, s, t, e, k)
  {
  }

  lemma NoRunAll(x: seq<bool>, s: nat, e: nat, k: nat)
    ensures NoRun(x, s, e, k) <==> NoRunBefore(x, s, e + 1, e, k)
  {
  }

  lemma AnyViewHides(ctx: Context, avoid: set<nat>)
    requires ctx.Valid()
    ensures |AnyView(ctx, avoid)| == |ctx.V()| == |Avoiding(ctx.V(), avoid)|
    ensures forall i :: 0 <= i < |ctx.V()| && Avoiding(ctx.V(), avoid)[i] ==> AnyView(ctx, avoid)[i]
    ensures ctx.hasSummary ==>
              forall i :: 0 <= i < |ctx.V()| && Masked(ctx.V(), ctx.st.Full(), ctx.bm.wordsPerChunk)[i] ==> AnyView(ctx, avoid)[i]
  {
    hide View, ChunkIndex;
  }

  /** BlockFindAny: the summary suggests where to start; only when it sees no space at all
      and is not trusted is it ignored. */
  method FindAny(ctx: Context, avoid: set<nat>, start: nat, end: nat, max: nat) returns (r: SearchResult)
    requires ctx.Valid() && end <= ctx.allocLimit && max > 0
    modifies ctx.st.bytes
    ensures Learned(old(ctx.st.Full()), ctx.st.Full(), ctx.V(), ctx.bm.wordsPerChunk)
    ensures r.DiskFull? ==> NoRun(old(AnyView(ctx, avoid)), start, end, 1)
    ensures r.Fit? ==> FirstFit(ctx.V(), old(AnyView(ctx, avoid)), start, end, 1, max, r.start, r.count)
    ensures r.Fit? ==> r.start !in avoid
  {
    hide BitsOf, View, ChunkBase, ChunkIndex, Masked, Learned, NoRun, NoRunBefore, Avoiding, AnyView;
    ghost var v, f, w, x := ctx.V(), ctx.st.Full(), ctx.bm.wordsPerChunk, AnyView(ctx, avoid);
    ghost var u := Avoiding(v, avoid);
    AnyViewHides(ctx, avoid);
    LearnedNothing(f, v, w);
    NothingBefore(x, start, end, 1);
    var begin := start;
    if ctx.hasSummary {
      var s := ctx.st.FindFree(start, ctx.allocLimit);
      match s {
        case Found(at) =>
          SuggestionHidden(v, f, w, start, at);
          PastUsed(x, start, start, at, end, 1);
          begin := at;
        case NoSpace =>
          if ctx.trust {
            HiddenToEnd(v, f, w, start, ctx.allocLimit);
            PastUsed(x, start, start, if start < end then end else start, end, 1);
            BeforeStopAt(x, start, if start < end then end else start, end, end, 1);
            return DiskFull;
          }
        case Invalid =>
      }
    }
    r := FindAnyBitmap(ctx, avoid, begin, end, max);
    assert ctx.V() == v;
    if r.DiskFull? {
      NoRunAll(u, begin, end, 1);
      FewerRuns(u, x, begin, end + 1, end, 1);
      NoRunJoin(x, start, begin, end + 1, end, 1);
      NoRunAll(x, start, end, 1);
    } else {
      FewerRuns(u, x, begin, r.start, end, 1);
      NoRunJoin(x, start, begin, r.start, end, 1);
    }
  }

  /** The answer of a plain scan of `v`: the first run that fits, or none. */
  ghost predicate PlainAnswer(v: seq<bool>, s: nat, e: nat, min: nat, max: nat, r: SearchResult) {
    match r
    case DiskFull => NoRun(v, s, e, min)
    case Fit(start, count) => FirstFit(v, v, s, e, min, max, start, count)
  }

  /** A plain scan has one answer only. */
  lemma PlainAnswerUnique(v: seq<bool>, s: nat, e: nat, min: nat, max: nat, r: SearchResult, q: SearchResult)
    requires 0 < min && PlainAnswer(v, s, e, min, max, r) && PlainAnswer(v, s, e, min, max, q)
    ensures r == q
  {
    if r.Fit? { assert ClearRun(v, r.start, min); }
    if q.Fit? { assert ClearRun(v, q.start, min); }
  }

  /** A guided search that hides no free block below `e` gives the plain answer. */
  lemma GuidedIsPlain(v: seq<bool>, x: seq<bool>, s: nat, e: nat, min: nat, max: nat, r: SearchResult)
    requires |x| == |v| && forall i :: 0 <= i < e && i < |v| ==> x[i] == v[i]
    requires match r
             case DiskFull => NoRun(x, s, e, min)
             case Fit(start, count) => FirstFit(v, x, s, e, min, max, start, count)
    ensures PlainAnswer(v, s, e, min, max, r)
  {
    match r
    case DiskFull => forall p | s <= p && p + min <= e ensures !ClearRun(v, p, min) { assert !ClearRun(x, p, min); }
    case Fit(start, count) =>
      forall p | s <= p < start && p + min <= e ensures !ClearRun(v, p, min) { assert !ClearRun(x, p, min); }
  }
}
