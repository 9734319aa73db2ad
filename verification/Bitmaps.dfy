/** The allocation bitmap as an array of words, read and written one bitmap block
    (a "chunk" of wordsPerChunk words) at a time. */
module Bitmaps {
  import opened Words
  import opened BlockMaps

  /** The block states a sequence of words stands for. */
  ghost function BitsOf(ws: seq<bv32>): (u: seq<bool>) {
    seq(32 * |ws|, b requires 0 <= b < 32 * |ws| => Bit(ws[b / 32], b % 32))
  }

  lemma BitsAt(ws: seq<bv32>, i: nat, k: nat)
    requires i < |ws| && k < 32
    ensures |BitsOf(ws)| == 32 * |ws|
    ensures BitsOf(ws)[32 * i + k] == Bit(ws[i], k)
  {
    hide Bit;
    assert (32 * i + k) / 32 == i && (32 * i + k) % 32 == k;
  }

  lemma UpdateSets(ws: seq<bv32>, i: nat, v: bv32, a: nat, n: nat)
    requires i < |ws| && a + n <= 32
    requires forall k :: 0 <= k < 32 ==> (Bit(v, k) <==> Bit(ws[i], k) || a <= k < a + n)
    ensures BitsOf(ws[i := v]) == SetRange(BitsOf(ws), 32 * i + a, n)
  {
    hide Bit, SetRange;
    var u, r := BitsOf(ws), BitsOf(ws[i := v]);
    SetRangeAt(u, 32 * i + a, n);
    forall b | 0 <= b < |u| ensures r[b] == SetRange(u, 32 * i + a, n)[b] {
      if b / 32 == i { assert b == 32 * i + b % 32; }
    }
  }

  lemma UpdateClears(ws: seq<bv32>, i: nat, v: bv32, a: nat, n: nat)
    requires i < |ws| && a + n <= 32
    requires forall k :: 0 <= k < 32 ==> (Bit(v, k) <==> Bit(ws[i], k) && !(a <= k < a + n))
    ensures BitsOf(ws[i := v]) == ClearRange(BitsOf(ws), 32 * i + a, n)
  {
    hide Bit, ClearRange;
    var u, r := BitsOf(ws), BitsOf(ws[i := v]);
    ClearRangeAt(u, 32 * i + a, n);
    forall b | 0 <= b < |u| ensures r[b] == ClearRange(u, 32 * i + a, n)[b] {
      if b / 32 == i { assert b == 32 * i + b % 32; }
    }
  }

  /** Setting the bits of a mask in one word. */
  lemma OrSets(ws: seq<bv32>, i: nat, m: bv32, a: nat, n: nat)
    requires i < |ws| && a + n <= 32
    requires forall k :: 0 <= k < 32 ==> (Bit(m, k) <==> a <= k < a + n)
    ensures BitsOf(ws[i := Or(ws[i], m)]) == SetRange(BitsOf(ws), 32 * i + a, n)
  {
    hide Bit, SetRange, BitsOf, Or;
    forall k | 0 <= k < 32 ensures Bit(Or(ws[i], m), k) <==> Bit(ws[i], k) || a <= k < a + n {
      OrBit(ws[i], m, k);
    }
    UpdateSets(ws, i, Or(ws[i], m), a, n);
  }

  /** Clearing the bits of a mask in one word. */
  lemma AndClears(ws: seq<bv32>, i: nat, m: bv32, a: nat, n: nat)
    requires i < |ws| && a + n <= 32
    requires forall k :: 0 <= k < 32 ==> (Bit(m, k) <==> a <= k < a + n)
    ensures BitsOf(ws[i := AndNot(ws[i], m)]) == ClearRange(BitsOf(ws), 32 * i + a, n)
  {
    hide Bit, ClearRange, BitsOf, AndNot;
    forall k | 0 <= k < 32 ensures Bit(AndNot(ws[i], m), k) <==> Bit(ws[i], k) && !(a <= k < a + n) {
      AndNotBit(ws[i], m, k);
    }
    UpdateClears(ws, i, AndNot(ws[i], m), a, n);
  }

  lemma FillSets(ws: seq<bv32>, i: nat)
    requires i < |ws|
    ensures BitsOf(ws[i := ALL_BITS]) == SetRange(BitsOf(ws), 32 * i, 32)
    ensures BitsOf(ws[i := 0]) == ClearRange(BitsOf(ws), 32 * i, 32)
  {
    hide Bit, ClearRange, SetRange, BitsOf;
    forall k | 0 <= k < 32 ensures Bit(ALL_BITS, k) && !Bit(0, k) { ConstBit(k); }
    UpdateSets(ws, i, ALL_BITS, 0, 32);
    UpdateClears(ws, i, 0, 0, 32);
  }

  lemma WordRange(ws: seq<bv32>, i: nat, a: nat, n: nat)
    requires i < |ws| && a + n <= 32
    ensures |BitsOf(ws)| == 32 * |ws|
    ensures AllSet(BitsOf(ws), 32 * i + a, 32 * i + a + n)
       <==> forall k :: a <= k < a + n ==> Bit(ws[i], k)
    ensures AllClear(BitsOf(ws), 32 * i + a, 32 * i + a + n)
       <==> forall k :: a <= k < a + n ==> !Bit(ws[i], k)
  {
    hide Bit;
    var u := BitsOf(ws);
    forall b | 32 * i <= b < 32 * i + 32 ensures u[b] == Bit(ws[i], b - 32 * i) {}
    forall k | 0 <= k < 32 ensures Bit(ws[i], k) == u[32 * i + k] {}
  }

  /** The word test of the validation accepts exactly a fully set range. */
  lemma MaskedSet(ws: seq<bv32>, i: nat, m: bv32, a: nat, n: nat)
    requires i < |ws| && a + n <= 32
    requires forall k :: 0 <= k < 32 ==> (Bit(m, k) <==> a <= k < a + n)
    ensures |BitsOf(ws)| == 32 * |ws|
    ensures HasAll(ws[i], m) <==> AllSet(BitsOf(ws), 32 * i + a, 32 * i + a + n)
  {
    hide Bit, BitsOf, HasAll;
    CoversMask(ws[i], m);
    WordRange(ws, i, a, n);
  }

  lemma FullSet(ws: seq<bv32>, i: nat)
    requires i < |ws|
    ensures |BitsOf(ws)| == 32 * |ws|
    ensures ws[i] == ALL_BITS <==> AllSet(BitsOf(ws), 32 * i, 32 * i + 32)
    ensures ws[i] == 0 <==> AllClear(BitsOf(ws), 32 * i, 32 * i + 32)
  {
    hide Bit, BitsOf;
    IsAllBits(ws[i]);
    IsZero(ws[i]);
    WordRange(ws, i, 0, 32);
  }

  // ----------------------------------------------------------- chunk arithmetic

  function Quotient(x: nat, d: nat): nat
    requires d > 0
  { x / d }

  lemma QuotientBounds(x: nat, d: nat)
    requires d > 0
    ensures d * Quotient(x, d) <= x < d * Quotient(x, d) + d
  {
  }

  /** Number of the chunk holding a block. */
  function ChunkIndex(block: nat, w: nat): nat
    requires w > 0
  { Quotient(block, 32 * w) }

  lemma Regroup(w: nat, q: nat)
    ensures (32 * w) * q == 32 * (w * q)
  {
  }

  lemma ChunkIndexBounds(block: nat, w: nat)
    requires w > 0
    ensures var q := ChunkIndex(block, w); 32 * (w * q) <= block < 32 * (w * q) + 32 * w
  {
    hide Quotient;
    QuotientBounds(block, 32 * w);
    Regroup(w, Quotient(block, 32 * w));
  }

  /** First word of the chunk holding a block. */
  function ChunkBase(block: nat, w: nat): nat
    requires w > 0
  { ChunkIndex(block, w) * w }

  /** Index within its chunk of the word holding a block. */
  function WordInChunk(block: nat, w: nat): nat
    requires w > 0
  { (block % (32 * w)) / 32 }

  lemma ChunkWord(block: nat, w: nat)
    requires w > 0
    ensures ChunkBase(block, w) + WordInChunk(block, w) == block / 32
    ensures WordInChunk(block, w) < w
  {
    var q, r := block / (32 * w), block % (32 * w);
    assert block == 32 * (w * q) + r;
    assert block / 32 == w * q + r / 32;
  }

  lemma DivStep(x: nat, d: nat)
    requires d > 0
    ensures (x + d) / d == x / d + 1
  {
    var q: nat, r: nat := x / d, x % d;
    assert x == d * q + r;
    NextMultiple(d, q);
    DivUnique(x + d, d, q + 1, r);
  }

  lemma NextChunk(block: nat, w: nat)
    requires w > 0
    ensures ChunkBase(block + 32 * w, w) == ChunkBase(block, w) + w
  {
    DivStep(block, 32 * w);
    NextMultiple(w, block / (32 * w));
  }

  lemma NextMultiple(d: nat, q: nat)
    ensures d * (q + 1) == d * q + d && (q + 1) * d == q * d + d
  {
  }

  lemma MulMonotone(d: nat, a: nat, b: nat)
    requires a <= b
    ensures d * a <= d * b
  {
    assert d * b == d * a + d * (b - a);
  }

  lemma DivUnique(x: nat, d: nat, q: nat, r: nat)
    requires d > 0 && x == d * q + r && r < d
    ensures x / d == q && x % d == r
  {
    var q', r' := x / d, x % d;
    assert x == d * q' + r' && 0 <= r' < d;
    assert d * (q + 1) == d * q + d && d * (q' + 1) == d * q' + d;
    if q < q' { MulMonotone(d, q + 1, q'); }
    if q' < q { MulMonotone(d, q' + 1, q); }
  }

  class Bitmap {
    const words: array<bv32>
    const wordsPerChunk: nat

    ghost predicate Valid()
      reads this
    { wordsPerChunk > 0 && words.Length % wordsPerChunk == 0 }

    ghost function Bits(): (u: seq<bool>)
      reads words
      ensures |u| == 32 * words.Length
    { BitsOf(words[..]) }

    constructor (chunks: nat, wordsPerChunk: nat)
      requires wordsPerChunk > 0
      ensures Valid() && fresh(words) && this.wordsPerChunk == wordsPerChunk
      ensures words.Length == chunks * wordsPerChunk
      ensures AllClear(Bits(), 0, |Bits()|)
    {
      this.wordsPerChunk := wordsPerChunk;
      words := new bv32[chunks * wordsPerChunk](i => 0);
      new;
      ModMultiple(chunks, wordsPerChunk);
      forall b | 0 <= b < 32 * words.Length ensures !Bits()[b] { ConstBit(b % 32); }
    }

    /** Set the bits of a mask covering [first, first + n) of one word. */
    method OrWord(i: nat, m: bv32, ghost first: nat, ghost n: nat)
      requires i < words.Length && first + n <= 32
      requires forall k :: 0 <= k < 32 ==> (Bit(m, k) <==> first <= k < first + n)
      modifies words
      ensures Bits() == SetRange(old(Bits()), 32 * i + first, n)
    {
      hide Bit, BitsOf, SetRange, Or;
      OrSets(words[..], i, m, first, n);
      words[i] := Or(words[i], m);
      assert words[..] == old(words[..])[i := Or(old(words[i]), m)];
    }

    method FillWord(i: nat)
      requires i < words.Length
      modifies words
      ensures Bits() == SetRange(old(Bits()), 32 * i, 32)
    {
      hide Bit, BitsOf, SetRange;
      FillSets(words[..], i);
      words[i] := ALL_BITS;
      assert words[..] == old(words[..])[i := ALL_BITS];
    }

    /** BlockMarkAllocatedInternal: set the bits of [start, start + n). */
    method MarkAllocated(start: nat, n: nat)
      requires Valid() && start + n <= 32 * words.Length
      modifies words
      ensures Bits() == SetRange(old(Bits()), start, n)
    {
      hide Bit, Bits, BitsOf, SetRange, PartialMask, LeadingMask, ChunkBase, WordInChunk;
      ghost var u := Bits();
      var block: nat, left: nat := start, n;
      ChunkWord(start, wordsPerChunk);
      SetNothing(u, start);

      var cur := ChunkBase(block, wordsPerChunk) + WordInChunk(block, wordsPerChunk);
      var wordsLeft := wordsPerChunk - WordInChunk(block, wordsPerChunk);

      var first := start % 32;
      if first != 0 {
        var bits := 32 - first;
        if bits > left { bits := left; }
        if bits > 0 {
          forall k | 0 <= k < 32 ensures Bit(PartialMask(first, bits), k) <==> first <= k < first + bits {
            PartialMaskBit(first, bits, k);
          }
          OrWord(cur, PartialMask(first, bits), first, bits);
        }
        left := left - bits;
        cur, wordsLeft := cur + 1, wordsLeft - 1;
      }

      while left >= 32
        invariant left <= n && wordsLeft <= wordsPerChunk
        invariant left > 0 ==> 32 * cur == start + (n - left)
        invariant cur + wordsLeft == ChunkBase(block, wordsPerChunk) + wordsPerChunk
        invariant Bits() == SetRange(u, start, n - left)
      {
        if wordsLeft == 0 {
          NextChunk(block, wordsPerChunk);
          block := block + 32 * wordsPerChunk;
          cur, wordsLeft := ChunkBase(block, wordsPerChunk), wordsPerChunk;
        }
        SetRangeMore(u, start, n - left, 32);
        FillWord(cur);
        left := left - 32;
        cur, wordsLeft := cur + 1, wordsLeft - 1;
      }

      if left != 0 {
        if wordsLeft == 0 {
          NextChunk(block, wordsPerChunk);
          block := block + 32 * wordsPerChunk;
          cur := ChunkBase(block, wordsPerChunk);
        }
        forall k | 0 <= k < 32 ensures Bit(LeadingMask(left), k) <==> 0 <= k < 0 + left {
          LeadingMaskBit(left, k);
        }
        SetRangeMore(u, start, n - left, left);
        OrWord(cur, LeadingMask(left), 0, left);
      }
    }
  
    /** Clear the bits of a mask covering [first, first + n) of one word. */
    method ClearInWord(i: nat, m: bv32, ghost first: nat, ghost n: nat)
      requires i < words.Length && first + n <= 32
      requires forall k :: 0 <= k < 32 ==> (Bit(m, k) <==> first <= k < first + n)
      modifies words
      ensures Bits() == ClearRange(old(Bits()), 32 * i + first, n)
    {
      hide Bit, BitsOf, ClearRange, AndNot;
      AndClears(words[..], i, m, first, n);
      words[i] := AndNot(words[i], m);
      assert words[..] == old(words[..])[i := AndNot(old(words[i]), m)];
    }

    method ZeroOut(i: nat)
      requires i < words.Length
      modifies words
      ensures Bits() == ClearRange(old(Bits()), 32 * i, 32)
    {
      hide Bit, BitsOf, ClearRange;
      FillSets(words[..], i);
      words[i] := 0;
      assert words[..] == old(words[..])[i := 0];
    }

    /** The test made before clearing the masked bits of one word. */
    method CheckAndClear(i: nat, m: bv32, ghost first: nat, ghost n: nat, validate: bool) returns (ok: bool)
      requires i < words.Length && first + n <= 32
      requires forall k :: 0 <= k < 32 ==> (Bit(m, k) <==> first <= k < first + n)
      modifies words
      ensures ok <==> !validate || AllSet(old(Bits()), 32 * i + first, 32 * i + first + n)
      ensures Bits() == if ok then ClearRange(old(Bits()), 32 * i + first, n) else old(Bits())
    {
      hide Bit, BitsOf, ClearRange, AllSet, HasAll;
      MaskedSet(words[..], i, m, first, n);
      if validate && !HasAll(words[i], m) { return false; }
      ClearInWord(i, m, first, n);
      ok := true;
    }

    method CheckAndZero(i: nat, validate: bool) returns (ok: bool)
      requires i < words.Length
      modifies words
      ensures ok <==> !validate || AllSet(old(Bits()), 32 * i, 32 * i + 32)
      ensures Bits() == if ok then ClearRange(old(Bits()), 32 * i, 32) else old(Bits())
    {
      hide Bit, BitsOf, ClearRange, AllSet;
      FullSet(words[..], i);
      if validate && words[i] != ALL_BITS { return false; }
      ZeroOut(i);
      ok := true;
    }

    /** The part of the range in the word that holds its start, which is not the first bit there. */
    method ClearFirst(i: nat, start: nat, n: nat, validate: bool) returns (ok: bool, done: nat)
      requires n > 0 && start % 32 != 0 && i == start / 32 && start + n <= 32 * words.Length
      modifies words
      ensures ok <==> !validate || AllSet(old(Bits()), start, start + FirstPart(start, n))
      ensures done == if ok then FirstPart(start, n) else 0
      ensures Bits() == ClearRange(old(Bits()), start, done)
      ensures !ok ==> StopsAt(old(Bits()), start, n, 0)
    {
      hide Bit, BitsOf, ClearRange, PartialMask, AllSet, StopsAt;
      ghost var u := Bits();
      var first, bits := start % 32, FirstPart(start, n);
      forall k | 0 <= k < 32 ensures Bit(PartialMask(first, bits), k) <==> first <= k < first + bits {
        PartialMaskBit(first, bits, k);
      }
      SetNothing(u, start);
      AllSetNone(u, start);
      StopsHere(u, start, n, 0, bits);
      ok := CheckAndClear(i, PartialMask(first, bits), first, bits, validate);
      done := if ok then bits else 0;
    }

    /** The part of the range in its last word, when that word is not wholly in the range. */
    method ClearLast(i: nat, ghost u: seq<bool>, start: nat, n: nat, done: nat, validate: bool) returns (ok: bool)
      requires |u| == |Bits()| && start + n <= |u| && done < n < done + 32 && start + done == 32 * i
      requires Bits() == ClearRange(u, start, done)
      modifies words
      ensures ok <==> !validate || AllSet(u, start + done, start + n)
      ensures Bits() == ClearRange(u, start, if ok then n else done)
      ensures !ok && AllSet(u, start, start + done) ==> StopsAt(u, start, n, done)
    {
      hide Bit, BitsOf, ClearRange, LeadingMask, AllSet, StopsAt;
      var left := n - done;
      forall k | 0 <= k < 32 ensures Bit(LeadingMask(left), k) <==> 0 <= k < 0 + left { LeadingMaskBit(left, k); }
      StillSet(u, start, done, left, n);
      StopsHere(u, start, n, done, left);
      ClearRangeMore(u, start, done, left);
      ok := CheckAndClear(i, LeadingMask(left), 0, left, validate);
    }

    /** The clearing part of BlockMarkFreeInternal. With `validate`, a word that is
        not fully allocated stops it, after the `done` blocks before it were cleared. */
    method ClearBits(start: nat, n: nat, validate: bool) returns (ok: bool, buffer: nat, done: nat)
      requires Valid() && n > 0 && start + n <= 32 * words.Length
      modifies words
      ensures done <= n && Bits() == ClearRange(old(Bits()), start, done)
      ensures ok <==> done == n
      ensures ok <==> !validate || AllSet(old(Bits()), start, start + n)
      ensures !ok ==> StopsAt(old(Bits()), start, n, done)
      ensures ok ==> buffer == ChunkBase(start + n - 1, wordsPerChunk)
    {
      hide Bit, Bits, BitsOf, ClearRange, ChunkBase, WordInChunk, AllSet, StopsAt, FirstPart;
      ghost var u := Bits();
      var block: nat := start;
      done := 0;
      ChunkWord(start, wordsPerChunk);
      SetNothing(u, start);
      AllSetNone(u, start);

      buffer := ChunkBase(block, wordsPerChunk);
      var cur := buffer + WordInChunk(block, wordsPerChunk);
      var wordsLeft: nat := wordsPerChunk - WordInChunk(block, wordsPerChunk);

      if start % 32 != 0 {
        FirstPartEnd(start, n);
        AllSetPart(u, start, FirstPart(start, n), n);
        ok, done := ClearFirst(cur, start, n, validate);
        if !ok { return; }
        cur, wordsLeft := cur + 1, wordsLeft - 1;
      }

      while n - done >= 32
        invariant done <= n
        invariant done < n ==> 32 * cur == start + done
        invariant done > 0 ==> buffer < cur && 32 * cur - 32 < start + done <= 32 * cur
        invariant buffer == ChunkBase(block, wordsPerChunk) && buffer <= cur
        invariant cur + wordsLeft == buffer + wordsPerChunk
        invariant Bits() == ClearRange(u, start, done)
        invariant validate ==> AllSet(u, start, start + done)
      {
        if wordsLeft == 0 {
          NextChunk(block, wordsPerChunk);
          block := block + 32 * wordsPerChunk;
          buffer := ChunkBase(block, wordsPerChunk);
          cur, wordsLeft := buffer, wordsPerChunk;
        }
        StillSet(u, start, done, 32, n);
        StopsAtWord(u, start, n, done, cur);
        ClearRangeMore(u, start, done, 32);
        ok := CheckAndZero(cur, validate);
        if !ok { return; }
        done := done + 32;
        cur, wordsLeft := cur + 1, wordsLeft - 1;
      }

      if done < n {
        if wordsLeft == 0 {
          NextChunk(block, wordsPerChunk);
          block := block + 32 * wordsPerChunk;
          buffer := ChunkBase(block, wordsPerChunk);
          cur, wordsLeft := buffer, wordsPerChunk;
        }
        StillSet(u, start, done, n - done, n);
        ok := ClearLast(cur, u, start, n, done, validate);
        if !ok { return; }
        done, cur := n, cur + 1;
      }
      assert (start + n - 1) / 32 == cur - 1;
      ChunkOf(start + n - 1, buffer, wordsPerChunk, block);
      ok := true;
    }

    /** Look for free blocks right before `start`, up to the start of its chunk. */
    method ScanBack(start: nat, minUnmap: nat) returns (from: nat)
      requires Valid() && start < 32 * words.Length
      ensures from <= start && (minUnmap <= start ==> minUnmap <= from) && AllClear(Bits(), from, start)
      ensures from <= minUnmap || from == 32 * ChunkBase(start, wordsPerChunk) || Bits()[from - 1]
    {
      hide Test, Mask, BitsOf, ChunkBase, WordInChunk, Backward;
      ChunkWord(start, wordsPerChunk);
      var buffer: int := ChunkBase(start, wordsPerChunk);
      var cur: int := buffer + WordInChunk(start, wordsPerChunk);
      var mask := Mask(start % 32);
      from := start;
      while from > minUnmap
        invariant from <= start && (minUnmap <= start ==> minUnmap <= from)
        invariant buffer <= cur == from / 32 && mask == Mask(from % 32)
        invariant AllClear(Bits(), from, start)
      {
        MaskBackward(from % 32);
        mask := Backward(mask);
        if mask == 0 {
          cur := cur - 1;
          if cur < buffer { break; }
          mask := LOW_BIT;
        }
        assert cur == (from - 1) / 32 && mask == Mask((from - 1) % 32);
        BitsAt(words[..], cur, (from - 1) % 32);
        if Test(words[cur], mask) { break; }
        from := from - 1;
      }
    }

    /** Look for free blocks right after `last`, up to the end of its chunk. */
    method ScanForward(last: nat, maxUnmap: nat) returns (end: nat)
      requires Valid() && last < 32 * words.Length
      ensures last < end <= 32 * words.Length && (last < maxUnmap ==> end <= maxUnmap)
      ensures AllClear(Bits(), last + 1, end)
      ensures end >= maxUnmap || end == 32 * (ChunkBase(last, wordsPerChunk) + wordsPerChunk)
              || (end < |Bits()| && Bits()[end])
    {
      hide Test, Mask, BitsOf, ChunkBase, WordInChunk, Forward;
      ChunkWord(last, wordsPerChunk);
      ChunkEnd(last, wordsPerChunk, words.Length);
      var buffer := ChunkBase(last, wordsPerChunk);
      var cur := buffer + WordInChunk(last, wordsPerChunk);
      var wordsLeft := wordsPerChunk - WordInChunk(last, wordsPerChunk);
      var mask := Mask(last % 32);
      end := last + 1;
      while end < maxUnmap
        invariant last < end <= 32 * words.Length && (last < maxUnmap ==> end <= maxUnmap)
        invariant cur == (end - 1) / 32 && mask == Mask((end - 1) % 32)
        invariant cur + wordsLeft == buffer + wordsPerChunk && 0 < wordsLeft
        invariant AllClear(Bits(), last + 1, end)
      {
        MaskForward((end - 1) % 32);
        mask := Forward(mask);
        if mask == 0 {
          wordsLeft := wordsLeft - 1;
          if wordsLeft == 0 { break; }
          cur := cur + 1;
          mask := HIGH_BIT;
        }
        assert cur == end / 32 && mask == Mask(end % 32);
        BitsAt(words[..], cur, end % 32);
        if Test(words[cur], mask) { break; }
        end := end + 1;
      }
    }

    /** BlockMarkFreeInternal: free [start, start + n) and report the wider range of
        free blocks around it that can be trimmed, kept within the given bounds. */
    method MarkFree(start: nat, n: nat, validate: bool, totalBlocks: nat, minUnmap: nat, maxUnmap: nat)
      returns (ok: bool, unmapStart: nat, unmapCount: nat, cleared: nat)
      requires Valid() && n > 0
      requires totalBlocks <= 32 * words.Length && (!validate ==> start + n <= 32 * words.Length)
      modifies words
      ensures ok <==> !validate || (start + n <= totalBlocks && AllSet(old(Bits()), start, start + n))
      ensures cleared > 0 ==> start + cleared <= |Bits()|
      ensures Bits() == if cleared == 0 then old(Bits()) else ClearRange(old(Bits()), start, cleared)
      ensures ok ==> cleared == n
      ensures !ok ==> if start + n > totalBlocks then cleared == 0 else StopsAt(old(Bits()), start, n, cleared)
      ensures ok ==> var end := unmapStart + unmapCount;
                     && unmapStart <= start && start + n <= end <= |Bits()| && AllClear(Bits(), unmapStart, end)
                     && (minUnmap <= start ==> minUnmap <= unmapStart) && (start + n <= maxUnmap ==> end <= maxUnmap)
      ensures ok ==> unmapStart <= minUnmap || unmapStart == 32 * ChunkBase(start, wordsPerChunk)
                     || Bits()[unmapStart - 1]
      ensures ok ==> var end := unmapStart + unmapCount;
                     end >= maxUnmap || end == 32 * (ChunkBase(start + n - 1, wordsPerChunk) + wordsPerChunk)
                     || (end < |Bits()| && Bits()[end])
    {
      hide BitsOf, ChunkBase, ClearRange, StopsAt;
      if validate && start + n > totalBlocks {
        return false, start, n, 0;
      }
      ghost var u := Bits();
      unmapStart := ScanBack(start, minUnmap);
      var buffer;
      ok, buffer, cleared := ClearBits(start, n, validate);
      ClearRangeAt(u, start, cleared);
      if cleared == 0 { SetNothing(u, start); }
      if !ok { return false, start, n, cleared; }
      var end := ScanForward(start + n - 1, maxUnmap);
      unmapCount := end - unmapStart;
    }
  }

  /** How many of the n blocks from start lie in the word that holds start. */
  function FirstPart(start: nat, n: nat): nat {
    if n < 32 - start % 32 then n else 32 - start % 32
  }

  /** Word by word from start, the first word whose part of the range holds a clear block
      comes after `done` blocks. */
  ghost predicate StopsAt(u: seq<bool>, start: nat, n: nat, done: nat)
    requires start + n <= |u|
  {
    && done < n && AllSet(u, start, start + done) && (done == 0 || (start + done) % 32 == 0)
    && !AllSet(u, start + done, start + done + FirstPart(start + done, n - done))
  }

  lemma StopsHere(u: seq<bool>, start: nat, n: nat, done: nat, part: nat)
    requires start + n <= |u| && done < n && part == FirstPart(start + done, n - done)
    requires done == 0 || (start + done) % 32 == 0
    ensures start + done + part <= |u|
    ensures AllSet(u, start, start + done) && !AllSet(u, start + done, start + done + part) ==>
              StopsAt(u, start, n, done)
  {
  }

  lemma StopsAtWord(u: seq<bool>, start: nat, n: nat, done: nat, i: nat)
    requires start + n <= |u| && done + 32 <= n && start + done == 32 * i
    ensures AllSet(u, start, start + done) && !AllSet(u, start + done, start + done + 32) ==> StopsAt(u, start, n, done)
  {
  }

  lemma FirstPartEnd(start: nat, n: nat)
    requires n > 0
    ensures var k, i := FirstPart(start, n), start / 32;
            0 < k <= n && 32 * i < start + k <= 32 * i + 32 && (k < n ==> start + k == 32 * i + 32)
  {
  }

  /** The first word alone decides whether a refused clearing did anything. */
  lemma StopsFirst(u: seq<bool>, start: nat, n: nat, done: nat)
    requires start + n <= |u| && StopsAt(u, start, n, done)
    ensures done == 0 <==> !AllSet(u, start, start + FirstPart(start, n))
  {
    if done > 0 { assert FirstPart(start, n) <= done; }
  }

  lemma AllSetNone(u: seq<bool>, a: nat)
    requires a <= |u|
    ensures AllSet(u, a, a + 0)
  {
  }

  lemma AllSetPart(u: seq<bool>, a: nat, m: nat, n: nat)
    requires m <= n && a + n <= |u|
    ensures AllSet(u, a, a + n) ==> AllSet(u, a, a + m)
  {
  }

  /** Bits ahead of the cleared part are as they were. */
  lemma StillSet(u: seq<bool>, a: nat, done: nat, m: nat, n: nat)
    requires done + m <= n && a + n <= |u|
    ensures |ClearRange(u, a, done)| == |u|
    ensures AllSet(ClearRange(u, a, done), a + done, a + done + m) <==> AllSet(u, a + done, a + done + m)
    ensures AllSet(u, a, a + n) ==> AllSet(u, a + done, a + done + m)
    ensures AllSet(u, a, a + done) && AllSet(u, a + done, a + done + m) ==> AllSet(u, a, a + done + m)
  {
    ClearRangeAt(u, a, done);
    hide ClearRange;
  }

  /** A block whose word lies in the chunk starting at `buffer` has that chunk. */
  lemma ChunkOf(b: nat, buffer: nat, w: nat, block: nat)
    requires w > 0 && buffer == ChunkBase(block, w) && buffer <= b / 32 < buffer + w
    ensures ChunkBase(b, w) == buffer
  {
    var q: nat := block / (32 * w);
    var d := 32 * w;
    assert 32 * buffer == d * q;
    assert 32 * buffer <= b < 32 * (buffer + w);
    DivUnique(b, d, q, b - d * q);
  }

  /** The chunk holding a block lies inside the bitmap. */
  lemma ChunkEnd(b: nat, w: nat, len: nat)
    requires w > 0 && len % w == 0 && b < 32 * len
    ensures ChunkBase(b, w) + w <= len
  {
    hide ChunkIndex;
    ChunkIndexBounds(b, w);
    var m: nat := len / w;
    assert len == w * m;
    RoomForChunk(ChunkIndex(b, w), w, m, b);
  }

  lemma RoomForChunk(q: nat, w: nat, m: nat, b: nat)
    requires w > 0 && 32 * (w * q) <= b < 32 * (w * m)
    ensures w * q + w <= w * m
  {
    NextMultiple(w, q);
    if q >= m { MulMonotone(w, m, q); } else { MulMonotone(w, q + 1, m); }
  }

  lemma ModMultiple(q: nat, w: nat)
    requires w > 0
    ensures (q * w) % w == 0
  {
    DivUnique(q * w, w, q, 0);
  }

  lemma SetNothing(u: seq<bool>, a: nat)
    requires a <= |u|
    ensures SetRange(u, a, 0) == u && ClearRange(u, a, 0) == u
  {
    SetRangeAt(u, a, 0);
    ClearRangeAt(u, a, 0);
  }
}
