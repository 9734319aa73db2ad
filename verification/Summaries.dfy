/** The summary table: one bit per bitmap block, set when the block is believed to
    hold no free allocation block. */
module Summaries {
  import opened Words
  import opened Bitmaps

  function ByteMask(k: nat): bv8
    requires k < 8
  { IdxSmall(k); (1 as bv8) << Idx(k) }

  lemma IdxSmall(k: nat)
    requires k < 8
    ensures Idx(k) < 8
  {
    SameOrder(8, Idx(k));
  }

  function ByteTest(b: bv8, m: bv8): bool { b & m != 0 }
  function ByteSet(b: bv8, m: bv8): bv8 { b | m }
  function ByteClear(b: bv8, m: bv8): bv8 { b & !m }

  lemma ShiftedByte(b: bv8, x: bv7, y: bv7)
    requires x < 8 && y < 8
    ensures ByteTest(ByteSet(b, 1 << x), 1 << y) <==> ByteTest(b, 1 << y) || x == y
    ensures ByteTest(ByteClear(b, 1 << x), 1 << y) <==> ByteTest(b, 1 << y) && x != y
  {
  }

  lemma ByteUpdate(b: bv8, j: nat, k: nat)
    requires j < 8 && k < 8
    ensures ByteTest(ByteSet(b, ByteMask(j)), ByteMask(k)) <==> ByteTest(b, ByteMask(k)) || j == k
    ensures ByteTest(ByteClear(b, ByteMask(j)), ByteMask(k)) <==> ByteTest(b, ByteMask(k)) && j != k
  {
    hide ByteTest, ByteSet, ByteClear, Idx;
    IdxSmall(j);
    IdxSmall(k);
    ShiftedByte(b, Idx(j), Idx(k));
  }

  ghost function FullOf(bs: seq<bv8>): seq<bool> {
    seq(8 * |bs|, i requires 0 <= i < 8 * |bs| => ByteTest(bs[i / 8], ByteMask(i % 8)))
  }

  lemma FullOfUpdate(bs: seq<bv8>, i: nat, inUse: bool)
    requires i < 8 * |bs|
    ensures |FullOf(bs)| == 8 * |bs|
    ensures var m := ByteMask(i % 8);
            var v := if inUse then ByteSet(bs[i / 8], m) else ByteClear(bs[i / 8], m);
            FullOf(bs[i / 8 := v]) == FullOf(bs)[i := inUse]
  {
    hide ByteTest, ByteSet, ByteClear, ByteMask;
    var m := ByteMask(i % 8);
    var v := if inUse then ByteSet(bs[i / 8], m) else ByteClear(bs[i / 8], m);
    var l, r := FullOf(bs[i / 8 := v]), FullOf(bs)[i := inUse];
    forall k | 0 <= k < 8 * |bs| ensures l[k] == r[k] {
      ByteUpdate(bs[i / 8], i % 8, k % 8);
    }
  }

  datatype FindResult = Found(block: nat) | NoSpace | Invalid

  class SummaryTable {
    const bytes: array<bv8>
    const wordsPerChunk: nat
    const totalBlocks: nat

    ghost predicate Valid()
      reads this
    {
      && wordsPerChunk > 0 && totalBlocks > 0
      && ChunkIndex(totalBlocks - 1, wordsPerChunk) < 8 * bytes.Length
    }

    ghost function Full(): (f: seq<bool>)
      reads bytes
      ensures |f| == 8 * bytes.Length
    { FullOf(bytes[..]) }

    constructor (wordsPerChunk: nat, totalBlocks: nat)
      requires wordsPerChunk > 0 && totalBlocks > 0
      ensures Valid() && fresh(bytes)
      ensures this.wordsPerChunk == wordsPerChunk && this.totalBlocks == totalBlocks
      ensures forall i :: 0 <= i < |Full()| ==> !Full()[i]
    {
      var last := ChunkIndex(totalBlocks - 1, wordsPerChunk);
      this.wordsPerChunk := wordsPerChunk;
      this.totalBlocks := totalBlocks;
      bytes := new bv8[last / 8 + 1](i => 0);
    }

    /** hfs_set_summary. */
    method Set(bit: nat, inUse: bool)
      requires bit < 8 * bytes.Length
      modifies bytes
      ensures Full() == old(Full())[bit := inUse]
    {
      hide FullOf, ByteSet, ByteClear, ByteMask;
      FullOfUpdate(bytes[..], bit, inUse);
      ghost var was := bytes[..];
      var byte := bytes[bit / 8];
      var m := ByteMask(bit % 8);
      bytes[bit / 8] := if inUse then ByteSet(byte, m) else ByteClear(byte, m);
      assert bytes[..] == was[bit / 8 := bytes[bit / 8]];
    }

    method Test(bit: nat) returns (r: bool)
      requires bit < 8 * bytes.Length
      ensures r == Full()[bit]
    {
      hide ByteTest, ByteMask;
      r := ByteTest(bytes[bit / 8], ByteMask(bit % 8));
    }

    /** hfs_release_summary: every chunk that [start, start + length) reaches into may
        hold a free block again. */
    method Release(start: nat, length: nat) returns (ok: bool)
      requires Valid()
      modifies bytes
      ensures ok <==> start < totalBlocks && 1 <= start + length <= totalBlocks
      ensures !ok ==> Full() == old(Full())
      ensures ok ==> forall i :: 0 <= i < |Full()| ==>
                Full()[i] == (old(Full())[i] && !(ChunkIndex(start, wordsPerChunk) <= i <= ChunkIndex(start + length - 1, wordsPerChunk)))
    {
      hide FullOf, ChunkIndex;
      if start >= totalBlocks || !(1 <= start + length <= totalBlocks) { return false; }
      ChunkIndexMonotone(start, totalBlocks - 1, wordsPerChunk);
      ChunkIndexMonotone(start + length - 1, totalBlocks - 1, wordsPerChunk);
      var first, last := ChunkIndex(start, wordsPerChunk), ChunkIndex(start + length - 1, wordsPerChunk);
      var bit := first;
      while bit <= last
        invariant first <= bit
        invariant forall i :: 0 <= i < |Full()| ==> Full()[i] == (old(Full())[i] && !(first <= i < bit && i <= last))
      {
        Set(bit, false);
        bit := bit + 1;
      }
      ok := true;
    }

    /** hfs_find_summary_free: where to start looking for a free block from `block` on. */
    method FindFree(block: nat, allocLimit: nat) returns (r: FindResult)
      requires Valid() && 1 <= allocLimit <= totalBlocks
      ensures r.Invalid? <==> block >= totalBlocks
      ensures r.Found? ==>
                && block <= r.block
                && ChunkIndex(r.block, wordsPerChunk) < |Full()| && !Full()[ChunkIndex(r.block, wordsPerChunk)]
                && (r.block != block ==> block < r.block < allocLimit && r.block == 32 * ChunkBase(r.block, wordsPerChunk))
                && forall q :: ChunkIndex(block, wordsPerChunk) <= q < ChunkIndex(r.block, wordsPerChunk) ==> Full()[q]
      ensures r.NoSpace? ==>
                && ChunkIndex(allocLimit - 1, wordsPerChunk) < |Full()|
                && forall q :: ChunkIndex(block, wordsPerChunk) <= q <= ChunkIndex(allocLimit - 1, wordsPerChunk) ==> Full()[q]
    {
      hide FullOf, ChunkIndex;
      var w := wordsPerChunk;
      ChunkIndexMonotone(allocLimit - 1, totalBlocks - 1, w);
      var cap := ChunkIndex(allocLimit - 1, w);
      if block >= totalBlocks { return Invalid; }
      ChunkIndexMonotone(block, totalBlocks - 1, w);
      var bit := ChunkIndex(block, w);
      var full := Test(bit);
      if !full { return Found(block); }
      while bit <= cap
        invariant ChunkIndex(block, w) <= bit && bit <= |Full()|
        invariant forall q :: ChunkIndex(block, w) <= q < bit ==> Full()[q]
        invariant bit == ChunkIndex(block, w) ==> Full()[bit]
      {
        full := Test(bit);
        if full {
          bit := bit + 1;
        } else {
          var at := bit * (32 * w);
          ChunkStart(bit, w);
          ChunkOrder(block, at, w);
          ChunkStartBelow(bit, w, allocLimit - 1);
          return Found(at);
        }
      }
      r := NoSpace;
    }
  }

  // --------------------------------------------------------------- chunk arithmetic

  lemma ChunkIndexMonotone(a: nat, b: nat, w: nat)
    requires w > 0 && a <= b
    ensures ChunkIndex(a, w) <= ChunkIndex(b, w)
  {
    ChunkIndexBounds(a, w);
    ChunkIndexBounds(b, w);
    hide ChunkIndex;
    var p, q := ChunkIndex(a, w), ChunkIndex(b, w);
    if q < p { NextMultiple(w, q); MulMonotone(w, q + 1, p); }
  }

  lemma ChunkStart(q: nat, w: nat)
    requires w > 0
    ensures ChunkIndex(q * (32 * w), w) == q
    ensures q * (32 * w) == 32 * ChunkBase(q * (32 * w), w)
  {
    hide Quotient;
    QuotientExact(q, 32 * w);
    assert q * (32 * w) == 32 * (q * w);
  }

  lemma QuotientExact(q: nat, d: nat)
    requires d > 0
    ensures Quotient(q * d, d) == q
  {
    DivUnique(q * d, d, q, 0);
  }

  lemma ChunkOrder(a: nat, b: nat, w: nat)
    requires w > 0 && ChunkIndex(a, w) < ChunkIndex(b, w)
    ensures a < b
  {
    hide ChunkIndex;
    if b <= a { ChunkIndexMonotone(b, a, w); }
  }

  lemma ChunkStartBelow(q: nat, w: nat, b: nat)
    requires w > 0 && q <= ChunkIndex(b, w)
    ensures q * (32 * w) <= b
  {
    hide ChunkIndex;
    ChunkIndexBounds(b, w);
    MulMonotone(w, q, ChunkIndex(b, w));
    assert q * (32 * w) == 32 * (w * q);
  }
}
