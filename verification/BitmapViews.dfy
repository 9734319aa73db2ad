/** Reading a bitmap block with the reserved ranges laid over it. */
module BitmapViews {
  import opened Words
  import opened Quads
  import opened BlockMaps
  import opened Bitmaps
  import opened Ranges

  /** The block states with every reserved block counted as in use. */
  ghost function View(u: seq<bool>, rs: seq<Range>): seq<bool> {
    seq(|u|, b requires 0 <= b < |u| => u[b] || Held(rs, b))
  }

  // ------------------------------------------------------------ quads of a block

  function QuadBit(m: bv64, k: nat): bool
    requires k < 64
  { if k < 32 then Bit(Hi(m), k) else Bit(Lo(m), k - 32) }

  lemma RightMaskBit(s: nat, k: nat)
    requires s < 64 && k < 64
    ensures QuadBit(RightMask(s), k) <==> s <= k
  {
    hide Bit, Hi, Lo, RightMask, From;
    RightHalves(s);
    if k < 32 { ConstBit(k); if s < 32 { FromBit(s, k); } }
    else { ConstBit(k - 32); if s >= 32 { FromBit(s - 32, k - 32); } }
  }

  lemma LeftMaskBit(e: nat, k: nat)
    requires 0 < e < 64 && k < 64
    ensures QuadBit(LeftMask(e), k) <==> k < e
  {
    hide Bit, Hi, Lo, LeftMask, From, Not;
    LeftHalves(e);
    var j := if k < 32 then k else k - 32;
    ConstBit(j);
    NotBit(0, j);
    NotBit(ALL_BITS, j);
    if k < 32 && e < 32 { FromBit(e, k); NotBit(From(e), k); }
    if k >= 32 && e >= 32 { FromBit(e - 32, j); NotBit(From(e - 32), j); }
  }

  lemma MiddleMaskBit(s: nat, e: nat, k: nat)
    requires s < 64 && 0 < e < 64 && k < 64
    ensures QuadBit(And64(RightMask(s), LeftMask(e)), k) <==> s <= k < e
  {
    hide Bit, Hi, Lo, LeftMask, RightMask, And64, And;
    RightMaskBit(s, k);
    LeftMaskBit(e, k);
    AndHalves(RightMask(s), LeftMask(e));
    if k < 32 { AndBit(Hi(RightMask(s)), Hi(LeftMask(e)), k); }
    else { AndBit(Lo(RightMask(s)), Lo(LeftMask(e)), k - 32); }
  }

  lemma OrWordBits(ws: seq<bv32>, i: nat, m: bv32, b: nat)
    requires i < |ws| && b < 32 * |ws|
    ensures |BitsOf(ws)| == 32 * |ws| == |BitsOf(ws[i := Or(ws[i], m)])|
    ensures BitsOf(ws[i := Or(ws[i], m)])[b] <==> BitsOf(ws)[b] || (b / 32 == i && Bit(m, b % 32))
  {
    hide Bit, Or;
    OrBit(ws[i], m, b % 32);
  }

  /** Laying a quad mask over two words. */
  lemma OrQuadSets(ws: seq<bv32>, p: nat, m: bv64, lo: nat, n: nat)
    requires 2 * p + 1 < |ws| && lo + n <= 64
    requires forall k :: 0 <= k < 64 ==> (QuadBit(m, k) <==> lo <= k < lo + n)
    ensures var w1 := ws[2 * p := Or(ws[2 * p], Hi(m))];
            var w2 := w1[2 * p + 1 := Or(w1[2 * p + 1], Lo(m))];
            BitsOf(w2) == SetRange(BitsOf(ws), 64 * p + lo, n)
  {
    hide Bit, Or, Hi, Lo, BitsOf, SetRange;
    var w1 := ws[2 * p := Or(ws[2 * p], Hi(m))];
    var w2 := w1[2 * p + 1 := Or(w1[2 * p + 1], Lo(m))];
    OrWordBits(ws, 2 * p, Hi(m), 0);
    OrWordBits(w1, 2 * p + 1, Lo(m), 0);
    SetRangeAt(BitsOf(ws), 64 * p + lo, n);
    forall b | 0 <= b < 32 * |ws| ensures BitsOf(w2)[b] == SetRange(BitsOf(ws), 64 * p + lo, n)[b] {
      OrWordBits(ws, 2 * p, Hi(m), b);
      OrWordBits(w1, 2 * p + 1, Lo(m), b);
      if b / 32 == 2 * p { assert b - 64 * p == b % 32; assert QuadBit(m, b % 32) == Bit(Hi(m), b % 32); }
      else if b / 32 == 2 * p + 1 { assert b - 64 * p == b % 32 + 32; assert QuadBit(m, b % 32 + 32) == Bit(Lo(m), b % 32); }
    }
  }

  method OrQuad(buf: array<bv32>, p: nat, m: bv64, ghost lo: nat, ghost n: nat)
    requires 2 * p + 1 < buf.Length && lo + n <= 64
    requires forall k :: 0 <= k < 64 ==> (QuadBit(m, k) <==> lo <= k < lo + n)
    modifies buf
    ensures BitsOf(buf[..]) == SetRange(BitsOf(old(buf[..])), 64 * p + lo, n)
  {
    hide QuadBit, Or, Hi, Lo, BitsOf, SetRange;
    OrQuadSets(buf[..], p, m, lo, n);
    ghost var ws := buf[..];
    buf[2 * p] := Or(buf[2 * p], Hi(m));
    ghost var w1 := buf[..];
    assert w1 == ws[2 * p := Or(ws[2 * p], Hi(m))];
    buf[2 * p + 1] := Or(buf[2 * p + 1], Lo(m));
    assert buf[..] == w1[2 * p + 1 := Or(w1[2 * p + 1], Lo(m))];
  }

  lemma FillQuadSets(ws: seq<bv32>, p: nat)
    requires 2 * p + 1 < |ws|
    ensures BitsOf(ws[2 * p := ALL_BITS][2 * p + 1 := ALL_BITS]) == SetRange(BitsOf(ws), 64 * p, 64)
  {
    hide BitsOf, SetRange;
    FillSets(ws, 2 * p);
    var w1 := ws[2 * p := ALL_BITS];
    FillSets(w1, 2 * p + 1);
    BitsAt(ws, 0, 0);
    SetRangeMore(BitsOf(ws), 64 * p, 32, 32);
  }

  /** bits_set: set the bits [start, end) of a block, a quad at a time. */
  method BitsSet(buf: array<bv32>, start: nat, end: nat)
    requires start < end <= 32 * buf.Length && buf.Length % 2 == 0
    modifies buf
    ensures BitsOf(buf[..]) == SetRange(BitsOf(old(buf[..])), start, end - start)
  {
    hide QuadBit, BitsOf, SetRange, RightMask, LeftMask, And64;
    ghost var u := BitsOf(buf[..]);
    BitsAt(buf[..], 0, 0);
    var startBit, endBit := start % 64, end % 64;
    var p := start / 64;
    if start / 64 == end / 64 {
      forall k | 0 <= k < 64
        ensures QuadBit(And64(RightMask(startBit), LeftMask(endBit)), k) <==>
                  startBit <= k < startBit + (endBit - startBit)
      {
        MiddleMaskBit(startBit, endBit, k);
      }
      OrQuad(buf, p, And64(RightMask(startBit), LeftMask(endBit)), startBit, endBit - startBit);
    } else {
      forall k | 0 <= k < 64 ensures QuadBit(RightMask(startBit), k) <==> startBit <= k < startBit + (64 - startBit) {
        RightMaskBit(startBit, k);
      }
      OrQuad(buf, p, RightMask(startBit), startBit, 64 - startBit);
      p := p + 1;
      var nquads := (end - endBit - start - 1) / 64;
      assert nquads == end / 64 - p;
      while nquads > 0
        invariant 0 <= nquads == end / 64 - p && start < 64 * p
        invariant BitsOf(buf[..]) == SetRange(u, start, 64 * p - start)
      {
        SetRangeMore(u, start, 64 * p - start, 64);
        FillQuadSets(buf[..], p);
        ghost var ws := buf[..];
        buf[2 * p], buf[2 * p + 1] := ALL_BITS, ALL_BITS;
        assert buf[..] == ws[2 * p := ALL_BITS][2 * p + 1 := ALL_BITS];
        p := p + 1;
        nquads := nquads - 1;
      }
      if endBit != 0 {
        forall k | 0 <= k < 64 ensures QuadBit(LeftMask(endBit), k) <==> 0 <= k < 0 + endBit { LeftMaskBit(endBit, k); }
        SetRangeMore(u, start, 64 * p - start, endBit);
        OrQuad(buf, p, LeftMask(endBit), 0, endBit);
      }
    }
  }

  // ------------------------------------------------------- laying reservations over

  /** The states `u` of the blocks from `offset` on, with `rs` laid over them. */
  ghost function Overlaid(u: seq<bool>, offset: nat, rs: seq<Range>): seq<bool> {
    seq(|u|, k requires 0 <= k < |u| => u[k] || Held(rs, offset + k))
  }

  lemma OverlaidNone(u: seq<bool>, offset: nat)
    ensures Overlaid(u, offset, []) == u
  {
  }

  lemma OverlaidSize(u: seq<bool>, offset: nat, rs: seq<Range>)
    ensures |Overlaid(u, offset, rs)| == |u|
  {
  }

  lemma OverlaidMore(u: seq<bool>, offset: nat, rs: seq<Range>, ss: seq<Range>)
    ensures Overlaid(Overlaid(u, offset, rs), offset, ss) == Overlaid(u, offset, rs + ss)
  {
    var l, r := Overlaid(Overlaid(u, offset, rs), offset, ss), Overlaid(u, offset, rs + ss);
    forall k | 0 <= k < |u| ensures l[k] == r[k] { HeldConcat(rs, ss, offset + k); }
  }

  /** A range clipped to the window [offset, offset + |u|). */
  lemma OverlaidOne(u: seq<bool>, offset: nat, r: Range)
    requires r.start <= r.last && |u| > 0
    ensures var end := offset + |u| - 1;
            match OverlapOf(r, offset, end)
            case NoOverlap => Overlaid(u, offset, [r]) == u
            case Matching => AllSet(Overlaid(u, offset, [r]), 0, |u|)
            case ContainsRange => AllSet(Overlaid(u, offset, [r]), 0, |u|)
            case IsContained => Overlaid(u, offset, [r]) == SetRange(u, r.start - offset, r.last + 1 - r.start)
            case StartsBefore => Overlaid(u, offset, [r]) == SetRange(u, 0, r.last + 1 - offset)
            case EndsAfter => Overlaid(u, offset, [r]) == SetRange(u, r.start - offset, end + 1 - r.start)
  {
    hide SetRange, Held;
    var v := Overlaid(u, offset, [r]);
    forall k | 0 <= k < |u| ensures v[k] <==> u[k] || r.Holds(offset + k) { HeldOne(r, offset + k); }
    var end := offset + |u| - 1;
    match OverlapOf(r, offset, end)
    case IsContained => SetRangeAt(u, r.start - offset, r.last + 1 - r.start);
    case StartsBefore => SetRangeAt(u, 0, r.last + 1 - offset);
    case EndsAfter => SetRangeAt(u, r.start - offset, end + 1 - r.start);
    case _ =>
  }

  lemma OverlaidFull(u: seq<bool>, v: seq<bool>, offset: nat, rs: seq<Range>)
    requires |u| == |v| && AllSet(v, 0, |v|) && AllSet(u, 0, |u|)
    ensures v == Overlaid(u, offset, rs)
  {
  }

  method FillBlock(buf: array<bv32>)
    modifies buf
    ensures |BitsOf(buf[..])| == 32 * buf.Length && AllSet(BitsOf(buf[..]), 0, 32 * buf.Length)
  {
    hide Bit;
    forall i | 0 <= i < buf.Length { buf[i] := ALL_BITS; }
    forall b | 0 <= b < 32 * buf.Length ensures BitsOf(buf[..])[b] { ConstBit(b % 32); }
  }

  /** process_reservations for one list: `full` reports the early return taken when a
      range covers the whole block. */
  method Overlay(buf: array<bv32>, offset: nat, rs: seq<Range>) returns (full: bool)
    requires buf.Length > 0 && buf.Length % 2 == 0 && Proper(rs)
    modifies buf
    ensures BitsOf(buf[..]) == Overlaid(BitsOf(old(buf[..])), offset, rs)
    ensures full ==> |BitsOf(buf[..])| == 32 * buf.Length && AllSet(BitsOf(buf[..]), 0, 32 * buf.Length)
  {
    hide BitsOf, SetRange, Overlaid, OverlapOf;
    ghost var u := BitsOf(buf[..]);
    var end := offset + 32 * buf.Length - 1;
    OverlaidNone(u, offset);
    var i := 0;
    while i < |rs|
      invariant 0 <= i <= |rs|
      invariant BitsOf(buf[..]) == Overlaid(u, offset, rs[..i])
    {
      var r := rs[i];
      ghost var v := BitsOf(buf[..]);
      BitsAt(buf[..], 0, 0);
      OverlaidSize(u, offset, rs[..i]);
      OverlaidOne(v, offset, r);
      OverlaidMore(u, offset, rs[..i], [r]);
      assert rs[..i] + [r] == rs[..i+1];
      match OverlapOf(r, offset, end) {
        case NoOverlap =>
        case Matching | ContainsRange =>
          FillBlock(buf);
          OverlaidAllSet(u, BitsOf(buf[..]), offset, rs, i);
          return true;
        case IsContained =>
          OverlapInside(r, offset, end);
          BitsSet(buf, r.start - offset, r.last + 1 - offset);
        case StartsBefore =>
          OverlapInside(r, offset, end);
          BitsSet(buf, 0, r.last + 1 - offset);
        case EndsAfter =>
          OverlapInside(r, offset, end);
          BitsSet(buf, r.start - offset, end + 1 - offset);
      }
      i := i + 1;
    }
    assert rs[..i] == rs;
    full := false;
  }

  /** The block numbers the overlay computes lie inside the block. */
  lemma OverlapInside(r: Range, offset: int, end: int)
    requires r.start <= r.last && offset <= end
    ensures match OverlapOf(r, offset, end)
            case IsContained => offset <= r.start && r.last <= end
            case StartsBefore => r.start < offset <= r.last < end
            case EndsAfter => offset < r.start <= end
            case _ => true
  {
  }

  lemma OverlaidAllSet(u: seq<bool>, v: seq<bool>, offset: nat, rs: seq<Range>, i: nat)
    requires i < |rs| && |u| == |v| && |u| > 0 && AllSet(v, 0, |v|)
    requires OverlapOf(rs[i], offset, offset + |u| - 1).Matching? || OverlapOf(rs[i], offset, offset + |u| - 1).ContainsRange?
    ensures v == Overlaid(u, offset, rs)
  {
    var o := Overlaid(u, offset, rs);
    forall k | 0 <= k < |u| ensures o[k] { assert rs[i].Holds(offset + k); }
  }

  /** The lists laid over a read, by the flags of the caller. */
  function Included(tentative: seq<Range>, locked: seq<Range>, ignoreTentative: bool): seq<Range> {
    (if ignoreTentative then [] else tentative) + locked
  }

  lemma ChunkView(u: seq<bool>, rs: seq<Range>, lo: nat, n: nat)
    requires lo + n <= |u|
    ensures Overlaid(u[lo..lo+n], lo, rs) == View(u, rs)[lo..lo+n]
  {
  }

  lemma BitsOfSlice(ws: seq<bv32>, lo: nat, n: nat)
    requires lo + n <= |ws|
    ensures |BitsOf(ws)| == 32 * |ws|
    ensures BitsOf(ws[lo..lo+n]) == BitsOf(ws)[32*lo..32*(lo+n)]
  {
    hide Bit;
    var l, r := BitsOf(ws[lo..lo+n]), BitsOf(ws)[32*lo..32*(lo+n)];
    forall b | 0 <= b < 32 * n ensures l[b] == r[b] {
      assert (32 * lo + b) / 32 == lo + b / 32 && (32 * lo + b) % 32 == b % 32;
    }
  }

  /** ReadBitmapRange: `n` words of the bitmap from word `base` on, with the reservations
      laid over a copy. */
  method ReadBitmapRange(bm: Bitmap, base: nat, n: nat, tentative: seq<Range>, locked: seq<Range>,
                         ignoreTentative: bool)
    returns (buffer: seq<bv32>)
    requires bm.Valid() && 0 < n && n % 2 == 0 && base + n <= bm.words.Length
    requires Proper(tentative) && Proper(locked)
    ensures |buffer| == n
    ensures BitsOf(buffer) == View(bm.Bits(), Included(tentative, locked, ignoreTentative))[32 * base..32 * (base + n)]
  {
    hide BitsOf, Overlaid, View;
    var buf := new bv32[n](i requires 0 <= i < n reads bm, bm.words => bm.words[base + i]);
    ghost var u := bm.Bits();
    assert buf[..] == bm.words[..][base..base+n];
    BitsOfSlice(bm.words[..], base, n);
    ghost var c := BitsOf(buf[..]);
    OverlaidNone(c, 32 * base);
    OverlaidMore(c, 32 * base, if ignoreTentative then [] else tentative, locked);
    ChunkView(u, Included(tentative, locked, ignoreTentative), 32 * base, 32 * n);
    var full := false;
    if !ignoreTentative {
      full := Overlay(buf, 32 * base, tentative);
    }
    if !full {
      full := Overlay(buf, 32 * base, locked);
    } else {
      OverlaidFull(BitsOf(buf[..]), BitsOf(buf[..]), 32 * base, locked);
    }
    buffer := buf[..];
  }

  /** ReadBitmapBlock: the words of the bitmap block holding `block`. */
  method ReadBitmapBlock(bm: Bitmap, block: nat, tentative: seq<Range>, locked: seq<Range>, ignoreTentative: bool)
    returns (buffer: seq<bv32>)
    requires bm.Valid() && bm.wordsPerChunk % 2 == 0 && block < 32 * bm.words.Length
    requires Proper(tentative) && Proper(locked)
    ensures |buffer| == bm.wordsPerChunk
    ensures ChunkBase(block, bm.wordsPerChunk) + bm.wordsPerChunk <= bm.words.Length
    ensures var base := ChunkBase(block, bm.wordsPerChunk);
            BitsOf(buffer) == View(bm.Bits(), Included(tentative, locked, ignoreTentative))
                                [32 * base..32 * (base + bm.wordsPerChunk)]
  {
    hide BitsOf, View, ChunkBase;
    var w := bm.wordsPerChunk;
    ChunkEnd(block, w, bm.words.Length);
    buffer := ReadBitmapRange(bm, ChunkBase(block, w), w, tentative, locked, ignoreTentative);
  }
}
