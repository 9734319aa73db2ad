/** The full scan of the bitmap for free extents, a quad at a time and in large reads. */
module FreeScans {
  import opened Words
  import opened Quads
  import opened BlockMaps
  import opened Bitmaps
  import opened Ranges
  import opened BitmapViews
  import opened Summaries
  import opened FreeExtentCaches

  // ---------------------------------------------------------------- quads

  /** Two words of a big-endian bitmap as one quad. */
  function QuadAt(ws: seq<bv32>, p: nat): bv64
    requires 2 * p + 1 < |ws|
  { Join(ws[2 * p], ws[2 * p + 1]) }

  function Join(hi: bv32, lo: bv32): bv64 { (hi as bv64 << 32) | lo as bv64 }

  function Or64(a: bv64, b: bv64): bv64 { a | b }

  lemma JoinHalves(hi: bv32, lo: bv32)
    ensures Hi(Join(hi, lo)) == hi && Lo(Join(hi, lo)) == lo
  {
  }

  lemma OrHalves(a: bv64, b: bv64)
    ensures Hi(Or64(a, b)) == Or(Hi(a), Hi(b)) && Lo(Or64(a, b)) == Or(Lo(a), Lo(b))
  {
  }

  lemma QuadBits(ws: seq<bv32>, p: nat, k: nat)
    requires 2 * p + 1 < |ws| && k < 64
    ensures |BitsOf(ws)| == 32 * |ws|
    ensures QuadBit(QuadAt(ws, p), k) == BitsOf(ws)[64 * p + k]
  {
    hide Bit, Hi, Lo, Join, BitsOf;
    JoinHalves(ws[2 * p], ws[2 * p + 1]);
    if k < 32 { BitsAt(ws, 2 * p, k); } else { BitsAt(ws, 2 * p + 1, k - 32); }
  }

  lemma OrQuadBit(a: bv64, b: bv64, k: nat)
    requires k < 64
    ensures QuadBit(Or64(a, b), k) <==> QuadBit(a, k) || QuadBit(b, k)
  {
    hide Bit, Hi, Lo, Or64, Or;
    OrHalves(a, b);
    if k < 32 { OrBit(Hi(a), Hi(b), k); } else { OrBit(Lo(a), Lo(b), k - 32); }
  }

  lemma AndQuadBit(a: bv64, b: bv64, k: nat)
    requires k < 64
    ensures QuadBit(And64(a, b), k) <==> QuadBit(a, k) && QuadBit(b, k)
  {
    hide Bit, Hi, Lo, And64, And;
    AndHalves(a, b);
    if k < 32 { AndBit(Hi(a), Hi(b), k); } else { AndBit(Lo(a), Lo(b), k - 32); }
  }

  lemma NotQuadBit(a: bv64, k: nat)
    requires k < 64
    ensures QuadBit(Not64(a), k) <==> !QuadBit(a, k)
  {
    hide Bit, Hi, Lo, Not64, Not;
    NotHalves(a);
    if k < 32 { NotBit(Hi(a), k); } else { NotBit(Lo(a), k - 32); }
  }

  lemma ZeroHalves(x: bv64)
    ensures x == 0 <==> Hi(x) == 0 && Lo(x) == 0
  {
  }

  /** The number of leading zero bits. */
  function Clz(x: bv64): nat { LeadingFrom(x, 0) }

  function LeadingFrom(x: bv64, k: nat): (n: nat)
    requires k <= 64
    ensures k <= n <= 64 && (n < 64 ==> QuadBit(x, n)) && forall j :: k <= j < n ==> !QuadBit(x, j)
    decreases 64 - k
  { if k == 64 || QuadBit(x, k) then k else LeadingFrom(x, k + 1) }

  lemma QuadZero(x: bv64)
    ensures x == 0 <==> forall k :: 0 <= k < 64 ==> !QuadBit(x, k)
  {
    hide Bit, Hi, Lo;
    ZeroHalves(x);
    IsZero(Hi(x));
    IsZero(Lo(x));
    if x == 0 {
      forall k | 0 <= k < 64 ensures !QuadBit(x, k) { }
    }
    if forall k :: 0 <= k < 64 ==> !QuadBit(x, k) {
      forall k | 0 <= k < 32 ensures !Bit(Hi(x), k) && !Bit(Lo(x), k) {
        assert !QuadBit(x, k) && !QuadBit(x, k + 32);
      }
    }
  }

  // ------------------------------------------------------------- counting a run

  /** Blocks [a, b) are all in state `value`. */
  ghost predicate Same(u: seq<bool>, a: nat, b: nat, value: bool) {
    b <= |u| && forall i :: a <= i < b ==> u[i] == value
  }

  /** The bits of quad `p` at which a run of `value` stops. */
  function Stops(ws: seq<bv32>, p: nat, value: bool): bv64
    requires 2 * p + 1 < |ws|
  { if value then Not64(QuadAt(ws, p)) else QuadAt(ws, p) }

  lemma StopsBit(ws: seq<bv32>, p: nat, value: bool, k: nat)
    requires 2 * p + 1 < |ws| && k < 64
    ensures |BitsOf(ws)| == 32 * |ws|
    ensures QuadBit(Stops(ws, p, value), k) <==> BitsOf(ws)[64 * p + k] != value
  {
    hide QuadBit, QuadAt, Not64, BitsOf;
    QuadBits(ws, p, k);
    NotQuadBit(QuadAt(ws, p), k);
  }

  /** A run of `value` in quad `p` from bit `s` on, cut at bit `e`: where it stops. */
  lemma Middle(ws: seq<bv32>, p: nat, value: bool, s: nat, e: nat)
    requires 2 * p + 1 < |ws| && s < e < 64
    ensures |BitsOf(ws)| == 32 * |ws|
    ensures var n := Clz(Or64(And64(Stops(ws, p, value), RightMask(s)), RightMask(e)));
            && s <= n <= e && Same(BitsOf(ws), 64 * p + s, 64 * p + n, value)
            && (n < e ==> BitsOf(ws)[64 * p + n] != value)
  {
    hide QuadBit, Stops, And64, Or64, RightMask, BitsOf;
    var a := And64(Stops(ws, p, value), RightMask(s));
    var x := Or64(a, RightMask(e));
    StopsBit(ws, p, value, 0);
    forall k | 0 <= k < 64 ensures QuadBit(x, k) <==> (s <= k && BitsOf(ws)[64 * p + k] != value) || e <= k {
      OrQuadBit(a, RightMask(e), k);
      AndQuadBit(Stops(ws, p, value), RightMask(s), k);
      RightMaskBit(s, k);
      RightMaskBit(e, k);
      StopsBit(ws, p, value, k);
    }
    RunToStop(ws, p, value, x, s, e);
  }

  /** Reading off a run from a quad that marks its stops from `s` on and everything from `e`. */
  lemma RunToStop(ws: seq<bv32>, p: nat, value: bool, x: bv64, s: nat, e: nat)
    requires 2 * p + 1 < |ws| && s < 64 && s <= e <= 64 && |BitsOf(ws)| == 32 * |ws|
    requires forall k :: 0 <= k < 64 ==> (QuadBit(x, k) <==> (s <= k && BitsOf(ws)[64 * p + k] != value) || e <= k)
    ensures Clz(x) <= e && s <= Clz(x) && Same(BitsOf(ws), 64 * p + s, 64 * p + Clz(x), value)
    ensures Clz(x) < e ==> BitsOf(ws)[64 * p + Clz(x)] != value
  {
    hide QuadBit, BitsOf;
    var n := Clz(x);
    if e < 64 { assert QuadBit(x, e); }
    if n < 64 { assert QuadBit(x, n); }
    forall i | 64 * p + s <= i < 64 * p + n ensures BitsOf(ws)[i] == value {
      var k := i - 64 * p;
      assert !QuadBit(x, k);
    }
  }

  lemma Head(ws: seq<bv32>, p: nat, value: bool, s: nat)
    requires 2 * p + 1 < |ws| && s < 64
    ensures |BitsOf(ws)| == 32 * |ws|
    ensures var x := And64(Stops(ws, p, value), RightMask(s));
            && (x != 0 ==> s <= Clz(x) < 64 && Same(BitsOf(ws), 64 * p + s, 64 * p + Clz(x), value)
                           && BitsOf(ws)[64 * p + Clz(x)] != value)
            && (x == 0 ==> Same(BitsOf(ws), 64 * p + s, 64 * p + 64, value))
  {
    hide QuadBit, Stops, And64, RightMask, BitsOf;
    var x := And64(Stops(ws, p, value), RightMask(s));
    StopsBit(ws, p, value, 0);
    forall k | 0 <= k < 64 ensures QuadBit(x, k) <==> (s <= k && BitsOf(ws)[64 * p + k] != value) || 64 <= k {
      AndQuadBit(Stops(ws, p, value), RightMask(s), k);
      RightMaskBit(s, k);
      StopsBit(ws, p, value, k);
    }
    QuadZero(x);
    RunToStop(ws, p, value, x, s, 64);
  }

  lemma Body(ws: seq<bv32>, p: nat, value: bool)
    requires 2 * p + 1 < |ws|
    ensures |BitsOf(ws)| == 32 * |ws|
    ensures var x := Stops(ws, p, value);
            && (x != 0 ==> Clz(x) < 64 && Same(BitsOf(ws), 64 * p, 64 * p + Clz(x), value)
                           && BitsOf(ws)[64 * p + Clz(x)] != value)
            && (x == 0 ==> Same(BitsOf(ws), 64 * p, 64 * p + 64, value))
  {
    hide QuadBit, Stops, BitsOf;
    var x := Stops(ws, p, value);
    StopsBit(ws, p, value, 0);
    forall k | 0 <= k < 64 ensures QuadBit(x, k) <==> (0 <= k && BitsOf(ws)[64 * p + k] != value) || 64 <= k {
      StopsBit(ws, p, value, k);
    }
    QuadZero(x);
    RunToStop(ws, p, value, x, 0, 64);
  }

  lemma Tail(ws: seq<bv32>, p: nat, value: bool, e: nat)
    requires 2 * p + 1 < |ws| && 0 < e < 64
    ensures |BitsOf(ws)| == 32 * |ws|
    ensures var n := Clz(Or64(Stops(ws, p, value), RightMask(e)));
            && n <= e && Same(BitsOf(ws), 64 * p, 64 * p + n, value) && (n < e ==> BitsOf(ws)[64 * p + n] != value)
  {
    hide QuadBit, Stops, Or64, RightMask, BitsOf;
    var x := Or64(Stops(ws, p, value), RightMask(e));
    StopsBit(ws, p, value, 0);
    forall k | 0 <= k < 64 ensures QuadBit(x, k) <==> (0 <= k && BitsOf(ws)[64 * p + k] != value) || e <= k {
      OrQuadBit(Stops(ws, p, value), RightMask(e), k);
      RightMaskBit(e, k);
      StopsBit(ws, p, value, k);
    }
    RunToStop(ws, p, value, x, 0, e);
  }

  /** bit_count_set and bit_count_clr: the length of the run of `value` at `start`, up to `end`. */
  method BitCount(ws: seq<bv32>, start: nat, end: nat, value: bool) returns (count: nat)
    requires start <= end <= 32 * |ws| && EvenSize(|ws|)
    ensures |BitsOf(ws)| == 32 * |ws| && start + count <= end && Same(BitsOf(ws), start, start + count, value)
    ensures start + count < end ==> BitsOf(ws)[start + count] != value
  {
    hide QuadBit, BitsOf, Stops, And64, Or64, RightMask, Clz;
    BitsSize(ws);
    if start == end { return 0; }
    var startBit, endBit := start % 64, end % 64;
    var p := start / 64;
    var x := Stops(ws, p, value);
    if start / 64 == end / 64 {
      Middle(ws, p, value, startBit, endBit);
      x := Or64(And64(x, RightMask(startBit)), RightMask(endBit));
      return Clz(x) - startBit;
    }
    Head(ws, p, value, startBit);
    x := And64(x, RightMask(startBit));
    if x != 0 { return Clz(x) - startBit; }
    var rest := CountQuads(ws, p + 1, end, (end - endBit - start - 1) / 64, value);
    count := 64 - startBit + rest;
  }

  /** The rest of a run that has filled the quad before `first`: `nquads` whole quads, then
      the bits before `end`. */
  method CountQuads(ws: seq<bv32>, first: nat, end: nat, nquads: nat, value: bool) returns (count: nat)
    requires 64 * first <= end <= 32 * |ws| && EvenSize(|ws|) && nquads == end / 64 - first
    ensures |BitsOf(ws)| == 32 * |ws| && 64 * first + count <= end
    ensures Same(BitsOf(ws), 64 * first, 64 * first + count, value)
    ensures 64 * first + count < end ==> BitsOf(ws)[64 * first + count] != value
  {
    hide QuadBit, BitsOf, Stops, Or64, RightMask, Clz;
    BitsSize(ws);
    var p: nat := first;
    count := 0;
    var left := nquads;
    while left > 0
      invariant 0 <= left == end / 64 - p && 64 * first + count == 64 * p <= end
      invariant Same(BitsOf(ws), 64 * first, 64 * first + count, value)
    {
      Body(ws, p, value);
      var x := Stops(ws, p, value);
      if x != 0 { return count + Clz(x); }
      p := p + 1;
      count := count + 64;
      left := left - 1;
    }
    if end % 64 != 0 {
      Tail(ws, p, value, end % 64);
      count := count + Clz(Or64(Stops(ws, p, value), RightMask(end % 64)));
    }
  }

  lemma BitsSize(ws: seq<bv32>)
    ensures |BitsOf(ws)| == 32 * |ws|
  {
  }

  // ---------------------------------------------------------- what the scan reports

  /** `runs` holds, in order, maximal runs of clear blocks of [0, n) that end by `r`, and
      together they hold every clear block below `r`. */
  ghost predicate RunsBelow(v: seq<bool>, n: nat, r: nat, runs: seq<Extent>) {
    && r <= n <= |v|
    && (forall i :: 0 <= i < |runs| ==> MaximalRun(v, n, runs[i]) && runs[i].End() <= r)
    && (forall i, j :: 0 <= i < j < |runs| ==> runs[i].End() < runs[j].start)
    && (forall b: nat :: b < r && !v[b] ==> Covers(runs, b))
  }

  /** A run of clear blocks that cannot be extended within [0, n). */
  ghost predicate MaximalRun(v: seq<bool>, n: nat, e: Extent) {
    && n <= |v| && e.count > 0 && e.End() <= n && Same(v, e.start, e.End(), false)
    && (e.start == 0 || v[e.start - 1]) && (e.End() == n || v[e.End()])
  }

  function TotalCount(runs: seq<Extent>): nat {
    if runs == [] then 0 else TotalCount(runs[..|runs| - 1]) + runs[|runs| - 1].count
  }

  lemma CoversMore(runs: seq<Extent>, e: Extent, b: nat)
    ensures Covers(runs + [e], b) <==> Covers(runs, b) || e.Holds(b)
  {
    var more := runs + [e];
    if e.Holds(b) { assert more[|runs|].Holds(b); }
    if Covers(runs, b) {
      var i :| 0 <= i < |runs| && runs[i].Holds(b);
      assert more[i].Holds(b);
    }
  }

  /** Adding the run [a, b) to a report that reached `a`. */
  lemma RunsMore(v: seq<bool>, n: nat, a: nat, b: nat, runs: seq<Extent>)
    requires a < b <= n && RunsBelow(v, n, a, runs) && MaximalRun(v, n, Extent(a, b - a))
    requires |runs| > 0 ==> a > 0 && v[a - 1]
    ensures RunsBelow(v, n, b, runs + [Extent(a, b - a)])
    ensures TotalCount(runs + [Extent(a, b - a)]) == TotalCount(runs) + (b - a)
  {
    RunsCounted(runs, Extent(a, b - a));
    hide MaximalRun, Covers, TotalCount;
    var e := Extent(a, b - a);
    var more := runs + [e];
    forall i | 0 <= i < |runs| ensures runs[i].End() < a { LastClear(v, n, runs[i]); }
    forall x: nat | x < b && !v[x] ensures Covers(more, x) { CoversMore(runs, e, x); }
  }

  lemma RunsCounted(runs: seq<Extent>, e: Extent)
    ensures TotalCount(runs + [e]) == TotalCount(runs) + e.count
  {
    assert (runs + [e])[..|runs|] == runs;
  }

  lemma LastClear(v: seq<bool>, n: nat, e: Extent)
    requires MaximalRun(v, n, e)
    ensures e.End() <= |v| && e.End() > 0 && !v[e.End() - 1]
  {
  }

  /** Passing the set blocks [b, c). */
  lemma RunsPast(v: seq<bool>, n: nat, b: nat, c: nat, runs: seq<Extent>)
    requires RunsBelow(v, n, b, runs) && b <= c <= n && Same(v, b, c, true)
    ensures RunsBelow(v, n, c, runs)
  {
    hide MaximalRun, Covers;
  }

  // ------------------------------------------------------------- the summary

  /** Chunk `q` has no clear block below `r`. */
  ghost predicate NoClear(v: seq<bool>, q: nat, r: nat, w: nat)
    requires w > 0
  { r <= |v| && forall x: nat :: x < r && ChunkIndex(x, w) == q ==> v[x] }

  /** The summary bits of the chunks that begin below `r`: a set bit means a chunk without a
      clear block below `r`, and for every chunk but the first the converse holds too. */
  ghost predicate Summarized(v: seq<bool>, full: seq<bool>, r: nat, w: nat)
    requires w > 0
  {
    r > 0 ==> forall q :: 0 <= q <= ChunkIndex(r - 1, w) && q < |full| ==>
                (full[q] ==> NoClear(v, q, r, w)) && (q > 0 && NoClear(v, q, r, w) ==> full[q])
  }

  /** Bits `first` to `last` are `value`, the others as before. */
  ghost predicate Painted(f: seq<bool>, f': seq<bool>, first: nat, last: nat, value: bool) {
    |f| == |f'| && forall q :: 0 <= q < |f| ==> f'[q] == if first <= q <= last then value else f[q]
  }

  lemma IndexStep(a: nat, w: nat)
    requires w > 0 && a > 0
    ensures ChunkIndex(a - 1, w) <= ChunkIndex(a, w) <= ChunkIndex(a - 1, w) + 1
  {
    ChunkIndexMonotone(a - 1, a, w);
    hide ChunkIndex;
    ChunkIndexBounds(a - 1, w);
    ChunkIndexBounds(a, w);
    var p, q := ChunkIndex(a - 1, w), ChunkIndex(a, w);
    if q > p + 1 {
      MulMonotone(w, p + 2, q);
      NextMultiple(w, p);
      NextMultiple(w, p + 1);
    }
  }

  /** Blocks from `a` on are in chunk `ChunkIndex(a, w)` or later. */
  lemma NoClearBefore(v: seq<bool>, q: nat, a: nat, b: nat, w: nat)
    requires w > 0 && a <= b <= |v| && q < ChunkIndex(a, w)
    ensures NoClear(v, q, a, w) <==> NoClear(v, q, b, w)
  {
    hide ChunkIndex;
    forall x: nat | a <= x < b ensures ChunkIndex(x, w) != q { ChunkIndexMonotone(a, x, w); }
  }

  /** A chunk reached by [a, b) holds a block of it. */
  lemma ChunkReached(q: nat, a: nat, b: nat, w: nat) returns (x: nat)
    requires w > 0 && a < b && ChunkIndex(a, w) <= q <= ChunkIndex(b - 1, w)
    ensures a <= x < b && ChunkIndex(x, w) == q
  {
    hide ChunkIndex;
    if q == ChunkIndex(a, w) {
      x := a;
    } else {
      x := q * (32 * w);
      ChunkStart(q, w);
      ChunkOrder(a, x, w);
      ChunkStartBelow(q, w, b - 1);
    }
  }

  lemma SummaryFree(v: seq<bool>, f: seq<bool>, f': seq<bool>, a: nat, b: nat, w: nat)
    requires w > 0 && a < b <= |v| && Summarized(v, f, a, w) && Same(v, a, b, false)
    requires Painted(f, f', ChunkIndex(a, w), ChunkIndex(b - 1, w), false)
    ensures Summarized(v, f', b, w)
  {
    hide ChunkIndex, NoClear;
    forall q: nat | q <= ChunkIndex(b - 1, w) && q < |f|
      ensures (f'[q] ==> NoClear(v, q, b, w)) && (q > 0 && NoClear(v, q, b, w) ==> f'[q])
    {
      if q < ChunkIndex(a, w) {
        NotFirst(a, w);
        IndexStep(a, w);
        NoClearBefore(v, q, a, b, w);
      } else {
        var x := ChunkReached(q, a, b, w);
        ClearSeen(v, q, b, w, x);
      }
    }
  }

  lemma NotFirst(a: nat, w: nat)
    requires w > 0 && ChunkIndex(a, w) > 0
    ensures a > 0
  {
    ChunkIndexZero(w);
  }

  lemma ClearSeen(v: seq<bool>, q: nat, b: nat, w: nat, x: nat)
    requires w > 0 && x < b <= |v| && !v[x] && ChunkIndex(x, w) == q
    ensures !NoClear(v, q, b, w)
  {
    hide ChunkIndex;
  }

  /** Setting the bits of the chunks that [b, c) reaches, except the one in which the last
      free block was seen. */
  lemma SummarySet(v: seq<bool>, f: seq<bool>, f': seq<bool>, b: nat, c: nat, w: nat, lastFree: nat)
    requires w > 0 && b < c <= |v| && Summarized(v, f, b, w) && Same(v, b, c, true)
    requires if b == 0 then lastFree == 0 else !v[b - 1] && lastFree == ChunkIndex(b - 1, w)
    requires Painted(f, f', ChunkIndex(b, w) + (if ChunkIndex(b, w) == lastFree then 1 else 0), ChunkIndex(c - 1, w), true)
    ensures Summarized(v, f', c, w)
  {
    hide ChunkIndex, NoClear;
    forall q: nat | q <= ChunkIndex(c - 1, w) && q < |f|
      ensures (f'[q] ==> NoClear(v, q, c, w)) && (q > 0 && NoClear(v, q, c, w) ==> f'[q])
    {
      if q < ChunkIndex(b, w) {
        NotFirst(b, w);
        IndexStep(b, w);
        NoClearBefore(v, q, b, c, w);
      } else {
        SummarySetAt(v, f, f', b, c, w, lastFree, q);
      }
    }
  }

  lemma SummarySetAt(v: seq<bool>, f: seq<bool>, f': seq<bool>, b: nat, c: nat, w: nat, lastFree: nat, q: nat)
    requires w > 0 && b < c <= |v| && Summarized(v, f, b, w) && Same(v, b, c, true)
    requires if b == 0 then lastFree == 0 else !v[b - 1] && lastFree == ChunkIndex(b - 1, w)
    requires Painted(f, f', ChunkIndex(b, w) + (if ChunkIndex(b, w) == lastFree then 1 else 0), ChunkIndex(c - 1, w), true)
    requires ChunkIndex(b, w) <= q <= ChunkIndex(c - 1, w) && q < |f|
    ensures (f'[q] ==> NoClear(v, q, c, w)) && (q > 0 && NoClear(v, q, c, w) ==> f'[q])
  {
    hide ChunkIndex;
    if b == 0 {
      ChunkIndexZero(w);
    } else {
      IndexStep(b, w);
      if q == ChunkIndex(b, w) == lastFree {
        ClearSeen(v, q, b, w, b - 1);
        ClearSeen(v, q, c, w, b - 1);
      } else {
        forall x: nat | x < c && ChunkIndex(x, w) == q ensures v[x] {
          if x < b { ChunkIndexMonotone(x, b - 1, w); }
        }
      }
    }
  }

  lemma ChunkIndexZero(w: nat)
    requires w > 0
    ensures ChunkIndex(0, w) == 0
  {
    assert Quotient(0, 32 * w) == 0;
  }

  // ------------------------------------------------------------------ the scan

  predicate QuadAligned(b: nat) { b % 64 == 0 }

  lemma ZeroAligned()
    ensures QuadAligned(0)
  {
  }

  predicate EvenSize(n: nat) { n % 2 == 0 }

  /** Bits `u` hold blocks [base, base + end) of `v`; the end is a quad boundary or the last
      block. */
  ghost predicate Buffered(v: seq<bool>, u: seq<bool>, base: nat, end: nat, total: nat) {
    && end <= |u| && base + end <= total <= |v|
    && (base + end == total || QuadAligned(base + end))
    && u[..end] == v[base..base + end]
  }

  lemma BufferedNew(v: seq<bool>, u: seq<bool>, r: nat, n: nat, last: nat, total: nat)
    requires QuadAligned(r) && n % 64 == 0 && r + n <= |v| && u == v[r..r + n] && r < total <= |v|
    requires last == if r + n > total then total else r + n
    ensures Buffered(v, u, r, last - r, total)
  {
    QuadsAligned(r, n);
    hide QuadAligned;
    assert u[..last - r] == v[r..last];
    assert r + (last - r) == last;
  }

  lemma QuadsAligned(r: nat, n: nat)
    requires QuadAligned(r) && n % 64 == 0
    ensures QuadAligned(r + n)
  {
    var p, q := r / 64, n / 64;
    assert r == 64 * p && n == 64 * q;
    assert r + n == 64 * (p + q);
  }

  lemma BufferedEnd(v: seq<bool>, u: seq<bool>, base: nat, end: nat, total: nat)
    requires Buffered(v, u, base, end, total)
    ensures base + end <= total && (base + end == total || QuadAligned(base + end))
  {
  }

  /** One large read from block `at` on: the buffer, and how many blocks of it to look at. */
  method ReadChunk(bm: Bitmap, tentative: seq<Range>, locked: seq<Range>, at: nat, total: nat, ioWords: nat)
    returns (buffer: seq<bv32>, end: nat)
    requires bm.Valid() && bm.words.Length % 2 == 0 && at < total <= 32 * bm.words.Length && QuadAligned(at)
    requires ioWords > 0 && ioWords % 2 == 0 && Proper(tentative) && Proper(locked)
    ensures 0 < end <= 32 * |buffer| && EvenSize(|buffer|)
    ensures Buffered(View(bm.Bits(), tentative + locked), BitsOf(buffer), at, end, total)
  {
    hide BitsOf, View, Buffered, Bitmap.Valid;
    var first := at / 32;
    EvenLeft(at, bm.words.Length);
    var left := bm.words.Length - first;
    var n := if ioWords < left then ioWords else left;
    buffer := ReadBitmapRange(bm, first, n, tentative, locked, false);
    BitsSize(buffer);
    var last := if at + 32 * n > total then total else at + 32 * n;
    end := last - at;
    ViewSize(bm.Bits(), tentative + locked);
    BufferedNew(View(bm.Bits(), tentative + locked), BitsOf(buffer), at, 32 * n, last, total);
  }

  lemma ViewSize(u: seq<bool>, rs: seq<Range>)
    ensures |View(u, rs)| == |u|
  {
  }

  /** bitmap_context: the scan of one volume's bitmap. */
  class BitmapScan {
    const bm: Bitmap
    const st: SummaryTable
    const tentative: seq<Range>
    const locked: seq<Range>
    const totalBlocks: nat
    const ioWords: nat

    var runOffset: nat
    var chunkCurrent: nat
    var chunkEnd: nat
    var bitmap: seq<bv32>
    var lastFree: nat

    ghost predicate Fixed()
      reads bm, st
    {
      && bm.Valid() && bm.wordsPerChunk % 2 == 0 && bm.words.Length % 2 == 0
      && st.Valid() && st.totalBlocks == totalBlocks && st.wordsPerChunk == bm.wordsPerChunk
      && 0 < totalBlocks <= 32 * bm.words.Length && bm.words as object != st.bytes
      && ioWords > 0 && ioWords % 2 == 0 && Proper(tentative) && Proper(locked)
    }

    ghost function V(): (v: seq<bool>)
      reads bm, bm.words
      ensures |v| == 32 * bm.words.Length
    { View(bm.Bits(), tentative + locked) }

    /** The buffer holds the blocks around `runOffset`, if any blocks are left. */
    ghost predicate Valid()
      reads this`runOffset, this`chunkCurrent, this`chunkEnd, this`bitmap, bm, bm.words, st
    {
      && Fixed() && runOffset <= totalBlocks
      && (runOffset == 0 || (chunkEnd == 0 && runOffset == totalBlocks) || Loaded())
    }

    ghost predicate Loaded()
      reads this`runOffset, this`chunkCurrent, this`chunkEnd, this`bitmap, bm, bm.words
    {
      && chunkCurrent <= chunkEnd <= 32 * |bitmap| && EvenSize(|bitmap|)
      && 0 < chunkEnd && chunkCurrent <= runOffset
      && Buffered(V(), BitsOf(bitmap), runOffset - chunkCurrent, chunkEnd, totalBlocks)
    }

    constructor (bm: Bitmap, st: SummaryTable, tentative: seq<Range>, locked: seq<Range>, totalBlocks: nat,
                 ioWords: nat)
      requires bm.Valid() && bm.wordsPerChunk % 2 == 0 && bm.words.Length % 2 == 0
      requires st.Valid() && st.totalBlocks == totalBlocks && st.wordsPerChunk == bm.wordsPerChunk
      requires 0 < totalBlocks <= 32 * bm.words.Length && bm.words as object != st.bytes
      requires ioWords > 0 && ioWords % 2 == 0 && Proper(tentative) && Proper(locked)
      ensures Valid() && runOffset == 0 && lastFree == 0
      ensures this.bm == bm && this.st == st && this.tentative == tentative && this.locked == locked
      ensures this.totalBlocks == totalBlocks
    {
      this.bm, this.st, this.tentative, this.locked := bm, st, tentative, locked;
      this.totalBlocks, this.ioWords := totalBlocks, ioWords;
      runOffset, chunkCurrent, chunkEnd, bitmap, lastFree := 0, 0, 0, [], 0;
    }

    /** get_more_bits: read the next part of the bitmap, if any blocks are left. */
    method GetMoreBits()
      requires Fixed() && runOffset <= totalBlocks && (runOffset == totalBlocks || QuadAligned(runOffset))
      modifies this`chunkCurrent, this`chunkEnd, this`bitmap
      ensures Valid() && (runOffset == totalBlocks ==> chunkEnd == 0)
      ensures runOffset < totalBlocks ==> Loaded() && chunkCurrent == 0
    {
      hide BitsOf, View, Buffered, Bitmap.Valid, QuadAligned, EvenSize;
      if runOffset >= totalBlocks {
        chunkEnd, bitmap := 0, [];
        return;
      }
      var buffer, end := ReadChunk(bm, tentative, locked, runOffset, totalBlocks, ioWords);
      bitmap, chunkCurrent, chunkEnd := buffer, 0, end;
    }

    /** hfs_bit_count: the length of the run of `value` at `runOffset`, across reads. */
    method Count(value: bool) returns (count: nat)
      requires Valid()
      modifies this`runOffset, this`chunkCurrent, this`chunkEnd, this`bitmap
      ensures Valid() && runOffset == old(runOffset) + count
      ensures runOffset <= |V()| && Same(V(), old(runOffset), runOffset, value)
      ensures runOffset < totalBlocks ==> V()[runOffset] != value
    {
      hide BitsOf, View, Buffered, Bitmap.Valid, Loaded;
      ghost var v := V();
      count := 0;
      var more := true;
      while more
        invariant Valid() && V() == v && runOffset == old(runOffset) + count && runOffset <= |v|
        invariant Same(v, old(runOffset), runOffset, value)
        invariant !more && runOffset < totalBlocks ==> v[runOffset] != value
        decreases totalBlocks - runOffset, more
      {
        var n;
        n, more := CountPart(value);
        count := count + n;
      }
    }

    /** The part of the run in the buffer, read anew if it is used up. */
    method CountPart(value: bool) returns (n: nat, more: bool)
      requires Valid()
      modifies this`runOffset, this`chunkCurrent, this`chunkEnd, this`bitmap
      ensures Valid() && runOffset == old(runOffset) + n && runOffset <= |V()| && V() == old(V())
      ensures Same(V(), old(runOffset), runOffset, value) && (more ==> n > 0)
      ensures !more && runOffset < totalBlocks ==> V()[runOffset] != value
    {
      hide BitsOf, View, Buffered, Bitmap.Valid, QuadAligned, EvenSize;
      ghost var v := V();
      Refill();
      if chunkEnd == 0 { return 0, false; }
      n := BitCount(bitmap, chunkCurrent, chunkEnd, value);
      Transfer(BitsOf(bitmap), v, runOffset - chunkCurrent, chunkEnd, totalBlocks, chunkCurrent, n, value);
      runOffset, chunkCurrent := runOffset + n, chunkCurrent + n;
      more := chunkCurrent >= chunkEnd && n != 0;
    }

    /** Read on at the start and whenever the buffer is used up. */
    method Refill()
      requires Valid()
      modifies this`chunkCurrent, this`chunkEnd, this`bitmap
      ensures Valid() && (chunkEnd == 0 ==> runOffset == totalBlocks)
      ensures (chunkEnd > 0 ==> Loaded() && chunkCurrent < chunkEnd)
    {
      hide BitsOf, View, Buffered, Bitmap.Valid, QuadAligned, EvenSize;
      if runOffset > 0 && chunkEnd > 0 {
        BufferedEnd(V(), BitsOf(bitmap), runOffset - chunkCurrent, chunkEnd, totalBlocks);
      }
      ZeroAligned();
      if runOffset == 0 || chunkCurrent == chunkEnd { GetMoreBits(); }
    }

    /** update_summary_table. */
    method UpdateSummary(start: nat, count: nat, full: bool)
      requires Fixed() && start + count <= totalBlocks
      modifies this`lastFree, st.bytes
      ensures count == 0 ==> st.Full() == old(st.Full()) && lastFree == old(lastFree)
      ensures count > 0 ==>
                var w := st.wordsPerChunk;
                var first := ChunkIndex(start, w);
                var last := ChunkIndex(start + count - 1, w);
                && Painted(old(st.Full()), st.Full(), first + (if full && first == old(lastFree) then 1 else 0), last, full)
                && lastFree == if full then old(lastFree) else last
    {
      hide BitsOf, ChunkIndex, FullOf;
      if count == 0 { return; }
      var w := st.wordsPerChunk;
      ChunkIndexMonotone(start, totalBlocks - 1, w);
      ChunkIndexMonotone(start + count - 1, totalBlocks - 1, w);
      var first, last := ChunkIndex(start, w), ChunkIndex(start + count - 1, w);
      if full && first == lastFree { first := first + 1; }
      ghost var f := st.Full();
      var bit := first;
      while bit <= last
        invariant first <= bit && |st.Full()| == |f| && lastFree == old(lastFree)
        invariant forall q :: 0 <= q < |f| ==> st.Full()[q] == if first <= q < bit && q <= last then full else f[q]
      {
        st.Set(bit, full);
        bit := bit + 1;
      }
      if !full { lastFree := last; }
    }

    /** hfs_find_free_extents: report the free extents and rebuild the summary. */
    method FindFreeExtents() returns (runs: seq<Extent>)
      requires Valid() && runOffset == 0 && lastFree == 0
      modifies this, st.bytes
      ensures RunsBelow(V(), totalBlocks, totalBlocks, runs)
      ensures totalBlocks <= |V()| && TotalCount(runs) == ClearIn(V(), 0, totalBlocks)
      ensures Summarized(V(), st.Full(), totalBlocks, st.wordsPerChunk)
      ensures |st.Full()| == |old(st.Full())| && (|st.Full()| > 0 && st.Full()[0] ==> old(st.Full())[0])
    {
      hide BitsOf, View, ClearIn, ChunkIndex, FullOf, Summarized, RunsBelow, TotalCount, Loaded;
      runs := [];
      ghost var v, w, f0 := V(), st.wordsPerChunk, st.Full();
      NothingYet(v, f0, totalBlocks, w);
      while runOffset < totalBlocks
        invariant Valid() && V() == v && RunsBelow(v, totalBlocks, runOffset, runs)
        invariant TotalCount(runs) == ClearIn(v, 0, runOffset)
        invariant Summarized(v, st.Full(), runOffset, w) && |st.Full()| == |f0|
        invariant |f0| > 0 && st.Full()[0] ==> f0[0]
        invariant runOffset == 0 ==> lastFree == 0 && runs == []
        invariant 0 < runOffset < totalBlocks ==> v[runOffset - 1] && !v[runOffset]
        decreases totalBlocks - runOffset
      {
        runs := ScanFree(runs, v, f0);
        ScanSet(runs, v, f0);
      }
    }

    /** Report the free run at `runOffset`, if there is one. */
    method ScanFree(runs: seq<Extent>, ghost v: seq<bool>, ghost f0: seq<bool>) returns (more: seq<Extent>)
      requires Valid() && V() == v && runOffset < totalBlocks && RunsBelow(v, totalBlocks, runOffset, runs)
      requires TotalCount(runs) == ClearIn(v, 0, runOffset)
      requires Summarized(v, st.Full(), runOffset, st.wordsPerChunk)
      requires |st.Full()| == |f0| && (|f0| > 0 && st.Full()[0] ==> f0[0])
      requires runOffset == 0 ==> lastFree == 0 && runs == []
      requires 0 < runOffset ==> v[runOffset - 1] && !v[runOffset]
      modifies this`runOffset, this`chunkCurrent, this`chunkEnd, this`bitmap, this`lastFree, st.bytes
      ensures Valid() && V() == v && RunsBelow(v, totalBlocks, runOffset, more) && old(runOffset) <= runOffset
      ensures TotalCount(more) == ClearIn(v, 0, runOffset)
      ensures Summarized(v, st.Full(), runOffset, st.wordsPerChunk)
      ensures |st.Full()| == |f0| && (|f0| > 0 && st.Full()[0] ==> f0[0])
      ensures if runOffset == 0 then lastFree == 0 && more == [] && v[0]
              else !v[runOffset - 1] && lastFree == ChunkIndex(runOffset - 1, st.wordsPerChunk)
      ensures runOffset < totalBlocks ==> v[runOffset]
      ensures old(runOffset) == runOffset ==> runOffset == 0
    {
      hide BitsOf, View, ClearIn, ChunkIndex, FullOf, Summarized, RunsBelow, TotalCount, Loaded, Covers;
      var start := runOffset;
      var count := Count(false);
      assert V() == v;
      more := runs;
      ghost var f := st.Full();
      UpdateSummary(start, count, false);
      assert V() == v;
      if count > 0 {
        more := runs + [Extent(start, count)];
        assert MaximalRun(v, totalBlocks, Extent(start, count));
        RunsMore(v, totalBlocks, start, start + count, runs);
        SummaryFree(v, f, st.Full(), start, start + count, st.wordsPerChunk);
        ClearInSplit(v, 0, start, start + count);
        ClearInAllClear(v, start, start + count);
      }
    }

    /** Pass the set blocks at `runOffset`. */
    method ScanSet(ghost runs: seq<Extent>, ghost v: seq<bool>, ghost f0: seq<bool>)
      requires Valid() && V() == v && RunsBelow(v, totalBlocks, runOffset, runs)
      requires TotalCount(runs) == ClearIn(v, 0, runOffset)
      requires Summarized(v, st.Full(), runOffset, st.wordsPerChunk)
      requires |st.Full()| == |f0| && (|f0| > 0 && st.Full()[0] ==> f0[0])
      requires if runOffset == 0 then lastFree == 0 && v[0]
               else !v[runOffset - 1] && lastFree == ChunkIndex(runOffset - 1, st.wordsPerChunk)
      requires runOffset < totalBlocks ==> v[runOffset]
      modifies this`runOffset, this`chunkCurrent, this`chunkEnd, this`bitmap, this`lastFree, st.bytes
      ensures Valid() && V() == v && RunsBelow(v, totalBlocks, runOffset, runs)
      ensures TotalCount(runs) == ClearIn(v, 0, runOffset)
      ensures Summarized(v, st.Full(), runOffset, st.wordsPerChunk)
      ensures |st.Full()| == |f0| && (|f0| > 0 && st.Full()[0] ==> f0[0])
      ensures old(runOffset) <= runOffset && (old(runOffset) < totalBlocks ==> old(runOffset) < runOffset)
      ensures runOffset > 0 && (runOffset < totalBlocks ==> v[runOffset - 1] && !v[runOffset])
    {
      hide BitsOf, View, ClearIn, ChunkIndex, FullOf, Summarized, RunsBelow, TotalCount, Loaded, Covers;
      var start := runOffset;
      var count := Count(true);
      assert V() == v;
      ghost var f, was := st.Full(), lastFree;
      UpdateSummary(start, count, true);
      assert V() == v;
      if count > 0 {
        RunsPast(v, totalBlocks, start, start + count, runs);
        SummarySet(v, f, st.Full(), start, start + count, st.wordsPerChunk, was);
        ClearInSplit(v, 0, start, start + count);
        ClearInAllSet(v, start, start + count);
        FirstBitKept(f, st.Full(), start, start + count, st.wordsPerChunk, was);
      }
    }
  }

  /** The first summary bit is not set by a run of set blocks. */
  lemma FirstBitKept(f: seq<bool>, f': seq<bool>, b: nat, c: nat, w: nat, lastFree: nat)
    requires w > 0 && b < c && (if b == 0 then lastFree == 0 else lastFree == ChunkIndex(b - 1, w))
    requires Painted(f, f', ChunkIndex(b, w) + (if ChunkIndex(b, w) == lastFree then 1 else 0), ChunkIndex(c - 1, w), true)
    ensures |f| > 0 ==> f'[0] == f[0]
  {
    ChunkIndexZero(w);
    hide ChunkIndex;
    if b > 0 { IndexStep(b, w); }
  }

  lemma NothingYet(v: seq<bool>, f: seq<bool>, n: nat, w: nat)
    requires w > 0 && n <= |v|
    ensures RunsBelow(v, n, 0, []) && TotalCount([]) == ClearIn(v, 0, 0) && Summarized(v, f, 0, w)
  {
  }

  lemma EvenLeft(r: nat, n: nat)
    requires r % 64 == 0 && n % 2 == 0 && r < 32 * n
    ensures 32 * (r / 32) == r && (n - r / 32) % 2 == 0 && n - r / 32 > 0 && 32 * (n - r / 32) == 32 * n - r
  {
  }

  /** A run counted in the buffer is a run of the view. */
  lemma Transfer(u: seq<bool>, v: seq<bool>, base: nat, end: nat, total: nat, at: nat, n: nat, value: bool)
    requires Buffered(v, u, base, end, total) && at + n <= end
    requires Same(u, at, at + n, value) && (at + n < end ==> u[at + n] != value)
    ensures base + end <= total <= |v| && Same(v, base + at, base + at + n, value)
    ensures at + n < end ==> v[base + at + n] != value
  {
    forall i | 0 <= i < end ensures v[base + i] == u[i] { assert u[..end][i] == v[base..base + end][i]; }
    forall i | base + at <= i < base + at + n ensures v[i] == value { assert v[base + (i - base)] == u[i - base]; }
  }
}
