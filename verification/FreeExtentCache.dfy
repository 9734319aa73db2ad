/** The free extent cache: a ten-entry sorted array of extents known to be free.
    An entry may have length zero: stealing the very start of a tentative range
    hands a zero-length remainder to the cache. */
module FreeExtentCaches {

  const MAX_FREE_EXTENTS: nat := 10

  datatype Extent = Extent(start: nat, count: nat) {
    function End(): nat { start + count }
    predicate Holds(b: nat) { start <= b < start + count }
  }

  /** `a` may stand before `b` in the list: by increasing start on a sparse
      device, by decreasing length otherwise. */
  predicate Before(sparse: bool, a: Extent, b: Extent) {
    if sparse then a.start <= b.start else a.count >= b.count
  }

  /** The test that stops the insertion scan: `e` must go in front of `x`. */
  predicate Precedes(sparse: bool, e: Extent, x: Extent) {
    if sparse then e.start < x.start else e.count > x.count
  }

  predicate Sorted(sparse: bool, s: seq<Extent>) {
    forall i, j :: 0 <= i < j < |s| ==> Before(sparse, s[i], s[j])
  }

  /** The two extents neither overlap nor touch. */
  predicate Apart(a: Extent, b: Extent) { a.End() < b.start || b.End() < a.start }

  predicate Separated(s: seq<Extent>) {
    forall i, j :: 0 <= i < j < |s| ==> Apart(s[i], s[j])
  }

  predicate ApartFrom(s: seq<Extent>, e: Extent) {
    forall i :: 0 <= i < |s| ==> Apart(s[i], e)
  }

  predicate Within(s: seq<Extent>, limit: nat) {
    forall i :: 0 <= i < |s| ==> s[i].End() <= limit
  }

  /** The invariant of the cache contents. */
  predicate WellFormed(sparse: bool, limit: nat, s: seq<Extent>) {
    |s| <= MAX_FREE_EXTENTS && Sorted(sparse, s) && Separated(s) && Within(s, limit)
  }

  predicate Covers(s: seq<Extent>, b: nat) { exists i :: 0 <= i < |s| && s[i].Holds(b) }

  ghost predicate CoversM(m: multiset<Extent>, b: nat) { exists e :: e in m && e.Holds(b) }

  /** `s` holds the best entries of `pool`, as many as fit, in order. */
  ghost predicate BestOf(sparse: bool, s: seq<Extent>, pool: multiset<Extent>) {
    && Sorted(sparse, s)
    && multiset(s) <= pool
    && |s| == (if |pool| <= MAX_FREE_EXTENTS then |pool| else MAX_FREE_EXTENTS)
    && forall e, d :: e in s && d in pool - multiset(s) ==> Before(sparse, e, d)
  }

  /** On a sparse device the first entry is the lowest of the pool, otherwise the longest, and no
      entry left out is lower, or longer, than one kept. */
  lemma BestMeans(sparse: bool, s: seq<Extent>, pool: multiset<Extent>, e: Extent)
    requires BestOf(sparse, s, pool) && e in pool
    ensures s != [] && (if sparse then s[0].start <= e.start else s[0].count >= e.count)
    ensures e !in s ==> |s| == MAX_FREE_EXTENTS
    ensures e !in s ==> forall i :: 0 <= i < |s| ==> if sparse then s[i].start <= e.start else s[i].count >= e.count
  {
    if e in s {
      var i :| 0 <= i < |s| && s[i] == e;
      assert i > 0 ==> Before(sparse, s[0], s[i]);
    } else {
      assert e !in multiset(s);
      assert e in pool - multiset(s);
      LeftOut(s, pool, e);
      forall i | 0 <= i < |s| ensures Before(sparse, s[i], e) { assert s[i] in s; }
    }
  }

  lemma LeftOut(s: seq<Extent>, pool: multiset<Extent>, e: Extent)
    requires multiset(s) <= pool && e in pool - multiset(s)
    ensures |pool| > |s|
  {
    assert |multiset(s)| == |s|;
    assert pool == multiset(s) + (pool - multiset(s));
    assert |pool - multiset(s)| > 0;
  }

  // ---------------------------------------------------------------- insertion

  /** `n` is the index at which the insertion scan for `e` stops. */
  predicate IsSlot(sparse: bool, s: seq<Extent>, e: Extent, n: nat) {
    && n <= |s|
    && (forall k :: 0 <= k < n ==> !Precedes(sparse, e, s[k]))
    && (n < |s| ==> Precedes(sparse, e, s[n]))
  }

  function Inserted(s: seq<Extent>, n: nat, e: Extent): seq<Extent>
    requires n <= |s|
  { s[..n] + [e] + s[n..] }

  function Removed(s: seq<Extent>, i: nat): seq<Extent>
    requires i < |s|
  { s[..i] + s[i+1..] }

  function Capped(s: seq<Extent>): seq<Extent> {
    if |s| > MAX_FREE_EXTENTS then s[..MAX_FREE_EXTENTS] else s
  }

  lemma InsertedMultiset(s: seq<Extent>, n: nat, e: Extent)
    requires n <= |s|
    ensures multiset(Inserted(s, n, e)) == multiset(s) + multiset{e}
  {
    assert s == s[..n] + s[n..];
  }

  lemma InsertedAt(s: seq<Extent>, n: nat, e: Extent)
    requires n <= |s|
    ensures |Inserted(s, n, e)| == |s| + 1
    ensures forall k :: 0 <= k <= |s| ==>
              Inserted(s, n, e)[k] == if k < n then s[k] else if k == n then e else s[k-1]
  {
  }

  lemma SlotBound(sparse: bool, s: seq<Extent>, e: Extent, n: nat)
    requires IsSlot(sparse, s, e, n)
    ensures n <= |s|
  {
  }

  lemma RemovedAt(s: seq<Extent>, i: nat)
    requires i < |s|
    ensures |Removed(s, i)| == |s| - 1
    ensures forall k :: 0 <= k < |s| - 1 ==> Removed(s, i)[k] == s[if k < i then k else k + 1]
    ensures s == Inserted(Removed(s, i), i, s[i])
  {
    var r := Removed(s, i);
    assert r[..i] == s[..i] && r[i..] == s[i+1..];
  }

  lemma InsertedSorted(sparse: bool, s: seq<Extent>, e: Extent, n: nat)
    requires Sorted(sparse, s) && IsSlot(sparse, s, e, n)
    ensures Sorted(sparse, Inserted(s, n, e))
  {
    InsertedAt(s, n, e);
    var r := Inserted(s, n, e);
    forall i, j | 0 <= i < j < |r| ensures Before(sparse, r[i], r[j]) {
      if i == n < j - 1 { assert Before(sparse, s[n], s[j-1]); }
    }
  }

  lemma InsertedApart(s: seq<Extent>, n: nat, e: Extent, x: Extent)
    requires n <= |s| && ApartFrom(s, x) && Apart(e, x)
    ensures ApartFrom(Inserted(s, n, e), x)
  {
    InsertedAt(s, n, e);
  }

  lemma InsertedSeparated(s: seq<Extent>, n: nat, e: Extent)
    requires n <= |s| && Separated(s) && ApartFrom(s, e)
    ensures Separated(Inserted(s, n, e))
  {
    InsertedAt(s, n, e);
  }

  /** Inserting an extent apart from all others keeps the cache invariant. */
  lemma InsertWellFormed(sparse: bool, limit: nat, s: seq<Extent>, e: Extent, n: nat)
    requires WellFormed(sparse, limit, s) && IsSlot(sparse, s, e, n)
    requires ApartFrom(s, e) && e.End() <= limit
    ensures WellFormed(sparse, limit, Capped(Inserted(s, n, e)))
  {
    InsertedAt(s, n, e);
    InsertedSorted(sparse, s, e, n);
    InsertedSeparated(s, n, e);
  }

  lemma RemoveWellFormed(sparse: bool, limit: nat, s: seq<Extent>, i: nat)
    requires WellFormed(sparse, limit, s) && i < |s|
    ensures WellFormed(sparse, limit, Removed(s, i))
    ensures ApartFrom(Removed(s, i), s[i])
  {
    RemovedAt(s, i);
  }

  lemma SortedSelfBest(sparse: bool, s: seq<Extent>)
    requires Sorted(sparse, s) && |s| <= MAX_FREE_EXTENTS
    ensures BestOf(sparse, s, multiset(s))
  {
    assert multiset(s) - multiset(s) == multiset{};
  }

  lemma WellFormedBest(sparse: bool, limit: nat, s: seq<Extent>)
    requires WellFormed(sparse, limit, s)
    ensures BestOf(sparse, s, multiset(s))
  {
    SortedSelfBest(sparse, s);
  }

  lemma FullSubset(a: multiset<Extent>, b: multiset<Extent>)
    requires a <= b && |a| == |b|
    ensures a == b
  {
    assert b == a + (b - a);
    assert |b - a| == 0;
  }

  /** Multiset bookkeeping: swapping `e` in and `x` out of the chosen entries. */
  lemma Leftover(p: multiset<Extent>, s: multiset<Extent>, e: Extent, q: multiset<Extent>, x: Extent)
    requires s <= p && s + multiset{e} == q + multiset{x}
    ensures p + multiset{e} - q == (p - s) + multiset{x}
    ensures q <= p + multiset{e}
  {
    var l, r := p + multiset{e} - q, (p - s) + multiset{x};
    forall y ensures q[y] <= (p + multiset{e})[y] && l[y] == r[y] {
      assert (s + multiset{e})[y] == (q + multiset{x})[y];
      assert s[y] <= p[y];
    }
  }

  lemma DroppedAfter(sparse: bool, s: seq<Extent>, pool: multiset<Extent>, e: Extent, n: nat, i: nat, d: Extent)
    requires BestOf(sparse, s, pool) && IsSlot(sparse, s, e, n) && i < |s|
    requires d in pool - multiset(s)
    ensures Before(sparse, Inserted(s, n, e)[i], d)
  {
    InsertedAt(s, n, e);
    var j := if i <= n then i else i - 1;
    assert s[j] in s;
  }

  /** Insertion keeps the list the best of what it was offered. */
  lemma InsertBest(sparse: bool, s: seq<Extent>, pool: multiset<Extent>, e: Extent, n: nat)
    requires BestOf(sparse, s, pool) && IsSlot(sparse, s, e, n)
    ensures BestOf(sparse, Capped(Inserted(s, n, e)), pool + multiset{e})
  {
    var r := Inserted(s, n, e);
    InsertedMultiset(s, n, e);
    InsertedSorted(sparse, s, e, n);
    if |s| < MAX_FREE_EXTENTS {
      FullSubset(multiset(s), pool);
      SortedSelfBest(sparse, r);
    } else {
      var q, last := r[..MAX_FREE_EXTENTS], r[MAX_FREE_EXTENTS];
      assert r == q + [last];
      Leftover(pool, multiset(s), e, multiset(q), last);
      forall x, d | x in q && d in pool + multiset{e} - multiset(q)
        ensures Before(sparse, x, d)
      {
        var i :| 0 <= i < |q| && q[i] == x;
        if d == last {
          assert Before(sparse, r[i], r[MAX_FREE_EXTENTS]);
        } else {
          DroppedAfter(sparse, s, pool, e, n, i, d);
        }
      }
    }
  }

  // ------------------------------------------------------------------ removal

  /** The entry meets the half-open range [a, b) as the source tests it. */
  predicate Meets(e: Extent, a: nat, b: nat) { !(e.End() <= a || e.start >= b) }

  predicate NoneMeets(s: seq<Extent>, a: nat, b: nat) {
    forall i :: 0 <= i < |s| ==> !Meets(s[i], a, b)
  }

  /** What is left of one entry once [a, b) is taken out. */
  ghost function Pieces(e: Extent, a: nat, b: nat): multiset<Extent>
    requires a < b
  {
    if !Meets(e, a, b) then multiset{e}
    else
      (if e.start < a then multiset{Extent(e.start, a - e.start)} else multiset{}) +
      (if b < e.End() then multiset{Extent(b, e.End() - b)} else multiset{})
  }

  ghost function AllPieces(s: seq<Extent>, a: nat, b: nat): multiset<Extent>
    requires a < b
  {
    if s == [] then multiset{} else Pieces(s[0], a, b) + AllPieces(s[1..], a, b)
  }

  lemma {:induction false} AllPiecesConcat(s: seq<Extent>, t: seq<Extent>, a: nat, b: nat)
    requires a < b
    ensures AllPieces(s + t, a, b) == AllPieces(s, a, b) + AllPieces(t, a, b)
  {
    if s == [] {
      assert s + t == t;
    } else {
      assert (s + t)[1..] == s[1..] + t;
      AllPiecesConcat(s[1..], t, a, b);
    }
  }

  lemma AllPiecesOne(e: Extent, a: nat, b: nat)
    requires a < b
    ensures AllPieces([e], a, b) == Pieces(e, a, b)
  {
    assert AllPieces([e], a, b) == Pieces(e, a, b) + AllPieces([e][1..], a, b);
  }

  lemma {:induction false} AllPiecesInserted(s: seq<Extent>, i: nat, e: Extent, a: nat, b: nat)
    requires a < b && i <= |s|
    ensures AllPieces(Inserted(s, i, e), a, b) == AllPieces(s, a, b) + Pieces(e, a, b)
  {
    var l, r := s[..i], s[i..];
    assert s == l + r;
    AllPiecesConcat(l, r, a, b);
    AllPiecesConcat(l + [e], r, a, b);
    AllPiecesConcat(l, [e], a, b);
    AllPiecesOne(e, a, b);
  }

  lemma NoneMeetsEmpty(s: seq<Extent>, a: nat, b: nat)
    requires s == []
    ensures NoneMeets(s, a, b)
  {
  }

  lemma NoneMeetsStep(s: seq<Extent>, i: nat, a: nat, b: nat)
    requires i < |s| && NoneMeets(s[..i], a, b) && !Meets(s[i], a, b)
    ensures NoneMeets(s[..i+1], a, b)
  {
    assert s[..i+1] == s[..i] + [s[i]];
  }

  lemma NoneMeetsBest(sparse: bool, s: seq<Extent>, rest: seq<Extent>, head: Extent, tail: Extent, a: nat, b: nat)
    requires NoneMeets(rest, a, b) && !Meets(head, a, b) && !Meets(tail, a, b)
    requires multiset(s) <= multiset(rest) + multiset{head} + multiset{tail}
    ensures NoneMeets(s, a, b)
  {
    forall i | 0 <= i < |s| ensures !Meets(s[i], a, b) {
      assert s[i] in multiset(s);
      assert s[i] in rest || s[i] == head || s[i] == tail;
    }
  }

  lemma {:induction false} AllPiecesUntouched(s: seq<Extent>, a: nat, b: nat)
    requires a < b && NoneMeets(s, a, b)
    ensures AllPieces(s, a, b) == multiset(s)
  {
    if s != [] {
      AllPiecesUntouched(s[1..], a, b);
      assert s == [s[0]] + s[1..];
    }
  }

  lemma {:induction false} AllPiecesMember(s: seq<Extent>, a: nat, b: nat, p: Extent)
    requires a < b
    ensures p in AllPieces(s, a, b) <==> exists k :: 0 <= k < |s| && p in Pieces(s[k], a, b)
  {
    if s != [] {
      AllPiecesMember(s[1..], a, b, p);
      FirstPieces(s, a, b);
      hide *;
      InSum(Pieces(s[0], a, b), AllPieces(s[1..], a, b), p);
      PieceAmong(s, a, b, p);
    }
  }

  lemma FirstPieces(s: seq<Extent>, a: nat, b: nat)
    requires a < b && s != []
    ensures AllPieces(s, a, b) == Pieces(s[0], a, b) + AllPieces(s[1..], a, b)
  {
  }

  lemma PieceAmong(s: seq<Extent>, a: nat, b: nat, p: Extent)
    requires a < b && s != []
    ensures (exists k :: 0 <= k < |s| && p in Pieces(s[k], a, b)) <==>
              p in Pieces(s[0], a, b) || exists k :: 0 <= k < |s[1..]| && p in Pieces(s[1..][k], a, b)
  {
    hide Pieces;
    var rest := s[1..];
    if k :| 0 <= k < |rest| && p in Pieces(rest[k], a, b) { assert p in Pieces(s[k + 1], a, b); }
    if k :| 1 <= k < |s| && p in Pieces(s[k], a, b) { assert p in Pieces(rest[k - 1], a, b); }
  }

  lemma InSum(x: multiset<Extent>, y: multiset<Extent>, p: Extent)
    ensures p in x + y <==> p in x || p in y
  {
  }

  lemma PieceOf(e: Extent, a: nat, b: nat, x: nat) returns (p: Extent)
    requires a < b && e.Holds(x) && !(a <= x < b)
    ensures p in Pieces(e, a, b) && p.Holds(x)
  {
    p := if !Meets(e, a, b) then e
         else if x < a then Extent(e.start, a - e.start) else Extent(b, e.End() - b);
  }

  lemma PieceInside(e: Extent, a: nat, b: nat, x: nat, p: Extent)
    requires a < b && p in Pieces(e, a, b) && p.Holds(x)
    ensures e.Holds(x) && !(a <= x < b)
  {
  }

  /** Taking [a, b) out of the entries takes exactly those blocks out of the
      blocks they cover. */
  lemma {:induction false} PiecesCover(s: seq<Extent>, a: nat, b: nat, x: nat)
    requires a < b
    ensures CoversM(AllPieces(s, a, b), x) <==> Covers(s, x) && !(a <= x < b)
  {
    var m := AllPieces(s, a, b);
    if CoversM(m, x) {
      var p :| p in m && p.Holds(x);
      AllPiecesMember(s, a, b, p);
      var k :| 0 <= k < |s| && p in Pieces(s[k], a, b);
      PieceInside(s[k], a, b, x, p);
    }
    if Covers(s, x) && !(a <= x < b) {
      var k :| 0 <= k < |s| && s[k].Holds(x);
      var p := PieceOf(s[k], a, b, x);
      AllPiecesMember(s, a, b, p);
    }
  }

  /** Number of entries that still meet [a, b): the first component of the
      termination measure of the removal loop. */
  ghost function MeetCount(s: seq<Extent>, a: nat, b: nat): nat {
    if s == [] then 0 else (if Meets(s[0], a, b) then 1 else 0) + MeetCount(s[1..], a, b)
  }

  lemma {:induction false} MeetCountConcat(s: seq<Extent>, t: seq<Extent>, a: nat, b: nat)
    ensures MeetCount(s + t, a, b) == MeetCount(s, a, b) + MeetCount(t, a, b)
  {
    if s == [] {
      assert s + t == t;
    } else {
      assert (s + t)[1..] == s[1..] + t;
      MeetCountConcat(s[1..], t, a, b);
    }
  }

  lemma {:induction false} MeetCountInserted(s: seq<Extent>, i: nat, e: Extent, a: nat, b: nat)
    requires i <= |s|
    ensures MeetCount(Inserted(s, i, e), a, b)
         == MeetCount(s, a, b) + (if Meets(e, a, b) then 1 else 0)
  {
    var l, r := s[..i], s[i..];
    assert s == l + r;
    MeetCountConcat(l, r, a, b);
    MeetCountConcat(l + [e], r, a, b);
    MeetCountConcat(l, [e], a, b);
    assert [e][1..] == [];
  }

  /** The entry lies strictly around [a, b): the others stay clear of it. */
  lemma {:induction false} SplitKeeps(sparse: bool, limit: nat, s: seq<Extent>, i: nat, a: nat, b: nat)
    requires WellFormed(sparse, limit, s) && i < |s| && s[i].start < a < b < s[i].End()
    ensures var head, tail := Extent(s[i].start, a - s[i].start), Extent(b, s[i].End() - b);
            var rest := Removed(s, i);
            && WellFormed(sparse, limit, rest) && |rest| < MAX_FREE_EXTENTS
            && NoneMeets(rest, a, b) && ApartFrom(rest, head) && ApartFrom(rest, tail)
            && head.End() <= limit && tail.End() <= limit
  {
    RemoveWellFormed(sparse, limit, s, i);
    RemovedAt(s, i);
    hide Sorted, Separated;
  }

  lemma SplitPieces(s: seq<Extent>, i: nat, a: nat, b: nat)
    requires i < |s| && s[i].start < a < b < s[i].End() && NoneMeets(Removed(s, i), a, b)
    ensures AllPieces(s, a, b)
         == multiset(Removed(s, i)) + multiset{Extent(s[i].start, a - s[i].start)}
            + multiset{Extent(b, s[i].End() - b)}
  {
    PiecesAround(s[i], a, b);
    PiecesBeside(s, i, a, b);
    hide *;
    Regroup(multiset(Removed(s, i)), multiset{Extent(s[i].start, a - s[i].start)}, multiset{Extent(b, s[i].End() - b)});
  }

  lemma PiecesBeside(s: seq<Extent>, i: nat, a: nat, b: nat)
    requires i < |s| && a < b && NoneMeets(Removed(s, i), a, b)
    ensures AllPieces(s, a, b) == multiset(Removed(s, i)) + Pieces(s[i], a, b)
  {
    RemovedAt(s, i);
    hide *;
    AllPiecesInserted(Removed(s, i), i, s[i], a, b);
    AllPiecesUntouched(Removed(s, i), a, b);
  }

  lemma Regroup(m: multiset<Extent>, x: multiset<Extent>, y: multiset<Extent>)
    ensures m + (x + y) == m + x + y
  {
  }

  lemma PiecesAround(e: Extent, a: nat, b: nat)
    requires e.start < a < b < e.End()
    ensures Pieces(e, a, b) == multiset{Extent(e.start, a - e.start)} + multiset{Extent(b, e.End() - b)}
  {
  }

  /** Adding two separate extents to a list with room for one of them. */
  lemma {:induction false} AddTwo(sparse: bool, limit: nat, rest: seq<Extent>, head: Extent, n: nat, tail: Extent,
                                  m: nat)
    requires WellFormed(sparse, limit, rest) && |rest| < MAX_FREE_EXTENTS
    requires ApartFrom(rest, head) && ApartFrom(rest, tail) && Apart(head, tail)
    requires head.End() <= limit && tail.End() <= limit
    requires IsSlot(sparse, rest, head, n) && IsSlot(sparse, Inserted(rest, n, head), tail, m)
    ensures var t := Capped(Inserted(Inserted(rest, n, head), m, tail));
            && WellFormed(sparse, limit, t)
            && BestOf(sparse, t, multiset(rest) + multiset{head} + multiset{tail})
  {
    hide Sorted, Separated, Within, ApartFrom, BestOf, Inserted, Precedes;
    var mid := Inserted(rest, n, head);
    InsertedAt(rest, n, head);
    InsertWellFormed(sparse, limit, rest, head, n);
    SortedSelfBest(sparse, rest);
    InsertedApart(rest, n, head, tail);
    InsertWellFormed(sparse, limit, mid, tail, m);
    InsertBest(sparse, rest, multiset(rest), head, n);
    InsertBest(sparse, mid, multiset(rest) + multiset{head}, tail, m);
  }

  /** What is left of an entry when [a, b) overlaps exactly one of its ends. */
  function Remainder(e: Extent, a: nat, b: nat): Extent
    requires a < b && Meets(e, a, b) && (a > e.start) != (b < e.End())
  {
    if a > e.start then Extent(e.start, a - e.start) else Extent(b, e.End() - b)
  }

  lemma ShrinkPrefix(s: seq<Extent>, i: nat, n: nat, p: Extent, a: nat, b: nat)
    requires i < |s| && n < |s| && NoneMeets(s[..i], a, b) && !Meets(p, a, b)
    ensures NoneMeets(Inserted(Removed(s, i), n, p)[..if n <= i then i + 1 else i], a, b)
  {
    var rest := Removed(s, i);
    RemovedAt(s, i);
    InsertedAt(rest, n, p);
    var t := Inserted(rest, n, p);
    forall k | 0 <= k < (if n <= i then i + 1 else i) ensures !Meets(t[k], a, b) {
      if k < n { assert t[k] == rest[k] == s[..i][k]; }
      else if k > n { assert t[k] == rest[k-1] == s[..i][k-1]; }
    }
  }

  /** The removed range covers one end of entry `i`; what remains is put back at
      slot `n`. Nothing before the next index to examine meets the range. */
  lemma {:induction false} ShrinkStep(sparse: bool, limit: nat, s: seq<Extent>, i: nat, a: nat, b: nat, n: nat)
    requires WellFormed(sparse, limit, s) && i < |s| && a < b
    requires Meets(s[i], a, b) && (a > s[i].start) != (b < s[i].End())
    requires NoneMeets(s[..i], a, b)
    requires IsSlot(sparse, Removed(s, i), Remainder(s[i], a, b), n)
    ensures var t := Inserted(Removed(s, i), n, Remainder(s[i], a, b));
            && WellFormed(sparse, limit, t) && |t| == |s|
            && AllPieces(t, a, b) == AllPieces(s, a, b)
            && MeetCount(t, a, b) < MeetCount(s, a, b)
            && NoneMeets(t[..if n <= i then i + 1 else i], a, b)
  {
    var p := Remainder(s[i], a, b);
    ShrinkKeeps(sparse, limit, s, i, a, b, n);
    ShrinkMeasure(s, i, a, b, n);
    ShrinkPrefix(s, i, n, p, a, b);
  }

  lemma {:induction false} ShrinkKeeps(sparse: bool, limit: nat, s: seq<Extent>, i: nat, a: nat, b: nat, n: nat)
    requires WellFormed(sparse, limit, s) && i < |s| && a < b
    requires Meets(s[i], a, b) && (a > s[i].start) != (b < s[i].End())
    requires IsSlot(sparse, Removed(s, i), Remainder(s[i], a, b), n)
    ensures WellFormed(sparse, limit, Inserted(Removed(s, i), n, Remainder(s[i], a, b)))
  {
    var p := Remainder(s[i], a, b);
    var rest := Removed(s, i);
    RemoveWellFormed(sparse, limit, s, i);
    RemovedAt(s, i);
    assert ApartFrom(rest, p);
    InsertWellFormed(sparse, limit, rest, p, n);
  }

  lemma {:induction false} ShrinkMeasure(s: seq<Extent>, i: nat, a: nat, b: nat, n: nat)
    requires i < |s| && n < |s| && a < b
    requires Meets(s[i], a, b) && (a > s[i].start) != (b < s[i].End())
    ensures var t := Inserted(Removed(s, i), n, Remainder(s[i], a, b));
            && AllPieces(t, a, b) == AllPieces(s, a, b)
            && MeetCount(t, a, b) < MeetCount(s, a, b)
  {
    var p := Remainder(s[i], a, b);
    var rest := Removed(s, i);
    RemovedAt(s, i);
    AllPiecesInserted(rest, n, p, a, b);
    AllPiecesInserted(rest, i, s[i], a, b);
    MeetCountInserted(rest, n, p, a, b);
    MeetCountInserted(rest, i, s[i], a, b);
    assert Pieces(p, a, b) == Pieces(s[i], a, b);
  }

  /** An entry inside [a, b) is dropped. */
  lemma {:induction false} DropStep(sparse: bool, limit: nat, s: seq<Extent>, i: nat, a: nat, b: nat)
    requires WellFormed(sparse, limit, s) && i < |s| && a < b
    requires Meets(s[i], a, b) && a <= s[i].start && b >= s[i].End()
    requires NoneMeets(s[..i], a, b)
    ensures var t := Removed(s, i);
            && WellFormed(sparse, limit, t) && |t| == |s| - 1
            && AllPieces(t, a, b) == AllPieces(s, a, b)
            && MeetCount(t, a, b) < MeetCount(s, a, b)
            && NoneMeets(t[..i], a, b)
  {
    RemoveWellFormed(sparse, limit, s, i);
    RemovedAt(s, i);
    AllPiecesInserted(Removed(s, i), i, s[i], a, b);
    MeetCountInserted(Removed(s, i), i, s[i], a, b);
    assert Removed(s, i)[..i] == s[..i];
  }

  // --------------------------------------------------------------- coalescing

  /** The entry overlaps or is contiguous with the closed range [a, b]. */
  predicate Touches(e: Extent, a: nat, b: nat) { !(e.start > b || e.End() < a) }

  /** The extent grown over every entry it touches. */
  ghost function GrownStart(s: seq<Extent>, a: nat, b: nat): (r: nat)
    requires a <= b
    ensures r <= a
  {
    if s == [] then a
    else
      var r := GrownStart(s[1..], a, b);
      if Touches(s[0], a, b) && s[0].start < r then s[0].start else r
  }

  ghost function GrownEnd(s: seq<Extent>, a: nat, b: nat): (r: nat)
    requires a <= b
    ensures r >= b
  {
    if s == [] then b
    else
      var r := GrownEnd(s[1..], a, b);
      if Touches(s[0], a, b) && s[0].End() > r then s[0].End() else r
  }

  ghost function Grown(s: seq<Extent>, a: nat, b: nat): Extent
    requires a <= b
  { Extent(GrownStart(s, a, b), GrownEnd(s, a, b) - GrownStart(s, a, b)) }

  ghost function Untouched(s: seq<Extent>, a: nat, b: nat): multiset<Extent> {
    if s == [] then multiset{}
    else (if Touches(s[0], a, b) then multiset{} else multiset{s[0]}) + Untouched(s[1..], a, b)
  }

  lemma {:induction false} GrownCovers(s: seq<Extent>, a: nat, b: nat, x: nat)
    requires a <= b
    ensures Grown(s, a, b).Holds(x)
       <==> a <= x < b || exists k :: 0 <= k < |s| && Touches(s[k], a, b) && s[k].Holds(x)
  {
    if s != [] {
      GrownCovers(s[1..], a, b, x);
      assert forall k :: 1 <= k < |s| ==> s[k] == s[1..][k-1];
      var g := Grown(s[1..], a, b);
      if g.Holds(x) && !(a <= x < b) {
        var k :| 0 <= k < |s[1..]| && Touches(s[1..][k], a, b) && s[1..][k].Holds(x);
        assert Touches(s[k+1], a, b) && s[k+1].Holds(x);
      }
      if Touches(s[0], a, b) { assert Grown(s, a, b).Holds(x) <==> g.Holds(x) || s[0].Holds(x); }
    }
  }

  lemma {:induction false} UntouchedMember(s: seq<Extent>, a: nat, b: nat, e: Extent)
    ensures e in Untouched(s, a, b) <==> e in s && !Touches(e, a, b)
  {
    if s != [] {
      UntouchedMember(s[1..], a, b, e);
      assert s == [s[0]] + s[1..];
    }
  }

  /** Coalescing adds exactly the blocks of [a, b). */
  lemma {:induction false} MergedCover(s: seq<Extent>, a: nat, b: nat, x: nat)
    requires a <= b
    ensures CoversM(multiset{Grown(s, a, b)} + Untouched(s, a, b), x)
       <==> Covers(s, x) || a <= x < b
  {
    GrownCovers(s, a, b, x);
    var m := multiset{Grown(s, a, b)} + Untouched(s, a, b);
    if Covers(s, x) {
      var k :| 0 <= k < |s| && s[k].Holds(x);
      if !Touches(s[k], a, b) { UntouchedMember(s, a, b, s[k]); assert s[k] in m; }
      else { assert Grown(s, a, b) in m; }
    } else if a <= x < b {
      assert Grown(s, a, b) in m;
    }
    if CoversM(m, x) {
      var e :| e in m && e.Holds(x);
      UntouchedMember(s, a, b, e);
    }
  }

  /** The part of the coalescing pass already done: entries before `i` are clear
      of the grown range [sb, eb], and entries from `i` on touch it exactly when
      they touch the range [a, b] first given. */
  ghost predicate Coalescing(s0: seq<Extent>, s: seq<Extent>, i: nat, a: nat, b: nat, sb: nat, eb: nat) {
    && a <= b && sb <= a && b <= eb && i <= |s|
    && (forall k :: 0 <= k < i ==> !Touches(s[k], sb, eb))
    && (forall k :: i <= k < |s| ==> (Touches(s[k], sb, eb) <==> Touches(s[k], a, b)))
    && Min(sb, GrownStart(s[i..], a, b)) == GrownStart(s0, a, b)
    && Max(eb, GrownEnd(s[i..], a, b)) == GrownEnd(s0, a, b)
    && multiset(s[..i]) + Untouched(s[i..], a, b) == Untouched(s0, a, b)
  }

  function Min(x: nat, y: nat): nat { if x <= y then x else y }
  function Max(x: nat, y: nat): nat { if x >= y then x else y }

  lemma CoalesceStart(s: seq<Extent>, a: nat, b: nat)
    requires a <= b
    ensures Coalescing(s, s, 0, a, b, a, b)
  {
    assert s[0..] == s;
    assert s[..0] == [];
  }

  lemma CoalesceSkip(s0: seq<Extent>, s: seq<Extent>, i: nat, a: nat, b: nat, sb: nat, eb: nat)
    requires Coalescing(s0, s, i, a, b, sb, eb) && i < |s| && !Touches(s[i], sb, eb)
    ensures Coalescing(s0, s, i + 1, a, b, sb, eb)
  {
    assert s[i..][1..] == s[i+1..];
    assert s[..i+1] == s[..i] + [s[i]];
  }

  /** Merging entry `i` cannot make an entry skipped earlier touch: it was apart
      from both halves of the union. */
  lemma CoalesceMerge(sparse: bool, limit: nat, s0: seq<Extent>, s: seq<Extent>, i: nat, a: nat, b: nat, sb: nat,
                      eb: nat)
    requires WellFormed(sparse, limit, s)
    requires Coalescing(s0, s, i, a, b, sb, eb) && i < |s| && Touches(s[i], sb, eb)
    ensures Coalescing(s0, Removed(s, i), i, a, b, Min(sb, s[i].start), Max(eb, s[i].End()))
    ensures WellFormed(sparse, limit, Removed(s, i)) && s[i].End() <= limit
    ensures |Removed(s, i)| == |s| - 1
  {
    MergeTouches(sparse, limit, s, i, sb, eb);
    MergeRest(s0, s, i, a, b, sb, eb);
    RemovedAt(s, i);
    RemoveWellFormed(sparse, limit, s, i);
    WithinAt(s, i, limit);
    hide WellFormed, Removed, Touches, GrownStart, GrownEnd, Untouched, Min, Max;
  }

  lemma MergeTouches(sparse: bool, limit: nat, s: seq<Extent>, i: nat, sb: nat, eb: nat)
    requires WellFormed(sparse, limit, s) && i < |s| && sb <= eb && Touches(s[i], sb, eb)
    ensures var r := Removed(s, i); forall k :: 0 <= k < |r| ==>
              (Touches(r[k], Min(sb, s[i].start), Max(eb, s[i].End())) <==> Touches(r[k], sb, eb))
  {
    RemovedAt(s, i);
    hide Sorted, Within, Removed;
    var r := Removed(s, i);
    forall k | 0 <= k < |r|
      ensures Touches(r[k], Min(sb, s[i].start), Max(eb, s[i].End())) <==> Touches(r[k], sb, eb)
    {
      assert Apart(r[k], s[i]);
    }
  }

  lemma MergeRest(s0: seq<Extent>, s: seq<Extent>, i: nat, a: nat, b: nat, sb: nat, eb: nat)
    requires Coalescing(s0, s, i, a, b, sb, eb) && i < |s| && Touches(s[i], sb, eb)
    ensures var r := Removed(s, i); var lo, hi := Min(sb, s[i].start), Max(eb, s[i].End());
            && |r| == |s| - 1 && r[..i] == s[..i] && r[i..] == s[i + 1..] && lo <= sb && eb <= hi
            && Min(lo, GrownStart(r[i..], a, b)) == GrownStart(s0, a, b)
            && Max(hi, GrownEnd(r[i..], a, b)) == GrownEnd(s0, a, b)
            && multiset(r[..i]) + Untouched(r[i..], a, b) == Untouched(s0, a, b)
  {
    var r := Removed(s, i);
    assert s[i..][1..] == s[i + 1..] == r[i..];
    assert r[..i] == s[..i];
    assert Touches(s[i], a, b);
  }

  lemma WithinAt(s: seq<Extent>, i: nat, limit: nat)
    requires Within(s, limit) && i < |s|
    ensures s[i].End() <= limit
  {
  }

  lemma CoalesceDone(s0: seq<Extent>, s: seq<Extent>, a: nat, b: nat, sb: nat, eb: nat)
    requires Coalescing(s0, s, |s|, a, b, sb, eb)
    ensures Extent(sb, eb - sb) == Grown(s0, a, b)
    ensures multiset(s) == Untouched(s0, a, b)
    ensures ApartFrom(s, Extent(sb, eb - sb))
  {
    assert s[..|s|] == s;
    assert s[|s|..] == [];
  }

  // ------------------------------------------------- what the two passes achieve

  lemma BestCovers(sparse: bool, s: seq<Extent>, pool: multiset<Extent>, x: nat)
    requires BestOf(sparse, s, pool)
    ensures Covers(s, x) ==> CoversM(pool, x)
    ensures |pool| <= MAX_FREE_EXTENTS ==> (CoversM(pool, x) ==> Covers(s, x))
  {
    if Covers(s, x) {
      var i :| 0 <= i < |s| && s[i].Holds(x);
      assert s[i] in multiset(s);
    }
    if |pool| <= MAX_FREE_EXTENTS && CoversM(pool, x) {
      FullSubset(multiset(s), pool);
      var e :| e in pool && e.Holds(x);
      assert e in s;
    }
  }

  /** Entry `e` reaches past both ends of [a, b). */
  predicate Around(e: Extent, a: nat, b: nat) { e.start < a && b < e.End() }

  lemma PiecesSize(e: Extent, a: nat, b: nat)
    requires a < b
    ensures |Pieces(e, a, b)| <= if Around(e, a, b) then 2 else 1
  {
  }

  lemma {:induction false} AllPiecesSize(s: seq<Extent>, a: nat, b: nat)
    requires a < b && Separated(s)
    ensures |AllPieces(s, a, b)| <= |s| + 1
    ensures (forall k :: 0 <= k < |s| ==> !Around(s[k], a, b)) ==> |AllPieces(s, a, b)| <= |s|
  {
    hide Pieces;
    if s != [] {
      var r := s[1..];
      assert forall k :: 1 <= k < |s| ==> r[k-1] == s[k];
      assert Separated(r);
      AllPiecesSize(r, a, b);
      PiecesSize(s[0], a, b);
      if Around(s[0], a, b) {
        forall k | 0 <= k < |r| ensures !Around(r[k], a, b) { assert Apart(s[0], s[k+1]); }
      } else if forall k :: 0 <= k < |s| ==> !Around(s[k], a, b) {
        forall k | 0 <= k < |r| ensures !Around(r[k], a, b) { assert !Around(s[k+1], a, b); }
      }
    }
  }

  /** Removal takes exactly [a, b) out of the cached blocks; only a split of a
      full list can lose more, namely one extent that sorts last. */
  lemma RemovalCoverage(sparse: bool, s: seq<Extent>, t: seq<Extent>, a: nat, b: nat, x: nat)
    requires a < b && |s| <= MAX_FREE_EXTENTS && Separated(s) && BestOf(sparse, t, AllPieces(s, a, b))
    ensures Covers(t, x) ==> Covers(s, x) && !(a <= x < b)
    ensures |s| < MAX_FREE_EXTENTS || !(exists k :: 0 <= k < |s| && Around(s[k], a, b))
            ==> (Covers(t, x) <==> Covers(s, x) && !(a <= x < b))
  {
    hide AllPieces, BestOf, Separated;
    PiecesCover(s, a, b, x);
    BestCovers(sparse, t, AllPieces(s, a, b), x);
    AllPiecesSize(s, a, b);
    if |s| <= MAX_FREE_EXTENTS && !(exists k :: 0 <= k < |s| && Around(s[k], a, b)) {
      assert |AllPieces(s, a, b)| <= |s|;
    }
  }

  lemma {:induction false} UntouchedSize(s: seq<Extent>, a: nat, b: nat)
    ensures |Untouched(s, a, b)| <= |s|
  {
    if s != [] { UntouchedSize(s[1..], a, b); }
  }

  /** Coalescing adds exactly [a, b) to the cached blocks when the list has room. */
  lemma AdditionCoverage(sparse: bool, s: seq<Extent>, t: seq<Extent>, a: nat, b: nat, x: nat)
    requires a <= b && BestOf(sparse, t, multiset{Grown(s, a, b)} + Untouched(s, a, b))
    ensures Covers(t, x) ==> Covers(s, x) || a <= x < b
    ensures |s| < MAX_FREE_EXTENTS ==> (Covers(t, x) <==> Covers(s, x) || a <= x < b)
  {
    MergedCover(s, a, b, x);
    BestCovers(sparse, t, multiset{Grown(s, a, b)} + Untouched(s, a, b), x);
    UntouchedSize(s, a, b);
  }

  // ----------------------------------------------------- the array-based cache

  /** The list once [start, start + count) has been added: the best of the old entries, with
      the extent, cut at the limit, merged with all it touches. */
  ghost predicate AddedTo(sparse: bool, limit: nat, was: seq<Extent>, now: seq<Extent>, start: nat, count: nat) {
    if start >= limit then now == was
    else
      var b := Min(start + count, limit);
      BestOf(sparse, now, multiset{Grown(was, start, b)} + Untouched(was, start, b))
  }

  class FreeExtentCache {
    const sparse: bool
    const allocLimit: nat
    const ext: array<Extent>
    var cnt: nat

    ghost predicate Valid()
      reads this, ext
    {
      && ext.Length == MAX_FREE_EXTENTS
      && cnt <= MAX_FREE_EXTENTS
      && WellFormed(sparse, allocLimit, Contents())
    }

    ghost function Contents(): (s: seq<Extent>)
      reads this, ext
      requires cnt <= ext.Length
      ensures |s| == cnt
    { ext[..cnt] }

    constructor (sparse: bool, allocLimit: nat)
      ensures Valid() && fresh(ext) && Contents() == []
      ensures this.sparse == sparse && this.allocLimit == allocLimit
    {
      this.sparse := sparse;
      this.allocLimit := allocLimit;
      ext := new Extent[MAX_FREE_EXTENTS](i => Extent(0, 0));
      cnt := 0;
    }

    /** remove_free_extent_list: drop entry `index`, shifting the rest up. */
    method RemoveFromList(index: nat)
      requires cnt <= ext.Length
      modifies this`cnt, ext
      ensures cnt <= ext.Length
      ensures Contents() == if index < old(cnt) then Removed(old(Contents()), index) else old(Contents())
    {
      if index >= cnt { return; }
      var shift := cnt - index - 1;
      forall k | index <= k < index + shift { ext[k] := ext[k+1]; }
      cnt := cnt - 1;
    }

    /** add_free_extent_list: insert in order, dropping whatever no longer fits.
        Returns the index used, or MAX_FREE_EXTENTS when the extent is ignored. */
    method AddToList(e: Extent) returns (index: nat)
      requires ext.Length == MAX_FREE_EXTENTS && cnt <= MAX_FREE_EXTENTS
      modifies this`cnt, ext
      ensures cnt <= MAX_FREE_EXTENTS
      ensures IsSlot(sparse, old(Contents()), e, index)
      ensures Contents() == Capped(Inserted(old(Contents()), index, e))
    {
      ghost var was := Contents();
      var i := 0;
      while i < cnt && !Precedes(sparse, e, ext[i])
        invariant i <= cnt
        invariant forall k :: 0 <= k < i ==> !Precedes(sparse, e, was[k])
      {
        i := i + 1;
      }
      index := i;
      ghost var now := Inserted(was, i, e);
      if i == MAX_FREE_EXTENTS {
        assert now[..MAX_FREE_EXTENTS] == was;
        return;
      }
      if cnt < MAX_FREE_EXTENTS { cnt := cnt + 1; }
      var shift := cnt - i - 1;
      forall k | i < k <= i + shift { ext[k] := ext[k-1]; }
      ext[i] := e;
      assert forall k :: 0 <= k < cnt ==> ext[k] == now[k];
    }

    /** remove_free_extent_cache: forget the blocks [start, start + count). */
    method Remove(start: nat, count: nat)
      requires Valid() && count > 0
      modifies this`cnt, ext
      ensures Valid()
      ensures BestOf(sparse, Contents(), AllPieces(old(Contents()), start, start + count))
      ensures NoneMeets(Contents(), start, start + count)
    {
      hide WellFormed, NoneMeets, AllPieces, MeetCount, BestOf, Removed;
      var end := start + count;
      ghost var pool := AllPieces(Contents(), start, end);
      var i: nat := 0;
      assert NoneMeets(Contents()[..0], start, end) by { NoneMeetsEmpty(Contents()[..0], start, end); }
      while i < cnt
        invariant Valid() && i <= cnt
        invariant AllPieces(Contents(), start, end) == pool
        invariant NoneMeets(Contents()[..i], start, end)
        decreases MeetCount(Contents(), start, end), cnt - i
      {
        var cur := ext[i];
        if cur.End() <= start || cur.start >= end {
          NoneMeetsStep(Contents(), i, start, end);
          i := i + 1;
        } else if start <= cur.start && end >= cur.End() {
          DropStep(sparse, allocLimit, Contents(), i, start, end);
          RemoveFromList(i);
        } else if start > cur.start && end < cur.End() {
          Split(i, start, end);
          return;
        } else {
          i := Shrink(i, start, end);
        }
      }
      assert Contents()[..i] == Contents();
      AllPiecesUntouched(Contents(), start, end);
      WellFormedBest(sparse, allocLimit, Contents());
    }

    /** The entry lies strictly around the removed range: keep its two ends. */
    method Split(i: nat, start: nat, end: nat)
      requires Valid() && i < cnt && ext[i].start < start < end < ext[i].End()
      modifies this`cnt, ext
      ensures Valid() && NoneMeets(Contents(), start, end)
      ensures BestOf(sparse, Contents(), AllPieces(old(Contents()), start, end))
    {
      hide WellFormed, BestOf, AllPieces, ApartFrom, NoneMeets, Removed;
      var cur := ext[i];
      var head, tail := Extent(cur.start, start - cur.start), Extent(end, cur.End() - end);
      SplitKeeps(sparse, allocLimit, Contents(), i, start, end);
      SplitPieces(Contents(), i, start, end);
      RemoveFromList(i);
      AddBoth(head, tail);
      NoneMeetsBest(sparse, Contents(), old(Removed(Contents(), i)), head, tail, start, end);
    }

    method AddBoth(head: Extent, tail: Extent)
      requires Valid() && cnt < MAX_FREE_EXTENTS
      requires ApartFrom(Contents(), head) && ApartFrom(Contents(), tail) && Apart(head, tail)
      requires head.End() <= allocLimit && tail.End() <= allocLimit
      modifies this`cnt, ext
      ensures Valid()
      ensures BestOf(sparse, Contents(), multiset(old(Contents())) + multiset{head} + multiset{tail})
      ensures multiset(Contents()) <= multiset(old(Contents())) + multiset{head} + multiset{tail}
    {
      hide WellFormed, ApartFrom, IsSlot;
      ghost var rest := Contents();
      var n := AddToList(head);
      SlotBound(sparse, rest, head, n);
      assert Contents() == Inserted(rest, n, head);
      var m := AddToList(tail);
      AddTwo(sparse, allocLimit, rest, head, n, tail, m);
    }

    /** The removed range covers one end of the entry: keep the other end, and
        return the index to look at next. */
    method Shrink(i: nat, start: nat, end: nat) returns (next: nat)
      requires Valid() && i < cnt && start < end && Meets(ext[i], start, end)
      requires (start > ext[i].start) != (end < ext[i].End())
      requires NoneMeets(Contents()[..i], start, end)
      modifies this`cnt, ext
      ensures Valid() && next <= cnt && NoneMeets(Contents()[..next], start, end)
      ensures AllPieces(Contents(), start, end) == AllPieces(old(Contents()), start, end)
      ensures MeetCount(Contents(), start, end) < MeetCount(old(Contents()), start, end)
    {
      hide WellFormed, NoneMeets, AllPieces, MeetCount, IsSlot;
      var cur := ext[i];
      ghost var was := Contents();
      RemoveFromList(i);
      var inserted;
      if start > cur.start {
        inserted := AddToList(Extent(cur.start, start - cur.start));
      } else {
        inserted := AddToList(Extent(end, cur.End() - end));
      }
      ShrinkStep(sparse, allocLimit, was, i, start, end, inserted);
      next := if inserted > i then i else i + 1;
    }

    /** add_free_extent_cache: the blocks [start, start + count) are free. The
        result is what the source returns: it never reports an update. */
    method Add(start: nat, count: nat) returns (updated: bool)
      requires Valid()
      modifies this`cnt, ext
      ensures Valid() && !updated
      ensures AddedTo(sparse, allocLimit, old(Contents()), Contents(), start, count)
    {
      hide WellFormed, Grown, Untouched, BestOf, ApartFrom, IsSlot, Inserted;
      updated := false;
      if start >= allocLimit { return; }
      var n := if start + count > allocLimit then allocLimit - start else count;
      var e := Coalesce(start, start + n);
      ghost var s := Contents();
      var at := AddToList(e);
      InsertWellFormed(sparse, allocLimit, s, e, at);
      WellFormedBest(sparse, allocLimit, s);
      InsertBest(sparse, s, multiset(s), e, at);
      assert multiset(s) + multiset{e} == multiset{e} + multiset(s);
    }

    /** The pass that absorbs every entry touching the new extent [a, b). */
    method Coalesce(a: nat, b: nat) returns (e: Extent)
      requires Valid() && a <= b <= allocLimit
      modifies this`cnt, ext
      ensures Valid() && e.End() <= allocLimit && ApartFrom(Contents(), e)
      ensures e == Grown(old(Contents()), a, b)
      ensures multiset(Contents()) == Untouched(old(Contents()), a, b)
    {
      hide WellFormed, Grown, Untouched, Coalescing, ApartFrom, Removed;
      var sb: nat, eb: nat := a, b;
      ghost var s0 := Contents();
      CoalesceStart(s0, a, b);
      var i: nat := 0;
      while i < cnt
        invariant Valid() && sb <= eb <= allocLimit && i <= cnt
        invariant Coalescing(s0, Contents(), i, a, b, sb, eb)
        decreases cnt - i
      {
        var cur := ext[i];
        if cur.start > eb || cur.End() < sb {
          CoalesceSkip(s0, Contents(), i, a, b, sb, eb);
          i := i + 1;
        } else {
          CoalesceMerge(sparse, allocLimit, s0, Contents(), i, a, b, sb, eb);
          if cur.start < sb { sb := cur.start; }
          if cur.End() > eb { eb := cur.End(); }
          RemoveFromList(i);
        }
      }
      CoalesceDone(s0, Contents(), a, b, sb, eb);
      e := Extent(sb, eb - sb);
    }
  }
}
