/** The agreement of the volume's views of free space, on values. */
module Accounts {
  import opened BlockMaps
  import opened Ranges
  import opened BitmapViews
  import opened Bitmaps
  import opened Searches
  import opened FreeExtentCaches

  /** The sizes of a volume: blocks below `limit` may be allocated, `total` blocks exist,
      and a bitmap block holds 32 * w of them. */
  datatype Sizes = Sizes(limit: nat, total: nat, w: nat)

  /** The five views of free space, with the pending trims and the counters. */
  datatype Books = Books(used: seq<bool>, tentative: seq<Range>, locked: seq<Range>,
                         cached: seq<Extent>, trim: set<nat>, full: seq<bool>,
                         free: int, tentativeBlocks: int, lockedBlocks: int)

  predicate FreeAt(k: Books, b: nat) {
    b < |k.used| && !k.used[b] && !Held(k.tentative, b) && !Held(k.locked, b)
  }

  /** Reserved ranges are non-empty, below the limit, and no two meet. */
  predicate ListOk(rs: seq<Range>, limit: nat) { Proper(rs) && Disjoint(rs) && Inside(rs, 0, limit) }

  /** The lists, the cache and the pending trims only name blocks that are clear in the bitmap.
      No block is in both lists, and no reserved block is cached or awaiting a trim; a cached
      block may be awaiting one. */
  ghost predicate Apportioned(z: Sizes, k: Books) {
    && z.limit <= z.total <= |k.used|
    && ListOk(k.tentative, z.limit) && ListOk(k.locked, z.limit)
    && (forall b: nat :: Held(k.tentative, b) ==> b < |k.used| && !k.used[b] && !Held(k.locked, b))
    && (forall b: nat :: Held(k.locked, b) ==> b < |k.used| && !k.used[b])
    && (forall b: nat :: Covers(k.cached, b) ==> FreeAt(k, b))
    && (forall b: nat :: b in k.trim ==> FreeAt(k, b))
  }

  /** The counters are exact. */
  ghost predicate Counted(z: Sizes, k: Books) {
    && z.total <= |k.used|
    && k.free == ClearIn(k.used, 0, z.total)
    && k.tentativeBlocks == TotalLen(k.tentative)
    && k.lockedBlocks == TotalLen(k.locked)
  }

  /** A set summary bit means that no block of its bitmap block is free. */
  ghost predicate Sound(z: Sizes, k: Books) {
    z.w > 0 && forall b: nat :: b < z.total && InFull(k.full, b, z.w) ==> !FreeAt(k, b)
  }

  // ----------------------------------------------------------------- counting a view

  lemma ViewOne(u: seq<bool>, r: Range, rest: seq<Range>)
    requires 0 <= r.start <= r.last < |u|
    ensures |View(u, rest)| == |u|
    ensures View(u, [r] + rest) == SetRange(View(u, rest), r.start, r.Len())
  {
    hide Held, SetRange;
    var l, m := View(u, [r] + rest), View(u, rest);
    SetRangeAt(m, r.start, r.Len());
    forall b | 0 <= b < |u| ensures l[b] == SetRange(m, r.start, r.Len())[b] {
      HeldConcat([r], rest, b);
      HeldOne(r, b);
    }
  }

  lemma {:induction false} ClearInPrefix(u: seq<bool>, v: seq<bool>, n: nat)
    requires n <= |u| && n <= |v| && forall i :: 0 <= i < n ==> u[i] == v[i]
    ensures ClearIn(u, 0, n) == ClearIn(v, 0, n)
  {
    if n > 0 { ClearInPrefix(u, v, n - 1); }
  }

  lemma CountSetIn(u: seq<bool>, n: nat, a: nat, k: nat)
    requires a + k <= n <= |u| && AllClear(u, a, a + k)
    ensures |SetRange(u, a, k)| == |u|
    ensures ClearIn(u, 0, n) == ClearIn(SetRange(u, a, k), 0, n) + k
  {
    hide SetRange, ClearIn;
    var p := u[..n];
    SetRangeAt(u, a, k);
    SetRangeAt(p, a, k);
    CountSet(p, a, k);
    ClearInPrefix(u, p, n);
    ClearInPrefix(SetRange(u, a, k), SetRange(p, a, k), n);
  }

  lemma CountClearedIn(u: seq<bool>, n: nat, a: nat, k: nat)
    requires a + k <= n <= |u| && AllSet(u, a, a + k)
    ensures |ClearRange(u, a, k)| == |u|
    ensures ClearIn(ClearRange(u, a, k), 0, n) == ClearIn(u, 0, n) + k
  {
    hide SetRange, ClearRange, ClearIn;
    ClearRangeAt(u, a, k);
    SetUndoesClear(u, a, k);
    CountSetIn(ClearRange(u, a, k), n, a, k);
  }

  lemma ListTail(rs: seq<Range>, limit: nat)
    requires rs != [] && ListOk(rs, limit)
    ensures ListOk(rs[1..], limit)
    ensures forall b: int :: Held(rs[1..], b) ==> Held(rs, b) && !rs[0].Holds(b)
  {
    var rest := rs[1..];
    assert forall i :: 0 <= i < |rest| ==> rest[i] == rs[i+1];
    forall b: int | Held(rest, b) ensures Held(rs, b) && !rs[0].Holds(b) {
      var i :| 0 <= i < |rest| && rest[i].Holds(b);
      assert rs[i+1].Holds(b);
    }
  }

  /** The free count, less the blocks of a list, counts the free blocks of the view. */
  lemma {:induction false} ViewCount(u: seq<bool>, n: nat, rs: seq<Range>)
    requires n <= |u| && ListOk(rs, n) && forall b: nat :: Held(rs, b) ==> b < |u| && !u[b]
    ensures |View(u, rs)| == |u|
    ensures ClearIn(View(u, rs), 0, n) + TotalLen(rs) == ClearIn(u, 0, n)
    decreases |rs|
  {
    hide ClearIn;
    if rs == [] {
      assert View(u, rs) == u;
    } else {
      var r, rest := rs[0], rs[1..];
      assert rs == [r] + rest;
      ListTail(rs, n);
      ViewCount(u, n, rest);
      var v := View(u, rest);
      ViewOne(u, r, rest);
      forall b | r.start <= b < r.last + 1 ensures !v[b] { assert rs[0].Holds(b); }
      CountSetIn(v, n, r.start, r.Len());
    }
  }

  /** Without ignored lists the counters give the number of free blocks a search can find,
      so reservations never exceed the free count. */
  lemma CountersMatchView(z: Sizes, k: Books, ignoreTentative: bool)
    requires Apportioned(z, k) && Counted(z, k)
    ensures var v := View(k.used, Included(k.tentative, k.locked, ignoreTentative));
            && |v| == |k.used|
            && ClearIn(v, 0, z.total) == k.free - k.lockedBlocks - (if ignoreTentative then 0 else k.tentativeBlocks)
    ensures k.tentativeBlocks + k.lockedBlocks <= k.free && k.tentativeBlocks >= 0 && k.lockedBlocks >= 0
  {
    hide ClearIn, Held;
    InsideMore(k.tentative, z.limit, z.total);
    InsideMore(k.locked, z.limit, z.total);
    TotalLenNat(k.tentative);
    TotalLenNat(k.locked);
    var u, t, l := k.used, k.tentative, k.locked;
    ViewCount(u, z.total, l);
    var m := View(u, l);
    ViewCount(m, z.total, t);
    forall b | 0 <= b < |u| ensures View(m, t)[b] == View(u, t + l)[b] { HeldConcat(t, l, b); }
    assert View(m, t) == View(u, t + l);
    assert [] + l == l;
  }

  lemma InsideMore(rs: seq<Range>, n: nat, m: nat)
    requires ListOk(rs, n) && n <= m
    ensures ListOk(rs, m)
  {
  }

  lemma {:induction false} TotalLenNat(rs: seq<Range>)
    requires Proper(rs)
    ensures TotalLen(rs) >= |rs|
  {
    if rs != [] { TotalLenNat(rs[1..]); }
  }

  // ------------------------------------------------------------ changing the lists

  function Without(rs: seq<Range>, i: nat): seq<Range>
    requires i < |rs|
  { rs[..i] + rs[i+1..] }

  lemma WithoutLen(rs: seq<Range>, i: nat)
    requires i < |rs|
    ensures TotalLen(rs) == TotalLen(Without(rs, i)) + rs[i].Len()
  {
    OneLen(rs[i]);
    hide TotalLen;
    var l, r := rs[..i], rs[i+1..];
    assert rs == l + ([rs[i]] + r);
    TotalLenConcat(l, [rs[i]] + r);
    TotalLenConcat([rs[i]], r);
    TotalLenConcat(l, r);
  }

  lemma OneLen(r: Range)
    ensures TotalLen([r]) == r.Len()
  {
    assert [r][1..] == [];
  }

  lemma ReplacedLen(rs: seq<Range>, i: nat, r: Range)
    requires i < |rs|
    ensures TotalLen(rs[i := r]) == TotalLen(rs) - rs[i].Len() + r.Len()
  {
    WithoutLen(rs, i);
    WithoutLen(rs[i := r], i);
    assert Without(rs[i := r], i) == Without(rs, i);
  }

  lemma WithoutOk(rs: seq<Range>, i: nat, limit: nat)
    requires i < |rs| && ListOk(rs, limit)
    ensures ListOk(Without(rs, i), limit)
  {
    var r := Without(rs, i);
    assert forall j :: 0 <= j < |r| ==> r[j] == rs[if j < i then j else j + 1];
  }

  lemma WithoutHeldAt(rs: seq<Range>, i: nat, limit: nat, b: int)
    requires i < |rs| && ListOk(rs, limit)
    ensures Held(Without(rs, i), b) <==> Held(rs, b) && !rs[i].Holds(b)
  {
    var l, r := rs[..i], rs[i+1..];
    assert rs == l + ([rs[i]] + r);
    HeldConcat(l, r, b);
    HeldConcat(l, [rs[i]] + r, b);
    HeldConcat([rs[i]], r, b);
    HeldOne(rs[i], b);
  }

  lemma WithoutHeld(rs: seq<Range>, i: nat, limit: nat)
    requires i < |rs| && ListOk(rs, limit)
    ensures ListOk(Without(rs, i), limit)
    ensures forall b: int :: Held(Without(rs, i), b) <==> Held(rs, b) && !rs[i].Holds(b)
    ensures forall b: int :: rs[i].Holds(b) ==> Held(rs, b)
  {
    hide Without, ListOk;
    WithoutOk(rs, i, limit);
    forall b: int ensures Held(Without(rs, i), b) <==> Held(rs, b) && !rs[i].Holds(b) { WithoutHeldAt(rs, i, limit, b); }
  }

  lemma AddedHeld(rs: seq<Range>, r: Range, limit: nat)
    requires ListOk(rs, limit) && 0 <= r.start <= r.last < limit
    requires forall b: int :: r.Holds(b) ==> !Held(rs, b)
    ensures ListOk([r] + rs, limit)
    ensures forall b: int :: Held([r] + rs, b) <==> Held(rs, b) || r.Holds(b)
    ensures TotalLen([r] + rs) == TotalLen(rs) + r.Len()
  {
    var a := [r] + rs;
    assert a[1..] == rs;
    forall i | 0 <= i < |rs| ensures r.last < rs[i].start || rs[i].last < r.start {
      var x := if r.start >= rs[i].start then r.start else rs[i].start;
      if !(r.last < rs[i].start || rs[i].last < r.start) {
        assert r.Holds(x) && rs[i].Holds(x);
      }
    }
    forall b: int ensures Held(a, b) <==> Held(rs, b) || r.Holds(b) {
      HeldConcat([r], rs, b);
      HeldOne(r, b);
    }
  }
}
