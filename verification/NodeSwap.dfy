/** Byte-swapping of a catalog B-tree node, in place and in both directions. The host is
    little-endian, the disk big-endian. */
module NodeSwaps {

  type Byte = b: nat | b < 0x100

  datatype Direction = BigToHost | HostToBig

  function Opposite(d: Direction): Direction { if d.BigToHost? then HostToBig else BigToHost }

  // ------------------------------------------------------------------------ fields

  /** A field of `len` bytes at offset `off`. */
  datatype Field = Field(off: nat, len: nat) {
    function End(): nat { off + len }
    predicate Holds(i: nat) { off <= i < off + len }

    /** Where a byte goes when the field is reversed. */
    function Mirror(i: nat): (j: nat)
      requires Holds(i)
      ensures Holds(j)
    { off + (off + len - 1 - i) }
  }

  predicate Apart(f: Field, g: Field) { f.End() <= g.off || g.End() <= f.off }

  ghost predicate AllApart(s: set<Field>, t: set<Field>) { forall f, g :: f in s && g in t ==> Apart(f, g) }

  /** The fields lie in [lo, hi). */
  ghost predicate InRegion(s: set<Field>, lo: int, hi: int) { forall f :: f in s ==> lo <= f.off && f.End() <= hi }

  ghost predicate Covered(s: set<Field>, i: nat) { exists f :: f in s && f.Holds(i) }

  /** `c` is `b` with the bytes of every field reversed. */
  ghost predicate Flipped(b: seq<Byte>, c: seq<Byte>, s: set<Field>) {
    && |c| == |b| && InRegion(s, 0, |b|)
    && (forall f, i: nat :: f in s && f.Holds(i) ==> c[i] == b[f.Mirror(i)])
    && (forall i: nat :: i < |b| && !Covered(s, i) ==> c[i] == b[i])
  }

  lemma RegionsApart(s: set<Field>, t: set<Field>, lo: int, mid: int, hi: int)
    requires InRegion(s, lo, mid) && InRegion(t, mid, hi)
    ensures AllApart(s, t) && AllApart(t, s)
  {
  }

  lemma RegionUnion(s: set<Field>, t: set<Field>, lo: int, mid: int, hi: int)
    requires lo <= mid <= hi && InRegion(s, lo, mid) && InRegion(t, mid, hi)
    ensures InRegion(s + t, lo, hi)
  {
  }

  lemma FlippedNone(b: seq<Byte>)
    ensures Flipped(b, b, {})
  {
  }

  /** Reversing fields that are apart from those already reversed. */
  lemma FlipMore(b: seq<Byte>, c: seq<Byte>, d: seq<Byte>, s: set<Field>, t: set<Field>)
    requires Flipped(b, c, s) && Flipped(c, d, t) && AllApart(s, t)
    ensures Flipped(b, d, s + t)
  {
    forall f, i: nat | f in s + t && f.Holds(i) ensures d[i] == b[f.Mirror(i)] {
      if f in s { NotCovered(s, t, f, i); } else { NotCoveredBy(s, t, f, f.Mirror(i)); }
    }
    forall i: nat | i < |b| && !Covered(s + t, i) ensures d[i] == b[i] { UncoveredParts(s, t, i); }
  }

  lemma NotCovered(s: set<Field>, t: set<Field>, f: Field, i: nat)
    requires AllApart(s, t) && f in s && f.Holds(i)
    ensures !Covered(t, i)
  {
  }

  lemma NotCoveredBy(s: set<Field>, t: set<Field>, f: Field, i: nat)
    requires AllApart(s, t) && f in t && f.Holds(i)
    ensures !Covered(s, i)
  {
  }

  lemma UncoveredParts(s: set<Field>, t: set<Field>, i: nat)
    requires !Covered(s + t, i)
    ensures !Covered(s, i) && !Covered(t, i)
  {
    forall f | f in s ensures !f.Holds(i) { assert f in s + t; }
    forall f | f in t ensures !f.Holds(i) { assert f in s + t; }
  }

  /** Reversing the same fields twice changes nothing. */
  lemma FlipTwice(b: seq<Byte>, c: seq<Byte>, d: seq<Byte>, s: set<Field>)
    requires Flipped(b, c, s) && Flipped(c, d, s)
    ensures d == b
  {
    forall i: nat | i < |b| ensures d[i] == b[i] {
      if Covered(s, i) { FlipTwiceAt(b, c, d, s, i); }
    }
  }

  lemma FlipTwiceAt(b: seq<Byte>, c: seq<Byte>, d: seq<Byte>, s: set<Field>, i: nat)
    requires Flipped(b, c, s) && Flipped(c, d, s) && i < |b| && Covered(s, i)
    ensures d[i] == b[i]
  {
    var f :| f in s && f.Holds(i);
    var j := f.Mirror(i);
    MirrorTwice(f, i);
    FlippedAt(c, d, s, f, i);
    FlippedAt(b, c, s, f, j);
  }

  lemma MirrorTwice(f: Field, i: nat)
    requires f.Holds(i)
    ensures f.Mirror(i) >= 0 && f.Holds(f.Mirror(i)) && f.Mirror(f.Mirror(i)) == i
  {
  }

  lemma FlippedAt(b: seq<Byte>, c: seq<Byte>, s: set<Field>, f: Field, i: nat)
    requires Flipped(b, c, s) && f in s && f.Holds(i)
    ensures i < |b| == |c| && 0 <= f.Mirror(i) < |b| && c[i] == b[f.Mirror(i)]
  {
  }

  // ---------------------------------------------------------------- values of fields

  /** A 16-bit and a 32-bit field as the swap of direction `d` reads it. */
  function Value16(b: seq<Byte>, d: Direction, i: nat): nat
    requires i + 2 <= |b|
  { if d.BigToHost? then Pair(b[i], b[i + 1]) else Pair(b[i + 1], b[i]) }

  function Value32(b: seq<Byte>, d: Direction, i: nat): nat
    requires i + 4 <= |b|
  {
    if d.BigToHost? then Pair(Pair(Pair(b[i], b[i + 1]), b[i + 2]), b[i + 3])
    else Pair(Pair(Pair(b[i + 3], b[i + 2]), b[i + 1]), b[i])
  }

  function Pair(hi: nat, lo: nat): nat { hi * 0x100 + lo }

  /** A swapped field reads the same in the other direction. */
  lemma ValueKept(b: seq<Byte>, c: seq<Byte>, s: set<Field>, d: Direction, f: Field)
    requires Flipped(b, c, s) && f in s && (f.len == 2 || f.len == 4)
    ensures f.End() <= |b| == |c|
    ensures f.len == 2 ==> Value16(c, Opposite(d), f.off) == Value16(b, d, f.off)
    ensures f.len == 4 ==> Value32(c, Opposite(d), f.off) == Value32(b, d, f.off)
  {
    hide Pair, Covered;
    assert f.Holds(f.off) && f.Holds(f.off + 1);
    assert c[f.off] == b[f.Mirror(f.off)] && c[f.off + 1] == b[f.Mirror(f.off + 1)];
    if f.len == 4 {
      assert f.Holds(f.off + 2) && f.Holds(f.off + 3);
      assert c[f.off + 2] == b[f.Mirror(f.off + 2)] && c[f.off + 3] == b[f.Mirror(f.off + 3)];
    }
  }

  // ----------------------------------------------------------------- in-place swaps

  /** SWAP_BE16, SWAP_BE32 and SWAP_BE64 of one field. */
  method SwapField(a: array<Byte>, off: nat, len: nat)
    requires off + len <= a.Length
    modifies a
    ensures Flipped(old(a[..]), a[..], {Field(off, len)})
  {
    ghost var b := a[..];
    var i := 0;
    while i < len / 2
      invariant 0 <= i <= len / 2
      invariant forall x: nat :: off <= x < off + i || off + len - i <= x < off + len ==> a[x] == b[off + (off + len - 1 - x)]
      invariant forall x: nat :: off + i <= x < off + len - i ==> a[x] == b[x]
      invariant forall x: nat :: x < a.Length && !(off <= x < off + len) ==> a[x] == b[x]
    {
      a[off + i], a[off + len - 1 - i] := a[off + len - 1 - i], a[off + i];
      i := i + 1;
    }
    ghost var f := Field(off, len);
    forall x: nat | f.Holds(x) ensures a[..][x] == b[f.Mirror(x)] { }
    forall x: nat | x < |b| && !Covered({f}, x) ensures a[..][x] == b[x] { assert f in {f}; }
  }

  /** A count or type field: swapped, and read in host order. */
  method SwapRead16(a: array<Byte>, d: Direction, off: nat) returns (v: nat)
    requires off + 2 <= a.Length
    modifies a
    ensures Flipped(old(a[..]), a[..], {Field(off, 2)}) && v == Value16(old(a[..]), d, off)
  {
    hide Flipped;
    ghost var b := a[..];
    if d.BigToHost? {
      SwapField(a, off, 2);
      ValueKept(b, a[..], {Field(off, 2)}, d, Field(off, 2));
      v := Value16(a[..], HostToBig, off);
    } else {
      v := Value16(a[..], HostToBig, off);
      SwapField(a, off, 2);
    }
  }

  /** `n` 16-bit fields in a row. */
  ghost function Names(base: nat, n: nat): set<Field> { set j: nat | j < n :: Cell(base, j, 2) }

  /** `n` 32-bit fields in a row. */
  ghost function Quads(base: nat, n: nat): set<Field> { set j: nat | j < n :: Cell(base, j, 4) }

  function Cell(base: nat, j: nat, len: nat): Field { Field(base + len * j, len) }

  lemma NamesMore(base: nat, n: nat)
    ensures Names(base, n + 1) == Names(base, n) + {Field(base + 2 * n, 2)}
    ensures InRegion(Names(base, n), base, base + 2 * n)
  {
    assert Cell(base, n, 2) == Field(base + 2 * n, 2);
  }

  lemma QuadsMore(base: nat, n: nat)
    ensures Quads(base, n + 1) == Quads(base, n) + {Field(base + 4 * n, 4)}
    ensures InRegion(Quads(base, n), base, base + 4 * n)
  {
    assert Cell(base, n, 4) == Field(base + 4 * n, 4);
  }

  lemma OneRegion(off: nat, len: nat)
    ensures InRegion({Field(off, len)}, off, off + len)
  {
  }

  method SwapName(a: array<Byte>, base: nat, n: nat)
    requires base + 2 * n <= a.Length
    modifies a
    ensures Flipped(old(a[..]), a[..], Names(base, n))
  {
    hide Flipped, Names, InRegion, AllApart;
    ghost var b := a[..];
    assert Names(base, 0) == {} by { NoNames(base); }
    FlippedNone(b);
    var j := 0;
    while j < n
      invariant 0 <= j <= n && Flipped(b, a[..], Names(base, j))
    {
      ghost var c := a[..];
      SwapField(a, base + 2 * j, 2);
      NamesMore(base, j);
      OneRegion(base + 2 * j, 2);
      RegionsApart(Names(base, j), {Field(base + 2 * j, 2)}, base, base + 2 * j, base + 2 * j + 2);
      FlipMore(b, c, a[..], Names(base, j), {Field(base + 2 * j, 2)});
      j := j + 1;
    }
  }

  lemma NoNames(base: nat)
    ensures Names(base, 0) == {} && Quads(base, 0) == {}
  {
  }

  method SwapQuads(a: array<Byte>, base: nat, n: nat)
    requires base + 4 * n <= a.Length
    modifies a
    ensures Flipped(old(a[..]), a[..], Quads(base, n))
  {
    hide Flipped, Quads, InRegion, AllApart;
    ghost var b := a[..];
    assert Quads(base, 0) == {} by { NoNames(base); }
    FlippedNone(b);
    var j := 0;
    while j < n
      invariant 0 <= j <= n && Flipped(b, a[..], Quads(base, j))
    {
      ghost var c := a[..];
      SwapField(a, base + 4 * j, 4);
      QuadsMore(base, j);
      OneRegion(base + 4 * j, 4);
      RegionsApart(Quads(base, j), {Field(base + 4 * j, 4)}, base, base + 4 * j, base + 4 * j + 4);
      FlipMore(b, c, a[..], Quads(base, j), {Field(base + 4 * j, 4)});
      j := j + 1;
    }
  }

  /** A run of fields followed by one that starts where the run's region ends. */
  lemma Then(b: seq<Byte>, c: seq<Byte>, d: seq<Byte>, s: set<Field>, t: set<Field>, lo: int, mid: int, hi: int)
    requires lo <= mid <= hi && Flipped(b, c, s) && Flipped(c, d, t) && InRegion(s, lo, mid) && InRegion(t, mid, hi)
    ensures Flipped(b, d, s + t) && InRegion(s + t, lo, hi)
  {
    hide Flipped, InRegion, AllApart;
    RegionsApart(s, t, lo, mid, hi);
    RegionUnion(s, t, lo, mid, hi);
    FlipMore(b, c, d, s, t);
  }

  // --------------------------------------------------------------------- record layouts

  /** hfs_swap_HFSPlusForkData: a 64-bit size, two counts and eight extents. */
  ghost function ForkFields(p: nat): set<Field> { {Field(p, 8)} + Quads(p + 8, 18) }

  method SwapFork(a: array<Byte>, p: nat)
    requires p + 80 <= a.Length
    modifies a
    ensures Flipped(old(a[..]), a[..], ForkFields(p)) && InRegion(ForkFields(p), p, p + 80)
  {
    hide Flipped, InRegion, Quads;
    ghost var b := a[..];
    SwapField(a, p, 8);
    ghost var c := a[..];
    SwapQuads(a, p + 8, 18);
    OneRegion(p, 8);
    QuadsMore(p + 8, 18);
    Then(b, c, a[..], {Field(p, 8)}, Quads(p + 8, 18), p, p + 8, p + 80);
  }

  /** The fields that a folder and a file record share after the type: the flags, two words,
      five dates, the owner and group, the mode and the special field, the text encoding. */
  ghost function CommonFields(p: nat): set<Field> {
    {Field(p + 2, 2)} + Quads(p + 4, 9) + {Field(p + 42, 2)} + {Field(p + 44, 4)} + {Field(p + 80, 4)}
  }

  method SwapCommon(a: array<Byte>, p: nat)
    requires p + 84 <= a.Length
    modifies a
    ensures Flipped(old(a[..]), a[..], CommonFields(p)) && InRegion(CommonFields(p), p + 2, p + 84)
  {
    hide Flipped, InRegion, Quads;
    ghost var b := a[..];
    SwapField(a, p + 2, 2);
    OneRegion(p + 2, 2);
    ghost var c := a[..];
    SwapQuads(a, p + 4, 9);
    QuadsMore(p + 4, 9);
    ghost var s1 := {Field(p + 2, 2)} + Quads(p + 4, 9);
    Then(b, c, a[..], {Field(p + 2, 2)}, Quads(p + 4, 9), p + 2, p + 4, p + 40);
    c := a[..];
    SwapField(a, p + 42, 2);
    OneRegion(p + 42, 2);
    Wider(s1, p + 2, p + 40, p + 42);
    Then(b, c, a[..], s1, {Field(p + 42, 2)}, p + 2, p + 42, p + 44);
    c := a[..];
    ghost var s2 := s1 + {Field(p + 42, 2)};
    SwapField(a, p + 44, 4);
    OneRegion(p + 44, 4);
    Then(b, c, a[..], s2, {Field(p + 44, 4)}, p + 2, p + 44, p + 48);
    c := a[..];
    ghost var s3 := s2 + {Field(p + 44, 4)};
    SwapField(a, p + 80, 4);
    OneRegion(p + 80, 4);
    Wider(s3, p + 2, p + 48, p + 80);
    Then(b, c, a[..], s3, {Field(p + 80, 4)}, p + 2, p + 80, p + 84);
  }

  lemma Wider(s: set<Field>, lo: int, mid: int, hi: int)
    requires InRegion(s, lo, mid) && mid <= hi
    ensures InRegion(s, lo, hi)
  {
  }

  /** Fields outside the region of those swapped read as before. */
  lemma Untouched(b: seq<Byte>, c: seq<Byte>, s: set<Field>, lo: int, hi: int, d: Direction, i: nat)
    requires Flipped(b, c, s) && InRegion(s, lo, hi) && i + 2 <= |b| && (i + 2 <= lo || hi <= i)
    ensures |c| == |b| && Value16(c, d, i) == Value16(b, d, i)
  {
    hide Pair;
    assert !Covered(s, i) && !Covered(s, i + 1);
  }

  // ------------------------------------------------------------------ record data

  const FOLDER: nat := 1
  const FILE: nat := 2
  const FOLDER_THREAD: nat := 3
  const FILE_THREAD: nat := 4

  /** The data of a record at [p, next) is well formed. */
  predicate DataOk(b: seq<Byte>, d: Direction, index: bool, p: nat, next: nat)
    requires p + 4 <= next <= |b|
  {
    index ||
    var kind := Value16(b, d, p);
    if kind == FOLDER then p + 88 <= next
    else if kind == FILE then p + 248 <= next
    else if kind == FOLDER_THREAD || kind == FILE_THREAD then p + 10 <= next && p + 10 + 2 * Value16(b, d, p + 8) <= next
    else false
  }

  ghost function DataFields(b: seq<Byte>, d: Direction, index: bool, p: nat, next: nat): set<Field>
    requires p + 4 <= next <= |b| && DataOk(b, d, index, p, next)
  {
    if index then {Field(p, 4)}
    else if Value16(b, d, p) == FOLDER then {Field(p, 2)} + CommonFields(p) + {Field(p + 84, 4)}
    else if Value16(b, d, p) == FILE then {Field(p, 2)} + CommonFields(p) + ForkFields(p + 88) + ForkFields(p + 168)
    else {Field(p, 2)} + {Field(p + 4, 4)} + {Field(p + 8, 2)} + Names(p + 10, Value16(b, d, p + 8))
  }

  /** Swap the data of a record. */
  method SwapData(a: array<Byte>, d: Direction, index: bool, p: nat, next: nat) returns (ok: bool)
    requires p + 4 <= next <= a.Length
    modifies a
    ensures ok == DataOk(old(a[..]), d, index, p, next)
    ensures ok ==> var s := DataFields(old(a[..]), d, index, p, next); Flipped(old(a[..]), a[..], s) && InRegion(s, p, next)
  {
    hide Flipped, InRegion, Value16, CommonFields, ForkFields, Names;
    ghost var b := a[..];
    if index {
      SwapField(a, p, 4);
      OneRegion(p, 4);
      Wider({Field(p, 4)}, p, p + 4, next);
      return true;
    }
    var kind := SwapRead16(a, d, p);
    OneRegion(p, 2);
    if kind == FOLDER {
      if p + 88 > next { return false; }
      SwapFolder(a, p, b);
      Wider({Field(p, 2)} + CommonFields(p) + {Field(p + 84, 4)}, p, p + 88, next);
    } else if kind == FILE {
      if p + 248 > next { return false; }
      SwapFile(a, p, b);
      Wider({Field(p, 2)} + CommonFields(p) + ForkFields(p + 88) + ForkFields(p + 168), p, p + 248, next);
    } else if kind == FOLDER_THREAD || kind == FILE_THREAD {
      if p + 10 > next { return false; }
      var n := SwapThreadHead(a, d, p, b);
      if p + 10 + 2 * n > next { return false; }
      ghost var c, s := a[..], {Field(p, 2)} + {Field(p + 4, 4)} + {Field(p + 8, 2)};
      SwapName(a, p + 10, n);
      NamesMore(p + 10, n);
      Then(b, c, a[..], s, Names(p + 10, n), p, p + 10, p + 10 + 2 * n);
      Wider(s + Names(p + 10, n), p, p + 10 + 2 * n, next);
    } else {
      return false;
    }
    return true;
  }

  method SwapFolder(a: array<Byte>, p: nat, ghost b: seq<Byte>)
    requires p + 88 <= a.Length && Flipped(b, a[..], {Field(p, 2)})
    modifies a
    ensures var s := {Field(p, 2)} + CommonFields(p) + {Field(p + 84, 4)}; Flipped(b, a[..], s) && InRegion(s, p, p + 88)
  {
    hide Flipped, InRegion, CommonFields;
    OneRegion(p, 2);
    ghost var c := a[..];
    SwapCommon(a, p);
    Then(b, c, a[..], {Field(p, 2)}, CommonFields(p), p, p + 2, p + 84);
    c := a[..];
    SwapField(a, p + 84, 4);
    OneRegion(p + 84, 4);
    Then(b, c, a[..], {Field(p, 2)} + CommonFields(p), {Field(p + 84, 4)}, p, p + 84, p + 88);
  }

  method SwapFile(a: array<Byte>, p: nat, ghost b: seq<Byte>)
    requires p + 248 <= a.Length && Flipped(b, a[..], {Field(p, 2)})
    modifies a
    ensures var s := {Field(p, 2)} + CommonFields(p) + ForkFields(p + 88) + ForkFields(p + 168);
            Flipped(b, a[..], s) && InRegion(s, p, p + 248)
  {
    hide Flipped, InRegion, CommonFields, ForkFields;
    OneRegion(p, 2);
    ghost var c := a[..];
    SwapCommon(a, p);
    ghost var s := {Field(p, 2)} + CommonFields(p);
    Then(b, c, a[..], {Field(p, 2)}, CommonFields(p), p, p + 2, p + 84);
    Wider(s, p, p + 84, p + 88);
    c := a[..];
    SwapFork(a, p + 88);
    Then(b, c, a[..], s, ForkFields(p + 88), p, p + 88, p + 168);
    c := a[..];
    SwapFork(a, p + 168);
    Then(b, c, a[..], s + ForkFields(p + 88), ForkFields(p + 168), p, p + 168, p + 248);
  }

  /** The parent and the name length of a thread record. */
  method SwapThreadHead(a: array<Byte>, d: Direction, p: nat, ghost b: seq<Byte>) returns (n: nat)
    requires p + 10 <= a.Length && Flipped(b, a[..], {Field(p, 2)}) && |b| == a.Length
    modifies a
    ensures var s := {Field(p, 2)} + {Field(p + 4, 4)} + {Field(p + 8, 2)}; Flipped(b, a[..], s) && InRegion(s, p, p + 10)
    ensures n == Value16(b, d, p + 8)
  {
    hide Flipped, InRegion, Value16;
    OneRegion(p, 2);
    Wider({Field(p, 2)}, p, p + 2, p + 4);
    ghost var c := a[..];
    SwapField(a, p + 4, 4);
    OneRegion(p + 4, 4);
    ghost var s := {Field(p, 2)} + {Field(p + 4, 4)};
    Then(b, c, a[..], {Field(p, 2)}, {Field(p + 4, 4)}, p, p + 4, p + 8);
    c := a[..];
    Untouched(b, c, s, p, p + 8, d, p + 8);
    n := SwapRead16(a, d, p + 8);
    OneRegion(p + 8, 2);
    Then(b, c, a[..], s, {Field(p + 8, 2)}, p, p + 8, p + 10);
  }

  // ------------------------------------------------------------------------ keys

  const MIN_KEY: nat := 6
  const MAX_KEY: nat := 516

  /** The key of a record at `off` is well formed and leaves room for data before `next`. */
  predicate KeyOk(b: seq<Byte>, d: Direction, off: nat, next: nat)
    requires next <= |b|
  {
    && off + 8 <= next && MIN_KEY <= Value16(b, d, off) <= MAX_KEY
    && off + 2 + Value16(b, d, off) + 4 <= next
    && 6 + 2 * Value16(b, d, off + 6) <= Value16(b, d, off)
  }

  ghost function KeyFields(b: seq<Byte>, d: Direction, off: nat): set<Field>
    requires off + 8 <= |b|
  { {Field(off, 2)} + {Field(off + 2, 4)} + {Field(off + 6, 2)} + Names(off + 8, Value16(b, d, off + 6)) }

  function DataStart(b: seq<Byte>, d: Direction, off: nat): nat
    requires off + 2 <= |b|
  { off + 2 + Value16(b, d, off) }

  method SwapKey(a: array<Byte>, d: Direction, off: nat, next: nat) returns (ok: bool, p: nat)
    requires next <= a.Length
    modifies a
    ensures ok == KeyOk(old(a[..]), d, off, next)
    ensures ok ==> p == DataStart(old(a[..]), d, off) && p + 4 <= next
    ensures ok ==> var s := KeyFields(old(a[..]), d, off); Flipped(old(a[..]), a[..], s) && InRegion(s, off, p)
  {
    hide Flipped, InRegion, Value16, Names;
    ghost var b := a[..];
    p := 0;
    if off + 8 > next { return false, 0; }
    var length := SwapRead16(a, d, off);
    OneRegion(off, 2);
    ghost var c := a[..];
    Untouched(b, c, {Field(off, 2)}, off, off + 2, d, off + 6);
    if length < MIN_KEY || length > MAX_KEY { return false, 0; }
    p := off + 2 + length;
    if p + 4 > next { return false, 0; }
    SwapField(a, off + 2, 4);
    OneRegion(off + 2, 4);
    ghost var s := {Field(off, 2)} + {Field(off + 2, 4)};
    Then(b, c, a[..], {Field(off, 2)}, {Field(off + 2, 4)}, off, off + 2, off + 6);
    c := a[..];
    Untouched(b, c, s, off, off + 6, d, off + 6);
    var n := SwapRead16(a, d, off + 6);
    OneRegion(off + 6, 2);
    Then(b, c, a[..], s, {Field(off + 6, 2)}, off, off + 6, off + 8);
    if length < 6 + 2 * n { return false, 0; }
    c := a[..];
    SwapName(a, off + 8, n);
    NamesMore(off + 8, n);
    Then(b, c, a[..], s + {Field(off + 6, 2)}, Names(off + 8, n), off, off + 8, off + 8 + 2 * n);
    Wider(s + {Field(off + 6, 2)} + Names(off + 8, n), off, off + 8 + 2 * n, p);
    return true, p;
  }

  // --------------------------------------------------------------------- records

  predicate RecordOk(b: seq<Byte>, d: Direction, index: bool, off: nat, next: nat)
    requires next <= |b|
  { KeyOk(b, d, off, next) && DataOk(b, d, index, DataStart(b, d, off), next) }

  ghost function RecordFields(b: seq<Byte>, d: Direction, index: bool, off: nat, next: nat): set<Field>
    requires next <= |b| && RecordOk(b, d, index, off, next)
  { KeyFields(b, d, off) + DataFields(b, d, index, DataStart(b, d, off), next) }

  /** The catalog branch of hfs_swap_HFSPlusBTInternalNode for one record. */
  method SwapRecord(a: array<Byte>, d: Direction, index: bool, off: nat, next: nat) returns (ok: bool)
    requires next <= a.Length
    modifies a
    ensures ok == RecordOk(old(a[..]), d, index, off, next)
    ensures ok ==> var s := RecordFields(old(a[..]), d, index, off, next); Flipped(old(a[..]), a[..], s) && InRegion(s, off, next)
  {
    hide Flipped, InRegion, Value16, KeyFields, KeyOk;
    ghost var b := a[..];
    var p;
    ok, p := SwapKey(a, d, off, next);
    KeyFits(b, d, off, next);
    if !ok { return; }
    ghost var c := a[..];
    SameData(b, c, KeyFields(b, d, off), off, d, index, p, next);
    ok := SwapData(a, d, index, p, next);
    if ok { Then(b, c, a[..], KeyFields(b, d, off), DataFields(c, d, index, p, next), off, p, next); }
  }

  lemma KeyFits(b: seq<Byte>, d: Direction, off: nat, next: nat)
    requires next <= |b|
    ensures KeyOk(b, d, off, next) ==> off + 8 <= next && DataStart(b, d, off) + 4 <= next
  {
  }

  /** Swapping the key does not change how the data reads. */
  lemma SameData(b: seq<Byte>, c: seq<Byte>, s: set<Field>, lo: nat, d: Direction, index: bool, p: nat, next: nat)
    requires Flipped(b, c, s) && InRegion(s, lo, p) && p + 4 <= next <= |b|
    ensures |c| == |b| && DataOk(c, d, index, p, next) == DataOk(b, d, index, p, next)
    ensures DataOk(b, d, index, p, next) ==> DataFields(c, d, index, p, next) == DataFields(b, d, index, p, next)
  {
    hide Flipped, InRegion, Value16, CommonFields, ForkFields, Names;
    Untouched(b, c, s, lo, p, d, p);
    if p + 10 <= next { Untouched(b, c, s, lo, p, d, p + 8); }
  }

  // ---------------------------------------------------------------- all the records

  /** Bytes [lo, hi) are the same. */
  ghost predicate SameBytes(b: seq<Byte>, c: seq<Byte>, lo: nat, hi: nat) {
    |b| == |c| && hi <= |b| && forall i :: lo <= i < hi ==> c[i] == b[i]
  }

  lemma SameRecord(b: seq<Byte>, c: seq<Byte>, d: Direction, index: bool, off: nat, next: nat)
    requires next <= |b| && SameBytes(b, c, off, next)
    ensures RecordOk(c, d, index, off, next) == RecordOk(b, d, index, off, next)
    ensures RecordOk(b, d, index, off, next) ==>
              RecordFields(c, d, index, off, next) == RecordFields(b, d, index, off, next)
  {
    hide Pair, Names, CommonFields, ForkFields;
    if off + 8 <= next {
      assert Value16(c, d, off) == Value16(b, d, off) && Value16(c, d, off + 6) == Value16(b, d, off + 6);
      var p := off + 2 + Value16(b, d, off);
      if p + 4 <= next { assert Value16(c, d, p) == Value16(b, d, p); }
      if p + 10 <= next { assert Value16(c, d, p + 8) == Value16(b, d, p + 8); }
    }
  }

  /** Record offsets in increasing order, inside the node. */
  predicate Ascending(offs: seq<nat>, lo: nat, hi: nat) {
    && |offs| > 0 && lo <= offs[0] && offs[|offs| - 1] <= hi
    && forall k, m :: 0 <= k < m < |offs| ==> offs[k] < offs[m]
  }

  predicate Within(offs: seq<nat>, hi: nat) { |offs| > 0 && forall k :: 0 <= k < |offs| ==> offs[k] <= hi }

  lemma AscendingWithin(offs: seq<nat>, lo: nat, hi: nat)
    requires Ascending(offs, lo, hi)
    ensures Within(offs, hi)
  {
    forall k | 0 <= k < |offs| ensures offs[k] <= hi { assert k < |offs| - 1 ==> offs[k] < offs[|offs| - 1]; }
  }

  /** Records `k` and later are well formed; this includes that they are in order. */
  predicate RecordsOk(b: seq<Byte>, d: Direction, index: bool, offs: seq<nat>, k: nat)
    requires Within(offs, |b|)
  { forall m :: k <= m < |offs| - 1 ==> RecordOk(b, d, index, offs[m], offs[m + 1]) }

  ghost function RecordSet(b: seq<Byte>, d: Direction, index: bool, offs: seq<nat>, k: nat): (s: set<Field>)
    requires Within(offs, |b|) && RecordsOk(b, d, index, offs, k) && k < |offs|
    decreases |offs| - k
  {
    if k == |offs| - 1 then {}
    else RecordSet(b, d, index, offs, k + 1) + RecordFields(b, d, index, offs[k], offs[k + 1])
  }

  /** Bytes outside the region of the fields swapped. */
  lemma OutsideSame(b: seq<Byte>, c: seq<Byte>, s: set<Field>, lo: nat, hi: nat, from: nat, to: nat)
    requires Flipped(b, c, s) && InRegion(s, lo, hi) && from <= to <= |b| && (to <= lo || hi <= from)
    ensures SameBytes(b, c, from, to)
  {
    forall i: nat | from <= i < to ensures c[i] == b[i] { assert !Covered(s, i); }
  }

  /** Swap the records, last one first. */
  method SwapRecords(a: array<Byte>, d: Direction, index: bool, offs: seq<nat>) returns (ok: bool)
    requires Within(offs, a.Length)
    modifies a
    ensures ok == RecordsOk(old(a[..]), d, index, offs, 0)
    ensures ok ==> var s := RecordSet(old(a[..]), d, index, offs, 0);
                   Flipped(old(a[..]), a[..], s) && InRegion(s, offs[0], offs[|offs| - 1]) && offs[0] <= offs[|offs| - 1]
  {
    hide Flipped, InRegion, RecordOk, RecordFields, SameBytes;
    ghost var b := a[..];
    FlippedNone(b);
    var k := |offs| - 1;
    NoRegion(offs[k]);
    while k > 0
      invariant 0 <= k < |offs| && RecordsOk(b, d, index, offs, k) && offs[k] <= offs[|offs| - 1]
      invariant Flipped(b, a[..], RecordSet(b, d, index, offs, k))
      invariant InRegion(RecordSet(b, d, index, offs, k), offs[k], offs[|offs| - 1])
    {
      ghost var c, s := a[..], RecordSet(b, d, index, offs, k);
      RecordOrder(b, d, index, offs[k - 1], offs[k]);
      RecordOrder(c, d, index, offs[k - 1], offs[k]);
      if offs[k - 1] <= offs[k] {
        OutsideSame(b, c, s, offs[k], offs[|offs| - 1], offs[k - 1], offs[k]);
        SameRecord(b, c, d, index, offs[k - 1], offs[k]);
      }
      ok := SwapRecord(a, d, index, offs[k - 1], offs[k]);
      if !ok { return false; }
      Before(b, c, a[..], s, RecordFields(b, d, index, offs[k - 1], offs[k]), offs[k - 1], offs[k], offs[|offs| - 1]);
      k := k - 1;
    }
    return true;
  }

  lemma RecordOrder(b: seq<Byte>, d: Direction, index: bool, off: nat, next: nat)
    requires next <= |b|
    ensures RecordOk(b, d, index, off, next) ==> off < next
  {
  }

  lemma NoRegion(o: nat)
    ensures InRegion({}, o, o)
  {
  }

  /** As Then, with the new fields in front. */
  lemma Before(b: seq<Byte>, c: seq<Byte>, d: seq<Byte>, s: set<Field>, t: set<Field>, lo: int, mid: int, hi: int)
    requires lo <= mid <= hi && Flipped(b, c, s) && Flipped(c, d, t) && InRegion(t, lo, mid) && InRegion(s, mid, hi)
    ensures Flipped(b, d, s + t) && InRegion(s + t, lo, hi)
  {
    hide Flipped, AllApart;
    RegionsApart(t, s, lo, mid, hi);
    FlipMore(b, c, d, s, t);
  }

  // --------------------------------------------------------------------- the node

  const DESCRIPTOR: nat := 14
  const MAX_DEPTH: nat := 16
  const LEAF_KIND: nat := 0xFF
  const INDEX_KIND: nat := 0
  const MAP_KIND: nat := 2

  predicate LinksOk(fLink: nat, bLink: nat, totalNodes: nat, blockNum: nat) {
    fLink < totalNodes && bLink < totalNodes && (blockNum != 0 ==> fLink != blockNum && bLink != blockNum)
  }

  function Count(b: seq<Byte>, d: Direction): nat
    requires |b| >= DESCRIPTOR
  { Value16(b, d, 10) }

  /** The offset table ends the node, the offset of record `k` at the `k`th place from its end. */
  function OffsetAt(b: seq<Byte>, d: Direction, k: nat): nat
    requires 2 * (k + 1) <= |b|
  { Value16(b, d, |b| - 2 * (k + 1)) }

  function Offsets(b: seq<Byte>, d: Direction, n: nat): (s: seq<nat>)
    requires 2 * (n + 1) <= |b|
    ensures |s| == n + 1
  { seq(n + 1, k requires 0 <= k <= n => OffsetAt(b, d, k)) }

  /** The offsets are even, in order and inside the node. */
  predicate OffsetsOk(b: seq<Byte>, d: Direction, n: nat)
    requires 2 * (n + 1) <= |b|
  {
    Ascending(Offsets(b, d, n), DESCRIPTOR, |b| - 2 * (n + 1)) && forall k :: 0 <= k <= n ==> OffsetAt(b, d, k) % 2 == 0
  }

  /** There are good offsets for all records. */
  predicate TableOk(b: seq<Byte>, d: Direction)
    requires |b| >= DESCRIPTOR
  { DESCRIPTOR + 2 * (Count(b, d) + 1) <= |b| && OffsetsOk(b, d, Count(b, d)) }

  /** The offsets point into the part of the node between its descriptor and its table. */
  predicate Pointing(b: seq<Byte>, d: Direction)
    requires |b| >= DESCRIPTOR
  {
    && DESCRIPTOR + 2 * (Count(b, d) + 1) <= |b|
    && forall k :: 0 <= k <= Count(b, d) ==> DESCRIPTOR <= Offsets(b, d, Count(b, d))[k] <= |b| - 2 * (Count(b, d) + 1)
  }

  predicate HasRecords(b: seq<Byte>)
    requires |b| >= DESCRIPTOR
  { b[8] == LEAF_KIND || b[8] == INDEX_KIND }

  /** What the swap accepts: links, kind, height, offsets and, in a leaf or index node, records. */
  predicate NodeOk(b: seq<Byte>, d: Direction, totalNodes: nat, blockNum: nat)
    requires |b| >= DESCRIPTOR
  {
    && LinksOk(Value32(b, d, 0), Value32(b, d, 4), totalNodes, blockNum)
    && (HasRecords(b) || b[8] == MAP_KIND) && b[9] <= MAX_DEPTH
    && TableOk(b, d)
    && (HasRecords(b) ==> RecordsOk(b, d, b[8] == INDEX_KIND, Offsets(b, d, Count(b, d)), 0))
  }

  ghost function HeaderFields(): set<Field> { {Field(0, 4)} + {Field(4, 4)} + {Field(10, 2)} }

  ghost function TableFields(b: seq<Byte>, d: Direction): set<Field>
    requires |b| >= DESCRIPTOR && TableOk(b, d)
  { Names(|b| - 2 * (Count(b, d) + 1), Count(b, d) + 1) }

  ghost function NodeRecords(b: seq<Byte>, d: Direction): set<Field>
    requires |b| >= DESCRIPTOR && TableOk(b, d)
    requires HasRecords(b) ==> RecordsOk(b, d, b[8] == INDEX_KIND, Offsets(b, d, Count(b, d)), 0)
  { if HasRecords(b) then RecordSet(b, d, b[8] == INDEX_KIND, Offsets(b, d, Count(b, d)), 0) else {} }

  /** Every field the swap reverses. */
  ghost function NodeFields(b: seq<Byte>, d: Direction, totalNodes: nat, blockNum: nat): set<Field>
    requires |b| >= DESCRIPTOR && NodeOk(b, d, totalNodes, blockNum)
  { HeaderFields() + TableFields(b, d) + NodeRecords(b, d) }

  // ------------------------------------------------------------------- round trip

  /** A record whose fields have been swapped is well formed, with the same fields, in the
      other direction. */
  lemma RecordKept(b: seq<Byte>, c: seq<Byte>, s: set<Field>, d: Direction, index: bool, off: nat, next: nat)
    requires next <= |b| && RecordOk(b, d, index, off, next) && Flipped(b, c, s)
    requires RecordFields(b, d, index, off, next) <= s
    ensures |c| == |b| && RecordOk(c, Opposite(d), index, off, next)
    ensures RecordFields(c, Opposite(d), index, off, next) == RecordFields(b, d, index, off, next)
  {
    hide Flipped, Value16, Names, CommonFields, ForkFields;
    ValueKept(b, c, s, d, Field(off, 2));
    ValueKept(b, c, s, d, Field(off + 6, 2));
    var p := DataStart(b, d, off);
    if !index {
      ValueKept(b, c, s, d, Field(p, 2));
      if Value16(b, d, p) != FOLDER && Value16(b, d, p) != FILE { ValueKept(b, c, s, d, Field(p + 8, 2)); }
    }
  }

  lemma {:induction false} RecordsKept(b: seq<Byte>, c: seq<Byte>, s: set<Field>, d: Direction, index: bool,
                                       offs: seq<nat>, k: nat)
    requires Ascending(offs, 0, |b|) && k < |offs| && RecordsOk(b, d, index, offs, k) && Flipped(b, c, s)
    requires RecordSet(b, d, index, offs, k) <= s
    ensures |c| == |b| && RecordsOk(c, Opposite(d), index, offs, k)
    ensures RecordSet(c, Opposite(d), index, offs, k) == RecordSet(b, d, index, offs, k)
    decreases |offs| - k
  {
    hide RecordOk, RecordFields;
    SameSize(b, c, s);
    hide Flipped;
    if k < |offs| - 1 {
      RecordsKept(b, c, s, d, index, offs, k + 1);
      RecordKept(b, c, s, d, index, offs[k], offs[k + 1]);
    }
  }

  lemma SameSize(b: seq<Byte>, c: seq<Byte>, s: set<Field>)
    requires Flipped(b, c, s)
    ensures |c| == |b|
  {
  }

  lemma KeyRegion(b: seq<Byte>, d: Direction, off: nat, next: nat)
    requires next <= |b| && KeyOk(b, d, off, next)
    ensures InRegion(KeyFields(b, d, off), off, DataStart(b, d, off))
  {
    hide Value16, Names, InRegion;
    var n := Value16(b, d, off + 6);
    OneRegion(off, 2);
    OneRegion(off + 2, 4);
    OneRegion(off + 6, 2);
    NamesMore(off + 8, n);
    RegionUnion({Field(off, 2)}, {Field(off + 2, 4)}, off, off + 2, off + 6);
    RegionUnion({Field(off, 2)} + {Field(off + 2, 4)}, {Field(off + 6, 2)}, off, off + 6, off + 8);
    Wider(Names(off + 8, n), off + 8, off + 8 + 2 * n, DataStart(b, d, off));
    RegionUnion({Field(off, 2)} + {Field(off + 2, 4)} + {Field(off + 6, 2)}, Names(off + 8, n), off, off + 8, DataStart(b, d, off));
  }

  lemma ThreadRegion(p: nat, n: nat)
    ensures InRegion({Field(p, 2)} + {Field(p + 4, 4)} + {Field(p + 8, 2)} + Names(p + 10, n), p, p + 10 + 2 * n)
  {
    hide Names;
    NamesMore(p + 10, n);
  }

  lemma FixedRegions(p: nat)
    ensures InRegion({Field(p, 2)} + CommonFields(p) + {Field(p + 84, 4)}, p, p + 88)
    ensures InRegion({Field(p, 2)} + CommonFields(p) + ForkFields(p + 88) + ForkFields(p + 168), p, p + 248)
  {
    hide CommonFields, ForkFields;
    CommonRegion(p);
  }

  lemma DataRegion(b: seq<Byte>, d: Direction, index: bool, p: nat, next: nat)
    requires p + 4 <= next <= |b| && DataOk(b, d, index, p, next)
    ensures InRegion(DataFields(b, d, index, p, next), p, next)
  {
    hide Value16, Names, CommonFields, ForkFields, InRegion;
    if index {
      OneRegion(p, 4);
      Wider({Field(p, 4)}, p, p + 4, next);
    } else if Value16(b, d, p) == FOLDER {
      FixedRegions(p);
      Wider({Field(p, 2)} + CommonFields(p) + {Field(p + 84, 4)}, p, p + 88, next);
    } else if Value16(b, d, p) == FILE {
      FixedRegions(p);
      Wider({Field(p, 2)} + CommonFields(p) + ForkFields(p + 88) + ForkFields(p + 168), p, p + 248, next);
    } else {
      var n := Value16(b, d, p + 8);
      ThreadRegion(p, n);
      Wider({Field(p, 2)} + {Field(p + 4, 4)} + {Field(p + 8, 2)} + Names(p + 10, n), p, p + 10 + 2 * n, next);
    }
  }

  lemma RecordRegion(b: seq<Byte>, d: Direction, index: bool, off: nat, next: nat)
    requires next <= |b| && RecordOk(b, d, index, off, next)
    ensures InRegion(RecordFields(b, d, index, off, next), off, next)
  {
    hide Value16, KeyFields, DataFields, InRegion, DataOk;
    var p := DataStart(b, d, off);
    KeyRegion(b, d, off, next);
    DataRegion(b, d, index, p, next);
    RegionUnion(KeyFields(b, d, off), DataFields(b, d, index, p, next), off, p, next);
  }

  lemma CommonRegion(p: nat)
    ensures InRegion(CommonFields(p), p + 2, p + 84)
    ensures InRegion(ForkFields(p + 88), p + 88, p + 168) && InRegion(ForkFields(p + 168), p + 168, p + 248)
  {
    hide Quads;
    QuadsMore(p + 4, 9);
    QuadsMore(p + 96, 18);
    QuadsMore(p + 176, 18);
  }

  lemma {:induction false} RecordSetRegion(b: seq<Byte>, d: Direction, index: bool, offs: seq<nat>, k: nat)
    requires Ascending(offs, 0, |b|) && RecordsOk(b, d, index, offs, k) && k < |offs|
    ensures InRegion(RecordSet(b, d, index, offs, k), offs[k], offs[|offs| - 1])
    decreases |offs| - k
  {
    hide RecordOk, RecordFields;
    if k < |offs| - 1 {
      RecordSetRegion(b, d, index, offs, k + 1);
      RecordRegion(b, d, index, offs[k], offs[k + 1]);
    }
  }

  /** The kind and the height are not swapped. */
  lemma KindKept(b: seq<Byte>, c: seq<Byte>, d: Direction, totalNodes: nat, blockNum: nat)
    requires |b| >= DESCRIPTOR && NodeOk(b, d, totalNodes, blockNum)
    requires Flipped(b, c, NodeFields(b, d, totalNodes, blockNum))
    ensures |c| == |b| && c[8] == b[8] && c[9] == b[9]
  {
    hide Value16, Value32, RecordsOk, RecordSet, Names, InRegion, Ascending, HeaderFields, Offsets;
    var n := Count(b, d);
    TableRegion(b, d);
    NamesMore(|b| - 2 * (n + 1), n + 1);
    var r := TableFields(b, d) + NodeRecords(b, d);
    var s := NodeFields(b, d, totalNodes, blockNum);
    assert s == HeaderFields() + r;
    HeaderGap(TableFields(b, d), NodeRecords(b, d), |b|);
  }

  lemma TableRegion(b: seq<Byte>, d: Direction)
    requires |b| >= DESCRIPTOR && TableOk(b, d)
    requires HasRecords(b) ==> RecordsOk(b, d, b[8] == INDEX_KIND, Offsets(b, d, Count(b, d)), 0)
    ensures DESCRIPTOR <= |b| - 2 * (Count(b, d) + 1)
    ensures InRegion(TableFields(b, d), |b| - 2 * (Count(b, d) + 1), |b|)
    ensures InRegion(NodeRecords(b, d), DESCRIPTOR, |b| - 2 * (Count(b, d) + 1))
  {
    hide Value16, RecordsOk, RecordSet, Names, Offsets;
    var n := Count(b, d);
    NamesMore(|b| - 2 * (n + 1), n + 1);
    if HasRecords(b) { RecordSetRegion(b, d, b[8] == INDEX_KIND, Offsets(b, d, n), 0); }
  }

  lemma HeaderGap(t: set<Field>, r: set<Field>, hi: nat)
    requires exists mid :: DESCRIPTOR <= mid && InRegion(t, mid, hi) && InRegion(r, DESCRIPTOR, mid)
    ensures !Covered(HeaderFields() + (t + r), 8) && !Covered(HeaderFields() + (t + r), 9)
  {
  }

  lemma TableKept(b: seq<Byte>, c: seq<Byte>, s: set<Field>, d: Direction)
    requires |b| >= DESCRIPTOR && TableOk(b, d) && Flipped(b, c, s) && TableFields(b, d) <= s && Field(10, 2) in s
    ensures |c| == |b| && TableOk(c, Opposite(d)) && Count(c, Opposite(d)) == Count(b, d)
    ensures Offsets(c, Opposite(d), Count(b, d)) == Offsets(b, d, Count(b, d))
    ensures TableFields(c, Opposite(d)) == TableFields(b, d)
  {
    hide Flipped, Value16;
    var n := Count(b, d);
    ValueKept(b, c, s, d, Field(10, 2));
    forall k: nat | k <= n ensures OffsetAt(c, Opposite(d), k) == OffsetAt(b, d, k) {
      var f := Field(|b| - 2 * (k + 1), 2);
      assert Cell(|b| - 2 * (n + 1), n - k, 2) == f;
      assert f in TableFields(b, d);
      ValueKept(b, c, s, d, f);
    }
    assert Offsets(c, Opposite(d), n) == Offsets(b, d, n);
  }

  /** A node accepted and swapped in one direction is accepted in the other, where the same
      fields are swapped. */
  lemma NodeKept(b: seq<Byte>, c: seq<Byte>, d: Direction, totalNodes: nat, blockNum: nat)
    requires |b| >= DESCRIPTOR && NodeOk(b, d, totalNodes, blockNum)
    requires Flipped(b, c, NodeFields(b, d, totalNodes, blockNum))
    ensures |c| == |b| && NodeOk(c, Opposite(d), totalNodes, blockNum)
    ensures NodeFields(c, Opposite(d), totalNodes, blockNum) == NodeFields(b, d, totalNodes, blockNum)
  {
    hide Flipped, Value16, Value32, RecordsOk, RecordSet, TableOk, TableFields, Offsets, Count;
    var s := NodeFields(b, d, totalNodes, blockNum);
    KindKept(b, c, d, totalNodes, blockNum);
    ValueKept(b, c, s, d, Field(0, 4));
    ValueKept(b, c, s, d, Field(4, 4));
    TableKept(b, c, s, d);
    if HasRecords(b) {
      AscendingOffsets(b, d);
      RecordsKept(b, c, s, d, b[8] == INDEX_KIND, Offsets(b, d, Count(b, d)), 0);
    }
  }

  lemma AscendingOffsets(b: seq<Byte>, d: Direction)
    requires |b| >= DESCRIPTOR && TableOk(b, d)
    ensures DESCRIPTOR + 2 * (Count(b, d) + 1) <= |b| && Ascending(Offsets(b, d, Count(b, d)), 0, |b|)
    ensures |Offsets(b, d, Count(b, d))| == Count(b, d) + 1
  {
  }

  /** Swapping an accepted node and swapping it back gives the original bytes. */
  lemma NodeRoundTrip(b: seq<Byte>, c: seq<Byte>, e: seq<Byte>, d: Direction, totalNodes: nat, blockNum: nat)
    requires |b| >= DESCRIPTOR && NodeOk(b, d, totalNodes, blockNum)
    requires Flipped(b, c, NodeFields(b, d, totalNodes, blockNum))
    ensures |c| == |b| && NodeOk(c, Opposite(d), totalNodes, blockNum)
    ensures Flipped(c, e, NodeFields(c, Opposite(d), totalNodes, blockNum)) ==> e == b
  {
    hide Flipped, NodeFields, NodeOk;
    NodeKept(b, c, d, totalNodes, blockNum);
    if Flipped(c, e, NodeFields(c, Opposite(d), totalNodes, blockNum)) {
      FlipTwice(b, c, e, NodeFields(b, d, totalNodes, blockNum));
    }
  }

  // ------------------------------------------------------------- hfs_swap_BTNode

  method SwapRead32(a: array<Byte>, d: Direction, off: nat) returns (v: nat)
    requires off + 4 <= a.Length
    modifies a
    ensures Flipped(old(a[..]), a[..], {Field(off, 4)}) && v == Value32(old(a[..]), d, off)
  {
    hide Flipped;
    ghost var b := a[..];
    if d.BigToHost? {
      SwapField(a, off, 4);
      ValueKept(b, a[..], {Field(off, 4)}, d, Field(off, 4));
      v := Value32(a[..], HostToBig, off);
    } else {
      v := Value32(a[..], HostToBig, off);
      SwapField(a, off, 4);
    }
  }

  /** The links, checked and swapped. */
  method SwapLinks(a: array<Byte>, d: Direction, totalNodes: nat, blockNum: nat) returns (ok: bool)
    requires a.Length >= DESCRIPTOR
    modifies a
    ensures ok == LinksOk(Value32(old(a[..]), d, 0), Value32(old(a[..]), d, 4), totalNodes, blockNum)
    ensures var s := {Field(0, 4)} + {Field(4, 4)}; Flipped(old(a[..]), a[..], s) && InRegion(s, 0, 8)
  {
    hide Flipped, InRegion, Value32;
    ghost var b := a[..];
    var f := SwapRead32(a, d, 0);
    OneRegion(0, 4);
    OneRegion(4, 4);
    ghost var c := a[..];
    Untouched32(b, c, {Field(0, 4)}, 0, 4, d, 4);
    var l := SwapRead32(a, d, 4);
    Then(b, c, a[..], {Field(0, 4)}, {Field(4, 4)}, 0, 4, 8);
    ok := LinksOk(f, l, totalNodes, blockNum);
  }

  lemma Untouched32(b: seq<Byte>, c: seq<Byte>, s: set<Field>, lo: int, hi: int, d: Direction, i: nat)
    requires Flipped(b, c, s) && InRegion(s, lo, hi) && i + 4 <= |b| && (i + 4 <= lo || hi <= i)
    ensures |c| == |b| && Value32(c, d, i) == Value32(b, d, i)
  {
    hide Pair;
    assert !Covered(s, i) && !Covered(s, i + 1) && !Covered(s, i + 2) && !Covered(s, i + 3);
  }

  /** The offsets from `k` on are good. */
  ghost predicate GoodFrom(offs: seq<nat>, k: nat, hi: nat) {
    && (forall m :: k <= m < |offs| ==> DESCRIPTOR <= offs[m] <= hi && offs[m] % 2 == 0)
    && forall m, q :: k <= m < q < |offs| ==> offs[m] < offs[q]
  }

  lemma GoodOffsets(b: seq<Byte>, d: Direction, n: nat)
    requires 2 * (n + 1) <= |b|
    ensures OffsetsOk(b, d, n) <==> GoodFrom(Offsets(b, d, n), 0, |b| - 2 * (n + 1))
  {
    hide Value16;
    var o := Offsets(b, d, n);
    assert forall k :: 0 <= k <= n ==> o[k] == OffsetAt(b, d, k);
  }

  /** One more offset, in front of good ones. */
  lemma GoodMore(offs: seq<nat>, k: nat, hi: nat)
    requires 0 < k <= |offs| && GoodFrom(offs, k, hi)
    ensures GoodFrom(offs, k - 1, hi) <==>
              && offs[k - 1] % 2 == 0 && DESCRIPTOR <= offs[k - 1] <= hi
              && (k < |offs| ==> offs[k - 1] < offs[k])
  {
    if GoodFrom(offs, k - 1, hi) && k < |offs| { assert offs[k - 1] < offs[k]; }
  }

  lemma GoodLess(offs: seq<nat>, k: nat, m: nat, hi: nat)
    requires k <= m <= |offs| && GoodFrom(offs, k, hi)
    ensures GoodFrom(offs, m, hi)
  {
  }

  /** Swap and read one entry of the table, the `i`th from its start. */
  method SwapEntry(a: array<Byte>, d: Direction, n: nat, i: nat, ghost b: seq<Byte>) returns (v: nat)
    requires DESCRIPTOR + 2 * (n + 1) <= a.Length == |b| && i <= n
    requires Flipped(b, a[..], Names(a.Length - 2 * (n + 1), i))
    modifies a
    ensures v == Offsets(b, d, n)[n - i] && Flipped(b, a[..], Names(a.Length - 2 * (n + 1), i + 1))
  {
    hide Flipped, InRegion, Names, Value16, Offsets;
    ghost var c := a[..];
    var start := a.Length - 2 * (n + 1);
    NamesMore(start, i);
    OneRegion(start + 2 * i, 2);
    Untouched(b, c, Names(start, i), start, start + 2 * i, d, start + 2 * i);
    OffsetIs(b, d, n, n - i);
    v := SwapRead16(a, d, start + 2 * i);
    Then(b, c, a[..], Names(start, i), {Field(start + 2 * i, 2)}, start, start + 2 * i, start + 2 * i + 2);
  }

  /** The offset table, swapped and checked from its start, which holds the last offset. */
  method SwapTable(a: array<Byte>, d: Direction, n: nat) returns (ok: bool)
    requires DESCRIPTOR + 2 * (n + 1) <= a.Length
    modifies a
    ensures ok == OffsetsOk(old(a[..]), d, n)
    ensures ok ==> Flipped(old(a[..]), a[..], Names(a.Length - 2 * (n + 1), n + 1))
  {
    hide Flipped, Names, GoodFrom, OffsetsOk, Offsets;
    ghost var b := a[..];
    ghost var o := Offsets(b, d, n);
    var limit := a.Length - 2 * (n + 1);
    GoodOffsets(b, d, n);
    NoNames(limit);
    FlippedNone(b);
    GoodNone(o, limit);
    var i: nat, previous: nat := 0, 0;
    while i <= n
      invariant i <= n + 1 && Flipped(b, a[..], Names(limit, i)) && GoodFrom(o, n + 1 - i, limit)
      invariant i > 0 ==> previous == o[n + 1 - i]
    {
      var v := SwapEntry(a, d, n, i, b);
      GoodStep(o, n - i, limit);
      if !Even(v) || v < DESCRIPTOR || v > limit || (i != 0 && v >= previous) { return false; }
      previous, i := v, i + 1;
    }
    return true;
  }

  predicate Even(v: nat) { v % 2 == 0 }

  lemma GoodStep(o: seq<nat>, k: nat, hi: nat)
    requires k < |o| && GoodFrom(o, k + 1, hi)
    ensures GoodFrom(o, k, hi) <==> Even(o[k]) && DESCRIPTOR <= o[k] <= hi && (k + 1 < |o| ==> o[k] < o[k + 1])
    ensures GoodFrom(o, 0, hi) ==> GoodFrom(o, k, hi)
  {
    GoodMore(o, k + 1, hi);
    if GoodFrom(o, 0, hi) { GoodLess(o, 0, k, hi); }
  }

  lemma GoodNone(offs: seq<nat>, hi: nat)
    ensures GoodFrom(offs, |offs|, hi)
  {
  }

  lemma OffsetIs(b: seq<Byte>, d: Direction, n: nat, k: nat)
    requires 2 * (n + 1) <= |b| && k <= n
    ensures Offsets(b, d, n)[k] == Value16(b, d, |b| - 2 * (n + 1) + 2 * (n - k))
  {
    hide Value16;
    assert |b| - 2 * (n + 1) + 2 * (n - k) == |b| - 2 * (k + 1);
  }

  /** Nodes whose bytes from the descriptor on agree have the same offsets. */
  lemma SameOffsets(b: seq<Byte>, c: seq<Byte>, d: Direction, n: nat)
    requires DESCRIPTOR + 2 * (n + 1) <= |b| && SameBytes(b, c, |b| - 2 * (n + 1), |b|)
    ensures Offsets(c, d, n) == Offsets(b, d, n) && OffsetsOk(c, d, n) == OffsetsOk(b, d, n)
  {
    hide Pair;
    forall k | 0 <= k <= n ensures OffsetAt(c, d, k) == OffsetAt(b, d, k) { }
  }

  lemma {:induction false} SameRecords(b: seq<Byte>, c: seq<Byte>, d: Direction, index: bool, offs: seq<nat>, k: nat)
    requires Ascending(offs, 0, |b|) && k < |offs| && |c| == |b| && SameBytes(b, c, offs[0], offs[|offs| - 1])
    ensures RecordsOk(c, d, index, offs, k) == RecordsOk(b, d, index, offs, k)
    ensures RecordsOk(b, d, index, offs, k) ==> RecordSet(c, d, index, offs, k) == RecordSet(b, d, index, offs, k)
    decreases |offs| - k
  {
    AscendingWithin(offs, 0, |b|);
    if k < |offs| - 1 {
      SameRecords(b, c, d, index, offs, k + 1);
      SameRecord(b, c, d, index, offs[k], offs[k + 1]);
      hide RecordOk, RecordFields, RecordsOk, Ascending, Within, SameBytes;
      RecordsFrom(b, d, index, offs, k);
      RecordsFrom(c, d, index, offs, k);
    }
  }

  lemma RecordsFrom(b: seq<Byte>, d: Direction, index: bool, offs: seq<nat>, k: nat)
    requires Within(offs, |b|) && k < |offs| - 1
    ensures RecordsOk(b, d, index, offs, k) <==>
              RecordOk(b, d, index, offs[k], offs[k + 1]) && RecordsOk(b, d, index, offs, k + 1)
  {
    hide RecordOk;
  }

  /** The fields of the header, of the table and of the records are apart. */
  lemma PartsApart(h: set<Field>, t: set<Field>, r: set<Field>, mid: int, hi: int)
    requires DESCRIPTOR <= mid <= hi && InRegion(h, 0, 12) && InRegion(t, mid, hi) && InRegion(r, DESCRIPTOR, mid)
    ensures AllApart(h, t) && AllApart(h + t, r) && AllApart(r, h) && AllApart(r + h, t) && InRegion(h + t, 0, hi)
  {
  }

  lemma HeaderRegion()
    ensures InRegion(HeaderFields(), 0, 12)
  {
  }

  /** Swap the descriptor: the links and the record count. */
  method SwapDescriptor(a: array<Byte>, d: Direction, totalNodes: nat, blockNum: nat) returns (ok: bool, n: nat)
    requires a.Length >= DESCRIPTOR
    modifies a
    ensures ok == (LinksOk(Value32(old(a[..]), d, 0), Value32(old(a[..]), d, 4), totalNodes, blockNum) && a[9] <= MAX_DEPTH)
    ensures Flipped(old(a[..]), a[..], HeaderFields()) && n == Count(old(a[..]), d) && a[8] == old(a[8])
    ensures a[9] == old(a[9])
  {
    hide Flipped, InRegion, Value32, Value16;
    ghost var b := a[..];
    ok := SwapLinks(a, d, totalNodes, blockNum);
    ghost var c, s := a[..], {Field(0, 4)} + {Field(4, 4)};
    Untouched(b, c, s, 0, 8, d, 10);
    n := SwapRead16(a, d, 10);
    OneRegion(10, 2);
    Wider(s, 0, 8, 10);
    Then(b, c, a[..], s, {Field(10, 2)}, 0, 10, 12);
    GapKept(b, a[..]);
    ok := ok && a[9] <= MAX_DEPTH;
  }

  lemma GapKept(b: seq<Byte>, c: seq<Byte>)
    requires |b| >= DESCRIPTOR && Flipped(b, c, HeaderFields())
    ensures |c| == |b| && c[8] == b[8] && c[9] == b[9]
  {
    assert !Covered(HeaderFields(), 8) && !Covered(HeaderFields(), 9);
  }

  /** hfs_swap_BTNode from disk to memory, for a node of the catalog that is not its header
      node, with `allow_empty_node` false. */
  method SwapToHost(a: array<Byte>, totalNodes: nat, blockNum: nat) returns (ok: bool)
    requires a.Length >= DESCRIPTOR && totalNodes != 0 && a[8] != 1
    modifies a
    ensures ok == NodeOk(old(a[..]), BigToHost, totalNodes, blockNum)
    ensures ok ==> Flipped(old(a[..]), a[..], NodeFields(old(a[..]), BigToHost, totalNodes, blockNum))
  {
    hide Flipped, InRegion, Value32, Value16, RecordsOk, RecordSet, OffsetsOk, Names, SameBytes, HeaderFields, AllApart,
         Ascending, Offsets;
    ghost var b := a[..];
    var n;
    ok, n := SwapDescriptor(a, BigToHost, totalNodes, blockNum);
    ghost var c := a[..];
    var kind := a[8];
    if !ok || !(kind == LEAF_KIND || kind == INDEX_KIND || kind == MAP_KIND) { return false; }
    if DESCRIPTOR + 2 * (n + 1) > a.Length { return false; }
    ghost var start := a.Length - 2 * (n + 1);
    HeaderRegion();
    OutsideSame(b, c, HeaderFields(), 0, 12, start, |b|);
    SameOffsets(b, c, BigToHost, n);
    ok := SwapTable(a, BigToHost, n);
    if !ok { return; }
    ghost var e, t := a[..], Names(start, n + 1);
    TableRead(c, e, BigToHost, n);
    NamesMore(start, n + 1);
    NoFieldsIn(DESCRIPTOR, start);
    PartsApart(HeaderFields(), t, {}, start, |b|);
    FlipMore(b, c, e, HeaderFields(), t);
    if kind != MAP_KIND {
      var offs := Offsets(a[..], HostToBig, n);
      GoodTable(b, BigToHost, n);
      AscendingWithin(offs, 0, |b|);
      BetweenSame(b, e, HeaderFields(), t, start);
      SubBytes(b, e, start, offs[0], offs[n]);
      SameRecords(b, e, BigToHost, kind == INDEX_KIND, offs, 0);
      ok := SwapRecords(a, BigToHost, kind == INDEX_KIND, offs);
      if ok {
        ghost var r := RecordSet(e, BigToHost, kind == INDEX_KIND, offs, 0);
        Between(r, offs[0], offs[n], start);
        PartsApart(HeaderFields(), t, r, start, |b|);
        FlipMore(b, e, a[..], HeaderFields() + t, r);
      }
    } else {
      assert HeaderFields() + t + {} == HeaderFields() + t;
    }
  }

  lemma NoFieldsIn(lo: nat, hi: nat)
    ensures InRegion({}, lo, hi)
  {
  }

  lemma Between(r: set<Field>, lo: nat, hi: nat, start: nat)
    requires InRegion(r, lo, hi) && DESCRIPTOR <= lo && hi <= start
    ensures InRegion(r, DESCRIPTOR, start)
  {
  }

  /** A swapped table reads the same in host order. */
  lemma TableRead(b: seq<Byte>, c: seq<Byte>, d: Direction, n: nat)
    requires DESCRIPTOR + 2 * (n + 1) <= |b| && Flipped(b, c, Names(|b| - 2 * (n + 1), n + 1))
    ensures |c| == |b| && Offsets(c, Opposite(d), n) == Offsets(b, d, n)
  {
    SameSize(b, c, Names(|b| - 2 * (n + 1), n + 1));
    hide Flipped, Value16, Names;
    forall k: nat | k <= n ensures OffsetAt(c, Opposite(d), k) == OffsetAt(b, d, k) { EntryRead(b, c, d, n, k); }
  }

  lemma EntryRead(b: seq<Byte>, c: seq<Byte>, d: Direction, n: nat, k: nat)
    requires DESCRIPTOR + 2 * (n + 1) <= |b| == |c| && Flipped(b, c, Names(|b| - 2 * (n + 1), n + 1)) && k <= n
    ensures OffsetAt(c, Opposite(d), k) == OffsetAt(b, d, k)
  {
    var f := Field(|b| - 2 * (k + 1), 2);
    EntryNamed(|b|, n, k);
    hide Flipped, Value16, Names;
    ValueKept(b, c, Names(|b| - 2 * (n + 1), n + 1), d, f);
  }

  lemma EntryNamed(size: nat, n: nat, k: nat)
    requires DESCRIPTOR + 2 * (n + 1) <= size && k <= n
    ensures Field(size - 2 * (k + 1), 2) in Names(size - 2 * (n + 1), n + 1)
  {
    assert Cell(size - 2 * (n + 1), n - k, 2) == Field(size - 2 * (k + 1), 2);
  }

  lemma GoodTable(b: seq<Byte>, d: Direction, n: nat)
    requires DESCRIPTOR + 2 * (n + 1) <= |b| && OffsetsOk(b, d, n)
    ensures var o := Offsets(b, d, n);
            && |o| == n + 1 && Ascending(o, 0, |b|)
            && DESCRIPTOR <= o[0] <= o[n] <= |b| - 2 * (n + 1)
  {
    hide Value16;
    var o := Offsets(b, d, n);
    assert n > 0 ==> o[0] < o[n];
  }

  /** Between the descriptor and the table nothing has changed yet. */
  lemma BetweenSame(b: seq<Byte>, c: seq<Byte>, h: set<Field>, t: set<Field>, start: nat)
    requires DESCRIPTOR <= start <= |b| && Flipped(b, c, h + t) && InRegion(h, 0, 12) && InRegion(t, start, |b|)
    ensures SameBytes(b, c, DESCRIPTOR, start)
  {
    forall i: nat | DESCRIPTOR <= i < start ensures c[i] == b[i] { assert !Covered(h + t, i); }
  }

  lemma SubBytes(b: seq<Byte>, c: seq<Byte>, start: nat, lo: nat, hi: nat)
    requires SameBytes(b, c, DESCRIPTOR, start) && DESCRIPTOR <= lo && hi <= start
    ensures SameBytes(b, c, lo, hi) && |b| == |c|
  {
  }

  /** hfs_swap_BTNode from memory to disk. The records are swapped first, by offsets that the
      caller vouches to lie in the node; the checks of the rest come after. */
  method SwapToDisk(a: array<Byte>, totalNodes: nat, blockNum: nat) returns (ok: bool)
    requires a.Length >= DESCRIPTOR && totalNodes != 0 && a[8] != 1
    requires (HasRecords(a[..]) ==> Pointing(a[..], HostToBig))
    modifies a
    ensures ok == NodeOk(old(a[..]), HostToBig, totalNodes, blockNum)
    ensures ok ==> Flipped(old(a[..]), a[..], NodeFields(old(a[..]), HostToBig, totalNodes, blockNum))
  {
    hide Flipped, InRegion, Value32, Value16, RecordsOk, RecordSet, OffsetsOk, Names, SameBytes, HeaderFields, AllApart, Ascending,
         Offsets, LinksOk;
    ghost var b := a[..];
    var n := Count(a[..], HostToBig);
    ghost var r := {};
    var kind := a[8];
    FlippedNone(b);
    NoFieldsIn(DESCRIPTOR, if DESCRIPTOR + 2 * (n + 1) <= |b| then |b| - 2 * (n + 1) else DESCRIPTOR);
    if kind == LEAF_KIND || kind == INDEX_KIND {
      var offs := Offsets(a[..], HostToBig, n);
      PointingWithin(b, HostToBig);
      ok := SwapRecords(a, HostToBig, kind == INDEX_KIND, offs);
      if !ok { return; }
      r := RecordSet(b, HostToBig, kind == INDEX_KIND, offs, 0);
      Between(r, offs[0], offs[n], a.Length - 2 * (n + 1));
    }
    ok := SwapRest(a, totalNodes, blockNum, b, r);
    if ok {
      ghost var start := a.Length - 2 * (n + 1);
      assert r + HeaderFields() + Names(start, n + 1) == HeaderFields() + Names(start, n + 1) + r;
    }
  }

  lemma PointingWithin(b: seq<Byte>, d: Direction)
    requires |b| >= DESCRIPTOR && Pointing(b, d)
    ensures var o := Offsets(b, d, Count(b, d)); Within(o, |b|)
  {
    hide Offsets;
  }

  /** The descriptor and the table, once the records `r` are swapped. */
  method SwapRest(a: array<Byte>, totalNodes: nat, blockNum: nat, ghost b: seq<Byte>,
                  ghost r: set<Field>) returns (ok: bool)
    requires a.Length == |b| >= DESCRIPTOR && Flipped(b, a[..], r)
    requires InRegion(r, DESCRIPTOR, TableStart(b, HostToBig))
    modifies a
    ensures ok == (LinksOk(Value32(b, HostToBig, 0), Value32(b, HostToBig, 4), totalNodes, blockNum) &&
                   (HasRecords(b) || b[8] == MAP_KIND) && b[9] <= MAX_DEPTH && TableOk(b, HostToBig))
    ensures ok ==>
              Flipped(b, a[..], r + HeaderFields() + Names(|b| - 2 * (Count(b, HostToBig) + 1), Count(b, HostToBig) + 1))
  {
    hide Flipped, InRegion, Value32, Value16, OffsetsOk, Names, SameBytes, HeaderFields, AllApart, Offsets, LinksOk;
    ghost var c, m, start := a[..], Count(b, HostToBig), TableStart(b, HostToBig);
    Untouched32(b, c, r, DESCRIPTOR, start, HostToBig, 0);
    Untouched32(b, c, r, DESCRIPTOR, start, HostToBig, 4);
    Untouched(b, c, r, DESCRIPTOR, start, HostToBig, 10);
    BytesSame(b, c, r, start);
    var n;
    ok, n := SwapDescriptor(a, HostToBig, totalNodes, blockNum);
    ghost var e := a[..];
    if !ok || !(a[8] == LEAF_KIND || a[8] == INDEX_KIND || a[8] == MAP_KIND) { return false; }
    if DESCRIPTOR + 2 * (n + 1) > a.Length { return false; }
    HeaderRegion();
    OutsideSame(b, c, r, DESCRIPTOR, start, start, |b|);
    OutsideSame(c, e, HeaderFields(), 0, 12, start, |b|);
    SameOffsets(b, c, HostToBig, m);
    SameOffsets(c, e, HostToBig, m);
    ok := SwapTable(a, HostToBig, n);
    ghost var t := Names(start, m + 1);
    NamesMore(start, m + 1);
    PartsApart(HeaderFields(), t, r, start, |b|);
    FlipMore(b, c, e, r, HeaderFields());
    if ok { FlipMore(b, e, a[..], r + HeaderFields(), t); }
  }

  /** Where the table of offsets starts, if it fits behind the descriptor. */
  function TableStart(b: seq<Byte>, d: Direction): (start: nat)
    requires |b| >= DESCRIPTOR
    ensures DESCRIPTOR <= start <= |b|
  { if DESCRIPTOR + 2 * (Count(b, d) + 1) <= |b| then |b| - 2 * (Count(b, d) + 1) else DESCRIPTOR }

  lemma BytesSame(b: seq<Byte>, c: seq<Byte>, r: set<Field>, start: nat)
    requires |b| >= DESCRIPTOR && Flipped(b, c, r) && InRegion(r, DESCRIPTOR, start)
    ensures |c| == |b| && c[8] == b[8] && c[9] == b[9]
  {
    assert !Covered(r, 8) && !Covered(r, 9);
  }

  /** A node read from disk and written back: if it is accepted, it is accepted both ways and the
      bytes are as they were. */
  method SwapThereAndBack(a: array<Byte>, totalNodes: nat, blockNum: nat) returns (ok: bool)
    requires a.Length >= DESCRIPTOR && totalNodes != 0 && a[8] != 1
    modifies a
    ensures ok == NodeOk(old(a[..]), BigToHost, totalNodes, blockNum)
    ensures ok ==> a[..] == old(a[..])
  {
    hide Flipped, NodeFields, NodeOk, Pointing;
    ghost var b := a[..];
    ok := SwapToHost(a, totalNodes, blockNum);
    if !ok { return; }
    ghost var c := a[..];
    NodeKept(b, c, BigToHost, totalNodes, blockNum);
    NodePointing(c, HostToBig, totalNodes, blockNum);
    ok := SwapToDisk(a, totalNodes, blockNum);
    NodeRoundTrip(b, c, a[..], BigToHost, totalNodes, blockNum);
  }

  lemma NodePointing(b: seq<Byte>, d: Direction, totalNodes: nat, blockNum: nat)
    requires |b| >= DESCRIPTOR && NodeOk(b, d, totalNodes, blockNum)
    ensures b[8] != 1 && Pointing(b, d)
  {
    hide Value16, Value32, Offsets, RecordsOk;
    var n := Count(b, d);
    GoodTable(b, d, n);
    var o := Offsets(b, d, n);
    forall k | 0 <= k <= n ensures DESCRIPTOR <= o[k] <= |b| - 2 * (n + 1) {
      assert k > 0 ==> o[0] < o[k];
      assert k < n ==> o[k] < o[n];
    }
  }
}
