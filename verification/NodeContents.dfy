/** What the bytes of a catalog node say, field by field at the offsets of the on-disk format,
    and that swapping a node keeps what it says. */
module NodeContents {
  import opened NodeSwaps

  /** What folder and file records have in common. `word` is the valence of a folder and the
      first link of a file; `bsdFlags` and `finder` are bytes that have no order. */
  datatype Common = Common(flags: nat, word: nat, id: nat, createDate: nat, contentModDate: nat, attributeModDate: nat,
                           accessDate: nat, backupDate: nat, ownerId: nat, groupId: nat, bsdFlags: seq<Byte>,
                           fileMode: nat, special: nat, finder: seq<Byte>, textEncoding: nat)

  /** A fork: its size, and the start and length of its first eight extents. */
  datatype Fork = Fork(logicalSize: nat, clumpSize: nat, totalBlocks: nat, extents: seq<nat>)

  datatype Data =
    | Child(node: nat)
    | Folder(common: Common, folderCount: nat)
    | File(common: Common, reserved: seq<Byte>, dataFork: Fork, resourceFork: Fork)
    | Thread(kind: nat, reserved: seq<Byte>, parent: nat, name: seq<nat>)

  /** A record: its key, its data and the bytes that belong to neither. */
  datatype Record = Record(keyLength: nat, parent: nat, name: seq<nat>, keyRest: seq<Byte>, data: Data, rest: seq<Byte>)

  datatype Node = Node(fLink: nat, bLink: nat, kind: Byte, height: Byte, count: nat, reserved: seq<Byte>,
                       offsets: seq<nat>, front: seq<Byte>, records: seq<Record>, free: seq<Byte>)

  // --------------------------------------------------------------------- reading

  function Value64(b: seq<Byte>, d: Direction, i: nat): nat
    requires i + 8 <= |b|
  {
    if d.BigToHost? then Value32(b, d, i) * 0x1_0000_0000 + Value32(b, d, i + 4)
    else Value32(b, d, i + 4) * 0x1_0000_0000 + Value32(b, d, i)
  }

  function ReadName(b: seq<Byte>, d: Direction, i: nat, n: nat): (s: seq<nat>)
    requires i + 2 * n <= |b|
    ensures |s| == n
  { seq(n, j requires 0 <= j < n => Value16(b, d, i + 2 * j)) }

  function ReadWords(b: seq<Byte>, d: Direction, i: nat, n: nat): (s: seq<nat>)
    requires i + 4 * n <= |b|
    ensures |s| == n
  { if n == 0 then [] else ReadWords(b, d, i, n - 1) + [Value32(b, d, i + 4 * (n - 1))] }

  function ReadCommon(b: seq<Byte>, d: Direction, p: nat): Common
    requires p + 84 <= |b|
  {
    Common(Value16(b, d, p + 2), Value32(b, d, p + 4), Value32(b, d, p + 8), Value32(b, d, p + 12), Value32(b, d, p + 16),
           Value32(b, d, p + 20), Value32(b, d, p + 24), Value32(b, d, p + 28), Value32(b, d, p + 32), Value32(b, d, p + 36),
           b[p + 40..p + 42], Value16(b, d, p + 42), Value32(b, d, p + 44), b[p + 48..p + 80], Value32(b, d, p + 80))
  }

  function ReadFork(b: seq<Byte>, d: Direction, p: nat): Fork
    requires p + 80 <= |b|
  {
        Fork(Value64(b, d, p), Value32(b, d, p + 8), Value32(b, d, p + 12), ReadWords(b, d, p + 16, 16))
  }

  function ReadData(b: seq<Byte>, d: Direction, index: bool, p: nat, next: nat): Data
    requires p + 4 <= next <= |b| && DataOk(b, d, index, p, next)
  {
    if index then Child(Value32(b, d, p))
    else if Value16(b, d, p) == FOLDER then Folder(ReadCommon(b, d, p), Value32(b, d, p + 84))
    else if Value16(b, d, p) == FILE then
      File(ReadCommon(b, d, p), b[p + 84..p + 88], ReadFork(b, d, p + 88), ReadFork(b, d, p + 168))
    else Thread(Value16(b, d, p), b[p + 2..p + 4], Value32(b, d, p + 4), ReadName(b, d, p + 10, Value16(b, d, p + 8)))
  }

  /** The length of the data of a record. */
  function DataSize(b: seq<Byte>, d: Direction, index: bool, p: nat, next: nat): (n: nat)
    requires p + 4 <= next <= |b| && DataOk(b, d, index, p, next)
    ensures p + n <= next
  {
    if index then 4
    else if Value16(b, d, p) == FOLDER then 88
    else if Value16(b, d, p) == FILE then 248
    else 10 + 2 * Value16(b, d, p + 8)
  }

  function ReadRecord(b: seq<Byte>, d: Direction, index: bool, off: nat, next: nat): Record
    requires next <= |b| && RecordOk(b, d, index, off, next)
  {
    var n, p := Value16(b, d, off + 6), DataStart(b, d, off);
    Record(Value16(b, d, off), Value32(b, d, off + 2), ReadName(b, d, off + 8, n), b[off + 8 + 2 * n..p],
           ReadData(b, d, index, p, next), b[p + DataSize(b, d, index, p, next)..next])
  }

  /** The records from the offsets on. */
  function ReadRecords(b: seq<Byte>, d: Direction, index: bool, offs: seq<nat>): (s: seq<Record>)
    requires Within(offs, |b|) && RecordsOk(b, d, index, offs, 0)
    ensures |s| == |offs| - 1
  { seq(|offs| - 1, m requires 0 <= m < |offs| - 1 => ReadRecord(b, d, index, offs[m], offs[m + 1])) }

  function ReadNode(b: seq<Byte>, d: Direction, totalNodes: nat, blockNum: nat): Node
    requires |b| >= DESCRIPTOR && NodeOk(b, d, totalNodes, blockNum)
  {
    var n := Count(b, d);
    var offs := Offsets(b, d, n);
    var start := |b| - 2 * (n + 1);
    OffsetBounds(b, d);
    Node(Value32(b, d, 0), Value32(b, d, 4), b[8], b[9], n, b[12..14], offs,
         if HasRecords(b) then b[14..offs[0]] else b[14..start],
         if HasRecords(b) then ReadRecords(b, d, b[8] == INDEX_KIND, offs) else [],
         if HasRecords(b) then b[offs[n]..start] else [])
  }

  lemma OffsetBounds(b: seq<Byte>, d: Direction)
    requires |b| >= DESCRIPTOR && TableOk(b, d)
    ensures var n := Count(b, d); var offs := Offsets(b, d, n);
            && Within(offs, |b|) && Ascending(offs, 0, |b|) && DESCRIPTOR <= offs[0] <= offs[n] <= |b| - 2 * (n + 1)
  {
    hide Value16, Offsets;
    GoodTable(b, d, Count(b, d));
    AscendingWithin(Offsets(b, d, Count(b, d)), 0, |b|);
  }

  // ------------------------------------------------------------- single values

  /** No swapped field covers a byte of [lo, hi). */
  ghost predicate Gap(s: set<Field>, lo: nat, hi: nat) { forall i: nat :: lo <= i < hi ==> !Covered(s, i) }

  lemma GapKept(b: seq<Byte>, c: seq<Byte>, s: set<Field>, lo: nat, hi: nat)
    requires Flipped(b, c, s) && lo <= hi <= |b| && Gap(s, lo, hi)
    ensures |c| == |b| && c[lo..hi] == b[lo..hi]
  {
  }

  lemma Value64Kept(b: seq<Byte>, c: seq<Byte>, s: set<Field>, d: Direction, i: nat)
    requires Flipped(b, c, s) && Field(i, 8) in s && i + 8 <= |b|
    ensures |c| == |b| && Value64(c, Opposite(d), i) == Value64(b, d, i)
  {
    hide Flipped, Value64, Value32, Covered;
    SameSize(b, c, s);
    forall j: nat | i <= j < i + 8 ensures c[j] == b[2 * i + 7 - j] { FlippedAt(b, c, s, Field(i, 8), j); }
    EightReversed(b, c, d, i);
  }

  lemma EightReversed(b: seq<Byte>, c: seq<Byte>, d: Direction, i: nat)
    requires |c| == |b| && i + 8 <= |b| && forall j: nat :: i <= j < i + 8 ==> c[j] == b[2 * i + 7 - j]
    ensures Value64(c, Opposite(d), i) == Value64(b, d, i)
  {
    hide Pair;
    assert c[i] == b[i + 7] && c[i + 1] == b[i + 6] && c[i + 2] == b[i + 5] && c[i + 3] == b[i + 4];
    assert c[i + 4] == b[i + 3] && c[i + 5] == b[i + 2] && c[i + 6] == b[i + 1] && c[i + 7] == b[i];
  }

  lemma NameKept(b: seq<Byte>, c: seq<Byte>, s: set<Field>, d: Direction, i: nat, n: nat)
    requires Flipped(b, c, s) && Names(i, n) <= s && i + 2 * n <= |b|
    ensures |c| == |b| && ReadName(c, Opposite(d), i, n) == ReadName(b, d, i, n)
  {
    hide Flipped, Value16, Names;
    SameSize(b, c, s);
    forall j: nat | j < n ensures Value16(c, Opposite(d), i + 2 * j) == Value16(b, d, i + 2 * j) { CharKept(b, c, s, d, i, n, j); }
  }

  lemma CharKept(b: seq<Byte>, c: seq<Byte>, s: set<Field>, d: Direction, i: nat, n: nat, j: nat)
    requires Flipped(b, c, s) && Names(i, n) <= s && i + 2 * n <= |b| && j < n
    ensures |c| == |b| && Value16(c, Opposite(d), i + 2 * j) == Value16(b, d, i + 2 * j)
  {
    CharNamed(i, n, j);
    hide Flipped, Value16, Names;
    ValueKept(b, c, s, d, Field(i + 2 * j, 2));
  }

  lemma CharNamed(i: nat, n: nat, j: nat)
    requires j < n
    ensures Field(i + 2 * j, 2) in Names(i, n)
  {
    assert Cell(i, j, 2) == Field(i + 2 * j, 2);
  }

  lemma QuadKept(b: seq<Byte>, c: seq<Byte>, s: set<Field>, d: Direction, base: nat, n: nat, j: nat)
    requires Flipped(b, c, s) && Quads(base, n) <= s && j < n && base + 4 * n <= |b|
    ensures |c| == |b| && Value32(c, Opposite(d), base + 4 * j) == Value32(b, d, base + 4 * j)
  {
    QuadNamed(base, n, j);
    hide Flipped, Value32, Quads;
    ValueKept(b, c, s, d, Field(base + 4 * j, 4));
  }

  lemma QuadNamed(base: nat, n: nat, j: nat)
    requires j < n
    ensures Field(base + 4 * j, 4) in Quads(base, n)
  {
    assert Cell(base, j, 4) == Field(base + 4 * j, 4);
  }

  // ----------------------------------------------------------------- record data

  lemma CommonKept(b: seq<Byte>, c: seq<Byte>, s: set<Field>, d: Direction, p: nat)
    requires p + 84 <= |b| && Flipped(b, c, s) && CommonFields(p) <= s && Gap(s, p + 40, p + 42)
    requires Gap(s, p + 48, p + 80)
    ensures |c| == |b| && ReadCommon(c, Opposite(d), p) == ReadCommon(b, d, p)
  {
    GapKept(b, c, s, p + 40, p + 42);
    GapKept(b, c, s, p + 48, p + 80);
    hide Flipped, Value16, Value32, Quads, Gap;
    CommonQuads(b, c, s, d, p);
    ValueKept(b, c, s, d, Field(p + 2, 2));
    ValueKept(b, c, s, d, Field(p + 42, 2));
    ValueKept(b, c, s, d, Field(p + 44, 4));
    ValueKept(b, c, s, d, Field(p + 80, 4));
  }

  /** The nine words after the flags. */
  lemma CommonQuads(b: seq<Byte>, c: seq<Byte>, s: set<Field>, d: Direction, p: nat)
    requires p + 84 <= |b| && Flipped(b, c, s) && CommonFields(p) <= s
    ensures |c| == |b| && Value32(c, Opposite(d), p + 4) == Value32(b, d, p + 4)
    ensures Value32(c, Opposite(d), p + 8) == Value32(b, d, p + 8)
    ensures Value32(c, Opposite(d), p + 12) == Value32(b, d, p + 12)
    ensures Value32(c, Opposite(d), p + 16) == Value32(b, d, p + 16)
    ensures Value32(c, Opposite(d), p + 20) == Value32(b, d, p + 20)
    ensures Value32(c, Opposite(d), p + 24) == Value32(b, d, p + 24)
    ensures Value32(c, Opposite(d), p + 28) == Value32(b, d, p + 28)
    ensures Value32(c, Opposite(d), p + 32) == Value32(b, d, p + 32)
    ensures Value32(c, Opposite(d), p + 36) == Value32(b, d, p + 36)
  {
    hide Flipped, Value32, Quads;
    assert Quads(p + 4, 9) <= s;
    hide CommonFields;
    QuadKept(b, c, s, d, p + 4, 9, 0);
    QuadKept(b, c, s, d, p + 4, 9, 1);
    QuadKept(b, c, s, d, p + 4, 9, 2);
    QuadKept(b, c, s, d, p + 4, 9, 3);
    QuadKept(b, c, s, d, p + 4, 9, 4);
    QuadKept(b, c, s, d, p + 4, 9, 5);
    QuadKept(b, c, s, d, p + 4, 9, 6);
    QuadKept(b, c, s, d, p + 4, 9, 7);
    QuadKept(b, c, s, d, p + 4, 9, 8);
  }

  lemma ForkKept(b: seq<Byte>, c: seq<Byte>, s: set<Field>, d: Direction, p: nat)
    requires p + 80 <= |b| && Flipped(b, c, s) && ForkFields(p) <= s
    ensures |c| == |b| && ReadFork(c, Opposite(d), p) == ReadFork(b, d, p)
  {
    hide Flipped, Value32, Value64, Quads, ForkFields, ReadWords;
    ForkIn(p, s);
    Value64Kept(b, c, s, d, p);
    QuadKept(b, c, s, d, p + 8, 18, 0);
    QuadKept(b, c, s, d, p + 8, 18, 1);
    ExtentsKept(b, c, s, d, p, 16);
  }

  lemma ForkIn(p: nat, s: set<Field>)
    requires ForkFields(p) <= s
    ensures Field(p, 8) in s && Quads(p + 8, 18) <= s
  {
    hide Quads;
  }

  lemma {:induction false} ExtentsKept(b: seq<Byte>, c: seq<Byte>, s: set<Field>, d: Direction, p: nat, n: nat)
    requires p + 80 <= |b| && Flipped(b, c, s) && Quads(p + 8, 18) <= s && n <= 16
    ensures |c| == |b| && ReadWords(c, Opposite(d), p + 16, n) == ReadWords(b, d, p + 16, n)
  {
    hide Flipped, Value32, Quads;
    SameSize(b, c, s);
    if n > 0 {
      ExtentsKept(b, c, s, d, p, n - 1);
      ExtentKept(b, c, s, d, p, n - 1);
    }
  }

  lemma ExtentKept(b: seq<Byte>, c: seq<Byte>, s: set<Field>, d: Direction, p: nat, j: nat)
    requires p + 80 <= |b| && Flipped(b, c, s) && Quads(p + 8, 18) <= s && j < 16
    ensures |c| == |b| && Value32(c, Opposite(d), p + 16 + 4 * j) == Value32(b, d, p + 16 + 4 * j)
  {
    hide Flipped, Value32, Quads;
    QuadKept(b, c, s, d, p + 8, 18, j + 2);
    assert p + 8 + 4 * (j + 2) == p + 16 + 4 * j;
  }

  /** In [lo, hi) only fields of `x` are swapped. */
  ghost predicate Only(s: set<Field>, x: set<Field>, lo: nat, hi: nat) {
    forall i: nat :: lo <= i < hi && Covered(s, i) ==> Covered(x, i)
  }

  lemma OnlyGap(s: set<Field>, x: set<Field>, lo: nat, hi: nat, from: nat, to: nat)
    requires Only(s, x, lo, hi) && lo <= from && to <= hi && Gap(x, from, to)
    ensures Gap(s, from, to)
  {
    hide Covered;
  }

  lemma CommonGaps(p: nat)
    ensures Gap(CommonFields(p), p + 40, p + 42) && Gap(CommonFields(p), p + 48, p + 80)
  {
    hide Quads;
    QuadsMore(p + 4, 9);
  }

  lemma OutGap(x: set<Field>, lo: int, hi: int, from: nat, to: nat)
    requires InRegion(x, lo, hi) && (to <= lo || hi <= from)
    ensures Gap(x, from, to)
  {
  }

  lemma GapUnion(x: set<Field>, y: set<Field>, from: nat, to: nat)
    requires Gap(x, from, to) && Gap(y, from, to)
    ensures Gap(x + y, from, to)
  {
    forall i: nat | from <= i < to ensures !Covered(x + y, i) { CoveredEither(x, y, i); }
  }

  lemma CoveredEither(x: set<Field>, y: set<Field>, i: nat)
    ensures Covered(x + y, i) <==> Covered(x, i) || Covered(y, i)
  {
    if Covered(x, i) {
      var f: Field :| f in x && f.Holds(i);
      assert f in x + y;
    }
    if Covered(y, i) {
      var f: Field :| f in y && f.Holds(i);
      assert f in x + y;
    }
  }

  lemma FolderGaps(p: nat, next: nat)
    ensures var x := {Field(p, 2)} + CommonFields(p) + {Field(p + 84, 4)};
            Gap(x, p + 40, p + 42) && Gap(x, p + 48, p + 80) && Gap(x, p + 88, next)
  {
    hide CommonFields, Gap, InRegion;
    var a, m, z := {Field(p, 2)}, CommonFields(p), {Field(p + 84, 4)};
    CommonGaps(p);
    OneRegion(p, 2);
    OneRegion(p + 84, 4);
    FixedRegions(p);
    OutGap(a, p, p + 2, p + 40, p + 42);
    OutGap(a, p, p + 2, p + 48, p + 80);
    OutGap(z, p + 84, p + 88, p + 40, p + 42);
    OutGap(z, p + 84, p + 88, p + 48, p + 80);
    GapUnion(a, m, p + 40, p + 42);
    GapUnion(a, m, p + 48, p + 80);
    GapUnion(a + m, z, p + 40, p + 42);
    GapUnion(a + m, z, p + 48, p + 80);
    OutGap(a + m + z, p, p + 88, p + 88, next);
  }

  lemma FileGaps(p: nat, next: nat)
    ensures var x := {Field(p, 2)} + CommonFields(p) + ForkFields(p + 88) + ForkFields(p + 168);
            Gap(x, p + 40, p + 42) && Gap(x, p + 48, p + 80) && Gap(x, p + 84, p + 88) && Gap(x, p + 248, next)
  {
    hide CommonFields, ForkFields, Gap, InRegion;
    var a, m, u, v := {Field(p, 2)}, CommonFields(p), ForkFields(p + 88), ForkFields(p + 168);
    CommonGaps(p);
    OneRegion(p, 2);
    FixedRegions(p);
    CommonRegion(p);
    FileGap(a, m, u, v, p, p + 40, p + 42);
    FileGap(a, m, u, v, p, p + 48, p + 80);
    OutGap(m, p + 2, p + 84, p + 84, p + 88);
    FileGap(a, m, u, v, p, p + 84, p + 88);
    OutGap(a + m + u + v, p, p + 248, p + 248, next);
  }

  lemma FileGap(a: set<Field>, m: set<Field>, u: set<Field>, v: set<Field>, p: nat, from: nat, to: nat)
    requires InRegion(a, p, p + 2) && InRegion(u, p + 88, p + 168) && InRegion(v, p + 168, p + 248)
    requires p + 2 <= from <= to <= p + 88 && Gap(m, from, to)
    ensures Gap(a + m + u + v, from, to)
  {
    hide Gap, InRegion;
    OutGap(a, p, p + 2, from, to);
    OutGap(u, p + 88, p + 168, from, to);
    OutGap(v, p + 168, p + 248, from, to);
    GapUnion(a, m, from, to);
    GapUnion(a + m, u, from, to);
    GapUnion(a + m + u, v, from, to);
  }

  lemma ThreadGaps(p: nat, n: nat, next: nat)
    ensures var x := {Field(p, 2)} + {Field(p + 4, 4)} + {Field(p + 8, 2)} + Names(p + 10, n);
            Gap(x, p + 2, p + 4) && Gap(x, p + 10 + 2 * n, next)
  {
    hide Names, Gap, InRegion;
    var a, e, g, m := {Field(p, 2)}, {Field(p + 4, 4)}, {Field(p + 8, 2)}, Names(p + 10, n);
    OneRegion(p, 2);
    OneRegion(p + 4, 4);
    OneRegion(p + 8, 2);
    NamesMore(p + 10, n);
    ThreadRegion(p, n);
    OutGap(a, p, p + 2, p + 2, p + 4);
    OutGap(e, p + 4, p + 8, p + 2, p + 4);
    OutGap(g, p + 8, p + 10, p + 2, p + 4);
    OutGap(m, p + 10, p + 10 + 2 * n, p + 2, p + 4);
    GapUnion(a, e, p + 2, p + 4);
    GapUnion(a + e, g, p + 2, p + 4);
    GapUnion(a + e + g, m, p + 2, p + 4);
    OutGap(a + e + g + m, p, p + 10 + 2 * n, p + 10 + 2 * n, next);
  }

  /** Record data whose fields have been swapped says the same. */
  lemma DataMeansSame(b: seq<Byte>, c: seq<Byte>, s: set<Field>, d: Direction, index: bool, p: nat, next: nat)
    requires p + 4 <= next <= |b| == |c| && DataOk(b, d, index, p, next) && DataOk(c, Opposite(d), index, p, next)
    requires Flipped(b, c, s) && DataFields(b, d, index, p, next) <= s
    requires Only(s, DataFields(b, d, index, p, next), p, next)
    ensures ReadData(c, Opposite(d), index, p, next) == ReadData(b, d, index, p, next)
    ensures DataSize(c, Opposite(d), index, p, next) == DataSize(b, d, index, p, next)
    ensures var e := p + DataSize(b, d, index, p, next); c[e..next] == b[e..next]
  {
    hide Flipped, Value16, Value32, Only, CommonFields, ForkFields, Names, Gap, ReadCommon, ReadFork, ReadName;
    var x := DataFields(b, d, index, p, next);
    if index {
      ValueKept(b, c, s, d, Field(p, 4));
      OneRegion(p, 4);
      OutGap(x, p, p + 4, p + 4, next);
      OnlyGap(s, x, p, next, p + 4, next);
      GapKept(b, c, s, p + 4, next);
    } else {
      ValueKept(b, c, s, d, Field(p, 2));
      if Value16(b, d, p) == FOLDER {
        FolderMeansSame(b, c, s, d, p, next);
      } else if Value16(b, d, p) == FILE {
        FileMeansSame(b, c, s, d, p, next);
      } else {
        ThreadMeansSame(b, c, s, d, p, next);
      }
    }
  }

  lemma FolderMeansSame(b: seq<Byte>, c: seq<Byte>, s: set<Field>, d: Direction, p: nat, next: nat)
    requires p + 88 <= next <= |b| == |c| && Flipped(b, c, s)
    requires var x := {Field(p, 2)} + CommonFields(p) + {Field(p + 84, 4)}; x <= s && Only(s, x, p, next)
    ensures ReadCommon(c, Opposite(d), p) == ReadCommon(b, d, p)
    ensures Value32(c, Opposite(d), p + 84) == Value32(b, d, p + 84) && c[p + 88..next] == b[p + 88..next]
  {
    hide Flipped, Value16, Value32, Only, CommonFields, Gap, ReadCommon;
    var x := {Field(p, 2)} + CommonFields(p) + {Field(p + 84, 4)};
    FolderGaps(p, next);
    OnlyGap(s, x, p, next, p + 40, p + 42);
    OnlyGap(s, x, p, next, p + 48, p + 80);
    OnlyGap(s, x, p, next, p + 88, next);
    CommonKept(b, c, s, d, p);
    ValueKept(b, c, s, d, Field(p + 84, 4));
    GapKept(b, c, s, p + 88, next);
  }

  lemma FileMeansSame(b: seq<Byte>, c: seq<Byte>, s: set<Field>, d: Direction, p: nat, next: nat)
    requires p + 248 <= next <= |b| == |c| && Flipped(b, c, s)
    requires var x := {Field(p, 2)} + CommonFields(p) + ForkFields(p + 88) + ForkFields(p + 168);
             x <= s && Only(s, x, p, next)
    ensures ReadCommon(c, Opposite(d), p) == ReadCommon(b, d, p) && c[p + 84..p + 88] == b[p + 84..p + 88]
    ensures ReadFork(c, Opposite(d), p + 88) == ReadFork(b, d, p + 88)
    ensures ReadFork(c, Opposite(d), p + 168) == ReadFork(b, d, p + 168) && c[p + 248..next] == b[p + 248..next]
  {
    hide Flipped, Only, CommonFields, ForkFields, Gap, ReadCommon, ReadFork;
    var x := {Field(p, 2)} + CommonFields(p) + ForkFields(p + 88) + ForkFields(p + 168);
    FileGaps(p, next);
    OnlyGap(s, x, p, next, p + 40, p + 42);
    OnlyGap(s, x, p, next, p + 48, p + 80);
    OnlyGap(s, x, p, next, p + 84, p + 88);
    OnlyGap(s, x, p, next, p + 248, next);
    CommonKept(b, c, s, d, p);
    GapKept(b, c, s, p + 84, p + 88);
    ForkKept(b, c, s, d, p + 88);
    ForkKept(b, c, s, d, p + 168);
    GapKept(b, c, s, p + 248, next);
  }

  lemma ThreadMeansSame(b: seq<Byte>, c: seq<Byte>, s: set<Field>, d: Direction, p: nat, next: nat)
    requires p + 10 <= next <= |b| == |c| && Flipped(b, c, s)
    requires var n := Value16(b, d, p + 8); var x := {Field(p, 2)} + {Field(p + 4, 4)} + {Field(p + 8, 2)} + Names(p + 10, n);
             p + 10 + 2 * n <= next && x <= s && Only(s, x, p, next)
    ensures var n := Value16(b, d, p + 8);
            && Value16(c, Opposite(d), p + 8) == n && Value32(c, Opposite(d), p + 4) == Value32(b, d, p + 4)
            && c[p + 2..p + 4] == b[p + 2..p + 4] && ReadName(c, Opposite(d), p + 10, n) == ReadName(b, d, p + 10, n)
            && c[p + 10 + 2 * n..next] == b[p + 10 + 2 * n..next]
  {
    hide Flipped, Value16, Value32, Only, Names, Gap, ReadName;
    var n := Value16(b, d, p + 8);
    var x := {Field(p, 2)} + {Field(p + 4, 4)} + {Field(p + 8, 2)} + Names(p + 10, n);
    ThreadGaps(p, n, next);
    OnlyGap(s, x, p, next, p + 2, p + 4);
    OnlyGap(s, x, p, next, p + 10 + 2 * n, next);
    ValueKept(b, c, s, d, Field(p + 4, 4));
    ValueKept(b, c, s, d, Field(p + 8, 2));
    NameKept(b, c, s, d, p + 10, n);
    GapKept(b, c, s, p + 2, p + 4);
    GapKept(b, c, s, p + 10 + 2 * n, next);
  }

  // ----------------------------------------------------------------------- records

  /** A record whose fields have been swapped says the same. */
  lemma RecordMeansSame(b: seq<Byte>, c: seq<Byte>, s: set<Field>, d: Direction, index: bool, off: nat, next: nat)
    requires next <= |b| == |c| && RecordOk(b, d, index, off, next) && RecordOk(c, Opposite(d), index, off, next)
    requires Flipped(b, c, s) && RecordFields(b, d, index, off, next) <= s
    requires Only(s, RecordFields(b, d, index, off, next), off, next)
    ensures ReadRecord(c, Opposite(d), index, off, next) == ReadRecord(b, d, index, off, next)
  {
    hide Flipped, Value16, Value32, Only, KeyFields, DataFields, DataOk, ReadName, ReadData, DataSize;
    KeyMeansSame(b, c, s, d, index, off, next);
    DataOnly(b, d, index, off, next, s);
    var p := DataStart(b, d, off);
    assert DataStart(c, Opposite(d), off) == p;
    DataIn(b, d, index, off, next, s);
    hide KeyOk, RecordFields;
    DataMeansSame(b, c, s, d, index, p, next);
  }

  lemma DataIn(b: seq<Byte>, d: Direction, index: bool, off: nat, next: nat, s: set<Field>)
    requires next <= |b| && RecordOk(b, d, index, off, next) && RecordFields(b, d, index, off, next) <= s
    ensures DataFields(b, d, index, DataStart(b, d, off), next) <= s
  {
    hide Value16, KeyFields, DataFields, DataOk, KeyOk;
  }

  lemma DataOnly(b: seq<Byte>, d: Direction, index: bool, off: nat, next: nat, s: set<Field>)
    requires next <= |b| && RecordOk(b, d, index, off, next) && Only(s, RecordFields(b, d, index, off, next), off, next)
    ensures var p := DataStart(b, d, off); Only(s, DataFields(b, d, index, p, next), p, next)
  {
    hide Value16, KeyFields, DataFields, DataOk, KeyOk;
    KeyFits(b, d, off, next);
    KeyRegion(b, d, off, next);
    var p := DataStart(b, d, off);
    var k, x := KeyFields(b, d, off), DataFields(b, d, index, p, next);
    forall i: nat | p <= i < next && Covered(s, i) ensures Covered(x, i) {
      var f: Field :| f in k + x && f.Holds(i);
      assert f in x;
    }
  }

  lemma KeyMeansSame(b: seq<Byte>, c: seq<Byte>, s: set<Field>, d: Direction, index: bool, off: nat, next: nat)
    requires next <= |b| == |c| && RecordOk(b, d, index, off, next) && Flipped(b, c, s)
    requires RecordFields(b, d, index, off, next) <= s && Only(s, RecordFields(b, d, index, off, next), off, next)
    ensures var n, p := Value16(b, d, off + 6), DataStart(b, d, off);
            && Value16(c, Opposite(d), off) == Value16(b, d, off)
            && Value32(c, Opposite(d), off + 2) == Value32(b, d, off + 2)
            && Value16(c, Opposite(d), off + 6) == n
            && ReadName(c, Opposite(d), off + 8, n) == ReadName(b, d, off + 8, n)
            && c[off + 8 + 2 * n..p] == b[off + 8 + 2 * n..p]
  {
    hide Flipped, Value16, Value32, Only, Names, Gap, ReadName, DataFields, DataOk;
    var n, p := Value16(b, d, off + 6), DataStart(b, d, off);
    ValueKept(b, c, s, d, Field(off, 2));
    ValueKept(b, c, s, d, Field(off + 2, 4));
    ValueKept(b, c, s, d, Field(off + 6, 2));
    NameKept(b, c, s, d, off + 8, n);
    KeyGap(off, n, p);
    DataRegion(b, d, index, p, next);
    OutGap(DataFields(b, d, index, p, next), p, next, off + 8 + 2 * n, p);
    GapUnion(KeyFields(b, d, off), DataFields(b, d, index, p, next), off + 8 + 2 * n, p);
    OnlyGap(s, RecordFields(b, d, index, off, next), off, next, off + 8 + 2 * n, p);
    GapKept(b, c, s, off + 8 + 2 * n, p);
  }

  lemma KeyGap(off: nat, n: nat, p: nat)
    ensures Gap({Field(off, 2)} + {Field(off + 2, 4)} + {Field(off + 6, 2)} + Names(off + 8, n), off + 8 + 2 * n, p)
  {
    hide Names;
    NamesMore(off + 8, n);
  }

  // --------------------------------------------------------------------- the node

  lemma {:induction false} SetOnly(b: seq<Byte>, d: Direction, index: bool, offs: seq<nat>, k: nat, m: nat)
    requires Ascending(offs, 0, |b|) && Within(offs, |b|) && k <= m < |offs| - 1 && RecordsOk(b, d, index, offs, k)
    ensures RecordFields(b, d, index, offs[m], offs[m + 1]) <= RecordSet(b, d, index, offs, k)
    ensures Only(RecordSet(b, d, index, offs, k), RecordFields(b, d, index, offs[m], offs[m + 1]), offs[m], offs[m + 1])
    decreases m - k
  {
    hide RecordOk, RecordFields;
    var x, t := RecordFields(b, d, index, offs[k], offs[k + 1]), RecordSet(b, d, index, offs, k + 1);
    RecordRegion(b, d, index, offs[k], offs[k + 1]);
    RecordSetRegion(b, d, index, offs, k + 1);
    if m == k {
      OutGap(t, offs[k + 1], offs[|offs| - 1], offs[k], offs[k + 1]);
      OnlyOne(t, x, x, offs[k], offs[k + 1]);
      assert x + t == t + x;
    } else {
      SetOnly(b, d, index, offs, k + 1, m);
      OutGap(x, offs[k], offs[k + 1], offs[m], offs[m + 1]);
      OnlyOne(x, t, RecordFields(b, d, index, offs[m], offs[m + 1]), offs[m], offs[m + 1]);
      assert x + t == t + x;
    }
  }

  /** Fields that leave a gap add nothing there. */
  lemma OnlyOne(t: set<Field>, s: set<Field>, x: set<Field>, lo: nat, hi: nat)
    requires Gap(t, lo, hi) && Only(s, x, lo, hi)
    ensures Only(t + s, x, lo, hi)
  {
    hide Covered;
    forall i: nat | lo <= i < hi && Covered(t + s, i) ensures Covered(x, i) { CoveredEither(t, s, i); }
  }

  /** hfs_swap_BTNode keeps what a node says: read in the other byte order, the swapped node has
      the same header, offsets, keys and record contents, and the same bytes everywhere else. */
  lemma NodeMeansSame(b: seq<Byte>, c: seq<Byte>, d: Direction, totalNodes: nat, blockNum: nat)
    requires |b| >= DESCRIPTOR && NodeOk(b, d, totalNodes, blockNum)
    requires Flipped(b, c, NodeFields(b, d, totalNodes, blockNum))
    ensures |c| == |b| && NodeOk(c, Opposite(d), totalNodes, blockNum)
    ensures ReadNode(c, Opposite(d), totalNodes, blockNum) == ReadNode(b, d, totalNodes, blockNum)
  {
    hide Flipped, Value16, Value32, Offsets, RecordsOk, NodeFields, ReadRecords, LinksOk, OffsetsOk, Within, Ascending;
    NodeKept(b, c, d, totalNodes, blockNum);
    KindKept(b, c, d, totalNodes, blockNum);
    HeaderMeansSame(b, c, d, totalNodes, blockNum);
    BytesMeanSame(b, c, d, totalNodes, blockNum);
    OffsetBounds(b, d);
    if HasRecords(b) { RecordsMeanSame(b, c, d, totalNodes, blockNum); }
  }

  lemma HeaderMeansSame(b: seq<Byte>, c: seq<Byte>, d: Direction, totalNodes: nat, blockNum: nat)
    requires |b| >= DESCRIPTOR && NodeOk(b, d, totalNodes, blockNum)
    requires Flipped(b, c, NodeFields(b, d, totalNodes, blockNum))
    ensures |c| == |b| && Value32(c, Opposite(d), 0) == Value32(b, d, 0)
    ensures Value32(c, Opposite(d), 4) == Value32(b, d, 4)
    ensures Count(c, Opposite(d)) == Count(b, d)
    ensures Offsets(c, Opposite(d), Count(b, d)) == Offsets(b, d, Count(b, d))
  {
    hide Flipped, Value16, Value32, RecordsOk, RecordSet, TableOk, TableFields, Offsets;
    var s := NodeFields(b, d, totalNodes, blockNum);
    ValueKept(b, c, s, d, Field(0, 4));
    ValueKept(b, c, s, d, Field(4, 4));
    TableKept(b, c, s, d);
  }

  /** Outside the header, the table and the records nothing changes. */
  lemma BytesMeanSame(b: seq<Byte>, c: seq<Byte>, d: Direction, totalNodes: nat, blockNum: nat)
    requires |b| >= DESCRIPTOR && NodeOk(b, d, totalNodes, blockNum)
    requires Flipped(b, c, NodeFields(b, d, totalNodes, blockNum))
    ensures |c| == |b| && c[12..14] == b[12..14]
    ensures var n := Count(b, d); var offs, start := Offsets(b, d, n), |b| - 2 * (n + 1);
            if HasRecords(b)
            then DESCRIPTOR <= offs[0] <= offs[n] <= start && c[14..offs[0]] == b[14..offs[0]] && c[offs[n]..start] == b[offs[n]..start]
            else c[14..start] == b[14..start]
  {
    hide Flipped, Value16, Value32, RecordsOk, RecordSet, Offsets, Names, Gap, InRegion, HeaderFields, LinksOk,
         Ascending;
    var n, s := Count(b, d), NodeFields(b, d, totalNodes, blockNum);
    var offs, start := Offsets(b, d, n), |b| - 2 * (n + 1);
    OffsetBounds(b, d);
    TableRegion(b, d);
    var h, t, r := HeaderFields(), TableFields(b, d), NodeRecords(b, d);
    HeaderRegion();
    NodeGap(h, t, r, start, |b|, DESCRIPTOR, start, 12, 14);
    GapKept(b, c, s, 12, 14);
    if HasRecords(b) {
      RecordSetRegion(b, d, b[8] == INDEX_KIND, offs, 0);
      NodeGap(h, t, r, start, |b|, offs[0], offs[n], 14, offs[0]);
      GapKept(b, c, s, 14, offs[0]);
      NodeGap(h, t, r, start, |b|, offs[0], offs[n], offs[n], start);
      GapKept(b, c, s, offs[n], start);
    } else {
      EmptyRegion(start, start);
      NodeGap(h, t, r, start, |b|, start, start, 14, start);
      GapKept(b, c, s, 14, start);
    }
  }

  lemma EmptyRegion(lo: int, hi: int)
    ensures InRegion({}, lo, hi)
  {
  }

  lemma NodeGap(h: set<Field>, t: set<Field>, r: set<Field>, start: nat, size: nat, lo: nat, hi: nat, from: nat,
                to: nat)
    requires InRegion(h, 0, 12) && InRegion(t, start, size) && InRegion(r, lo, hi)
    requires 12 <= from <= to <= start && (to <= lo || hi <= from)
    ensures Gap(h + t + r, from, to)
  {
    hide Gap, InRegion;
    OutGap(h, 0, 12, from, to);
    OutGap(t, start, size, from, to);
    OutGap(r, lo, hi, from, to);
    GapUnion(h, t, from, to);
    GapUnion(h + t, r, from, to);
  }

  lemma RecordsMeanSame(b: seq<Byte>, c: seq<Byte>, d: Direction, totalNodes: nat, blockNum: nat)
    requires |b| >= DESCRIPTOR && NodeOk(b, d, totalNodes, blockNum) && HasRecords(b)
    requires Flipped(b, c, NodeFields(b, d, totalNodes, blockNum)) && |c| == |b| && c[8] == b[8]
    requires NodeOk(c, Opposite(d), totalNodes, blockNum)
    requires Offsets(c, Opposite(d), Count(b, d)) == Offsets(b, d, Count(b, d)) && Count(c, Opposite(d)) == Count(b, d)
    ensures var offs, index := Offsets(b, d, Count(b, d)), b[8] == INDEX_KIND;
            && Within(offs, |b|) && RecordsOk(b, d, index, offs, 0) && RecordsOk(c, Opposite(d), index, offs, 0)
            && ReadRecords(c, Opposite(d), index, offs) == ReadRecords(b, d, index, offs)
  {
    hide Flipped, Value16, Value32, RecordSet, Offsets, RecordOk, RecordFields, ReadRecord, Only, LinksOk, Names,
         HeaderFields;
    var offs, index := Offsets(b, d, Count(b, d)), b[8] == INDEX_KIND;
    OffsetBounds(b, d);
    forall m: nat | m < |offs| - 1
      ensures ReadRecord(c, Opposite(d), index, offs[m], offs[m + 1]) == ReadRecord(b, d, index, offs[m], offs[m + 1])
    {
      NodeOnly(b, d, totalNodes, blockNum, m);
      RecordMeansSame(b, c, NodeFields(b, d, totalNodes, blockNum), d, index, offs[m], offs[m + 1]);
    }
  }

  /** In the bytes of a record only its own fields are swapped. */
  lemma NodeOnly(b: seq<Byte>, d: Direction, totalNodes: nat, blockNum: nat, m: nat)
    requires |b| >= DESCRIPTOR && NodeOk(b, d, totalNodes, blockNum) && HasRecords(b) && m < Count(b, d)
    ensures var offs, index, s := Offsets(b, d, Count(b, d)), b[8] == INDEX_KIND, NodeFields(b, d, totalNodes, blockNum);
            && offs[m + 1] <= |b| && RecordOk(b, d, index, offs[m], offs[m + 1])
            && RecordFields(b, d, index, offs[m], offs[m + 1]) <= s
            && Only(s, RecordFields(b, d, index, offs[m], offs[m + 1]), offs[m], offs[m + 1])
  {
    hide Value16, Value32, RecordSet, Offsets, RecordOk, RecordFields, Only, LinksOk, Names, HeaderFields, InRegion,
         Gap;
    var n := Count(b, d);
    var offs, index := Offsets(b, d, n), b[8] == INDEX_KIND;
    OffsetBounds(b, d);
    TableRegion(b, d);
    HeaderRegion();
    var start := |b| - 2 * (n + 1);
    var h, t, r := HeaderFields(), TableFields(b, d), RecordSet(b, d, index, offs, 0);
    SetOnly(b, d, index, offs, 0, m);
    OffsetAround(offs, m);
    OutGap(h, 0, 12, offs[m], offs[m + 1]);
    OutGap(t, start, |b|, offs[m], offs[m + 1]);
    GapUnion(h, t, offs[m], offs[m + 1]);
    OnlyOne(h + t, r, RecordFields(b, d, index, offs[m], offs[m + 1]), offs[m], offs[m + 1]);
  }

  lemma OffsetAround(offs: seq<nat>, m: nat)
    requires |offs| > 0 && m < |offs| - 1 && Ascending(offs, 0, offs[|offs| - 1])
    ensures offs[0] <= offs[m] < offs[m + 1] <= offs[|offs| - 1]
  {
    assert m > 0 ==> offs[0] < offs[m];
    assert m + 1 < |offs| - 1 ==> offs[m + 1] < offs[|offs| - 1];
  }
}
