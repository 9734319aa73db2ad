/** The two orders of catalog keys: case-insensitive with ignorable characters, and binary. */
module KeyOrders {

  type UniChar = c: nat | c < 0x1_0000

  /** The case folding tables: a value for every Latin character, then 256 indices of
      sub-tables for the other high bytes, zero for those that fold to themselves. */
  datatype Tables = Tables(latin: seq<UniChar>, lower: seq<UniChar>) {
    predicate Ok() {
      && |latin| == 0x100 && (forall c :: 0 <= c < 0x100 ==> latin[c] != 0)
      && |lower| >= 0x100 && (forall h :: 0 <= h < 0x100 ==> lower[h] == 0 || lower[h] + 0xFF < |lower|)
    }

    /** Zero for an ignorable character. */
    function Fold(c: UniChar): UniChar
      requires Ok()
    {
      if c < 0x100 then latin[c]
      else
        assert c / 0x100 < 0x100;
        var t := lower[c / 0x100];
        if t != 0 then lower[t + c % 0x100] else c
    }

    /** A name folded, without its ignorable characters. */
    function Folded(s: seq<UniChar>): (r: seq<UniChar>)
      requires Ok()
    {
      if s == [] then []
      else (if Fold(s[0]) == 0 then [] else [Fold(s[0])]) + Folded(s[1..])
    }
  }

  /** Folding by the two bytes of a character: by the Latin table if the high byte is zero, else
      by the sub-table of the high byte, if it has one. */
  lemma FoldMeans(t: Tables, h: nat, l: nat)
    requires t.Ok() && h < 0x100 && l < 0x100
    ensures t.Fold(0x100 * h + l) ==
              if h == 0 then t.latin[l] else if t.lower[h] == 0 then 0x100 * h + l else t.lower[t.lower[h] + l]
  {
    assert (0x100 * h + l) / 0x100 == h && (0x100 * h + l) % 0x100 == l;
  }

  // -------------------------------------------------------------- lexicographic order

  /** Lexicographic comparison; a proper prefix comes first. */
  function Lex(a: seq<UniChar>, b: seq<UniChar>): (r: int)
    ensures -1 <= r <= 1
  {
    if a == [] then (if b == [] then 0 else -1)
    else if b == [] then 1
    else if a[0] < b[0] then -1
    else if a[0] > b[0] then 1
    else Lex(a[1..], b[1..])
  }

  /** At the first difference `a` has the smaller character, or has ended. */
  ghost predicate ComesBefore(a: seq<UniChar>, b: seq<UniChar>) {
    exists k: nat :: DiffersAt(a, b, k)
  }

  predicate DiffersAt(a: seq<UniChar>, b: seq<UniChar>, k: nat) {
    k <= |a| && k < |b| && a[..k] == b[..k] && (k == |a| || a[k] < b[k])
  }

  /** The first difference decides. */
  lemma {:induction false} LexMeans(a: seq<UniChar>, b: seq<UniChar>)
    ensures Lex(a, b) < 0 <==> ComesBefore(a, b)
    ensures Lex(a, b) > 0 <==> ComesBefore(b, a)
    ensures Lex(a, b) == 0 <==> a == b
  {
    LexEqual(a, b);
    LexFlip(a, b);
    LexBefore(a, b);
    LexBefore(b, a);
  }

  lemma {:induction false} LexBefore(a: seq<UniChar>, b: seq<UniChar>)
    ensures Lex(a, b) < 0 <==> ComesBefore(a, b)
  {
    if b != [] && (a == [] || a[0] < b[0]) {
      assert DiffersAt(a, b, 0);
    } else if a != [] && b != [] && a[0] == b[0] {
      LexBefore(a[1..], b[1..]);
      if ComesBefore(a[1..], b[1..]) {
        var k: nat :| DiffersAt(a[1..], b[1..], k);
        DiffersLater(a, b, k);
      }
      if ComesBefore(a, b) {
        var k: nat :| DiffersAt(a, b, k);
        DiffersEarlier(a, b, k);
      }
        } else {
      FirstOrdered(a, b);
    }
  }

  lemma FirstOrdered(a: seq<UniChar>, b: seq<UniChar>)
    ensures ComesBefore(a, b) ==> b != [] && (a == [] || a[0] <= b[0])
  {
    if k: nat :| DiffersAt(a, b, k) && k > 0 { assert a[0] == a[..k][0] == b[..k][0] == b[0]; }
  }

  lemma DiffersLater(a: seq<UniChar>, b: seq<UniChar>, k: nat)
    requires a != [] && b != [] && a[0] == b[0] && DiffersAt(a[1..], b[1..], k)
    ensures DiffersAt(a, b, k + 1)
  {
    assert a[..k + 1] == [a[0]] + a[1..][..k] && b[..k + 1] == [b[0]] + b[1..][..k];
  }

  lemma DiffersEarlier(a: seq<UniChar>, b: seq<UniChar>, k: nat)
    requires a != [] && b != [] && a[0] == b[0] && DiffersAt(a, b, k)
    ensures k > 0 && DiffersAt(a[1..], b[1..], k - 1)
  {
    if k > 0 { assert a[1..][..k - 1] == a[..k][1..] && b[1..][..k - 1] == b[..k][1..]; }
  }

  lemma {:induction false} LexEqual(a: seq<UniChar>, b: seq<UniChar>)
    ensures Lex(a, b) == 0 <==> a == b
  {
    if a != [] && b != [] {
      LexEqual(a[1..], b[1..]);
      assert a == [a[0]] + a[1..] && b == [b[0]] + b[1..];
    }
  }

  lemma {:induction false} LexFlip(a: seq<UniChar>, b: seq<UniChar>)
    ensures Lex(b, a) == -Lex(a, b)
  {
    if a != [] && b != [] { LexFlip(a[1..], b[1..]); }
  }

  lemma {:induction false} LexTransitive(a: seq<UniChar>, b: seq<UniChar>, c: seq<UniChar>)
    requires Lex(a, b) <= 0 && Lex(b, c) <= 0
    ensures Lex(a, c) <= 0
    ensures Lex(a, b) < 0 || Lex(b, c) < 0 ==> Lex(a, c) < 0
  {
    if a != [] && b != [] && c != [] && a[0] == b[0] == c[0] { LexTransitive(a[1..], b[1..], c[1..]); }
  }

  lemma {:induction false} LexCommonPrefix(a: seq<UniChar>, b: seq<UniChar>, n: nat)
    requires n <= |a| && n <= |b| && a[..n] == b[..n]
    ensures Lex(a, b) == Lex(a[n..], b[n..])
  {
    if n == 0 {
      assert a[0..] == a && b[0..] == b;
    } else {
      assert a[0] == a[..n][0] == b[..n][0] == b[0];
      assert a[1..][..n-1] == a[..n][1..] && b[1..][..n-1] == b[..n][1..];
      LexCommonPrefix(a[1..], b[1..], n - 1);
      assert a[1..][n-1..] == a[n..] && b[1..][n-1..] == b[n..];
    }
  }

  lemma {:induction false} FoldedConcat(t: Tables, a: seq<UniChar>, b: seq<UniChar>)
    requires t.Ok()
    ensures t.Folded(a + b) == t.Folded(a) + t.Folded(b)
  {
    if a == [] {
      assert a + b == b;
    } else {
      assert (a + b)[1..] == a[1..] + b;
      FoldedConcat(t, a[1..], b);
    }
  }

  /** Ignorable characters may stand anywhere in a name without changing its order. */
  lemma IgnorableAnywhere(t: Tables, a: seq<UniChar>, c: UniChar, b: seq<UniChar>)
    requires t.Ok() && t.Fold(c) == 0
    ensures t.Folded(a + [c] + b) == t.Folded(a + b)
  {
    FoldedConcat(t, a + [c], b);
    FoldedConcat(t, a, [c]);
    FoldedConcat(t, a, b);
    assert [c][1..] == [];
  }

  // --------------------------------------------------------------- comparing names

  /** The next folded character from `i` on, skipping ignorable ones; zero at the end. */
  method NextFolded(t: Tables, s: seq<UniChar>, i: nat) returns (c: UniChar, j: nat)
    requires t.Ok() && i <= |s|
    ensures i <= j <= |s|
    ensures c == 0 ==> j == |s| && t.Folded(s[i..]) == []
    ensures c != 0 ==> i < j && t.Folded(s[i..]) == [c] + t.Folded(s[j..])
  {
    c, j := 0, i;
    while j < |s| && c == 0
      invariant i <= j <= |s|
      invariant c == 0 ==> t.Folded(s[i..]) == t.Folded(s[j..])
      invariant c != 0 ==> i < j && t.Folded(s[i..]) == [c] + t.Folded(s[j..])
      decreases |s| - j, c == 0
    {
      assert s[j..][1..] == s[j+1..];
      c := s[j];
      j := j + 1;
      if c < 0x100 {
        c := t.latin[c];
        break;
      }
      assert c / 0x100 < 0x100;
      var temp := t.lower[c / 0x100];
      if temp != 0 { c := t.lower[temp + c % 0x100]; }
    }
  }

  /** FastUnicodeCompare. */
  method FastUnicodeCompare(t: Tables, a: seq<UniChar>, b: seq<UniChar>) returns (r: int)
    requires t.Ok()
    ensures r == Lex(t.Folded(a), t.Folded(b))
    ensures r < 0 <==> ComesBefore(t.Folded(a), t.Folded(b))
    ensures r > 0 <==> ComesBefore(t.Folded(b), t.Folded(a))
  {
    LexMeans(t.Folded(a), t.Folded(b));
    hide ComesBefore;
    var i: nat, j: nat := 0, 0;
    assert a[0..] == a && b[0..] == b;
    while true
      invariant i <= |a| && j <= |b|
      invariant Lex(t.Folded(a), t.Folded(b)) == Lex(t.Folded(a[i..]), t.Folded(b[j..]))
      decreases |a| - i
    {
      var c, d;
      ghost var x, y := t.Folded(a[i..]), t.Folded(b[j..]);
      c, i := NextFolded(t, a, i);
      d, j := NextFolded(t, b, j);
      if c != d { return if c < d then -1 else 1; }
      if c == 0 { return 0; }
      assert x[1..] == t.Folded(a[i..]) && y[1..] == t.Folded(b[j..]);
    }
  }

  /** UnicodeBinaryCompare. */
  method UnicodeBinaryCompare(a: seq<UniChar>, b: seq<UniChar>) returns (r: int)
    ensures r == Lex(a, b)
    ensures r < 0 <==> ComesBefore(a, b)
    ensures r > 0 <==> ComesBefore(b, a)
  {
    LexMeans(a, b);
    hide ComesBefore;
    r := 0;
    var n;
    if |a| < |b| {
      n, r := |a|, r - 1;
    } else if |a| > |b| {
      n, r := |b|, r + 1;
    } else {
      n := |a|;
    }
    var i := 0;
    while i < n
      invariant 0 <= i <= n && a[..i] == b[..i]
    {
      LexCommonPrefix(a, b, i);
      if a[i] > b[i] { return 1; }
      if a[i] < b[i] { return -1; }
      assert a[..i+1] == a[..i] + [a[i]] && b[..i+1] == b[..i] + [b[i]];
      i := i + 1;
    }
    LexCommonPrefix(a, b, n);
  }

  // ---------------------------------------------------------------- comparing keys

  /** A catalog key; the key of a thread record has an empty name. */
  datatype Key = Key(parent: nat, name: seq<UniChar>)

  function Sign(r: int): int { if r < 0 then -1 else if r > 0 then 1 else 0 }

  /** Keys are ordered by parent, then empty names first, then folded names. */
  function KeyOrder(t: Tables, a: Key, b: Key): (r: int)
    requires t.Ok()
  {
    if a.parent != b.parent then (if a.parent < b.parent then -1 else 1)
    else if a.name == [] || b.name == [] then
      (if a.name == b.name then 0 else if a.name == [] then -1 else 1)
    else Lex(t.Folded(a.name), t.Folded(b.name))
  }

  /** Smaller parents come first, then a thread key, then the first difference of the folded names
      decides. */
  ghost predicate KeyBefore(t: Tables, a: Key, b: Key)
    requires t.Ok()
  {
    || a.parent < b.parent
    || (a.parent == b.parent && b.name != [] && (a.name == [] || ComesBefore(t.Folded(a.name), t.Folded(b.name))))
  }

  /** CompareExtendedCatalogKeys. */
  method CompareExtendedCatalogKeys(t: Tables, search: Key, trial: Key) returns (r: int)
    requires t.Ok()
    ensures Sign(r) == KeyOrder(t, search, trial)
    ensures r < 0 <==> KeyBefore(t, search, trial)
    ensures r > 0 <==> KeyBefore(t, trial, search)
  {
    hide ComesBefore;
    if search.parent > trial.parent {
      r := 1;
    } else if search.parent < trial.parent {
      r := -1;
    } else if |search.name| == 0 || |trial.name| == 0 {
      r := |search.name| - |trial.name|;
    } else {
      r := FastUnicodeCompare(t, search.name, trial.name);
    }
  }

  /** Two keys the order does not tell apart. */
  predicate SameKey(t: Tables, a: Key, b: Key)
    requires t.Ok()
  { a.parent == b.parent && (a.name == [] <==> b.name == []) && t.Folded(a.name) == t.Folded(b.name) }

  /** The case-insensitive order is a total preorder, and its ties are the keys that differ
      only in case and ignorable characters. */
  lemma KeyOrderIsTotalPreorder(t: Tables, a: Key, b: Key, c: Key)
    requires t.Ok()
    ensures KeyOrder(t, b, a) == -KeyOrder(t, a, b)
    ensures KeyOrder(t, a, b) == 0 <==> SameKey(t, a, b)
    ensures KeyOrder(t, a, b) <= 0 && KeyOrder(t, b, c) <= 0 ==> KeyOrder(t, a, c) <= 0
    ensures (KeyOrder(t, a, b) < 0 && KeyOrder(t, b, c) <= 0) || (KeyOrder(t, a, b) <= 0 && KeyOrder(t, b, c) < 0)
            ==> KeyOrder(t, a, c) < 0
  {
    var x, y, z := t.Folded(a.name), t.Folded(b.name), t.Folded(c.name);
    LexEqual(x, y);
    LexFlip(x, y);
    if Lex(x, y) <= 0 && Lex(y, z) <= 0 { LexTransitive(x, y, z); }
  }

  /** The thread key of a folder is before every entry of that folder, and after every key of
      a folder with a smaller ID. */
  lemma ThreadKeyFirst(t: Tables, folder: nat, k: Key)
    requires t.Ok()
    ensures k.parent == folder && k.name != [] ==> KeyOrder(t, Key(folder, []), k) < 0
    ensures k.parent < folder ==> KeyOrder(t, k, Key(folder, [])) < 0
    ensures k.parent > folder ==> KeyOrder(t, Key(folder, []), k) < 0
  {
  }

  /** cat_binarykeycompare. */
  method BinaryKeyCompare(search: Key, trial: Key) returns (r: int)
    ensures r == BinaryOrder(search, trial)
    ensures r < 0 <==>
              search.parent < trial.parent || (search.parent == trial.parent && ComesBefore(search.name, trial.name))
    ensures r > 0 <==>
              trial.parent < search.parent || (search.parent == trial.parent && ComesBefore(trial.name, search.name))
  {
    hide ComesBefore;
    r := 0;
    if search.parent > trial.parent {
      r := r + 1;
    } else if search.parent < trial.parent {
      r := r - 1;
    } else {
      r := UnicodeBinaryCompare(search.name, trial.name);
    }
  }

  function BinaryOrder(a: Key, b: Key): (r: int) {
    if a.parent < b.parent then -1 else if a.parent > b.parent then 1 else Lex(a.name, b.name)
  }

  /** The binary order is a total order: only equal keys tie. */
  lemma BinaryOrderIsTotal(a: Key, b: Key, c: Key)
    ensures BinaryOrder(b, a) == -BinaryOrder(a, b)
    ensures BinaryOrder(a, b) == 0 <==> a == b
    ensures BinaryOrder(a, b) <= 0 && BinaryOrder(b, c) <= 0 ==> BinaryOrder(a, c) <= 0
    ensures (BinaryOrder(a, b) < 0 && BinaryOrder(b, c) <= 0) || (BinaryOrder(a, b) <= 0 && BinaryOrder(b, c) < 0)
            ==> BinaryOrder(a, c) < 0
    ensures a.name == [] && b.name != [] && a.parent == b.parent ==> BinaryOrder(a, b) < 0
  {
    LexEqual(a.name, b.name);
    LexFlip(a.name, b.name);
    if Lex(a.name, b.name) <= 0 && Lex(b.name, c.name) <= 0 { LexTransitive(a.name, b.name, c.name); }
  }
}
