/** Mangled names: a name too long for its caller is cut, and its catalog ID is put between
    what is left of it and its extension. */
module Mangling {

  type Byte = c: nat | c < 0x100

  const DOT: nat := 0x2E
  const HASH: nat := 0x23
  const MAX_EXTENSION: nat := 5
  const MIN_MANGLED: nat := 28
  const WORD: nat := 0x1_0000_0000

  // ------------------------------------------------------------------ extensions

  /** A letter or a digit. */
  predicate ExtensionChar(c: nat) { 0x61 <= c <= 0x7A || 0x41 <= c <= 0x5A || 0x30 <= c <= 0x39 }

  /** The characters of an extension are the letters and the digits. */
  lemma ExtensionCharMeans(c: char)
    ensures ExtensionChar(c as nat) <==> 'a' <= c <= 'z' || 'A' <= c <= 'Z' || '0' <= c <= '9'
  {
  }

  function MaxExtension(length: nat): nat
    requires length >= 3
  { if length < MAX_EXTENSION + 2 then length - 2 else MAX_EXTENSION }

  /** The name ends with a dot and `n` extension characters, after at least one character. */
  predicate HasExtension(s: seq<nat>, n: nat) {
    && |s| >= 3 && 1 <= n <= MaxExtension(|s|)
    && s[|s| - n - 1] == DOT && forall k :: |s| - n <= k < |s| ==> ExtensionChar(s[k])
  }

  /** CountFilenameExtensionChars. */
  method CountFilenameExtensionChars(s: seq<Byte>) returns (n: nat)
    ensures n > 0 ==> HasExtension(s, n)
    ensures n == 0 ==> forall m: nat :: !HasExtension(s, m)
  {
    if |s| < 3 { return 0; }
    var max := MaxExtension(|s|);
    n := 0;
    var i: int := |s| - 1;
    while n <= max
      invariant 0 <= n <= max + 1 && i == |s| - 1 - n
      invariant forall k :: i < k < |s| ==> ExtensionChar(s[k])
      decreases max + 1 - n
    {
      var c := s[i];
      i := i - 1;
      if c == DOT {
        if n > 0 { return n; }
        NotDot(s, n);
        return 0;
      }
      if !ExtensionChar(c) {
        NoExtension(s, n);
        return 0;
      }
      n := n + 1;
    }
    NotDot(s, n);
    return 0;
  }

  /** A character that is neither a dot nor an extension character ends the search. */
  lemma NoExtension(s: seq<nat>, n: nat)
    requires n < |s| && forall k :: |s| - n <= k < |s| ==> ExtensionChar(s[k])
    requires !ExtensionChar(s[|s| - n - 1]) && s[|s| - n - 1] != DOT
    ensures forall m: nat :: !HasExtension(s, m)
  {
  }

  /** Only extension characters, as many as an extension may have and one more, or a dot at
      the very end. */
  lemma NotDot(s: seq<nat>, n: nat)
    requires |s| >= 3 && n < |s| && forall k :: |s| - n <= k < |s| ==> ExtensionChar(s[k])
    requires n == MaxExtension(|s|) + 1 || (n == 0 && s[|s| - 1] == DOT)
    ensures forall m: nat :: !HasExtension(s, m)
  {
  }

  /** The extension of a name, dot included; empty if it has none. */
  ghost predicate IsExtension(s: seq<nat>, ext: seq<nat>) {
    || (ext == [] && forall m: nat :: !HasExtension(s, m))
    || (1 < |ext| <= |s| && HasExtension(s, |ext| - 1) && ext == s[|s| - |ext|..])
  }

  /** GetFilenameExtension. */
  method GetFilenameExtension(s: seq<nat>) returns (ext: seq<Byte>)
    ensures IsExtension(s, ext)
  {
    ext := [];
    if |s| < 3 { return; }
    var max := MaxExtension(|s|);
    var n: nat, i: int := 0, |s|;
    while n <= max
      invariant 0 <= n <= max + 1 && i == |s| - n
      invariant forall k :: i <= k < |s| ==> ExtensionChar(s[k])
      decreases max + 1 - n
    {
      i := i - 1;
      var c := s[i];
      if c == DOT {
        if n > 0 { ext := CopyExtension(s, n); } else { NotDot(s, n); }
        return;
      }
      if !ExtensionChar(c) {
        NoExtension(s, n);
        return;
      }
      n := n + 1;
    }
    NotDot(s, n);
  }

  method CopyExtension(s: seq<nat>, n: nat) returns (ext: seq<Byte>)
    requires HasExtension(s, n)
    ensures ext == s[|s| - n - 1..]
  {
    ext := [];
    var i := 0;
    while i <= n
      invariant 0 <= i <= n + 1 && ext == s[|s| - n - 1..][..i]
    {
      var c := s[|s| - n - 1 + i];
      ext := ext + [c % 0x100];
      i := i + 1;
    }
  }

  // ------------------------------------------------------------------ hexadecimal

  predicate HexDigit(c: nat) { 0x30 <= c <= 0x39 || 0x41 <= c <= 0x46 }

  function DigitOf(d: nat): (c: Byte)
    requires d < 16
    ensures HexDigit(c) && ValueOf(c) == d
  { if d < 10 then 0x30 + d else 0x41 + (d - 10) }

  function ValueOf(c: nat): (d: nat)
    requires HexDigit(c)
    ensures d < 16
  { if c <= 0x39 then c - 0x30 else 10 + (c - 0x41) }

  /** The sixteen digits, in order. */
  const DIGITS: seq<nat> := [0x30, 0x31, 0x32, 0x33, 0x34, 0x35, 0x36, 0x37, 0x38, 0x39, 0x41, 0x42, 0x43, 0x44, 0x45, 0x46]

  lemma DigitsInOrder(d: nat, c: nat)
    ensures d < 16 ==> DigitOf(d) == DIGITS[d] && HexDigit(DIGITS[d]) && ValueOf(DIGITS[d]) == d
    ensures HexDigit(c) <==> c in DIGITS
  {
    if HexDigit(c) { assert DIGITS[ValueOf(c)] == c; }
  }

  /** The digits that "%X" prints. */
  function HexDigits(n: nat): (s: seq<Byte>)
    ensures |s| > 0 && forall k :: 0 <= k < |s| ==> HexDigit(s[k])
  { if n < 16 then [DigitOf(n)] else HexDigits(n / 16) + [DigitOf(n % 16)] }

  /** The value of a string of digits. */
  function HexValue(s: seq<nat>): nat
    requires forall k :: 0 <= k < |s| ==> HexDigit(s[k])
  { if s == [] then 0 else 16 * HexValue(s[..|s| - 1]) + ValueOf(s[|s| - 1]) }

  /** Printing and reading are inverse. */
  lemma {:induction false} HexRoundTrip(n: nat)
    ensures HexValue(HexDigits(n)) == n
    ensures |HexDigits(n)| >= 2 <==> n >= 16
  {
    var s := HexDigits(n);
    if n < 16 {
      assert s[..0] == [];
    } else {
      HexRoundTrip(n / 16);
      assert s[..|s| - 1] == HexDigits(n / 16);
    }
  }

  /** Reading and printing are inverse but for leading zeros. */
  lemma {:induction false} HexReprint(s: seq<nat>)
    requires |s| > 0 && forall k :: 0 <= k < |s| ==> HexDigit(s[k])
    ensures HexDigits(HexValue(s)) == s <==> |s| == 1 || s[0] != 0x30
    ensures s[0] != 0x30 ==> HexValue(s) >= 1
  {
    var t, d := s[..|s| - 1], ValueOf(s[|s| - 1]);
    if t == [] {
      assert HexValue(s) == d;
      assert s == [s[0]];
    } else {
      HexReprint(t);
      var v := HexValue(t);
      assert HexValue(s) == 16 * v + d;
      LastDigit(v, d);
      assert s == t + [s[|s| - 1]];
      if s[0] != 0x30 {
        assert HexDigits(HexValue(s)) == HexDigits(v) + [DigitOf(d)];
      } else {
        ShorterThan(s);
      }
    }
  }

  lemma LastDigit(v: nat, d: nat)
    requires d < 16
    ensures (16 * v + d) / 16 == v && (16 * v + d) % 16 == d
  {
  }

  /** A leading zero is not printed. */
  lemma {:induction false} ShorterThan(s: seq<nat>)
    requires |s| > 1 && s[0] == 0x30 && forall k :: 0 <= k < |s| ==> HexDigit(s[k])
    ensures |HexDigits(HexValue(s))| < |s|
  {
    var t, d := s[..|s| - 1], ValueOf(s[|s| - 1]);
    LastDigit(HexValue(t), d);
    assert HexValue(s) == 16 * HexValue(t) + d;
    if |t| == 1 {
      assert t[..|t| - 1] == [];
      assert HexValue(t) == ValueOf(t[0]) == 0;
    } else {
      ShorterThan(t);
    }
  }

  lemma {:induction false} HexSize(n: nat, k: nat)
    requires k > 0 && n < Power(k)
    ensures |HexDigits(n)| <= k
  {
    if n >= 16 && k > 1 { HexSize(n / 16, k - 1); }
  }

  function Power(k: nat): nat { if k == 0 then 1 else 16 * Power(k - 1) }

  /** HexStringToInteger, in 32-bit arithmetic. */
  method HexStringToInteger(s: seq<Byte>) returns (value: nat)
    ensures (forall k :: 0 <= k < |s| ==> HexDigit(s[k])) ==> value == HexValue(s) % WORD
    ensures !(forall k :: 0 <= k < |s| ==> HexDigit(s[k])) ==> value == 0
  {
    value := 0;
    var i := 0;
    while i < |s|
      invariant 0 <= i <= |s|
      invariant forall k :: 0 <= k < i ==> HexDigit(s[k])
      invariant value == HexValue(s[..i]) % WORD
    {
      var c := s[i];
      assert s[..i+1][..i] == s[..i];
      if 0x30 <= c <= 0x39 {
        ShiftIn(HexValue(s[..i]), ValueOf(c));
        value := (value * 16) % WORD;
        value := (value + (c - 0x30)) % WORD;
      } else if 0x41 <= c <= 0x46 {
        ShiftIn(HexValue(s[..i]), ValueOf(c));
        value := (value * 16) % WORD;
        value := (value + 10 + (c - 0x41)) % WORD;
      } else {
        return 0;
      }
      i := i + 1;
    }
    assert s[..i] == s;
  }

  lemma ShiftIn(v: nat, d: nat)
    requires d < 16
    ensures (((v % WORD) * 16) % WORD + d) % WORD == (16 * v + d) % WORD
  {
    var q, r := v / WORD, v % WORD;
    assert v == q * WORD + r;
    ModDrop(16 * r + d, 16 * q);
    assert 16 * v + d == 16 * r + d + 16 * q * WORD;
    var q', r' := (16 * r) / WORD, (16 * r) % WORD;
    ModDrop(r' + d, q');
  }

  lemma ModDrop(a: nat, q: nat)
    ensures (a + q * WORD) % WORD == a % WORD
  {
  }

  // ---------------------------------------------------------------------- names

  /** A marker at `i` followed by nothing but digits. */
  predicate IdAt(s: seq<nat>, i: nat) { i < |s| && s[i] == HASH && forall k :: i < k < |s| ==> HexDigit(s[k]) }

  /** What a name says about a mangled ID: `id` after a prefix of length `prefix`, or zero. */
  ghost predicate Embeds(s: seq<nat>, id: nat, prefix: nat) {
    if |s| < MIN_MANGLED then id == 0 && prefix == 0
    else exists ext: seq<nat> :: |ext| <= |s| && IsExtension(s, ext) && EmbedsIn(s[..|s| - |ext|], id, prefix)
  }

  ghost predicate EmbedsIn(s: seq<nat>, id: nat, prefix: nat) {
    if exists i: nat :: IdAt(s, i) && |s| - i >= 3
    then IdAt(s, prefix) && |s| - prefix >= 3 && id == HexValue(s[prefix + 1..]) % WORD
    else id == 0 && prefix == 0
  }

  /** A name embeds one ID only. */
  lemma EmbedsUnique(s: seq<nat>, id: nat, prefix: nat, id': nat, prefix': nat)
    requires Embeds(s, id, prefix) && Embeds(s, id', prefix')
    ensures id == id' && prefix == prefix'
  {
    hide IsExtension, EmbedsIn;
    if |s| >= MIN_MANGLED {
      var e: seq<nat> :| |e| <= |s| && IsExtension(s, e) && EmbedsIn(s[..|s| - |e|], id, prefix);
      var f: seq<nat> :| |f| <= |s| && IsExtension(s, f) && EmbedsIn(s[..|s| - |f|], id', prefix');
      IsExtensionUnique(s, e, f);
      EmbedsInUnique(s[..|s| - |e|], id, prefix, id', prefix');
    }
  }

  lemma EmbedsInUnique(s: seq<nat>, id: nat, prefix: nat, id': nat, prefix': nat)
    requires EmbedsIn(s, id, prefix) && EmbedsIn(s, id', prefix')
    ensures id == id' && prefix == prefix'
  {
    hide HexValue;
    if exists i: nat :: IdAt(s, i) && |s| - i >= 3 { IdAtUnique(s, prefix, prefix'); }
  }

  lemma IdAtUnique(s: seq<nat>, i: nat, j: nat)
    requires IdAt(s, i) && IdAt(s, j)
    ensures i == j
  {
  }

  lemma IsExtensionUnique(s: seq<nat>, e: seq<nat>, f: seq<nat>)
    requires IsExtension(s, e) && IsExtension(s, f)
    ensures e == f
  {
  }

  /** GetEmbeddedFileID. */
  method GetEmbeddedFileID(s: seq<Byte>) returns (id: nat, prefix: nat)
    ensures Embeds(s, id, prefix)
  {
    hide IsExtension, EmbedsIn, ExtensionChar;
    if |s| < MIN_MANGLED { return 0, 0; }
    var n := CountFilenameExtensionChars(s);
    var length := if n > 0 then |s| - (n + 1) else |s|;
    ghost var ext := s[length..];
    ExtensionFound(s, n);
    var body := s[..length];
    assert |s| - |ext| == length;
    id, prefix := ScanForId(body);
  }

  /** The walk back from the end of a name without its extension, over hexadecimal digits. */
  method ScanForId(body: seq<Byte>) returns (id: nat, prefix: nat)
    ensures EmbedsIn(body, id, prefix)
  {
    hide HexValue, EmbedsIn, HexDigit;
    var i: int := |body| - 1;
    while i >= 0
      invariant -1 <= i < |body|
      invariant forall k :: i < k < |body| ==> HexDigit(body[k])
    {
      if body[i] == HASH {
        if |body| - i < 3 { break; }
        var digits := body[i + 1..];
        id := HexStringToInteger(digits);
        Embedded(body, i, digits, id);
        return id, i;
      }
      if !HexDigit(body[i]) { break; }
      i := i - 1;
    }
    if i >= 0 && body[i] == HASH { HashIsNoDigit(); }
    NothingEmbedded(body, i);
    return 0, 0;
  }

  lemma HashIsNoDigit()
    ensures !HexDigit(HASH)
  {
  }

  lemma Embedded(s: seq<nat>, i: nat, digits: seq<nat>, id: nat)
    requires i + 3 <= |s| && s[i] == HASH && (forall k :: i < k < |s| ==> HexDigit(s[k])) && digits == s[i + 1..]
    requires (forall k :: 0 <= k < |digits| ==> HexDigit(digits[k])) ==> id == HexValue(digits) % WORD
    ensures EmbedsIn(s, id, i)
  {
    hide HexValue, HexDigit;
    assert forall k :: 0 <= k < |digits| ==> digits[k] == s[i + 1 + k];
    assert IdAt(s, i);
  }

  lemma ExtensionFound(s: seq<nat>, n: nat)
    requires n > 0 ==> HasExtension(s, n)
    requires n == 0 ==> forall m: nat :: !HasExtension(s, m)
    ensures n == 0 ==> IsExtension(s, s[|s|..])
    ensures n > 0 ==> n < |s| && IsExtension(s, s[|s| - n - 1..])
  {
    if n > 0 { assert |s[|s| - n - 1..]| == n + 1; }
  }

  lemma NothingEmbedded(s: seq<nat>, i: int)
    requires -1 <= i < |s| && forall k :: i < k < |s| ==> HexDigit(s[k])
    requires i >= 0 ==> !HexDigit(s[i]) && (s[i] == HASH ==> |s| - i < 3)
    ensures EmbedsIn(s, 0, 0)
  {
    hide HexValue;
    forall j: nat | IdAt(s, j) ensures j == i { }
  }

  // ------------------------------------------------------------------- mangling

  function Mangled(prefix: seq<nat>, cnid: nat, ext: seq<nat>): seq<nat> {
    prefix + [HASH] + HexDigits(cnid) + ext
  }

  /** strlcat: append what fits, leaving a byte for the terminator. */
  function Strlcat(dst: seq<nat>, src: seq<nat>, size: nat): (r: seq<nat>)
    ensures |dst| + |src| < size ==> r == dst + src
    ensures |dst| < size ==> |r| < size
  {
    if |dst| >= size then dst
    else if |src| < size - |dst| then dst + src
    else dst + src[..size - 1 - |dst|]
  }

  /** The encoder fills at most the room it is given, less a byte for its terminator. */
  ghost predicate Encoder(encode: (seq<nat>, nat) -> seq<Byte>) {
    forall s, m :: if m == 0 then encode(s, m) == [] else |encode(s, m)| < m
  }

  /** ConvertUnicodeToUTF8Mangled. The parts are cut only when the ID and the extension alone
      fill the buffer and leave no byte for a terminator; the length reported is always that of
      the uncut name. */
  method ConvertUnicodeToUTF8Mangled(src: seq<nat>, max: nat, cnid: nat, encode: (seq<nat>, nat) -> seq<Byte>)
    returns (name: seq<nat>, length: nat, ghost ext: seq<nat>)
    requires cnid < WORD && max >= 15 && Encoder(encode)
    ensures IsExtension(src, ext) && |ext| <= |src| && |name| < max
    ensures var room := max - (|ext| + 1 + |HexDigits(cnid)|);
            && room >= 0
            && var whole := Mangled(encode(src[..|src| - |ext|], room), cnid, ext);
               && length == |whole|
               && name == if room > 0 then whole else whole[..max - 1]
  {
    var fileId := [HASH] + HexDigits(cnid);
    PowerValue();
    HexSize(cnid, 8);
    var extension := GetFilenameExtension(src);
    ext := extension;
    ExtensionSize(src, ext);
    var room := max - (|extension| + |fileId|);
    var prefix := encode(src[..|src| - |extension|], room);
    var start := Strlcat(prefix, fileId, max);
    name := Strlcat(start, extension, max);
    length := |prefix| + (|extension| + |fileId|);
    assert prefix + fileId + extension == Mangled(prefix, cnid, extension);
  }

  lemma ExtensionSize(s: seq<nat>, ext: seq<nat>)
    requires IsExtension(s, ext)
    ensures |ext| <= MAX_EXTENSION + 1 && |ext| <= |s|
  {
  }

  lemma PowerValue()
    ensures Power(8) == WORD
  {
    assert Power(2) == 0x100;
    assert Power(4) == 0x1_0000;
    assert Power(6) == 0x100_0000;
  }

  /** A mangled name parses back to its ID and prefix exactly when the ID has two digits and
      the name is not too short; otherwise no ID is found. */
  lemma MangledRoundTrip(src: seq<nat>, prefix: seq<nat>, cnid: nat, ext: seq<nat>)
    requires IsExtension(src, ext) && 0 < cnid < WORD
    ensures var s := Mangled(prefix, cnid, ext);
            if cnid >= 16 && |s| >= MIN_MANGLED then Embeds(s, cnid, |prefix|) else Embeds(s, 0, 0)
    ensures var s := Mangled(prefix, cnid, ext);
            Embeds(s, cnid, |prefix|) <==> cnid >= 16 && |s| >= MIN_MANGLED
  {
    hide IsExtension, EmbedsIn;
    var s := Mangled(prefix, cnid, ext);
    var body := prefix + [HASH] + HexDigits(cnid);
    assert s == body + ext;
    assert s[..|s| - |ext|] == body;
    HexRoundTrip(cnid);
    if |s| >= MIN_MANGLED {
      SameExtension(src, body, |prefix|, ext);
      BodyEmbeds(prefix, cnid);
    }
    if Embeds(s, cnid, |prefix|) && !(cnid >= 16 && |s| >= MIN_MANGLED) { EmbedsUnique(s, cnid, |prefix|, 0, 0); }
  }

  /** The scanners agree: the mangled name has the extension of the source. */
  lemma SameExtension(src: seq<nat>, body: seq<nat>, at: nat, ext: seq<nat>)
    requires IsExtension(src, ext) && IdAt(body, at) && |body + ext| >= MIN_MANGLED
    ensures IsExtension(body + ext, ext)
  {
    if ext == [] { IdEndsIt(body, at); } else { KeptExtension(src, body, ext); }
  }

  lemma IdEndsIt(body: seq<nat>, at: nat)
    requires IdAt(body, at) && |body| >= MIN_MANGLED
    ensures IsExtension(body + [], [])
  {
    assert body + [] == body;
    forall m: nat ensures !HasExtension(body, m) { assert !ExtensionChar(body[at]) && body[at] != DOT; }
  }

  lemma KeptExtension(src: seq<nat>, body: seq<nat>, ext: seq<nat>)
    requires IsExtension(src, ext) && ext != [] && |body + ext| >= MIN_MANGLED
    ensures IsExtension(body + ext, ext)
  {
    var s := body + ext;
    assert s[|s| - |ext|..] == ext;
    ExtensionText(src, ext);
    TextExtends(s, ext);
  }

  /** The text of an extension: a dot and extension characters. */
  predicate DotText(ext: seq<nat>) { |ext| > 0 && ext[0] == DOT && forall k :: 1 <= k < |ext| ==> ExtensionChar(ext[k]) }

  lemma ExtensionText(s: seq<nat>, ext: seq<nat>)
    requires IsExtension(s, ext) && ext != []
    ensures DotText(ext) && 1 < |ext| <= MAX_EXTENSION + 1
  {
    hide ExtensionChar;
    assert forall k :: 0 <= k < |ext| ==> ext[k] == s[|s| - |ext| + k];
  }

  lemma TextExtends(s: seq<nat>, ext: seq<nat>)
    requires 1 < |ext| <= MAX_EXTENSION + 1 && MIN_MANGLED <= |s| && |ext| <= |s| && ext == s[|s| - |ext|..]
    requires DotText(ext)
    ensures IsExtension(s, ext)
  {
    hide ExtensionChar;
    forall k | |s| - |ext| + 1 <= k < |s| ensures ExtensionChar(s[k]) { assert s[k] == ext[k - (|s| - |ext|)]; }
    assert s[|s| - |ext|] == ext[0];
  }

  lemma BodyEmbeds(prefix: seq<nat>, cnid: nat)
    requires 0 < cnid < WORD
    ensures var body := prefix + [HASH] + HexDigits(cnid);
            && IdAt(body, |prefix|)
            && (if cnid >= 16 then EmbedsIn(body, cnid, |prefix|) else EmbedsIn(body, 0, 0))
  {
    hide HexValue, HexDigits;
    var body := prefix + [HASH] + HexDigits(cnid);
    HexRoundTrip(cnid);
    assert body[|prefix| + 1..] == HexDigits(cnid);
    assert IdAt(body, |prefix|);
    if cnid < 16 {
      forall i: nat | IdAt(body, i) ensures i == |prefix| { IdAtUnique(body, i, |prefix|); }
    }
  }

  lemma {:induction false} HexBound(s: seq<nat>)
    requires forall k :: 0 <= k < |s| ==> HexDigit(s[k])
    ensures HexValue(s) < Power(|s|)
  {
    if s != [] { HexBound(s[..|s| - 1]); }
  }

  /** A name that embeds an ID of at most eight digits is what mangling prints for that ID,
      prefix and extension, exactly when the digits have no leading zero. */
  lemma ParsedReprints(s: seq<nat>, ext: seq<nat>, id: nat, prefix: nat)
    requires |s| >= MIN_MANGLED && IsExtension(s, ext) && |ext| <= |s|
    requires var body := s[..|s| - |ext|]; IdAt(body, prefix) && 3 <= |body| - prefix <= 9 && EmbedsIn(body, id, prefix)
    ensures s == Mangled(s[..prefix], id, ext) <==> s[prefix + 1] != 0x30
  {
    hide IsExtension, HexDigits, HexValue;
    var body := s[..|s| - |ext|];
    var digits := body[prefix + 1..];
    HexBound(digits);
    PowerGrows(|digits|, 8);
    PowerValue();
    assert id == HexValue(digits);
    HexReprint(digits);
    ExtensionTail(s, ext);
    assert s == s[..prefix] + [HASH] + digits + ext;
    var m := Mangled(s[..prefix], id, ext);
    if s == m {
      assert |HexDigits(id)| == |digits|;
      assert m[prefix + 1..prefix + 1 + |digits|] == HexDigits(id);
      assert s[prefix + 1..prefix + 1 + |digits|] == digits;
    }
  }

  lemma ExtensionTail(s: seq<nat>, ext: seq<nat>)
    requires IsExtension(s, ext) && |ext| <= |s|
    ensures s == s[..|s| - |ext|] + ext
  {
  }

  lemma {:induction false} PowerGrows(j: nat, k: nat)
    requires j <= k
    ensures Power(j) <= Power(k)
  {
    if j < k { PowerGrows(j, k - 1); }
  }
}
