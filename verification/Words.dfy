/** 32-bit words of the allocation bitmap. Block 0 of a word is its high bit; the
    words are the host-order values the source works on. */
module Words {

  const ALL_BITS: bv32 := 0xFFFF_FFFF
  const HIGH_BIT: bv32 := 0x8000_0000
  const LOW_BIT: bv32 := 1

  /** The number `k` as a shift amount. */
  function Idx(k: nat): (x: bv7)
    requires k <= 64
    ensures x as int == k && x <= 64 && (k <= 32 <==> x <= 32)
  {
    if k == 0 then 0
    else
      Increment(Idx(k - 1));
      SameOrder(Idx(k - 1) + 1, 32);
      Idx(k - 1) + 1
  }

  lemma Increment(x: bv7)
    requires x < 64
    ensures (x + 1) as int == x as int + 1
  {
  }

  lemma SameOrder(x: bv7, y: bv7)
    ensures x <= y <==> x as int <= y as int
  {
  }

  lemma SameValue(x: bv7, y: bv7)
    requires x as int == y as int
    ensures x == y
  {
  }

  lemma IdxValue(k: nat)
    requires k <= 64
    ensures Idx(k) as int == k && Idx(k) <= 64
    ensures k < 64 <==> Idx(k) < 64
    ensures k < 32 <==> Idx(k) < 32
  {
    SameOrder(64, Idx(k));
    SameOrder(32, Idx(k));
  }

  lemma IdxOrder(j: nat, k: nat)
    requires j <= 64 && k <= 64
    ensures Idx(j) <= Idx(k) <==> j <= k
  {
    hide Idx;
    IdxValue(j);
    IdxValue(k);
    SameOrder(Idx(j), Idx(k));
  }

  /** The mask of bit `k`. */
  function Mask(k: nat): bv32
    requires k < 32
  { HIGH_BIT >> Idx(k) }

  function Test(w: bv32, s: bv32): bool { And(w, s) != 0 }

  function Bit(w: bv32, k: nat): bool
    requires k < 32
  { Test(w, Mask(k)) }

  /** All bits from `first` on. */
  function From(first: nat): bv32
    requires first <= 32
  { ALL_BITS >> Idx(first) }

  /** The mask the marking code builds for `n` bits from `first` within a word. */
  function PartialMask(first: nat, n: nat): bv32
    requires first + n <= 32 && first < 32
  {
    if 32 - first > n then And(From(first), Not(From(first + n))) else From(first)
  }

  /** The mask it builds for the first `n` bits of a word. */
  function LeadingMask(n: nat): bv32
    requires n < 32
  { Not(From(n)) }

  function Or(w: bv32, m: bv32): bv32 { w | m }

  function And(w: bv32, m: bv32): bv32 { w & m }

  function Not(m: bv32): bv32 { !m }

  function AndNot(w: bv32, m: bv32): bv32 { And(w, Not(m)) }

  /** Every bit of the mask is set in the word. */
  predicate HasAll(w: bv32, m: bv32) { And(w, m) == m }

  predicate OneBit(s: bv32) { s != 0 && s & (s - 1) == 0 }

  lemma ShiftedOneBit(x: bv7)
    requires x < 32
    ensures OneBit(HIGH_BIT >> x)
  {
  }

  lemma MaskOneBit(k: nat)
    requires k < 32
    ensures OneBit(Mask(k))
  {
    hide Idx, OneBit;
    IdxValue(k);
    ShiftedOneBit(Idx(k));
  }

  lemma OrDistributes(w: bv32, m: bv32, s: bv32)
    ensures And(Or(w, m), s) == Or(And(w, s), And(m, s))
  {
    assert (w | m) & s == (w & s) | (m & s);
  }

  lemma OrIsZero(a: bv32, b: bv32)
    ensures Or(a, b) == 0 <==> a == 0 && b == 0
  {
  }

  lemma OneBitCases(w: bv32, s: bv32)
    requires OneBit(s)
    ensures And(w, s) == 0 || And(w, s) == s
  {
  }

  lemma AndDistributes(w: bv32, m: bv32, s: bv32)
    ensures And(And(w, m), s) == And(And(w, s), And(m, s))
  {
  }

  lemma AndSelf(s: bv32)
    ensures And(s, s) == s && And(s, 0) == 0 && And(0, s) == 0 && And(0, 0) == 0 && And(ALL_BITS, s) == s
  {
  }

  lemma NotSplits(w: bv32, s: bv32)
    ensures Or(And(w, s), And(Not(w), s)) == s && And(And(w, s), And(Not(w), s)) == 0
  {
  }

  lemma OrZero(s: bv32)
    ensures Or(s, 0) == s && Or(0, s) == s && Or(0, 0) == 0
  {
  }

  lemma TestOr(w: bv32, m: bv32, s: bv32)
    ensures Test(Or(w, m), s) <==> Test(w, s) || Test(m, s)
  {
    hide Or, And;
    OrDistributes(w, m, s);
    OrIsZero(And(w, s), And(m, s));
  }

  lemma TestAnd(w: bv32, m: bv32, s: bv32)
    requires OneBit(s)
    ensures Test(And(w, m), s) <==> Test(w, s) && Test(m, s)
  {
    hide And;
    AndDistributes(w, m, s);
    OneBitCases(w, s);
    OneBitCases(m, s);
    AndSelf(s);
  }

  lemma TestNot(w: bv32, s: bv32)
    requires OneBit(s)
    ensures Test(Not(w), s) <==> !Test(w, s)
  {
    hide And, Or, Not;
    NotSplits(w, s);
    OneBitCases(w, s);
    OneBitCases(Not(w), s);
    AndSelf(s);
    OrZero(s);
  }

  lemma OrBit(w: bv32, m: bv32, k: nat)
    requires k < 32
    ensures Bit(Or(w, m), k) <==> Bit(w, k) || Bit(m, k)
  {
    hide Mask, Test;
    TestOr(w, m, Mask(k));
  }

  lemma AndBit(w: bv32, m: bv32, k: nat)
    requires k < 32
    ensures Bit(And(w, m), k) <==> Bit(w, k) && Bit(m, k)
  {
    hide Mask, Test;
    MaskOneBit(k);
    TestAnd(w, m, Mask(k));
  }

  lemma NotBit(w: bv32, k: nat)
    requires k < 32
    ensures Bit(Not(w), k) <==> !Bit(w, k)
  {
    hide Mask, Test;
    MaskOneBit(k);
    TestNot(w, Mask(k));
  }

  lemma AndNotBit(w: bv32, m: bv32, k: nat)
    requires k < 32
    ensures Bit(AndNot(w, m), k) <==> Bit(w, k) && !Bit(m, k)
  {
    hide Bit, And, Not;
    NotBit(m, k);
    AndBit(w, Not(m), k);
  }

  lemma ShiftedTest(x: bv7, y: bv7)
    requires x <= 32 && y < 32
    ensures Test(ALL_BITS >> x, HIGH_BIT >> y) <==> x <= y
  {
  }

  lemma FromBit(first: nat, k: nat)
    requires first <= 32 && k < 32
    ensures Bit(From(first), k) <==> first <= k
  {
    hide Idx, Test;
    IdxValue(k);
    IdxValue(32);
    IdxOrder(first, k);
    IdxOrder(first, 32);
    SameValue(Idx(32), 32);
    ShiftedTest(Idx(first), Idx(k));
  }

  lemma PartialMaskBit(first: nat, n: nat, k: nat)
    requires first + n <= 32 && first < 32 && k < 32
    ensures Bit(PartialMask(first, n), k) <==> first <= k < first + n
  {
    hide Bit, From, And, Not;
    FromBit(first, k);
    if 32 - first > n {
      FromBit(first + n, k);
      NotBit(From(first + n), k);
      AndBit(From(first), Not(From(first + n)), k);
    }
  }

  lemma LeadingMaskBit(n: nat, k: nat)
    requires n < 32 && k < 32
    ensures Bit(LeadingMask(n), k) <==> k < n
  {
    hide Bit, From, Not;
    FromBit(n, k);
    NotBit(From(n), k);
  }

  lemma ConstBit(k: nat)
    requires k < 32
    ensures Bit(ALL_BITS, k) && !Bit(0, k)
  {
    hide Mask, And;
    MaskOneBit(k);
    AndSelf(Mask(k));
  }

  lemma LeadingStep(x: bv7)
    requires x < 32
    ensures Not(ALL_BITS >> (x + 1)) == Or(Not(ALL_BITS >> x), HIGH_BIT >> x)
    ensures Not(ALL_BITS >> 0) == 0 && Not(ALL_BITS >> 32) == ALL_BITS
  {
  }

  lemma OrLeft(w: bv32, a: bv32, b: bv32)
    ensures And(w, Or(a, b)) == Or(And(w, a), And(w, b))
  {
    assert w & (a | b) == (w & a) | (w & b);
  }

  lemma {:induction false} LeadingZero(w: bv32, k: nat)
    requires k <= 32 && forall i :: 0 <= i < k ==> !Bit(w, i)
    ensures And(w, Not(ALL_BITS >> Idx(k))) == 0
  {
    hide And, Or, Not, Idx;
    if k == 0 {
      AndSelf(w);
      IdxZero();
      LeadingStep(0);
    } else {
      LeadingZero(w, k - 1);
      IdxValue(k - 1);
      LeadingStep(Idx(k - 1));
      IdxNext(k - 1);
      OrLeft(w, Not(ALL_BITS >> Idx(k - 1)), HIGH_BIT >> Idx(k - 1));
      assert !Bit(w, k - 1);
      OrZero(0);
    }
  }

  lemma IdxZero()
    ensures Idx(0) == 0
  {
  }

  lemma IdxNext(k: nat)
    requires k < 64
    ensures Idx(k + 1) == Idx(k) + 1
  {
  }

  lemma AndAll(w: bv32)
    ensures And(w, ALL_BITS) == w
  {
  }

  /** A word with no bit set is zero. */
  lemma ZeroWord(w: bv32)
    requires forall k :: 0 <= k < 32 ==> !Bit(w, k)
    ensures w == 0
  {
    hide And, Or, Not, Idx, Bit;
    LeadingZero(w, 32);
    IdxValue(32);
    SameValue(Idx(32), 32);
    LeadingStep(0);
    AndAll(w);
  }

  lemma SplitJoin(w: bv32, m: bv32)
    ensures Or(And(w, m), AndNot(m, w)) == m
  {
  }

  lemma SplitApart(w: bv32, m: bv32)
    ensures And(And(w, m), AndNot(m, w)) == 0
  {
  }

  lemma AndAbsorbs(m: bv32, x: bv32)
    ensures And(m, And(m, x)) == And(m, x)
  {
  }

  lemma Subset(w: bv32, m: bv32)
    ensures HasAll(w, m) <==> AndNot(m, w) == 0
  {
    hide And, Or, Not;
    SplitJoin(w, m);
    SplitApart(w, m);
    AndAbsorbs(m, Not(w));
    OrZero(And(w, m));
  }

  lemma FullWord(w: bv32)
    ensures w == ALL_BITS <==> Not(w) == 0
  {
  }

  /** The validation test on a word: every bit of the mask is set. */
  lemma CoversMask(w: bv32, m: bv32)
    ensures HasAll(w, m) <==> forall k :: 0 <= k < 32 && Bit(m, k) ==> Bit(w, k)
  {
    hide Bit, HasAll, AndNot;
    Subset(w, m);
    forall k | 0 <= k < 32 ensures Bit(AndNot(m, w), k) <==> Bit(m, k) && !Bit(w, k) {
      AndNotBit(m, w, k);
    }
    IsZero(AndNot(m, w));
  }

  lemma IsZero(w: bv32)
    ensures w == 0 <==> forall k :: 0 <= k < 32 ==> !Bit(w, k)
  {
    hide Bit;
    if forall k :: 0 <= k < 32 ==> !Bit(w, k) { ZeroWord(w); }
    if w == 0 { forall k | 0 <= k < 32 ensures !Bit(w, k) { ConstBit(k); } }
  }

  lemma IsAllBits(w: bv32)
    ensures w == ALL_BITS <==> forall k :: 0 <= k < 32 ==> Bit(w, k)
  {
    hide Bit, Not;
    FullWord(w);
    forall k | 0 <= k < 32 ensures Bit(Not(w), k) <==> !Bit(w, k) { NotBit(w, k); }
    IsZero(Not(w));
  }

  /** Scanning moves the mask by one place until it is shifted out of the word. */
  function Forward(m: bv32): bv32 { m >> 1 }

  function Backward(m: bv32): bv32 { m << 1 }

  lemma ShiftedForward(x: bv7)
    requires x < 32
    ensures Forward(HIGH_BIT >> x) == HIGH_BIT >> (x + 1)
    ensures Forward(HIGH_BIT >> x) == 0 <==> x == 31
  {
  }

  lemma ShiftedBackward(x: bv7)
    requires x < 32
    ensures Backward(HIGH_BIT >> (x + 1)) == if x == 31 then 0 else HIGH_BIT >> x
    ensures Backward(HIGH_BIT >> 0) == 0
    ensures HIGH_BIT >> x != 0
    ensures HIGH_BIT >> 31 == LOW_BIT && HIGH_BIT >> 0 == HIGH_BIT
  {
  }

  lemma MaskForward(k: nat)
    requires k < 32
    ensures Forward(Mask(k)) == 0 <==> k == 31
    ensures k < 31 ==> Forward(Mask(k)) == Mask(k + 1)
    ensures HIGH_BIT == Mask(0)
  {
    hide Forward, Idx;
    IdxValue(k);
    IdxZero();
    IdxNext(k);
    ShiftedForward(Idx(k));
    ShiftedBackward(0);
    if k == 31 { SameValue(Idx(k), 31); }
  }

  lemma MaskBackward(k: nat)
    requires k < 32
    ensures Backward(Mask(k)) == 0 <==> k == 0
    ensures k > 0 ==> Backward(Mask(k)) == Mask(k - 1)
    ensures LOW_BIT == Mask(31)
  {
    hide Backward, Idx;
    ShiftedBackward(0);
    IdxZero();
    IdxValue(31);
    SameValue(Idx(31), 31);
    if k > 0 {
      IdxValue(k - 1);
      IdxNext(k - 1);
      ShiftedBackward(Idx(k - 1));
    }
  }
}
