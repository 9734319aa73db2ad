/** The 64-bit masks used when reservations are laid over a bitmap block. */
module Quads {
  import opened Words

  const ALL_QUAD: bv64 := 0xFFFF_FFFF_FFFF_FFFF

  function Hi(m: bv64): bv32 { (m >> 32) as bv32 }
  function Lo(m: bv64): bv32 { (m & 0xFFFF_FFFF) as bv32 }
  function And64(a: bv64, b: bv64): bv64 { a & b }

  /** All bits of a quad from `bit` on, and all bits before `bit`. */
  function RightMask(bit: nat): bv64
    requires bit < 64
  { ALL_QUAD >> Idx(bit) }

  function LeftMask(bit: nat): bv64
    requires 0 < bit < 64
  { ALL_QUAD << Idx(64 - bit) }

  lemma ShiftedHalves(x: bv7)
    requires x < 64
    ensures x < 32 ==> Hi(ALL_QUAD >> x) == ALL_BITS >> x && Lo(ALL_QUAD >> x) == ALL_BITS
    ensures x >= 32 ==> Hi(ALL_QUAD >> x) == 0 && Lo(ALL_QUAD >> x) == ALL_BITS >> (x - 32)
  {
  }

  lemma {:induction false} IdxLess(k: nat)
    requires 32 <= k <= 64
    ensures Idx(k - 32) == Idx(k) - 32
  {
    if k == 32 {
      IdxValue(32);
      SameValue(Idx(32), 32);
    } else {
      IdxLess(k - 1);
    }
  }

  lemma {:induction false} IdxComplement(k: nat)
    requires k <= 64
    ensures Idx(64 - k) == 64 - Idx(k)
  {
    if k == 0 {
      IdxValue(64);
      SameValue(Idx(64), 64);
    } else {
      IdxComplement(k - 1);
      IdxNext(64 - k);
    }
  }

  lemma RightHalves(s: nat)
    requires s < 64
    ensures Hi(RightMask(s)) == if s < 32 then From(s) else 0
    ensures Lo(RightMask(s)) == if s < 32 then ALL_BITS else From(s - 32)
  {
    hide Hi, Lo, Idx;
    IdxValue(s);
    ShiftedHalves(Idx(s));
    if s >= 32 { IdxLess(s); }
  }

  function Not64(m: bv64): bv64 { !m }

  lemma ShiftedComplement(x: bv7)
    requires 0 < x < 64
    ensures ALL_QUAD << (64 - x) == Not64(ALL_QUAD >> x)
  {
  }

  lemma LeftIsNotRight(e: nat)
    requires 0 < e < 64
    ensures LeftMask(e) == Not64(RightMask(e))
  {
    hide Idx, Not64;
    IdxValue(e);
    IdxComplement(e);
    IdxOrder(1, e);
    IdxNext(0);
    IdxZero();
    ShiftedComplement(Idx(e));
  }

  lemma NotHalves(m: bv64)
    ensures Hi(Not64(m)) == Not(Hi(m)) && Lo(Not64(m)) == Not(Lo(m))
  {
  }

  lemma LeftHalves(e: nat)
    requires 0 < e < 64
    ensures Hi(LeftMask(e)) == if e < 32 then Not(From(e)) else Not(0)
    ensures Lo(LeftMask(e)) == if e < 32 then Not(ALL_BITS) else Not(From(e - 32))
  {
    hide Hi, Lo, LeftMask, RightMask, Not64, Not, From;
    LeftIsNotRight(e);
    NotHalves(RightMask(e));
    RightHalves(e);
  }

  lemma AndHalves(a: bv64, b: bv64)
    ensures Hi(And64(a, b)) == And(Hi(a), Hi(b))
    ensures Lo(And64(a, b)) == And(Lo(a), Lo(b))
  {
  }
}
