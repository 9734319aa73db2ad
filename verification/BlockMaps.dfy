/** Sequences of block states (true: in use), the value every bitmap stands for. */
module BlockMaps {

  predicate AllClear(u: seq<bool>, a: nat, b: nat)
    requires b <= |u|
  { forall i :: a <= i < b ==> !u[i] }

  predicate AllSet(u: seq<bool>, a: nat, b: nat)
    requires b <= |u|
  { forall i :: a <= i < b ==> u[i] }

  function SetRange(u: seq<bool>, a: nat, n: nat): (r: seq<bool>)
    requires a + n <= |u|
  { u[..a] + seq(n, _ => true) + u[a+n..] }

  function ClearRange(u: seq<bool>, a: nat, n: nat): (r: seq<bool>)
    requires a + n <= |u|
  { u[..a] + seq(n, _ => false) + u[a+n..] }

  lemma SetRangeAt(u: seq<bool>, a: nat, n: nat)
    requires a + n <= |u|
    ensures |SetRange(u, a, n)| == |u|
    ensures forall i :: 0 <= i < |u| ==> (SetRange(u, a, n)[i] <==> u[i] || a <= i < a + n)
  {
  }

  lemma ClearRangeAt(u: seq<bool>, a: nat, n: nat)
    requires a + n <= |u|
    ensures |ClearRange(u, a, n)| == |u|
    ensures forall i :: 0 <= i < |u| ==> (ClearRange(u, a, n)[i] <==> u[i] && !(a <= i < a + n))
  {
  }

  lemma SetRangeMore(u: seq<bool>, a: nat, n: nat, m: nat)
    requires a + n + m <= |u|
    ensures |SetRange(u, a, n)| == |u|
    ensures SetRange(SetRange(u, a, n), a + n, m) == SetRange(u, a, n + m)
  {
    SetRangeAt(u, a, n);
    SetRangeAt(SetRange(u, a, n), a + n, m);
    SetRangeAt(u, a, n + m);
  }

  lemma ClearRangeMore(u: seq<bool>, a: nat, n: nat, m: nat)
    requires a + n + m <= |u|
    ensures |ClearRange(u, a, n)| == |u|
    ensures ClearRange(ClearRange(u, a, n), a + n, m) == ClearRange(u, a, n + m)
  {
    ClearRangeAt(u, a, n);
    ClearRangeAt(ClearRange(u, a, n), a + n, m);
    ClearRangeAt(u, a, n + m);
  }

  /** Marking a free range allocated and freeing it again undo each other. */
  lemma ClearUndoesSet(u: seq<bool>, a: nat, n: nat)
    requires a + n <= |u| && AllClear(u, a, a + n)
    ensures |SetRange(u, a, n)| == |u|
    ensures ClearRange(SetRange(u, a, n), a, n) == u
  {
    SetRangeAt(u, a, n);
    ClearRangeAt(SetRange(u, a, n), a, n);
  }

  lemma SetUndoesClear(u: seq<bool>, a: nat, n: nat)
    requires a + n <= |u| && AllSet(u, a, a + n)
    ensures |ClearRange(u, a, n)| == |u|
    ensures SetRange(ClearRange(u, a, n), a, n) == u
  {
    ClearRangeAt(u, a, n);
    SetRangeAt(ClearRange(u, a, n), a, n);
  }

  // ---------------------------------------------------------------- counting

  /** Number of clear entries of [a, b). */
  function ClearIn(u: seq<bool>, a: nat, b: nat): nat
    requires a <= b <= |u|
    decreases b - a
  { if a == b then 0 else ClearIn(u, a, b - 1) + (if u[b-1] then 0 else 1) }

  function CountClear(u: seq<bool>): nat { ClearIn(u, 0, |u|) }

  lemma {:induction false} ClearInSplit(u: seq<bool>, a: nat, m: nat, b: nat)
    requires a <= m <= b <= |u|
    ensures ClearIn(u, a, b) == ClearIn(u, a, m) + ClearIn(u, m, b)
    decreases b - m
  {
    if m < b { ClearInSplit(u, a, m, b - 1); }
  }

  lemma {:induction false} ClearInSame(u: seq<bool>, v: seq<bool>, a: nat, b: nat)
    requires a <= b <= |u| && |u| == |v|
    requires forall i :: a <= i < b ==> u[i] == v[i]
    ensures ClearIn(u, a, b) == ClearIn(v, a, b)
    decreases b - a
  {
    if a < b { ClearInSame(u, v, a, b - 1); }
  }

  lemma {:induction false} ClearInAllClear(u: seq<bool>, a: nat, b: nat)
    requires a <= b <= |u| && AllClear(u, a, b)
    ensures ClearIn(u, a, b) == b - a
    decreases b - a
  {
    if a < b { ClearInAllClear(u, a, b - 1); }
  }

  lemma {:induction false} ClearInAllSet(u: seq<bool>, a: nat, b: nat)
    requires a <= b <= |u| && AllSet(u, a, b)
    ensures ClearIn(u, a, b) == 0
    decreases b - a
  {
    if a < b { ClearInAllSet(u, a, b - 1); }
  }

  lemma CountThrough(u: seq<bool>, a: nat, n: nat)
    requires a + n <= |u|
    ensures CountClear(u) == ClearIn(u, 0, a) + ClearIn(u, a, a + n) + ClearIn(u, a + n, |u|)
  {
    ClearInSplit(u, 0, a, |u|);
    ClearInSplit(u, a, a + n, |u|);
  }

  /** Taking n free blocks lowers the free count by n. */
  lemma CountSet(u: seq<bool>, a: nat, n: nat)
    requires a + n <= |u| && AllClear(u, a, a + n)
    ensures |SetRange(u, a, n)| == |u|
    ensures CountClear(u) == CountClear(SetRange(u, a, n)) + n
  {
    var v := SetRange(u, a, n);
    SetRangeAt(u, a, n);
    CountThrough(u, a, n);
    CountThrough(v, a, n);
    ClearInSame(u, v, 0, a);
    ClearInSame(u, v, a + n, |u|);
    ClearInAllClear(u, a, a + n);
    ClearInAllSet(v, a, a + n);
  }

  lemma ClearRunFits(u: seq<bool>, a: nat, b: nat, p: nat, q: nat)
    requires a <= p <= q <= b <= |u| && AllClear(u, p, q)
    ensures q - p <= ClearIn(u, a, b)
  {
    ClearInSplit(u, a, p, b);
    ClearInSplit(u, p, q, b);
    ClearInAllClear(u, p, q);
  }
}
