/** Reserved block ranges, with an inclusive last block. */
module Ranges {

  datatype Range = Range(start: int, last: int) {
    function Len(): int { last - start + 1 }
    predicate Holds(b: int) { start <= b <= last }
  }

  datatype Overlap =
    | NoOverlap | Matching | ContainsRange | IsContained | StartsBefore | EndsAfter

  /** rl_overlap: how `r` lies relative to [start, end]. */
  function OverlapOf(r: Range, start: int, end: int): Overlap {
    if start > r.last || r.start > end then NoOverlap
    else if r.start == start && r.last == end then Matching
    else if r.start <= start && r.last >= end then ContainsRange
    else if start <= r.start && end >= r.last then IsContained
    else if r.start < start && r.last < end then StartsBefore
    else EndsAfter
  }

  /** rl_subtract: take `b` out of `a`, keeping the larger part. */
  function Subtract(a: Range, b: Range): Range {
    match OverlapOf(b, a.start, a.last)
    case Matching => a.(last := a.start - 1)
    case ContainsRange => a.(last := a.start - 1)
    case IsContained =>
      if b.start - a.start >= a.last - b.last then a.(last := b.start - 1) else a.(start := b.last + 1)
    case StartsBefore => a.(start := b.last + 1)
    case EndsAfter => a.(last := b.start - 1)
    case NoOverlap => a
  }

  predicate Misses(q: Range, b: Range) { q.last < b.start || b.last < q.start }

  /** Subtraction only shrinks, leaves no block of `b`, and empties `a` only when `b` covers
      it; no part of `a` clear of `b` is longer than what it keeps. */
  lemma SubtractMeans(a: Range, b: Range)
    requires b.start <= b.last
    ensures var r := Subtract(a, b);
            && (forall x :: r.Holds(x) ==> a.Holds(x) && !b.Holds(x))
            && (a.Len() >= 0 ==> r.Len() >= 0)
            && (a.Len() > 0 && !(b.start <= a.start && a.last <= b.last) ==> r.Len() > 0)
            && (forall q: Range :: a.Len() >= 0 && q.start <= q.last && a.start <= q.start && q.last <= a.last && Misses(q, b) ==>
                  q.Len() <= r.Len())
  {
  }

  // ------------------------------------------------------------------- lists

  predicate Held(rs: seq<Range>, b: int) { exists i :: 0 <= i < |rs| && rs[i].Holds(b) }

  lemma HeldConcat(rs: seq<Range>, ss: seq<Range>, b: int)
    ensures Held(rs + ss, b) <==> Held(rs, b) || Held(ss, b)
  {
    var r := rs + ss;
    if Held(ss, b) {
      var j :| 0 <= j < |ss| && ss[j].Holds(b);
      assert r[|rs| + j].Holds(b);
    }
    if Held(rs, b) {
      var j :| 0 <= j < |rs| && rs[j].Holds(b);
      assert r[j].Holds(b);
    }
  }

  lemma HeldOne(r: Range, b: int)
    ensures Held([r], b) <==> r.Holds(b)
  {
    if r.Holds(b) { assert [r][0].Holds(b); }
  }

  predicate Proper(rs: seq<Range>) { forall i :: 0 <= i < |rs| ==> rs[i].start <= rs[i].last }

  predicate Inside(rs: seq<Range>, lo: int, hi: int) {
    forall i :: 0 <= i < |rs| ==> lo <= rs[i].start && rs[i].last < hi
  }

  /** No block lies in two ranges of the list. */
  predicate Disjoint(rs: seq<Range>) {
    forall i, j :: 0 <= i < j < |rs| ==> rs[i].last < rs[j].start || rs[j].last < rs[i].start
  }

  function TotalLen(rs: seq<Range>): int {
    if rs == [] then 0 else rs[0].Len() + TotalLen(rs[1..])
  }

  lemma {:induction false} TotalLenConcat(a: seq<Range>, b: seq<Range>)
    ensures TotalLen(a + b) == TotalLen(a) + TotalLen(b)
  {
    if a == [] {
      assert a + b == b;
    } else {
      assert (a + b)[1..] == a[1..] + b;
      TotalLenConcat(a[1..], b);
    }
  }
}
