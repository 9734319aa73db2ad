/** Catalog node IDs: the table of reserved IDs and the search for a free one. */
module CnidAllocators {

  const FIRST_USER_ID: nat := 16
  const LAST_ID: nat := 0xFFFF_FFFF

  datatype Lookup = Found | NotFound | Failed

  /** The state of the volume outside the allocator: thread records, extended attributes and
      cnodes in memory, by ID. */
  datatype Env = Env(thread: nat -> Lookup, attributes: nat -> Lookup, cnode: nat -> bool)

  datatype Result = Acquired(id: nat) | NoSpace | IOError

  /** Why an ID is passed over. Lingering cnodes matter once IDs are reused. */
  predicate InUse(env: Env, pending: bool, reused: bool, id: nat) {
    pending || env.thread(id).Found? || env.attributes(id).Found? || (reused && env.cnode(id))
  }

  // ------------------------------------------------------- the table of reserved IDs

  predicate Distinct(s: seq<nat>) { forall i, j :: 0 <= i < j < |s| ==> s[i] != s[j] }

  /** Every ID is in the bucket of its hash, and only once. */
  predicate TableOk(t: seq<seq<nat>>) {
    && |t| > 0
    && forall b :: 0 <= b < |t| ==> Distinct(t[b]) && forall i :: 0 <= i < |t[b]| ==> t[b][i] % |t| == b
  }

  function Bucket(t: seq<seq<nat>>, id: nat): (b: nat)
    requires |t| > 0
    ensures b < |t|
  { id % |t| }

  predicate InTable(t: seq<seq<nat>>, id: nat)
    requires |t| > 0
  { id in t[Bucket(t, id)] }

  lemma TableInsert(t: seq<seq<nat>>, id: nat)
    requires TableOk(t) && !InTable(t, id)
    ensures var b := Bucket(t, id); var t' := t[b := [id] + t[b]];
            TableOk(t') && forall x: nat :: InTable(t', x) <==> InTable(t, x) || x == id
  {
    var b := Bucket(t, id);
    var t' := t[b := [id] + t[b]];
    forall x: nat ensures InTable(t', x) <==> InTable(t, x) || x == id { }
  }

  lemma TableRemove(t: seq<seq<nat>>, id: nat, i: nat)
    requires TableOk(t) && i < |t[Bucket(t, id)]| && t[Bucket(t, id)][i] == id
    ensures var b := Bucket(t, id); var t' := t[b := t[b][..i] + t[b][i+1..]];
            TableOk(t') && forall x: nat :: InTable(t', x) <==> InTable(t, x) && x != id
  {
    var b := Bucket(t, id);
    var s := t[b];
    var r := s[..i] + s[i+1..];
    var t' := t[b := r];
    assert forall j :: 0 <= j < |r| ==> r[j] == s[if j < i then j else j + 1];
    forall x: nat ensures InTable(t', x) <==> InTable(t, x) && x != id {
      if Bucket(t, x) == b { RemovedFrom(s, i, x); }
    }
  }

  lemma RemovedFrom(s: seq<nat>, i: nat, x: nat)
    requires i < |s| && Distinct(s)
    ensures x in s[..i] + s[i+1..] <==> x in s && x != s[i]
  {
    assert s == s[..i] + [s[i]] + s[i+1..];
  }

  // ------------------------------------------------------------------- the allocator

  class CnidAllocator {
    const buckets: array<seq<nat>>
    var nextId: nat
    var reused: bool

    ghost predicate Valid()
      reads this, buckets
    { TableOk(buckets[..]) && FIRST_USER_ID <= nextId <= LAST_ID }

    /** The ID is reserved but not yet in the catalog. */
    ghost predicate Pending(id: nat)
      reads buckets
    { buckets.Length > 0 && InTable(buckets[..], id) }

    constructor (size: nat, nextId: nat)
      requires size > 0 && FIRST_USER_ID <= nextId <= LAST_ID
      ensures Valid() && fresh(buckets) && this.nextId == nextId && !reused
      ensures forall id: nat :: !Pending(id)
    {
      buckets := new seq<nat>[size](i => []);
      this.nextId := nextId;
      reused := false;
    }

    /** cat_check_idhash. */
    method Check(id: nat) returns (found: bool)
      requires Valid()
      ensures found <==> Pending(id)
    {
      var bucket := buckets[Bucket(buckets[..], id)];
      var i := 0;
      while i < |bucket|
        invariant 0 <= i <= |bucket|
        invariant forall j :: 0 <= j < i ==> bucket[j] != id
      {
        if bucket[i] == id { return true; }
        i := i + 1;
      }
      return false;
    }

    /** cat_insert_idhash. */
    method Insert(id: nat)
      requires Valid() && !Pending(id)
      modifies buckets
      ensures Valid() && forall x: nat :: Pending(x) <==> old(Pending(x)) || x == id
    {
      hide TableOk, InTable, Bucket;
      ghost var t := buckets[..];
      TableSize(t);
      TableInsert(t, id);
      var b := Bucket(buckets[..], id);
      buckets[b] := [id] + buckets[b];
      assert buckets[..] == t[b := [id] + t[b]];
    }

    /** cat_remove_idhash. */
    method Remove(id: nat) returns (ok: bool)
      requires Valid()
      modifies buckets
      ensures ok <==> old(Pending(id))
      ensures Valid() && forall x: nat :: Pending(x) <==> old(Pending(x)) && x != id
    {
      hide TableOk;
      ghost var t := buckets[..];
      TableSize(t);
      var b := Bucket(buckets[..], id);
      var bucket := buckets[b];
      var i := 0;
      while i < |bucket|
        invariant 0 <= i <= |bucket|
        invariant forall j :: 0 <= j < i ==> bucket[j] != id
      {
        if bucket[i] == id {
          TableRemove(t, id, i);
          hide InTable, Bucket;
          buckets[b] := bucket[..i] + bucket[i+1..];
          assert buckets[..] == t[b := t[b][..i] + t[b][i+1..]];
          return true;
        }
        i := i + 1;
      }
      return false;
    }

    /** Every ID of [a, b) is passed over. */
    ghost predicate AllInUse(env: Env, reused: bool, a: nat, b: nat)
      reads buckets
    { forall id: nat :: a <= id < b ==> InUse(env, Pending(id), reused, id) }

    /** cat_acquire_cnid: try every user ID from the next one on, with one wrap-around. The ID
        returned is the first one not in use; no space means that every ID is in use. */
    method Acquire(env: Env) returns (r: Result)
      requires Valid()
      modifies this
      ensures Valid() && (old(reused) ==> reused)
      ensures r.Acquired? ==>
                && FIRST_USER_ID <= r.id <= LAST_ID && !InUse(env, Pending(r.id), reused, r.id)
                                && env.thread(r.id).NotFound? && env.attributes(r.id).NotFound? && !Pending(r.id)
                && (reused ==> !env.cnode(r.id))

                && nextId == (if r.id == LAST_ID then FIRST_USER_ID else r.id + 1)
      ensures r.Acquired? && r.id >= old(nextId) ==> AllInUse(env, reused, old(nextId), r.id)
      ensures r.Acquired? && r.id < old(nextId) ==>
                reused && AllInUse(env, true, FIRST_USER_ID, r.id) && AllInUse(env, true, old(nextId), LAST_ID + 1)
      ensures r.NoSpace? ==> reused && AllInUse(env, true, FIRST_USER_ID, LAST_ID + 1)
    {
      hide TableOk, InTable;
      var wrapped := 0;
      ghost var first, flag := nextId, reused;
      while true
        invariant Valid() && 0 <= wrapped <= 1
        invariant wrapped == 0 ==> reused == flag && first <= nextId && AllInUse(env, flag, first, nextId)
        invariant wrapped == 1 ==>
                  reused && AllInUse(env, true, first, LAST_ID + 1) && AllInUse(env, true, FIRST_USER_ID, nextId)
        decreases 1 - wrapped, LAST_ID - nextId
      {
        var id := nextId;
        if id == LAST_ID {
          wrapped := wrapped + 1;
          if wrapped > 1 { return NoSpace; }
          nextId := FIRST_USER_ID;
          reused := true;
        } else {
          nextId := nextId + 1;
        }
        var pending := Check(id);
        if !pending {
          match env.thread(id) {
            case Failed => return IOError;
            case NotFound =>
              match env.attributes(id) {
                case Failed => return IOError;
                case NotFound => if !(reused && env.cnode(id)) { return Acquired(id); }
                case Found =>
              }
            case Found =>
          }
        }
      }
    }
  }

  lemma TableSize(t: seq<seq<nat>>)
    requires TableOk(t)
    ensures |t| > 0
  {
  }

  // ---------------------------------------------------------------------- runs of IDs

  /** What callers do: reserve an ID, put a reserved ID in the catalog, give a reservation up,
      delete a catalog record. */
  datatype Op = Reserve(attributes: nat -> Lookup, cnode: nat -> bool) | Publish(id: nat) | Cancel(id: nat) | Delete(id: nat)

  /** An ID enters or leaves the set of IDs that are reserved or in the catalog. */
  datatype Event = Given(id: nat) | Returned(id: nat)

  function Live(init: set<nat>, log: seq<Event>): set<nat> {
    if log == [] then init
    else
      var before := Live(init, log[..|log| - 1]);
      match log[|log| - 1]
      case Given(id) => before + {id}
      case Returned(id) => before - {id}
  }

  /** No ID is given out while it is live. */
  ghost predicate LegalIds(init: set<nat>, log: seq<Event>) {
    forall i :: 0 <= i < |log| && log[i].Given? ==> log[i].id !in Live(init, log[..i])
  }

  lemma LogMore(init: set<nat>, log: seq<Event>, e: Event)
    requires LegalIds(init, log) && (e.Given? ==> e.id !in Live(init, log))
    ensures LegalIds(init, log + [e])
    ensures Live(init, log + [e]) == if e.Given? then Live(init, log) + {e.id} else Live(init, log) - {e.id}
  {
    var more := log + [e];
    assert more[..|log|] == log;
    forall i | 0 <= i < |more| && more[i].Given? ensures more[i].id !in Live(init, more[..i]) {
      if i < |log| { assert more[..i] == log[..i]; }
    }
  }

  /** An ID given out twice was returned in between. */
  lemma GivenOnce(init: set<nat>, log: seq<Event>, i: nat, j: nat)
    requires LegalIds(init, log) && i < j < |log| && log[i].Given? && log[j] == log[i]
    ensures exists m :: i < m < j && log[m] == Returned(log[i].id)
  {
    var id := log[i].id;
    var m := i + 1;
    assert log[..i+1][..i] == log[..i];
    while m < j
      invariant i < m <= j && id in Live(init, log[..m])
      invariant forall q :: i < q < m ==> log[q] != Returned(id)
    {
      if log[m] == Returned(id) { return; }
      assert log[..m+1][..m] == log[..m];
      m := m + 1;
    }
    assert false;
  }

  /** Any run of reservations: reserved IDs and catalog IDs stay apart, and no ID is given
      out while it is reserved or in the catalog. */
  method RunIds(a: CnidAllocator, ops: seq<Op>, catalog0: set<nat>) returns (catalog: set<nat>, log: seq<Event>)
    requires a.Valid() && forall x: nat :: !a.Pending(x)
    modifies a, a.buckets
    ensures a.Valid() && LegalIds(catalog0, log)
    ensures forall x: nat :: a.Pending(x) ==> x !in catalog
    ensures forall x: nat :: x in Live(catalog0, log) <==> a.Pending(x) || x in catalog
  {
    hide TableOk, InTable, LegalIds, Live;
    catalog, log := catalog0, [];
    LogNone(catalog0);
    var i := 0;
    while i < |ops|
      invariant 0 <= i <= |ops| && a.Valid() && LegalIds(catalog0, log)
      invariant forall x: nat :: a.Pending(x) ==> x !in catalog
      invariant forall x: nat :: x in Live(catalog0, log) <==> a.Pending(x) || x in catalog
    {
      catalog, log := StepIds(a, ops[i], catalog, catalog0, log);
      i := i + 1;
    }
  }

  lemma LogNone(init: set<nat>)
    ensures LegalIds(init, []) && Live(init, []) == init
  {
  }

  method StepIds(a: CnidAllocator, op: Op, catalog: set<nat>, ghost init: set<nat>, log: seq<Event>)
    returns (catalog': set<nat>, log': seq<Event>)
    requires a.Valid() && LegalIds(init, log) && forall x: nat :: a.Pending(x) ==> x !in catalog
    requires forall x: nat :: x in Live(init, log) <==> a.Pending(x) || x in catalog
    modifies a, a.buckets
    ensures a.Valid() && LegalIds(init, log') && forall x: nat :: a.Pending(x) ==> x !in catalog'
    ensures forall x: nat :: x in Live(init, log') <==> a.Pending(x) || x in catalog'
  {
    hide TableOk, InTable, LegalIds, Live;
    catalog', log' := catalog, log;
    match op {
      case Reserve(attributes, cnode) =>
        var env := Env(id => if id in catalog then Found else NotFound, attributes, cnode);
        var r := a.Acquire(env);
        if r.Acquired? {
          LogMore(init, log, Given(r.id));
          log' := log + [Given(r.id)];
          a.Insert(r.id);
        }
      case Publish(id) =>
        var ok := a.Remove(id);
        if ok { catalog' := catalog + {id}; }
      case Cancel(id) =>
        var ok := a.Remove(id);
        if ok {
          LogMore(init, log, Returned(id));
          log' := log + [Returned(id)];
        }
      case Delete(id) =>
        if id in catalog {
          LogMore(init, log, Returned(id));
          log' := log + [Returned(id)];
          catalog' := catalog - {id};
        }
    }
  }
}
