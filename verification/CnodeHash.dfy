/** The cnode hash: one mutex guards the chains and the flags, and every critical section is
    one step of a thread. */
module CnodeHashes {

  datatype Option<T> = None | Some(value: T)

  /** An in-memory node of a file: its file ID, the ID by which it was put into a chain, its
      flags, and whether it has a data and a resource vnode. */
  datatype Cnode = Cnode(fileId: nat, home: nat, alloc: bool, attach: bool, transit: bool, waiting: bool,
                         data: bool, rsrc: bool)
  {
    predicate Busy() { alloc || attach || transit }
    predicate Has(wantRsrc: bool) { if wantRsrc then rsrc else data }
  }

  /** Where a thread is between its critical sections. `create` tells getcnode from getvnode;
      `spare` is a node allocated outside the mutex and not yet in the hash. An exchange of
      file IDs has written one ID or both, and has not yet rehashed the nodes; `saved` is the
      ID that `node` had. */
  datatype Thread =
    | Idle
    | Looking(inum: nat, wantRsrc: bool, create: bool, spare: bool)
    | Asleep(node: nat, inum: nat, wantRsrc: bool, create: bool, spare: bool)
    | Getting(node: nat, inum: nat, wantRsrc: bool, create: bool, spare: bool)
    | Owning(node: nat, wantRsrc: bool, isNew: bool)
    | Marking(node: nat)
    | Reclaiming(node: nat, woken: bool)
    | Exchanging(node: nat, other: nat, saved: nat, second: bool)

  datatype State = State(chains: seq<seq<nat>>, nodes: map<nat, Cnode>, threads: seq<Thread>, next: nat) {
    function Slot(id: nat): nat
      requires |chains| > 0
    { id % |chains| }

    predicate Hashed(n: nat)
      requires |chains| > 0
    { n in nodes && n in chains[Slot(nodes[n].home)] }
  }

  // ------------------------------------------------------------------- invariant

  /** The nodes of a chain belong there, and no two were put there by the same ID. */
  ghost predicate ChainOk(chain: seq<nat>, nodes: map<nat, Cnode>, b: nat, size: nat)
    requires size > 0
  {
    && (forall i :: 0 <= i < |chain| ==> chain[i] in nodes && nodes[chain[i]].home % size == b)
    && (forall i, j :: 0 <= i < j < |chain| ==> nodes[chain[i]].home != nodes[chain[j]].home)
  }

  ghost predicate ChainsOk(s: State) {
    && |s.chains| > 0
    && (forall b :: 0 <= b < |s.chains| ==> ChainOk(s.chains[b], s.nodes, b, |s.chains|))
    && (forall n :: n in s.nodes ==> n < s.next)
  }

  /** A node being allocated or attached to is in the hash and has exactly one owner. */
  ghost predicate OwnersOk(s: State)
    requires |s.chains| > 0
  {
    && (forall t :: 0 <= t < |s.threads| && s.threads[t].Owning? ==>
          var n := s.threads[t].node;
          n in s.nodes && s.Hashed(n) && (if s.threads[t].isNew then s.nodes[n].alloc else s.nodes[n].attach))
    && (forall t, u :: 0 <= t < u < |s.threads| && s.threads[t].Owning? && s.threads[u].Owning? ==>
          s.threads[t].node != s.threads[u].node)
    && (forall n :: n in s.nodes && (s.nodes[n].alloc || s.nodes[n].attach) ==> Owned(s, n))
    && (forall n :: n in s.nodes ==> OneFlag(s.nodes[n]))
  }

  predicate OneFlag(c: Cnode) { !(c.alloc && c.attach) && !(c.transit && (c.alloc || c.attach)) }

  predicate Owned(s: State,
                  n: nat) { exists t :: 0 <= t < |s.threads| && s.threads[t].Owning? && s.threads[t].node == n }

  /** A node that somebody sleeps on is busy and marked as waited for. */
  ghost predicate SleepersOk(s: State) {
    forall t :: 0 <= t < |s.threads| && s.threads[t].Asleep? ==>
      var n := s.threads[t].node; n in s.nodes && s.nodes[n].waiting && s.nodes[n].Busy()
  }

  /** A node being reclaimed has left the hash; once its sleepers are woken it is idle. */
  ghost predicate ReclaimersOk(s: State)
    requires |s.chains| > 0
  {
    && (forall t :: 0 <= t < |s.threads| && s.threads[t].Reclaiming? ==>
          var n := s.threads[t].node;
          n in s.nodes && !s.Hashed(n) && (s.threads[t].woken ==> !s.nodes[n].Busy()))
    && (forall t, u :: 0 <= t < u < |s.threads| && s.threads[t].Reclaiming? && s.threads[u].Reclaiming? ==>
          s.threads[t].node != s.threads[u].node)
  }

  /** A node in transit has been marked by a thread that will reclaim it and then wake its
      sleepers. */
  ghost predicate TransitOk(s: State) {
    && (forall t :: 0 <= t < |s.threads| && s.threads[t].Marking? ==>
          s.threads[t].node in s.nodes && s.nodes[s.threads[t].node].transit)
    && (forall t, u :: 0 <= t < |s.threads| && 0 <= u < |s.threads| && s.threads[t].Marking? && u != t && InReclaim(s.threads[u]) ==>
          s.threads[t].node != s.threads[u].node)
    && (forall n :: n in s.nodes && s.nodes[n].transit ==> InTransit(s, n))
  }

  predicate InReclaim(x: Thread) { x.Marking? || x.Reclaiming? }

  predicate InTransit(s: State, n: nat) {
    exists t :: 0 <= t < |s.threads| && (s.threads[t] == Marking(n) || s.threads[t] == Reclaiming(n, false))
  }

  /** Whether the file ID of a node is being exchanged. */
  predicate InWindow(s: State, n: nat) {
    exists t :: 0 <= t < |s.threads| && s.threads[t].Exchanging? && (s.threads[t].node == n || s.threads[t].other == n)
  }

  /** The nodes of an exchange are in the chains of the IDs they had. */
  predicate WindowOk(s: State, x: Thread)
    requires |s.chains| > 0 && x.Exchanging?
  {
    && x.node != x.other && s.Hashed(x.node) && s.Hashed(x.other) && s.nodes[x.node].data && s.nodes[x.other].data
    && s.nodes[x.node].home == x.saved && s.nodes[x.node].fileId == s.nodes[x.other].home
    && s.nodes[x.other].fileId == if x.second then x.saved else s.nodes[x.other].home
  }

  predicate Apart(x: Thread, y: Thread)
    requires x.Exchanging? && y.Exchanging?
  { x.node != y.node && x.node != y.other && x.other != y.node && x.other != y.other }

  /** Only nodes whose IDs are being exchanged are in a chain other than that of their ID, and
      no node takes part in two exchanges. */
  ghost predicate WindowsOk(s: State)
    requires |s.chains| > 0
  {
    && (forall t :: 0 <= t < |s.threads| && s.threads[t].Exchanging? ==> WindowOk(s, s.threads[t]))
    && (forall t, u :: 0 <= t < u < |s.threads| && s.threads[t].Exchanging? && s.threads[u].Exchanging? ==>
          Apart(s.threads[t], s.threads[u]))
    && (forall n :: n in s.nodes && !InWindow(s, n) ==> s.nodes[n].fileId == s.nodes[n].home)
  }

  ghost predicate Settled(s: State) { ChainsOk(s) && OwnersOk(s) && SleepersOk(s) && ReclaimersOk(s) }

  ghost predicate Valid(s: State) { Settled(s) && TransitOk(s) && WindowsOk(s) }

  lemma InNodesIfHashed(s: State, n: nat)
    requires |s.chains| > 0 && s.Hashed(n)
    ensures n in s.nodes
  {
  }

  /** At most one node of the hash was put there by a given ID. */
  lemma UniqueByHome(s: State, n: nat, m: nat)
    requires ChainsOk(s) && s.Hashed(n) && s.Hashed(m) && s.nodes[n].home == s.nodes[m].home
    ensures n == m
  {
    var b := s.Slot(s.nodes[n].home);
    var chain := s.chains[b];
    assert ChainOk(chain, s.nodes, b, |s.chains|);
    var i :| 0 <= i < |chain| && chain[i] == n;
    var j :| 0 <= j < |chain| && chain[j] == m;
    assert !(i < j) && !(j < i);
  }

  /** At most one node of the hash has a given file ID, but for the two nodes of an exchange
      that has written only one of its IDs. */
  lemma UniqueById(s: State, n: nat, m: nat)
    requires Valid(s) && s.Hashed(n) && s.Hashed(m) && s.nodes[n].fileId == s.nodes[m].fileId
    ensures n == m || HalfWritten(s, n, m) || HalfWritten(s, m, n)
  {
    hide ChainOk, OwnersOk, SleepersOk, ReclaimersOk, TransitOk, State.Hashed, InWindow, WindowsOk;
    var a, b := Source(s, n), Source(s, m);
    UniqueByHome(s, a, b);
    if a != n { PartnerOf(s, n, a, m); } else if b != m { PartnerOf(s, m, b, n); }
  }

  /** Of two nodes with one ID, one of which has exchanged it with `a`, and `a` was put into
      the hash by that ID. */
  lemma PartnerOf(s: State, n: nat, a: nat, m: nat)
    requires ChainsOk(s) && WindowsOk(s) && s.Hashed(n) && s.Hashed(m) && s.nodes[n].fileId == s.nodes[m].fileId
    requires a == Source(s, n) == Source(s, m) && a != n
    ensures n == m || HalfWritten(s, n, m)
  {
    InNodesIfHashed(s, n);
    InNodesIfHashed(s, m);
    hide ChainOk, State.Hashed, InWindow, Source;
    var u :| 0 <= u < |s.threads| && Exchanges(s.threads[u], n, a);
    var x := s.threads[u];
    assert WindowOk(s, x);
    if m == a {
      if x.second && s.nodes[n].home == s.nodes[m].home { UniqueByHome(s, n, m); }
    } else {
      var v :| 0 <= v < |s.threads| && Exchanges(s.threads[v], m, a);
      assert v < u ==> Apart(s.threads[v], x);
      assert u < v ==> Apart(x, s.threads[v]);
      assert WindowOk(s, s.threads[v]);
    }
  }

  predicate HalfWritten(s: State, n: nat, m: nat) {
    exists t :: 0 <= t < |s.threads| && s.threads[t].Exchanging? && !s.threads[t].second
                && s.threads[t].node == n && s.threads[t].other == m
  }

  /** The node that was put into the hash by the file ID that `n` now has. */
  ghost function Source(s: State, n: nat): (k: nat)
    requires |s.chains| > 0 && WindowsOk(s) && s.Hashed(n)
    ensures s.Hashed(k) && s.nodes[k].home == s.nodes[n].fileId
    ensures k == n || exists t :: 0 <= t < |s.threads| && Exchanges(s.threads[t], n, k)
  {
    if !InWindow(s, n) then n
    else
      var t :| 0 <= t < |s.threads| && s.threads[t].Exchanging? && (s.threads[t].node == n || s.threads[t].other == n);
      var x := s.threads[t];
      if x.node == n then assert Exchanges(x, n, x.other); x.other
      else if x.second then assert Exchanges(x, n, x.node); x.node else n
  }

  predicate Exchanges(x: Thread, n: nat, k: nat) {
    x.Exchanging? && ((x.node == n && x.other == k) || (x.second && x.other == n && x.node == k))
  }

  /** Whoever sleeps has somebody who is still to wake them: the owner of the node they sleep
      on, or the thread that is about to reclaim it or has yet to wake its sleepers. */
  lemma SleeperHasWaker(s: State, t: nat)
    requires Valid(s) && t < |s.threads| && s.threads[t].Asleep?
    ensures exists u :: 0 <= u < |s.threads| && Wakes(s.threads[u], s.threads[t].node)
  {
    hide ChainsOk, WindowsOk, State.Hashed;
    var n := s.threads[t].node;
    if s.nodes[n].transit {
      var u :| 0 <= u < |s.threads| && (s.threads[u] == Marking(n) || s.threads[u] == Reclaiming(n, false));
      assert Wakes(s.threads[u], n);
    } else {
      var u :| 0 <= u < |s.threads| && s.threads[u].Owning? && s.threads[u].node == n;
      assert Wakes(s.threads[u], n);
    }
  }

  predicate Wakes(x: Thread, n: nat) {
    (x.Owning? && x.node == n) || x == Marking(n) || x == Reclaiming(n, false)
  }

  // ----------------------------------------------------------------- the steps

  /** The first node of a chain with a file ID. */
  function FindIn(chain: seq<nat>, nodes: map<nat, Cnode>, id: nat): (r: Option<nat>)
    ensures r.Some? ==> r.value in chain && r.value in nodes && nodes[r.value].fileId == id
    ensures r.None? ==> forall n :: n in chain && n in nodes ==> nodes[n].fileId != id
  {
    if chain == [] then None
    else if chain[0] in nodes && nodes[chain[0]].fileId == id then Some(chain[0])
    else FindIn(chain[1..], nodes, id)
  }

  function Find(s: State, id: nat): Option<nat>
    requires |s.chains| > 0
  { FindIn(s.chains[s.Slot(id)], s.nodes, id) }

  /** Go to sleep on a busy node. */
  function Sleep(s: State, t: nat, n: nat): State
    requires t < |s.threads| && s.threads[t].Looking? && n in s.nodes
  {
    var l := s.threads[t];
    s.(nodes := s.nodes[n := s.nodes[n].(waiting := true)],
       threads := s.threads[t := Asleep(n, l.inum, l.wantRsrc, l.create, l.spare)])
  }

  /** Tag a node whose vnode is missing. */
  function Attach(s: State, t: nat, n: nat): State
    requires t < |s.threads| && s.threads[t].Looking? && n in s.nodes
  {
    s.(nodes := s.nodes[n := s.nodes[n].(attach := true)], threads := s.threads[t := Owning(n, s.threads[t].wantRsrc, false)])
  }

  /** Put the spare node in the hash. */
  function Insert(s: State, t: nat): State
    requires t < |s.threads| && s.threads[t].Looking? && |s.chains| > 0
  {
    var l := s.threads[t];
    var b := s.Slot(l.inum);
    s.(nodes := s.nodes[s.next := Cnode(l.inum, l.inum, true, false, false, false, false, false)],
       chains := s.chains[b := [s.next] + s.chains[b]],
       threads := s.threads[t := Owning(s.next, l.wantRsrc, true)], next := s.next + 1)
  }

  /** One pass of hfs_chash_getcnode or hfs_chash_getvnode over the chain. */
  function Scan(s: State, t: nat): State
    requires t < |s.threads| && s.threads[t].Looking? && |s.chains| > 0
  {
    var l := s.threads[t];
    match Find(s, l.inum)
    case Some(n) =>
      if s.nodes[n].Busy() then Sleep(s, t, n)
      else if s.nodes[n].Has(l.wantRsrc) then
        s.(threads := s.threads[t := Getting(n, l.inum, l.wantRsrc, l.create, l.spare)])
      else if l.create then Attach(s, t, n)
      else s.(threads := s.threads[t := Idle])
    case None =>
      if !l.create then s.(threads := s.threads[t := Idle])
      else if !l.spare then s.(threads := s.threads[t := Looking(l.inum, l.wantRsrc, l.create, true)])
      else Insert(s, t)
  }

  lemma ChainKept(chain: seq<nat>, nodes: map<nat, Cnode>, nodes': map<nat, Cnode>, b: nat, size: nat)
    requires size > 0 && ChainOk(chain, nodes, b, size)
    requires forall n :: n in chain ==> n in nodes' && (n in nodes ==> nodes'[n].home == nodes[n].home)
    ensures ChainOk(chain, nodes', b, size)
  {
    forall i | 0 <= i < |chain| ensures chain[i] in nodes' && nodes'[chain[i]].home == nodes[chain[i]].home {
      assert chain[i] in chain;
    }
  }

  /** Node maps with the same nodes, put into the hash by the same IDs. */
  ghost predicate SameIds(a: map<nat, Cnode>, b: map<nat, Cnode>) {
    (forall n :: n in a <==> n in b) && forall n :: n in a ==> a[n].home == b[n].home
  }

  lemma SameChains(s: State, s': State)
    requires ChainsOk(s) && s'.chains == s.chains && s'.next == s.next && SameIds(s.nodes, s'.nodes)
    ensures ChainsOk(s')
    ensures forall n :: s'.Hashed(n) <==> s.Hashed(n)
  {
    forall b | 0 <= b < |s.chains| ensures ChainOk(s.chains[b], s'.nodes, b, |s.chains|) {
      InNodes(s.chains[b], s.nodes, b, |s.chains|);
      ChainKept(s.chains[b], s.nodes, s'.nodes, b, |s.chains|);
    }
  }

  lemma InNodes(chain: seq<nat>, nodes: map<nat, Cnode>, b: nat, size: nat)
    requires size > 0 && ChainOk(chain, nodes, b, size)
    ensures forall n :: n in chain ==> n in nodes
  {
  }

  lemma SleepValid(s: State, t: nat, n: nat)
    requires Settled(s) && t < |s.threads| && s.threads[t].Looking? && n in s.nodes && s.nodes[n].Busy()
    ensures Settled(Sleep(s, t, n))
  {
    hide ChainsOk, ChainOk;
    var s' := Sleep(s, t, n);
    SameChains(s, s');
    OwnersKept(s, s', t);
  }

  /** Threads other than `t` as before, `t` no owner before or after, and the owners' flags
      unchanged. */
  lemma OwnersKept(s: State, s': State, t: nat)
    requires ChainsOk(s) && ChainsOk(s') && OwnersOk(s) && t < |s.threads| == |s'.threads|
    requires forall u :: 0 <= u < |s.threads| && u != t ==> s'.threads[u] == s.threads[u]
    requires !s.threads[t].Owning? && !s'.threads[t].Owning?
    requires SameIds(s.nodes, s'.nodes) && forall n :: s'.Hashed(n) <==> s.Hashed(n)
    requires forall n :: n in s.nodes ==>
               s'.nodes[n].alloc == s.nodes[n].alloc && s'.nodes[n].attach == s.nodes[n].attach && OneFlag(s'.nodes[n])
    ensures OwnersOk(s')
  {
    hide ChainsOk, State.Hashed;
    forall n | n in s'.nodes && (s'.nodes[n].alloc || s'.nodes[n].attach) ensures Owned(s', n) {
      var u :| 0 <= u < |s.threads| && s.threads[u].Owning? && s.threads[u].node == n;
      assert s'.threads[u] == s.threads[u];
    }
  }

  /** A thread that holds no claim moves on without touching the hash. */
  lemma ThreadStep(s: State, t: nat, now: Thread)
    requires Settled(s) && t < |s.threads| && !s.threads[t].Owning? && !s.threads[t].Reclaiming?
    requires now.Idle? || now.Looking? || now.Getting? || now.Marking?
    ensures Settled(s.(threads := s.threads[t := now]))
  {
    hide ChainOk, State.Hashed;
    var s' := s.(threads := s.threads[t := now]);
    SameChains(s, s');
    OwnersKept(s, s', t);
  }

  lemma AttachValid(s: State, t: nat, n: nat)
    requires Settled(s) && t < |s.threads| && s.threads[t].Looking? && n in s.nodes && s.Hashed(n) && !s.nodes[n].Busy()
    ensures Settled(Attach(s, t, n))
  {
    hide ChainsOk, ChainOk, OwnersOk;
    var s' := Attach(s, t, n);
    SameChains(s, s');
    hide State.Hashed;
    AttachOwners(s, t, n);
  }

  lemma AttachOwners(s: State, t: nat, n: nat)
    requires ChainsOk(s) && OwnersOk(s) && t < |s.threads| && s.threads[t].Looking?
    requires n in s.nodes && s.Hashed(n) && !s.nodes[n].Busy()
    ensures OwnersOk(Attach(s, t, n))
  {
    var s' := Attach(s, t, n);
    hide ChainOk;
    SameChains(s, s');
    hide ChainsOk, State.Hashed;
    forall m | m in s'.nodes && (s'.nodes[m].alloc || s'.nodes[m].attach) ensures Owned(s', m) {
      if m == n {
        assert s'.threads[t].node == n;
      } else {
        var u :| 0 <= u < |s.threads| && s.threads[u].Owning? && s.threads[u].node == m;
        assert s'.threads[u] == s.threads[u];
      }
    }
  }

  lemma InsertChains(s: State, t: nat)
    requires ChainsOk(s) && t < |s.threads| && s.threads[t].Looking? && Unused(s, s.threads[t].inum)
    ensures var s' := Insert(s, t);
            && ChainsOk(s') && s'.Hashed(s.next) && s.next !in s.nodes
            && forall n :: n in s.nodes ==> (s'.Hashed(n) <==> s.Hashed(n))
  {
    var s' := Insert(s, t);
    var id := s.threads[t].inum;
    var b0 := s.Slot(id);
    forall b | 0 <= b < |s.chains| ensures ChainOk(s'.chains[b], s'.nodes, b, |s.chains|) {
      InNodes(s.chains[b], s.nodes, b, |s.chains|);
      ChainKept(s.chains[b], s.nodes, s'.nodes, b, |s.chains|);
      if b == b0 {
        forall k | k in s.chains[b] && k in s'.nodes ensures s'.nodes[k].home != id { InChainHashed(s, b, k); }
        Prepended(s.chains[b], s'.nodes, b, |s.chains|, s.next);
      }
    }
  }

  lemma Prepended(chain: seq<nat>, nodes: map<nat, Cnode>, b: nat, size: nat, n: nat)
    requires size > 0 && ChainOk(chain, nodes, b, size) && n in nodes && nodes[n].home % size == b
    requires forall m :: m in chain && m in nodes ==> nodes[m].home != nodes[n].home
    ensures ChainOk([n] + chain, nodes, b, size)
  {
    var more := [n] + chain;
    forall i, j | 0 <= i < j < |more| ensures nodes[more[i]].home != nodes[more[j]].home {
      assert more[j] == chain[j - 1] && chain[j - 1] in chain;
    }
  }

  lemma InsertValid(s: State, t: nat)
    requires Settled(s) && t < |s.threads| && s.threads[t].Looking? && Unused(s, s.threads[t].inum)
    ensures Settled(Insert(s, t))
  {
    InsertChains(s, t);
    InsertOwners(s, t);
    hide ChainsOk, OwnersOk, State.Hashed, Unused;
  }

  lemma InsertOwners(s: State, t: nat)
    requires ChainsOk(s) && OwnersOk(s) && t < |s.threads| && s.threads[t].Looking? && Unused(s, s.threads[t].inum)
    ensures OwnersOk(Insert(s, t))
  {
    var s' := Insert(s, t);
    InsertChains(s, t);
    hide ChainsOk, ChainOk, State.Hashed, Unused;
    forall m | m in s'.nodes && (s'.nodes[m].alloc || s'.nodes[m].attach) ensures Owned(s', m) {
      if m == s.next {
        assert s'.threads[t].node == m;
      } else {
        var u :| 0 <= u < |s.threads| && s.threads[u].Owning? && s.threads[u].node == m;
        assert s'.threads[u] == s.threads[u];
      }
    }
  }

  /** What a walk of the chain finds is in the hash. */
  lemma FoundHashed(s: State, id: nat)
    requires ChainsOk(s) && Find(s, id).Some?
    ensures var n := Find(s, id).value; s.Hashed(n) && s.nodes[n].fileId == id
  {
    InChainHashed(s, s.Slot(id), Find(s, id).value);
  }

  /** Whether a pass puts the spare node into the hash. */
  predicate Inserts(s: State, t: nat)
    requires t < |s.threads| && |s.chains| > 0
  { s.threads[t].Looking? && s.threads[t].create && s.threads[t].spare && Find(s, s.threads[t].inum).None? }

  lemma ScanValid(s: State, t: nat)
    requires Settled(s) && t < |s.threads| && s.threads[t].Looking? && (Inserts(s, t) ==> Unused(s, s.threads[t].inum))
    ensures Settled(Scan(s, t))
  {
    hide Unused, State.Hashed;
    var l := s.threads[t];
    match Find(s, l.inum)
    case Some(n) =>
      FoundHashed(s, l.inum);
      if s.nodes[n].Busy() { SleepValid(s, t, n); }
      else if s.nodes[n].Has(l.wantRsrc) { ThreadStep(s, t, Getting(n, l.inum, l.wantRsrc, l.create, l.spare)); }
      else if l.create { AttachValid(s, t, n); }
      else { ThreadStep(s, t, Idle); }
    case None =>
      if !l.create { ThreadStep(s, t, Idle); }
      else if !l.spare { ThreadStep(s, t, Looking(l.inum, l.wantRsrc, l.create, true)); }
      else { InsertValid(s, t); }
  }

  // ------------------------------------------------------------------ waking up

  /** Everyone asleep on `n` goes back to look. */
  function Woken(ts: seq<Thread>, n: nat): (r: seq<Thread>)
    ensures |r| == |ts|
  {
    seq(|ts|, i requires 0 <= i < |ts| =>
      if ts[i].Asleep? && ts[i].node == n then Looking(ts[i].inum, ts[i].wantRsrc, ts[i].create, ts[i].spare) else ts[i])
  }

  /** hfs_chashwakeup. */
  function Wakeup(s: State, n: nat, alloc: bool, attach: bool, transit: bool): State
    requires n in s.nodes
  {
    var c := s.nodes[n];
    var d := c.(alloc := c.alloc && !alloc, attach := c.attach && !attach, transit := c.transit && !transit);
    if d.waiting then s.(nodes := s.nodes[n := d.(waiting := false)], threads := Woken(s.threads, n))
    else s.(nodes := s.nodes[n := d])
  }

  lemma NobodyAsleep(s: State, n: nat)
    requires SleepersOk(s) && n in s.nodes && (!s.nodes[n].waiting || !s.nodes[n].Busy())
    ensures Woken(s.threads, n) == s.threads
    ensures forall t :: 0 <= t < |s.threads| && s.threads[t].Asleep? ==> s.threads[t].node != n
  {
  }

  /** The owner of `n` has made its vnode, or has given up. */
  function Finish(s: State, t: nat, made: bool): State
    requires t < |s.threads| && s.threads[t].Owning? && s.threads[t].node in s.nodes
  {
    var o := s.threads[t];
    var c := s.nodes[o.node];
    var d := c.(data := c.data || (made && !o.wantRsrc), rsrc := c.rsrc || (made && o.wantRsrc));
    Wakeup(s.(nodes := s.nodes[o.node := d], threads := s.threads[t := Idle]), o.node, true, true, false)
  }

  /** Thread `t` lets go of its node `n`: the flags are clear and the sleepers woken. */
  ghost predicate Released(s: State, s': State, t: nat, n: nat)
    requires |s.chains| > 0 && |s'.chains| > 0
  {
    && t < |s.threads| == |s'.threads| && s.threads[t].Owning? && s.threads[t].node == n && n in s.nodes
    && (s'.threads[t].Idle? || s'.threads[t] == Reclaiming(n, true))
    && (forall u :: 0 <= u < |s.threads| && u != t ==> s'.threads[u] == Woken(s.threads, n)[u])
    && SameIds(s.nodes, s'.nodes) && (forall m :: m in s.nodes && m != n ==> s'.nodes[m] == s.nodes[m])
    && !s'.nodes[n].alloc && !s'.nodes[n].attach && s'.nodes[n].transit == s.nodes[n].transit
    && (forall m :: m != n ==> (s'.Hashed(m) <==> s.Hashed(m)))
    && (s'.threads[t].Idle? ==> s'.Hashed(n)) && (s'.threads[t].Reclaiming? ==> !s'.Hashed(n) && !s'.nodes[n].Busy())
  }

  lemma ReleasedOwners(s: State, s': State, t: nat, n: nat)
    requires Settled(s) && |s'.chains| > 0 && Released(s, s', t, n)
    ensures OwnersOk(s')
  {
    hide ChainsOk, State.Hashed, SleepersOk, ReclaimersOk;
    forall m | m in s'.nodes && (s'.nodes[m].alloc || s'.nodes[m].attach) ensures Owned(s', m) {
      var u :| 0 <= u < |s.threads| && s.threads[u].Owning? && s.threads[u].node == m;
      assert s'.threads[u] == s.threads[u];
    }
  }

  lemma ReleasedRest(s: State, s': State, t: nat, n: nat)
    requires Settled(s) && |s'.chains| > 0 && Released(s, s', t, n)
    ensures SleepersOk(s') && ReclaimersOk(s')
  {
    hide ChainsOk, State.Hashed;
  }

  lemma FinishValid(s: State, t: nat, made: bool)
    requires Settled(s) && t < |s.threads| && s.threads[t].Owning?
    ensures Settled(Finish(s, t, made))
  {
    hide ChainOk;
    var n := s.threads[t].node;
    var s' := Finish(s, t, made);
    NobodyIfQuiet(s, n);
    SameChains(s, s');
    hide State.Hashed, ChainsOk;
    assert Released(s, s', t, n);
    ReleasedOwners(s, s', t, n);
    ReleasedRest(s, s', t, n);
  }

  lemma NobodyIfQuiet(s: State, n: nat)
    requires SleepersOk(s) && n in s.nodes
    ensures !s.nodes[n].waiting ==> forall t :: 0 <= t < |s.threads| ==> !(s.threads[t].Asleep? && s.threads[t].node == n)
  {
  }

  // ---------------------------------------------------------------- leaving the hash

  function Filtered(chain: seq<nat>, n: nat): (r: seq<nat>)
    ensures forall m :: m in r <==> m in chain && m != n
  {
    if chain == [] then [] else (if chain[0] == n then [] else [chain[0]]) + Filtered(chain[1..], n)
  }

  lemma {:induction false} FilteredOk(chain: seq<nat>, nodes: map<nat, Cnode>, b: nat, size: nat, n: nat)
    requires size > 0 && ChainOk(chain, nodes, b, size)
    ensures ChainOk(Filtered(chain, n), nodes, b, size)
  {
    if chain != [] {
      var rest := chain[1..];
      assert forall i :: 0 <= i < |rest| ==> rest[i] == chain[i + 1];
      assert ChainOk(rest, nodes, b, size);
      FilteredOk(rest, nodes, b, size, n);
      if chain[0] != n {
        forall m | m in Filtered(rest, n) ensures nodes[m].home != nodes[chain[0]].home {
          var i :| 0 <= i < |rest| && rest[i] == m;
          assert chain[i + 1] == m;
        }
        Prepended(Filtered(rest, n), nodes, b, size, chain[0]);
      }
    }
  }

  /** Take a node out of its chain. */
  function Unhash(s: State, n: nat): State
    requires |s.chains| > 0 && n in s.nodes
  {
    var b := s.Slot(s.nodes[n].home);
    s.(chains := s.chains[b := Filtered(s.chains[b], n)])
  }

  lemma UnhashChains(s: State, n: nat)
    requires ChainsOk(s) && n in s.nodes
    ensures var s' := Unhash(s, n);
            ChainsOk(s') && !s'.Hashed(n) && forall m :: m != n ==> (s'.Hashed(m) <==> s.Hashed(m))
  {
    var s' := Unhash(s, n);
    var b0 := s.Slot(s.nodes[n].home);
    forall b | 0 <= b < |s.chains| ensures ChainOk(s'.chains[b], s'.nodes, b, |s.chains|) {
      if b == b0 { FilteredOk(s.chains[b], s.nodes, b, |s.chains|, n); }
    }
  }

  lemma UnhashValid(s: State, n: nat)
    requires Settled(s) && n in s.nodes && !s.nodes[n].alloc && !s.nodes[n].attach
    ensures Settled(Unhash(s, n))
  {
    UnhashChains(s, n);
    hide ChainsOk, ChainOk, State.Hashed, Filtered;
    var s' := Unhash(s, n);
    forall m | m in s'.nodes && (s'.nodes[m].alloc || s'.nodes[m].attach) ensures Owned(s', m) {
      var u :| 0 <= u < |s.threads| && s.threads[u].Owning? && s.threads[u].node == m;
      assert s'.threads[u] == s.threads[u];
    }
  }

  /** hfs_chash_abort: the owner takes its node out of the hash, to free it. */
  function Abort(s: State, t: nat): State
    requires t < |s.threads| && s.threads[t].Owning? && s.threads[t].node in s.nodes && |s.chains| > 0
  {
    var n := s.threads[t].node;
    Wakeup(Unhash(s.(threads := s.threads[t := Reclaiming(n, true)]), n), n, true, true, false)
  }

  lemma AbortValid(s: State, t: nat)
    requires Settled(s) && t < |s.threads| && s.threads[t].Owning?
    ensures Settled(Abort(s, t))
  {
    var n := s.threads[t].node;
    var s' := Abort(s, t);
    UnhashChains(s, n);
    NobodyIfQuiet(s, n);
    hide ChainOk, Filtered;
    SameChains(Unhash(s, n), s');
    hide State.Hashed, ChainsOk;
    assert Released(s, s', t, n);
    ReleasedOwners(s, s', t, n);
    ReleasedRest(s, s', t, n);
  }

  // ------------------------------------------------------------- vnodes come and go

  /** A change of one node that leaves its ID and its owners' flags alone and does not make
      it idle. */
  lemma FlagsValid(s: State, n: nat, c: Cnode)
    requires Settled(s) && n in s.nodes && c.home == s.nodes[n].home && c.waiting == s.nodes[n].waiting
    requires c.alloc == s.nodes[n].alloc && c.attach == s.nodes[n].attach && OneFlag(c)
    requires s.nodes[n].transit ==> c.transit
    requires c.transit ==> s.nodes[n].transit || s.Hashed(n)
    ensures Settled(s.(nodes := s.nodes[n := c]))
  {
    hide ChainOk;
    var s' := s.(nodes := s.nodes[n := c]);
    SameChains(s, s');
    hide State.Hashed, ChainsOk;
    FlagsOwners(s, s');
  }

  lemma FlagsOwners(s: State, s': State)
    requires |s.chains| > 0 && |s'.chains| > 0 && OwnersOk(s) && s'.threads == s.threads && SameIds(s.nodes, s'.nodes)
    requires forall n :: s'.Hashed(n) <==> s.Hashed(n)
    requires forall n :: n in s.nodes ==>
               s'.nodes[n].alloc == s.nodes[n].alloc && s'.nodes[n].attach == s.nodes[n].attach && OneFlag(s'.nodes[n])
    ensures OwnersOk(s')
  {
    hide State.Hashed;
    forall m | m in s'.nodes && (s'.nodes[m].alloc || s'.nodes[m].attach) ensures Owned(s', m) { assert Owned(s, m); }
  }

  /** hfs_chashremove for the last vnode of a node: busy if a vnode is being attached. */
  function Reclaim(s: State, t: nat, n: nat): State
    requires t < |s.threads| && n in s.nodes && |s.chains| > 0
  {
    if s.nodes[n].attach then s
    else Unhash(s, n).(threads := s.threads[t := Reclaiming(n, false)])
  }

  lemma ReclaimValid(s: State, t: nat, n: nat)
    requires Settled(s) && t < |s.threads| && (s.threads[t].Idle? || s.threads[t].Marking?) && n in s.nodes
    requires !s.nodes[n].alloc
    requires forall u :: 0 <= u < |s.threads| && s.threads[u].Reclaiming? ==> s.threads[u].node != n
    ensures Settled(Reclaim(s, t, n))
  {
    if !s.nodes[n].attach {
      UnhashValid(s, n);
      UnhashChains(s, n);
      var s1, s' := Unhash(s, n), Reclaim(s, t, n);
      hide ChainOk, Filtered;
      SameChains(s1, s');
      hide State.Hashed, ChainsOk;
      OwnersKept(s1, s', t);
    }
  }

  /** The reclaimer wakes whoever slept on the node while it was in transit. */
  function ReclaimWake(s: State, t: nat): State
    requires t < |s.threads| && s.threads[t].Reclaiming? && s.threads[t].node in s.nodes
  {
    var n := s.threads[t].node;
    Wakeup(s.(threads := s.threads[t := Reclaiming(n, true)]), n, true, false, true)
  }

  /** The reclaimer `t` of `n` has cleared its flags and woken its sleepers. */
  ghost predicate WokenUp(s: State, s': State, t: nat, n: nat)
    requires |s.chains| > 0 && |s'.chains| > 0
  {
    && t < |s.threads| == |s'.threads| && s.threads[t].Reclaiming? && s.threads[t].node == n && n in s.nodes
    && s'.threads[t] == Reclaiming(n, true)
    && (forall u :: 0 <= u < |s.threads| && u != t ==> s'.threads[u] == Woken(s.threads, n)[u])
    && SameIds(s.nodes, s'.nodes) && (forall m :: m in s.nodes && m != n ==> s'.nodes[m] == s.nodes[m])
    && !s'.nodes[n].Busy() && forall m :: s'.Hashed(m) <==> s.Hashed(m)
  }

  lemma WokenUpOwners(s: State, s': State, t: nat, n: nat)
    requires Settled(s) && |s'.chains| > 0 && WokenUp(s, s', t, n)
    ensures OwnersOk(s')
  {
    NotOwned(s, n);
    hide ChainsOk, State.Hashed, SleepersOk;
    forall m | m in s'.nodes && (s'.nodes[m].alloc || s'.nodes[m].attach) ensures Owned(s', m) {
      var u :| 0 <= u < |s.threads| && s.threads[u].Owning? && s.threads[u].node == m;
      assert s'.threads[u] == s.threads[u];
    }
  }

  lemma WokenUpRest(s: State, s': State, t: nat, n: nat)
    requires Settled(s) && |s'.chains| > 0 && WokenUp(s, s', t, n)
    ensures SleepersOk(s') && ReclaimersOk(s')
  {
    hide ChainsOk, State.Hashed, OwnersOk;
  }

  lemma ReclaimWakeValid(s: State, t: nat)
    requires Settled(s) && t < |s.threads| && s.threads[t].Reclaiming?
    ensures Settled(ReclaimWake(s, t))
  {
    var n := s.threads[t].node;
    var s' := ReclaimWake(s, t);
    NotOwned(s, n);
    NobodyIfQuiet(s, n);
    hide ChainOk;
    SameChains(s, s');
    hide State.Hashed, ChainsOk, OwnersOk, ReclaimersOk, SleepersOk;
    assert WokenUp(s, s', t, n);
    WokenUpOwners(s, s', t, n);
    WokenUpRest(s, s', t, n);
  }

  /** A node that has left the hash has no owner. */
  lemma NotOwned(s: State, n: nat)
    requires |s.chains| > 0 && OwnersOk(s) && n in s.nodes && !s.Hashed(n)
    ensures !s.nodes[n].alloc && !s.nodes[n].attach
    ensures forall t :: 0 <= t < |s.threads| && s.threads[t].Owning? ==> s.threads[t].node != n
  {
  }

  /** hfs_reclaim_cnode: free the node. */
  function Free(s: State, t: nat): State
    requires t < |s.threads| && s.threads[t].Reclaiming?
  { s.(nodes := s.nodes - {s.threads[t].node}, threads := s.threads[t := Idle]) }

  lemma FreeValid(s: State, t: nat)
    requires Settled(s) && t < |s.threads| && s.threads[t].Reclaiming? && s.threads[t].woken
    ensures Settled(Free(s, t))
  {
    var n := s.threads[t].node;
    var s' := Free(s, t);
    NotOwned(s, n);
    NobodyAsleep(s, n);
    FreeChains(s, t);
    hide ChainsOk, ChainOk, State.Hashed;
    forall m | m in s'.nodes && (s'.nodes[m].alloc || s'.nodes[m].attach) ensures Owned(s', m) {
      var u :| 0 <= u < |s.threads| && s.threads[u].Owning? && s.threads[u].node == m;
      assert s'.threads[u] == s.threads[u];
    }
  }

  lemma FreeChains(s: State, t: nat)
    requires ChainsOk(s) && t < |s.threads| && s.threads[t].Reclaiming?
    requires var n := s.threads[t].node; n in s.nodes && !s.Hashed(n)
    ensures var s' := Free(s, t); ChainsOk(s') && forall m :: m != s.threads[t].node ==> (s'.Hashed(m) <==> s.Hashed(m))
  {
    var s', n := Free(s, t), s.threads[t].node;
    forall b | 0 <= b < |s.chains| ensures ChainOk(s.chains[b], s'.nodes, b, |s.chains|) {
      InNodes(s.chains[b], s.nodes, b, |s.chains|);
      NotInChain(s, b, n);
      ChainKept(s.chains[b], s.nodes, s'.nodes, b, |s.chains|);
    }
  }

  lemma InChainHashed(s: State, b: nat, n: nat)
    requires ChainsOk(s) && b < |s.chains| && n in s.chains[b]
    ensures s.Hashed(n)
  {
    assert ChainOk(s.chains[b], s.nodes, b, |s.chains|);
    var i :| 0 <= i < |s.chains[b]| && s.chains[b][i] == n;
    assert s.Slot(s.nodes[n].home) == b;
  }

  lemma ChainSlot(s: State, b: nat, n: nat)
    requires ChainsOk(s) && b < |s.chains| && n in s.chains[b]
    ensures n in s.nodes && s.Slot(s.nodes[n].home) == b
  {
    assert ChainOk(s.chains[b], s.nodes, b, |s.chains|);
    var i :| 0 <= i < |s.chains[b]| && s.chains[b][i] == n;
  }

  lemma NotInChain(s: State, b: nat, n: nat)
    requires ChainsOk(s) && b < |s.chains| && !s.Hashed(n)
    ensures n !in s.chains[b]
  {
    hide State.Hashed, ChainOk;
    if n in s.chains[b] { InChainHashed(s, b, n); }
  }

  // ----------------------------------------------------------------------- exchange

  /** Put a node at the head of the chain of its file ID. */
  function Enter(s: State, n: nat): State
    requires |s.chains| > 0 && n in s.nodes
  {
    var id := s.nodes[n].fileId;
    var b := s.Slot(id);
    s.(nodes := s.nodes[n := s.nodes[n].(home := id)], chains := s.chains[b := [n] + s.chains[b]])
  }

  /** hfs_chash_rehash: both nodes leave the chains they are in and enter those of their IDs. */
  function Rehash(s: State, n: nat, m: nat): State
    requires |s.chains| > 0 && n in s.nodes && m in s.nodes
  { Enter(Enter(Unhash(Unhash(s, n), m), n), m) }

  /** The first write of an exchange, outside the mutex. */
  function FirstWrite(s: State, t: nat, n: nat, m: nat): State
    requires t < |s.threads| && n in s.nodes && m in s.nodes
  {
    s.(nodes := s.nodes[n := s.nodes[n].(fileId := s.nodes[m].fileId)],
       threads := s.threads[t := Exchanging(n, m, s.nodes[n].fileId, false)])
  }

  /** The second write of an exchange. */
  function SecondWrite(s: State, t: nat): State
    requires t < |s.threads| && s.threads[t].Exchanging? && s.threads[t].other in s.nodes
  {
    var x := s.threads[t];
    s.(nodes := s.nodes[x.other := s.nodes[x.other].(fileId := x.saved)],
       threads := s.threads[t := Exchanging(x.node, x.other, x.saved, true)])
  }

  /** The end of an exchange. */
  function RehashAfter(s: State, t: nat): State
    requires |s.chains| > 0 && t < |s.threads| && s.threads[t].Exchanging?
    requires s.threads[t].node in s.nodes && s.threads[t].other in s.nodes
  {
    var x := s.threads[t];
    Rehash(s.(threads := s.threads[t := Idle]), x.node, x.other)
  }

  /** No hashed node was put into the hash by the ID. */
  ghost predicate Unused(s: State, id: nat)
    requires |s.chains| > 0
  { forall k :: s.Hashed(k) ==> s.nodes[k].home != id }

  /** The same nodes are hashed, but for some. */
  ghost predicate SameHashed(s: State, s': State, but: set<nat>)
    requires |s.chains| > 0 && |s'.chains| > 0
  {
    forall k :: k !in but ==> (s'.Hashed(k) <==> s.Hashed(k)) && (s.Hashed(k) ==> s'.nodes[k].home == s.nodes[k].home)
  }

  lemma EnterChains(s: State, n: nat)
    requires ChainsOk(s) && n in s.nodes && !s.Hashed(n) && Unused(s, s.nodes[n].fileId)
    ensures ChainsOk(Enter(s, n)) && Enter(s, n).Hashed(n) && SameHashed(s, Enter(s, n), {n})
  {
    var id := s.nodes[n].fileId;
    var s' := Enter(s, n);
    forall b | 0 <= b < |s.chains| ensures ChainOk(s'.chains[b], s'.nodes, b, |s.chains|) {
      InNodes(s.chains[b], s.nodes, b, |s.chains|);
      NotInChain(s, b, n);
      ChainKept(s.chains[b], s.nodes, s'.nodes, b, |s.chains|);
      if b == s.Slot(id) {
        forall k | k in s.chains[b] && k in s'.nodes ensures s'.nodes[k].home != id { InChainHashed(s, b, k); }
        Prepended(s.chains[b], s'.nodes, b, |s.chains|, n);
      }
    }
  }

  lemma UnhashUnused(s: State, n: nat)
    requires ChainsOk(s) && s.Hashed(n)
    ensures var s' := Unhash(s, n); ChainsOk(s') && !s'.Hashed(n) && Unused(s', s.nodes[n].home) && SameHashed(s, s', {n})
  {
    UnhashChains(s, n);
    var s' := Unhash(s, n);
    hide Unhash;
    forall k | s'.Hashed(k) ensures s.nodes[k].home != s.nodes[n].home {
      if s.nodes[k].home == s.nodes[n].home { UniqueByHome(s, k, n); }
    }
  }

  /** Two nodes that have exchanged their IDs go to each other's chains. */
  lemma RehashChains(s: State, n: nat, m: nat)
    requires ChainsOk(s) && n != m && s.Hashed(n) && s.Hashed(m)
    requires s.nodes[n].fileId == s.nodes[m].home && s.nodes[m].fileId == s.nodes[n].home
    ensures var s' := Rehash(s, n, m);
            ChainsOk(s') && s'.Hashed(n) && s'.Hashed(m) && forall k :: k != n && k != m ==> (s'.Hashed(k) <==> s.Hashed(k))
  {
    Sizes(s, n);
    Sizes(s, m);
    hide ChainOk, State.Hashed, Unhash, Enter;
    if s.nodes[n].home == s.nodes[m].home { UniqueByHome(s, n, m); }
    UnhashUnused(s, n);
    var s1 := Unhash(s, n);
    Sizes(s1, m);
    UnhashUnused(s1, m);
    var s2 := Unhash(s1, m);
    Sizes(s2, n);
    EnterChains(s2, n);
    var s3 := Enter(s2, n);
    Sizes(s3, m);
    EnterChains(s3, m);
  }

  /** What the steps leave alone. */
  lemma Sizes(s: State, n: nat)
    requires |s.chains| > 0
    ensures n in s.nodes ==>
              && |Unhash(s, n).chains| == |Enter(s, n).chains| == |s.chains| && Unhash(s, n).nodes == s.nodes
              && Unhash(s, n).threads == Enter(s, n).threads == s.threads
              && Unhash(s, n).next == Enter(s, n).next == s.next
              && Enter(s, n).nodes == s.nodes[n := s.nodes[n].(home := s.nodes[n].fileId)]
    ensures !(n in s.nodes) ==> !s.Hashed(n)
  {
  }

  lemma RehashNodes(s: State, n: nat, m: nat)
    requires |s.chains| > 0 && n in s.nodes && m in s.nodes && n != m
    ensures var s' := Rehash(s, n, m);
            && s'.threads == s.threads && s'.next == s.next
            && s'.nodes == s.nodes[n := s.nodes[n].(home := s.nodes[n].fileId)][m := s.nodes[m].(home := s.nodes[m].fileId)]
  {
    hide Unhash, Enter;
    Sizes(s, n);
    Sizes(Unhash(s, n), m);
    Sizes(Unhash(Unhash(s, n), m), n);
    Sizes(Enter(Unhash(Unhash(s, n), m), n), m);
  }

  /** Only IDs and the thread of an exchange changed, and the same nodes are hashed. */
  lemma IdsOnly(s: State, s': State, t: nat)
    requires Settled(s) && ChainsOk(s') && (forall k :: s'.Hashed(k) <==> s.Hashed(k))
    requires t < |s.threads| == |s'.threads|
    requires (forall u :: 0 <= u < |s.threads| && u != t ==> s'.threads[u] == s.threads[u])
    requires s.threads[t].Idle? || s.threads[t].Exchanging?
    requires s'.threads[t].Idle? || s'.threads[t].Exchanging?
    requires OnlyIds(s, s')
    ensures Settled(s')
  {
    hide ChainsOk, State.Hashed;
    forall k | k in s'.nodes && (s'.nodes[k].alloc || s'.nodes[k].attach) ensures Owned(s', k) {
      var u :| 0 <= u < |s.threads| && s.threads[u].Owning? && s.threads[u].node == k;
      assert s'.threads[u] == s.threads[u];
    }
  }

  ghost predicate OnlyIds(s: State, s': State) {
    (forall k :: k in s'.nodes <==> k in s.nodes) && forall k :: k in s.nodes ==> SameFlags(s.nodes[k], s'.nodes[k])
  }

  predicate SameFlags(c: Cnode, d: Cnode) {
    && c.alloc == d.alloc && c.attach == d.attach && c.transit == d.transit && c.waiting == d.waiting
    && c.data == d.data && c.rsrc == d.rsrc
  }

  lemma WriteSettled(s: State, s': State, t: nat)
    requires Settled(s) && s'.chains == s.chains && s'.next == s.next && SameIds(s.nodes, s'.nodes) && OnlyIds(s, s')
    requires t < |s.threads| == |s'.threads|
    requires (forall u :: 0 <= u < |s.threads| && u != t ==> s'.threads[u] == s.threads[u])
    requires s.threads[t].Idle? || s.threads[t].Exchanging?
    requires s'.threads[t].Exchanging?
    ensures Settled(s')
  {
    hide ChainOk, OwnersOk, SleepersOk, ReclaimersOk, OnlyIds;
    SameChains(s, s');
    IdsOnly(s, s', t);
  }

  lemma RehashSettled(s: State, t: nat)
    requires Settled(s) && t < |s.threads| && s.threads[t].Exchanging? && s.threads[t].second
    requires WindowOk(s, s.threads[t])
    ensures Settled(RehashAfter(s, t))
  {
    var x := s.threads[t];
    var s1 := s.(threads := s.threads[t := Idle]);
    hide ChainOk, OwnersOk, SleepersOk, ReclaimersOk, Rehash;
    SameChains(s, s1);
    RehashChains(s1, x.node, x.other);
    RehashNodes(s1, x.node, x.other);
    IdsOnly(s, RehashAfter(s, t), t);
  }

  function Empty(size: nat, users: nat): State { State(seq(size, _ => []), map[], seq(users, _ => Idle), 0) }

  /** An empty hash is a valid start. */
  lemma EmptyValid(size: nat, users: nat)
    requires size > 0
    ensures Valid(Empty(size, users))
  {
    var s := Empty(size, users);
    forall b | 0 <= b < size ensures ChainOk(s.chains[b], s.nodes, b, size) { assert s.chains[b] == []; }
    assert ChainsOk(s);
  }

  // ------------------------------------------------------------- the critical sections

  /** The hash of one mount; each method is one critical section. */
  class CnodeHash {
    var chains: seq<seq<nat>>
    var nodes: map<nat, Cnode>
    var threads: seq<Thread>
    var next: nat

    /** An empty hash, as hfs_chashinit_finish leaves it, with a number of threads about to use it. */
    constructor (size: nat, users: nat)
      requires size > 0
      ensures S() == Empty(size, users)
    {
      chains, nodes, threads, next := seq(size, _ => []), map[], seq(users, _ => Idle), 0;
    }

    function S(): State
      reads this
    { State(chains, nodes, threads, next) }

    /** Walk the chain of a file ID. */
    method FindNode(id: nat) returns (r: Option<nat>)
      requires |chains| > 0
      ensures r == Find(S(), id)
    {
      var chain := chains[id % |chains|];
      var i := 0;
      assert chain[0..] == chain;
      while i < |chain|
        invariant 0 <= i <= |chain|
        invariant FindIn(chain, nodes, id) == FindIn(chain[i..], nodes, id)
      {
        if chain[i] in nodes && nodes[chain[i]].fileId == id { return Some(chain[i]); }
        assert chain[i..][1..] == chain[i+1..];
        i := i + 1;
      }
      return None;
    }

    /** A pass of hfs_chash_getcnode or hfs_chash_getvnode with the mutex held. */
    method GetCnode(t: nat)
      requires |chains| > 0 && t < |threads| && threads[t].Looking?
      modifies this
      ensures S() == Scan(old(S()), t)
    {
      var l := threads[t];
      var r := FindNode(l.inum);
      match r {
        case Some(n) =>
          var c := nodes[n];
          if c.alloc || c.attach || c.transit {
            nodes := nodes[n := c.(waiting := true)];
            threads := threads[t := Asleep(n, l.inum, l.wantRsrc, l.create, l.spare)];
          } else if c.Has(l.wantRsrc) {
            threads := threads[t := Getting(n, l.inum, l.wantRsrc, l.create, l.spare)];
          } else if l.create {
            nodes := nodes[n := c.(attach := true)];
            threads := threads[t := Owning(n, l.wantRsrc, false)];
          } else {
            threads := threads[t := Idle];
          }
        case None =>
          if !l.create {
            threads := threads[t := Idle];
          } else if !l.spare {
            threads := threads[t := Looking(l.inum, l.wantRsrc, l.create, true)];
          } else {
            var b := l.inum % |chains|;
            nodes := nodes[next := Cnode(l.inum, l.inum, true, false, false, false, false, false)];
            chains := chains[b := [next] + chains[b]];
            threads := threads[t := Owning(next, l.wantRsrc, true)];
            next := next + 1;
          }
      }
    }

    /** hfs_chashwakeup. */
    method ChashWakeup(n: nat, alloc: bool, attach: bool, transit: bool)
      requires n in nodes
      modifies this
      ensures S() == Wakeup(old(S()), n, alloc, attach, transit)
    {
      var c := nodes[n];
      if alloc { c := c.(alloc := false); }
      if attach { c := c.(attach := false); }
      if transit { c := c.(transit := false); }
      if c.waiting {
        c := c.(waiting := false);
        WakeAll(n);
      }
      nodes := nodes[n := c];
    }

    /** wakeup: every thread asleep on the node becomes runnable. */
    method WakeAll(n: nat)
      modifies this`threads
      ensures threads == Woken(old(threads), n)
    {
      ghost var was := threads;
      var i := 0;
      while i < |threads|
        invariant 0 <= i <= |threads| == |was|
        invariant threads[..i] == Woken(was, n)[..i] && threads[i..] == was[i..]
      {
        var z := threads[i];
        assert z == was[i];
        if z.Asleep? && z.node == n { threads := threads[i := Looking(z.inum, z.wantRsrc, z.create, z.spare)]; }
        i := i + 1;
      }
    }

    /** LIST_REMOVE. */
    method RemoveFromChain(n: nat)
      requires |chains| > 0 && n in nodes
      modifies this`chains
      ensures S() == Unhash(old(S()), n)
    {
      var b := nodes[n].home % |chains|;
      var chain := chains[b];
      var kept, i := [], |chain|;
      assert chain[|chain|..] == [];
      while i > 0
        invariant 0 <= i <= |chain| && kept == Filtered(chain[i..], n)
      {
        i := i - 1;
        assert chain[i..][1..] == chain[i+1..];
        if chain[i] != n { kept := [chain[i]] + kept; }
      }
      assert chain[0..] == chain;
      chains := chains[b := kept];
    }

    /** hfs_chashremove. */
    method ChashRemove(n: nat) returns (busy: bool)
      requires |chains| > 0 && n in nodes
      modifies this`chains
      ensures busy <==> old(nodes[n].attach)
      ensures S() == if busy then old(S()) else Unhash(old(S()), n)
    {
      busy := nodes[n].attach;
      if !busy { RemoveFromChain(n); }
    }

    /** hfs_chash_abort, by the thread that owns the node. */
    method ChashAbort(t: nat)
      requires |chains| > 0 && t < |threads| && threads[t].Owning? && threads[t].node in nodes
      modifies this
      ensures S() == Abort(old(S()), t)
    {
      var n := threads[t].node;
      threads := threads[t := Reclaiming(n, true)];
      RemoveFromChain(n);
      ChashWakeup(n, true, true, false);
    }

    /** hfs_chash_rehash. */
    method ChashRehash(n: nat, m: nat)
      requires |chains| > 0 && n in nodes && m in nodes
      modifies this
      ensures S() == Rehash(old(S()), n, m)
    {
      hide Unhash, Enter;
      Sizes(S(), n);
      RemoveFromChain(n);
      Sizes(S(), m);
      RemoveFromChain(m);
      Sizes(S(), n);
      EnterChain(n);
      EnterChain(m);
    }

    /** LIST_INSERT_HEAD. */
    method EnterChain(n: nat)
      requires |chains| > 0 && n in nodes
      modifies this`chains, this`nodes
      ensures S() == Enter(old(S()), n) && |chains| == old(|chains|)
    {
      var id := nodes[n].fileId;
      var b := id % |chains|;
      nodes := nodes[n := nodes[n].(home := id)];
      chains := chains[b := [n] + chains[b]];
    }
  }
}
