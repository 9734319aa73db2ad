/** Interleavings of the threads that use the cnode hash: what every step and every run keeps. */
module CnodeRuns {
  import opened CnodeHashes

  datatype Step =
    | Begin(t: nat, inum: nat, wantRsrc: bool, create: bool)
    | ScanStep(t: nat)
    | Got(t: nat, ok: bool)
    | FinishStep(t: nat, made: bool)
    | AbortStep(t: nat)
    | Detach(n: nat, rsrcVnode: bool)
    | MarkInTransit(t: nat, n: nat)
    | Unlink(n: nat)
    | ReclaimStep(t: nat, n: nat)
    | WakeStep(t: nat)
    | FreeStep(t: nat)
    | ExchangeFirst(t: nat, n: nat, m: nat)
    | ExchangeSecond(t: nat)
    | RehashStep(t: nat)

  /** What each step asks of its caller. A node is allocated or attached to by its owner only,
      the vnode layer reclaims it once, when it has no vnode left, and an exchange has two
      files locked and their data vnodes referenced. */
  predicate Enabled(s: State, a: Step)
    requires |s.chains| > 0
  {
    match a
    case Begin(t, _, _, _) => t < |s.threads| && s.threads[t].Idle?
    case ScanStep(t) => t < |s.threads| && s.threads[t].Looking?
    case Got(t, _) => t < |s.threads| && s.threads[t].Getting?
    case FinishStep(t, _) => t < |s.threads| && s.threads[t].Owning? && s.threads[t].node in s.nodes
    case AbortStep(t) =>
      && t < |s.threads| && s.threads[t].Owning? && s.threads[t].node in s.nodes
      && !s.nodes[s.threads[t].node].data && !s.nodes[s.threads[t].node].rsrc
    case Detach(n, rsrcVnode) => n in s.nodes && (rsrcVnode || !InWindow(s, n))
    case MarkInTransit(t, n) => t < |s.threads| && s.threads[t].Idle? && n in s.nodes && s.Hashed(n) && !s.nodes[n].Busy()
    case Unlink(n) => n in s.nodes && !s.nodes[n].alloc && !InWindow(s, n)
    case ReclaimStep(t, n) =>
      && t < |s.threads| && n in s.nodes && !s.nodes[n].alloc && !s.nodes[n].data && !s.nodes[n].rsrc
      && ((s.threads[t].Idle? && !s.nodes[n].transit) || s.threads[t] == Marking(n))
      && forall u :: 0 <= u < |s.threads| && s.threads[u].Reclaiming? ==> s.threads[u].node != n
    case WakeStep(t) => t < |s.threads| && s.threads[t].Reclaiming? && s.threads[t].node in s.nodes
    case FreeStep(t) => t < |s.threads| && s.threads[t].Reclaiming? && s.threads[t].woken
    case ExchangeFirst(t, n, m) =>
      && t < |s.threads| && s.threads[t].Idle? && n != m && s.Hashed(n) && s.Hashed(m) && s.nodes[n].data
      && s.nodes[m].data
      && !InWindow(s, n) && !InWindow(s, m)
    case ExchangeSecond(t) =>
      t < |s.threads| && s.threads[t].Exchanging? && !s.threads[t].second && s.threads[t].other in s.nodes
    case RehashStep(t) =>
      && t < |s.threads| && s.threads[t].Exchanging? && s.threads[t].second
      && s.threads[t].node in s.nodes && s.threads[t].other in s.nodes
  }

  function Next(s: State, a: Step): State
    requires |s.chains| > 0 && Enabled(s, a)
  {
    match a
    case Begin(t, inum, wantRsrc, create) => s.(threads := s.threads[t := Looking(inum, wantRsrc, create, false)])
    case ScanStep(t) => Scan(s, t)
    case Got(t, ok) =>
      var g := s.threads[t];
      s.(threads := s.threads[t := if ok then Idle else Looking(g.inum, g.wantRsrc, g.create, g.spare)])
    case FinishStep(t, made) => Finish(s, t, made)
    case AbortStep(t) => Abort(s, t)
    case Detach(n, rsrcVnode) =>
      var c := s.nodes[n];
      s.(nodes := s.nodes[n := if rsrcVnode then c.(rsrc := false) else c.(data := false)])
    case MarkInTransit(t, n) => Mark(s, t, n)
    case Unlink(n) => if s.nodes[n].attach then s else Unhash(s, n)
    case ReclaimStep(t, n) => Reclaim(s, t, n)
    case WakeStep(t) => ReclaimWake(s, t)
    case FreeStep(t) => Free(s, t)
    case ExchangeFirst(t, n, m) => FirstWrite(s, t, n, m)
    case ExchangeSecond(t) => SecondWrite(s, t)
    case RehashStep(t) => RehashAfter(s, t)
  }

  /** Whether a step does not put a node into the hash by an ID that a node there already has. */
  ghost predicate Clean(s: State, a: Step)
    requires |s.chains| > 0 && Enabled(s, a)
  { a.ScanStep? && Inserts(s, a.t) ==> Unused(s, s.threads[a.t].inum) }

  lemma NextSettled(s: State, a: Step)
    requires Valid(s) && Enabled(s, a) && Clean(s, a)
    ensures Settled(Next(s, a))
  {
    hide Settled, TransitOk, State.Hashed, Scan, Finish, Abort, Unhash, Reclaim, ReclaimWake, Free, Rehash, Unused,
         Inserts;
    SettledSize(s);
    match a
    case Begin(t, inum, wantRsrc, create) => ThreadStep(s, t, Looking(inum, wantRsrc, create, false));
    case ScanStep(t) => ScanValid(s, t);
    case Got(t, ok) =>
      var g := s.threads[t];
      ThreadStep(s, t, if ok then Idle else Looking(g.inum, g.wantRsrc, g.create, g.spare));
    case FinishStep(t, made) => FinishValid(s, t, made);
    case AbortStep(t) => AbortValid(s, t);
    case Detach(n, rsrcVnode) =>
      var c := s.nodes[n];
      FlagsOfValid(s, n);
      FlagsValid(s, n, if rsrcVnode then c.(rsrc := false) else c.(data := false));
    case MarkInTransit(t, n) => MarkSettled(s, t, n);
    case Unlink(n) => if !s.nodes[n].attach { UnhashValid(s, n); }
    case ReclaimStep(t, n) => ReclaimValid(s, t, n);
    case WakeStep(t) => ReclaimWakeValid(s, t);
    case FreeStep(t) => FreeValid(s, t);
    case ExchangeFirst(t, n, m) =>
      InNodesIfHashed(s, n);
      InNodesIfHashed(s, m);
      WriteSettled(s, FirstWrite(s, t, n, m), t);
    case ExchangeSecond(t) => WriteSettled(s, SecondWrite(s, t), t);
    case RehashStep(t) => RehashSettled(s, t);
  }

  lemma FlagsOfValid(s: State, n: nat)
    requires Settled(s) && n in s.nodes
    ensures OneFlag(s.nodes[n])
  {
  }

  // ------------------------------------------------------------- windows and transits

  predicate SameKey(c: Cnode, d: Cnode) { c.fileId == d.fileId && c.home == d.home }

  predicate Home(c: Cnode) { c.fileId == c.home }

  /** Nodes keep their IDs and, but for some, stay and keep their data vnodes; a new node is
      put into the hash by its own ID. */
  ghost predicate KeepsNodes(a: map<nat, Cnode>, b: map<nat, Cnode>, but: set<nat>) {
    && (forall n :: n in b ==> if n in a then SameKey(a[n], b[n]) else Home(b[n]))
    && (forall n :: n in a && n !in but ==> n in b && (a[n].data ==> b[n].data))
  }

  ghost predicate KeepsHashed(s: State, s': State, but: set<nat>)
    requires |s.chains| > 0 && |s'.chains| > 0
  { forall n :: s.Hashed(n) && n !in but ==> s'.Hashed(n) }

  predicate SameExchanges(a: seq<Thread>, b: seq<Thread>) {
    |a| == |b| && forall u :: 0 <= u < |a| && (a[u].Exchanging? || b[u].Exchanging?) ==> b[u] == a[u]
  }

  lemma SameSlots(s: State, s': State, but: set<nat>)
    requires |s.chains| > 0 && s'.chains == s.chains && KeepsNodes(s.nodes, s'.nodes, but)
    ensures KeepsHashed(s, s', but)
  {
  }

  lemma UnhashSlots(s: State, s': State, n: nat)
    requires |s.chains| > 0 && n in s.nodes && s'.chains == Unhash(s, n).chains && KeepsNodes(s.nodes, s'.nodes, {n})
    ensures KeepsHashed(s, s', {n})
  {
  }

  lemma InWindowKept(s: State, s': State, n: nat)
    requires SameExchanges(s.threads, s'.threads) && InWindow(s, n)
    ensures InWindow(s', n)
  {
    var u :| 0 <= u < |s.threads| && s.threads[u].Exchanging? && (s.threads[u].node == n || s.threads[u].other == n);
    assert s'.threads[u] == s.threads[u];
  }

  lemma WindowKept(s: State, s': State, but: set<nat>, x: Thread)
    requires |s.chains| > 0 && |s'.chains| > 0 && x.Exchanging? && WindowOk(s, x) && x.node !in but && x.other !in but
    requires KeepsNodes(s.nodes, s'.nodes, but) && KeepsHashed(s, s', but)
    ensures WindowOk(s', x)
  {
  }

  /** A step that leaves the exchanges in progress and their nodes alone. */
  lemma WindowsKept(s: State, s': State, but: set<nat>)
    requires |s.chains| > 0 && |s'.chains| > 0 && WindowsOk(s) && SameExchanges(s.threads, s'.threads)
    requires KeepsNodes(s.nodes, s'.nodes, but) && KeepsHashed(s, s', but) && forall n :: n in but ==> !InWindow(s, n)
    ensures WindowsOk(s')
  {
    hide State.Hashed, KeepsHashed;
    forall t | 0 <= t < |s'.threads| && s'.threads[t].Exchanging? ensures WindowOk(s', s'.threads[t]) {
      var x := s.threads[t];
      assert WindowOk(s, x);
      assert InWindow(s, x.node) && InWindow(s, x.other);
      WindowKept(s, s', but, x);
    }
    forall n | InWindow(s, n) ensures InWindow(s', n) { InWindowKept(s, s', n); }
  }

  /** The marks and the reclaimers are as before. */
  predicate SameReclaims(a: seq<Thread>, b: seq<Thread>) {
    |a| == |b| && forall u :: 0 <= u < |a| && (InReclaim(a[u]) || InReclaim(b[u])) ==> b[u] == a[u]
  }

  ghost predicate SameTransit(a: map<nat, Cnode>, b: map<nat, Cnode>) {
    && (forall n :: n in a && a[n].transit ==> n in b && b[n].transit)
    && (forall n :: n in b && b[n].transit ==> n in a && a[n].transit)
  }

  lemma TransitsKept(s: State, s': State)
    requires TransitOk(s) && SameReclaims(s.threads, s'.threads) && SameTransit(s.nodes, s'.nodes)
    ensures TransitOk(s')
  {
    forall n | n in s'.nodes && s'.nodes[n].transit ensures InTransit(s', n) {
      var u :| 0 <= u < |s.threads| && (s.threads[u] == Marking(n) || s.threads[u] == Reclaiming(n, false));
      assert s'.threads[u] == s.threads[u];
    }
  }

  lemma Kept(s: State, s': State, but: set<nat>)
    requires |s.chains| > 0 && |s'.chains| > 0 && WindowsOk(s) && TransitOk(s)
    requires SameExchanges(s.threads, s'.threads) && SameReclaims(s.threads, s'.threads)
    requires KeepsNodes(s.nodes, s'.nodes, but) && KeepsHashed(s, s', but) && SameTransit(s.nodes, s'.nodes)
    requires forall n :: n in but ==> !InWindow(s, n)
    ensures WindowsOk(s') && TransitOk(s')
  {
    hide WindowsOk, TransitOk, KeepsNodes, KeepsHashed, SameExchanges, SameReclaims, SameTransit;
    WindowsKept(s, s', but);
    TransitsKept(s, s');
  }

  lemma ThreadKeeps(s: State, t: nat, now: Thread)
    requires Valid(s) && t < |s.threads| && Carefree(s.threads[t]) && Carefree(now)
    ensures WindowsOk(s.(threads := s.threads[t := now])) && TransitOk(s.(threads := s.threads[t := now]))
  {
    hide Settled, WindowsOk, TransitOk, State.Hashed;
    ValidSize(s);
    SameSlots(s, s.(threads := s.threads[t := now]), {});
    Kept(s, s.(threads := s.threads[t := now]), {});
  }

  /** A thread that takes part in no exchange and in no reclaim. */
  predicate Carefree(x: Thread) { !x.Exchanging? && !x.Marking? && !x.Reclaiming? }

  /** A step that changes one thread and the flags of one node. */
  lemma FlagsKeep(s: State, t: nat, now: Thread, n: nat, c: Cnode)
    requires Valid(s) && t < |s.threads| && Carefree(s.threads[t]) && Carefree(now)
    requires n in s.nodes && SameKey(s.nodes[n], c) && c.transit == s.nodes[n].transit && (s.nodes[n].data ==> c.data)
    ensures var s' := s.(threads := s.threads[t := now], nodes := s.nodes[n := c]); WindowsOk(s') && TransitOk(s')
  {
    hide Settled, WindowsOk, TransitOk, State.Hashed;
    var s' := s.(threads := s.threads[t := now], nodes := s.nodes[n := c]);
    ValidSize(s);
    SameSlots(s, s', {});
    Kept(s, s', {});
  }

  lemma InsertFrame(s: State, t: nat)
    requires |s.chains| > 0 && t < |s.threads| && s.threads[t].Looking? && s.next !in s.nodes
    ensures var s' := Insert(s, t);
            && SameExchanges(s.threads, s'.threads) && SameReclaims(s.threads, s'.threads)
            && KeepsNodes(s.nodes, s'.nodes, {}) && SameTransit(s.nodes, s'.nodes)
  {
  }

  lemma InsertHashed(s: State, t: nat)
    requires |s.chains| > 0 && t < |s.threads| && s.threads[t].Looking? && s.next !in s.nodes
    ensures KeepsHashed(s, Insert(s, t), {})
  {
  }

  lemma NextIsNew(s: State)
    requires Valid(s)
    ensures s.next !in s.nodes
  {
  }

  lemma InsertKeeps(s: State, t: nat)
    requires Valid(s) && t < |s.threads| && s.threads[t].Looking?
    ensures WindowsOk(Insert(s, t)) && TransitOk(Insert(s, t))
  {
    ValidSize(s);
    NextIsNew(s);
    InsertFrame(s, t);
    InsertHashed(s, t);
    hide Settled, WindowsOk, TransitOk, State.Hashed, KeepsNodes, SameTransit, SameExchanges, SameReclaims, KeepsHashed;
    Kept(s, Insert(s, t), {});
  }

  lemma ScanKeeps(s: State, t: nat)
    requires Valid(s) && t < |s.threads| && s.threads[t].Looking?
    ensures WindowsOk(Scan(s, t)) && TransitOk(Scan(s, t))
  {
    var l := s.threads[t];
    ValidSize(s);
    hide Valid, WindowsOk, TransitOk, State.Hashed;
    match Find(s, l.inum)
    case Some(n) =>
      var c := s.nodes[n];
      if c.Busy() { FlagsKeep(s, t, Asleep(n, l.inum, l.wantRsrc, l.create, l.spare), n, c.(waiting := true)); }
      else if c.Has(l.wantRsrc) { ThreadKeeps(s, t, Getting(n, l.inum, l.wantRsrc, l.create, l.spare)); }
      else if l.create { FlagsKeep(s, t, Owning(n, l.wantRsrc, false), n, c.(attach := true)); }
      else { ThreadKeeps(s, t, Idle); }
    case None =>
      if !l.create { ThreadKeeps(s, t, Idle); }
      else if !l.spare { ThreadKeeps(s, t, Looking(l.inum, l.wantRsrc, l.create, true)); }
      else { InsertKeeps(s, t); }
  }

  /** Waking up changes no exchange, no reclaim and no key. */
  lemma WakeupKeeps(s: State, n: nat, alloc: bool, attach: bool, transit: bool)
    requires n in s.nodes
    ensures var s' := Wakeup(s, n, alloc, attach, transit);
            && s'.chains == s.chains && s'.next == s.next && SameExchanges(s.threads, s'.threads)
            && SameReclaims(s.threads, s'.threads)
            && (forall m :: m in s'.nodes <==> m in s.nodes)
            && (forall m :: m in s.nodes && m != n ==> s'.nodes[m] == s.nodes[m])
            && SameKey(s.nodes[n], s'.nodes[n]) && s'.nodes[n].data == s.nodes[n].data
            && s'.nodes[n].transit == (s.nodes[n].transit && !transit)
  {
  }

  lemma SameAfterSet(ts: seq<Thread>, t: nat, now: Thread, us: seq<Thread>)
    requires t < |ts| && Carefree(ts[t]) && Carefree(now)
    requires SameExchanges(ts[t := now], us) && SameReclaims(ts[t := now], us)
    ensures SameExchanges(ts, us) && SameReclaims(ts, us)
  {
    forall u | 0 <= u < |ts| ensures
        && (ts[u].Exchanging? || us[u].Exchanging? ==> us[u] == ts[u])
        && (InReclaim(ts[u]) || InReclaim(us[u]) ==> us[u] == ts[u])
    {
      if u != t { assert ts[t := now][u] == ts[u]; }
    }
  }

  lemma FinishThreads(s: State, t: nat, made: bool)
    requires t < |s.threads| && s.threads[t].Owning? && s.threads[t].node in s.nodes
    ensures var s' := Finish(s, t, made); SameExchanges(s.threads, s'.threads) && SameReclaims(s.threads, s'.threads)
  {
    hide Wakeup, Woken, SameExchanges, SameReclaims;
    var o := s.threads[t];
    var n, c := o.node, s.nodes[o.node];
    var d := c.(data := c.data || (made && !o.wantRsrc), rsrc := c.rsrc || (made && o.wantRsrc));
    WakeupKeeps(s.(nodes := s.nodes[n := d], threads := s.threads[t := Idle]), n, true, true, false);
    SameAfterSet(s.threads, t, Idle, Finish(s, t, made).threads);
  }

  lemma FinishNodes(s: State, t: nat, made: bool)
    requires t < |s.threads| && s.threads[t].Owning? && s.threads[t].node in s.nodes
    ensures var s' := Finish(s, t, made);
            s'.chains == s.chains && KeepsNodes(s.nodes, s'.nodes, {}) && SameTransit(s.nodes, s'.nodes)
  {
    hide Woken;
  }

  lemma FinishKeeps(s: State, t: nat, made: bool)
    requires Valid(s) && t < |s.threads| && s.threads[t].Owning? && s.threads[t].node in s.nodes
    ensures WindowsOk(Finish(s, t, made)) && TransitOk(Finish(s, t, made))
  {
    ValidSize(s);
    FinishThreads(s, t, made);
    FinishNodes(s, t, made);
    hide Settled, WindowsOk, TransitOk, State.Hashed, Finish, KeepsNodes, SameTransit, SameExchanges, SameReclaims,
         KeepsHashed;
    SameSlots(s, Finish(s, t, made), {});
    Kept(s, Finish(s, t, made), {});
  }

  lemma UnlinkKeeps(s: State, n: nat)
    requires Valid(s) && n in s.nodes && !InWindow(s, n)
    ensures WindowsOk(Unhash(s, n)) && TransitOk(Unhash(s, n))
  {
    hide Settled, WindowsOk, TransitOk, State.Hashed;
    ValidSize(s);
    UnhashSlots(s, Unhash(s, n), n);
    Kept(s, Unhash(s, n), {n});
  }

  lemma DetachKeeps(s: State, n: nat, c: Cnode)
    requires Valid(s) && n in s.nodes && SameKey(s.nodes[n], c) && c.transit == s.nodes[n].transit
    requires c.data == s.nodes[n].data || !InWindow(s, n)
    ensures WindowsOk(s.(nodes := s.nodes[n := c])) && TransitOk(s.(nodes := s.nodes[n := c]))
  {
    hide Settled, WindowsOk, TransitOk, State.Hashed;
    ValidSize(s);
    var s' := s.(nodes := s.nodes[n := c]);
    assert SameTransit(s.nodes, s'.nodes);
    assert KeepsHashed(s, s', {}) by { SameSlotsOne(s, n, c); }
    if c.data == s.nodes[n].data {
      Kept(s, s', {});
    } else {
      assert KeepsHashed(s, s', {n});
      Kept(s, s', {n});
    }
  }

  lemma SameSlotsOne(s: State, n: nat, c: Cnode)
    requires |s.chains| > 0 && n in s.nodes && c.home == s.nodes[n].home
    ensures KeepsHashed(s, s.(nodes := s.nodes[n := c]), {})
  {
  }

  // ------------------------------------------------------------------ the reclaimers

  /** hfs_chash_mark_in_transit, by a thread that is going to reclaim the node. */
  function Mark(s: State, t: nat, n: nat): State
    requires t < |s.threads| && n in s.nodes
  { s.(nodes := s.nodes[n := s.nodes[n].(transit := true)], threads := s.threads[t := Marking(n)]) }

  lemma MarkSettled(s: State, t: nat, n: nat)
    requires Settled(s) && t < |s.threads| && s.threads[t].Idle? && s.Hashed(n) && !s.nodes[n].Busy()
    ensures Settled(Mark(s, t, n))
  {
    ThreadStep(s, t, Marking(n));
    hide Settled;
    FlagsValid(s.(threads := s.threads[t := Marking(n)]), n, s.nodes[n].(transit := true));
  }

  /** Of the marks and reclaimers only that of `t` changes, and it concerns the node `n`. */
  ghost predicate OnlyTransit(s: State, s': State, t: nat, n: nat) {
    && t < |s.threads| == |s'.threads|
    && (forall u :: 0 <= u < |s.threads| && u != t && (InReclaim(s.threads[u]) || InReclaim(s'.threads[u])) ==>
          s'.threads[u] == s.threads[u] && s.threads[u].node != n)
    && (InReclaim(s.threads[t]) ==> s.threads[t].node == n)
    && (InReclaim(s'.threads[t]) ==> s'.threads[t].node == n)
    && (forall m :: m in s'.nodes && m != n ==> m in s.nodes && s'.nodes[m].transit == s.nodes[m].transit)
    && (forall m :: m in s.nodes && m != n ==> m in s'.nodes)
  }

  lemma TransitStep(s: State, s': State, t: nat, n: nat)
    requires TransitOk(s) && OnlyTransit(s, s', t, n)
    requires n in s'.nodes && s'.nodes[n].transit ==>
              s'.threads[t] == Marking(n) || s'.threads[t] == Reclaiming(n, false)
    requires s'.threads[t].Marking? ==> n in s'.nodes && s'.nodes[n].transit
    ensures TransitOk(s')
  {
    forall m | m in s'.nodes && s'.nodes[m].transit ensures InTransit(s', m) {
      if m != n {
        assert InTransit(s, m);
        var u :| 0 <= u < |s.threads| && (s.threads[u] == Marking(m) || s.threads[u] == Reclaiming(m, false));
        assert s'.threads[u] == s.threads[u];
      }
    }
  }

  /** No other thread has marked or is reclaiming the node. */
  predicate Alone(s: State, t: nat, n: nat) {
    forall u :: 0 <= u < |s.threads| && u != t && InReclaim(s.threads[u]) ==> s.threads[u].node != n
  }

  lemma AloneHashed(s: State, t: nat, n: nat)
    requires Valid(s) && s.Hashed(n) && !s.nodes[n].transit
    ensures Alone(s, t, n)
  {
    hide ChainsOk, OwnersOk, SleepersOk, WindowsOk, State.Hashed;
  }

  lemma AloneReclaiming(s: State, t: nat, n: nat)
    requires Valid(s) && t < |s.threads| && s.threads[t].Reclaiming? && s.threads[t].node == n
    ensures Alone(s, t, n) && n in s.nodes && !s.Hashed(n)
  {
    hide ChainsOk, OwnersOk, SleepersOk, WindowsOk, State.Hashed;
  }

  lemma AloneMarked(s: State, t: nat, n: nat)
    requires Valid(s) && Enabled(s, ReclaimStep(t, n))
    ensures Alone(s, t, n)
  {
    hide ChainsOk, OwnersOk, SleepersOk, ReclaimersOk, WindowsOk, State.Hashed;
  }

  lemma MarkFrame(s: State, t: nat, n: nat)
    requires t < |s.threads| && n in s.nodes && s.threads[t].Idle? && Alone(s, t, n)
    ensures var s' := Mark(s, t, n);
            && SameExchanges(s.threads, s'.threads) && KeepsNodes(s.nodes, s'.nodes, {}) && OnlyTransit(s, s', t, n)
  {
  }

  lemma MarkKeeps(s: State, t: nat, n: nat)
    requires Valid(s) && t < |s.threads| && s.threads[t].Idle? && s.Hashed(n) && !s.nodes[n].Busy()
    ensures WindowsOk(Mark(s, t, n)) && TransitOk(Mark(s, t, n))
  {
    ValidSize(s);
    InNodesIfHashed(s, n);
    hide Settled, WindowsOk, TransitOk, State.Hashed, KeepsNodes, SameExchanges, KeepsHashed, OnlyTransit, Alone;
    AloneHashed(s, t, n);
    MarkFrame(s, t, n);
    var s' := Mark(s, t, n);
    SameSlots(s, s', {});
    WindowsKept(s, s', {});
    TransitStep(s, s', t, n);
  }

  lemma NotExchanged(s: State, n: nat)
    requires |s.chains| > 0 && WindowsOk(s) && (n in s.nodes ==> !s.nodes[n].data || !s.Hashed(n))
    ensures !InWindow(s, n)
  {
    hide State.Hashed;
    forall u | 0 <= u < |s.threads| && s.threads[u].Exchanging? ensures s.threads[u].node != n && s.threads[u].other != n {
      assert WindowOk(s, s.threads[u]);
      InNodesIfHashed(s, s.threads[u].node);
      InNodesIfHashed(s, s.threads[u].other);
    }
  }

  lemma OwnedFacts(s: State, t: nat)
    requires Valid(s) && t < |s.threads| && s.threads[t].Owning?
    ensures var n := s.threads[t].node; s.Hashed(n) && !s.nodes[n].transit
  {
    hide ChainsOk, SleepersOk, ReclaimersOk, WindowsOk, TransitOk;
  }

  lemma AbortKeeps(s: State, t: nat)
    requires Valid(s) && Enabled(s, AbortStep(t))
    ensures WindowsOk(Abort(s, t)) && TransitOk(Abort(s, t))
  {
    ValidSize(s);
    hide Settled, WindowsOk, TransitOk, State.Hashed, Wakeup, Unhash;
    var n := s.threads[t].node;
    var s1 := s.(threads := s.threads[t := Reclaiming(n, true)]);
    var s' := Abort(s, t);
    OwnedFacts(s, t);
    NotExchanged(s, n);
    AloneHashed(s, t, n);
    Sizes(s, n);
    UnhashLeaves(s, s1, n);
    WakeupKeeps(Unhash(s1, n), n, true, true, false);
    UnhashSlots(s, s', n);
    WindowsKept(s, s', {n});
    TransitStep(s, s', t, n);
  }

  lemma UnhashLeaves(s: State, s1: State, n: nat)
    requires |s.chains| > 0 && n in s.nodes && s1.chains == s.chains && s1.nodes == s.nodes
    ensures Unhash(s1, n) == s1.(chains := Unhash(s, n).chains)
  {
  }

  lemma ReclaimFrame(s: State, t: nat, n: nat)
    requires |s.chains| > 0 && t < |s.threads| && n in s.nodes && Alone(s, t, n) && !s.nodes[n].attach
    requires s.threads[t].Idle? || s.threads[t] == Marking(n)
    ensures var s' := Reclaim(s, t, n);
            && SameExchanges(s.threads, s'.threads) && KeepsNodes(s.nodes, s'.nodes, {n}) && OnlyTransit(s, s', t, n)
            && |s'.chains| > 0 && s'.chains == Unhash(s, n).chains && s'.nodes == s.nodes
            && s'.threads[t] == Reclaiming(n, false)
  {
    Sizes(s, n);
    hide Unhash;
  }

  lemma ReclaimKeeps(s: State, t: nat, n: nat)
    requires Valid(s) && Enabled(s, ReclaimStep(t, n))
    ensures WindowsOk(Reclaim(s, t, n)) && TransitOk(Reclaim(s, t, n))
  {
    ValidSize(s);
    if !s.nodes[n].attach {
      AloneMarked(s, t, n);
      ReclaimFrame(s, t, n);
      hide Settled, WindowsOk, TransitOk, State.Hashed, KeepsNodes, SameExchanges, KeepsHashed, OnlyTransit, Alone, Reclaim,
           InWindow;
      NotExchanged(s, n);
      var s' := Reclaim(s, t, n);
      UnhashSlots(s, s', n);
      WindowsKept(s, s', {n});
      TransitStep(s, s', t, n);
    }
  }

  lemma WakeFrame(s: State, t: nat)
    requires t < |s.threads| && s.threads[t].Reclaiming? && s.threads[t].node in s.nodes
    requires Alone(s, t, s.threads[t].node)
    ensures var s', n := ReclaimWake(s, t), s.threads[t].node;
            && s'.chains == s.chains && SameExchanges(s.threads, s'.threads) && KeepsNodes(s.nodes, s'.nodes, {})
            && OnlyTransit(s, s', t, n) && n in s'.nodes && !s'.nodes[n].transit && !s'.threads[t].Marking?
  {
    hide Wakeup, Woken;
    var n := s.threads[t].node;
    WakeupKeeps(s.(threads := s.threads[t := Reclaiming(n, true)]), n, true, false, true);
  }

  lemma WakeKeeps(s: State, t: nat)
    requires Valid(s) && t < |s.threads| && s.threads[t].Reclaiming? && s.threads[t].node in s.nodes
    ensures WindowsOk(ReclaimWake(s, t)) && TransitOk(ReclaimWake(s, t))
  {
    ValidSize(s);
    var n := s.threads[t].node;
    hide Settled, WindowsOk, TransitOk, State.Hashed, KeepsNodes, SameExchanges, KeepsHashed, OnlyTransit, Alone, InWindow,
         ReclaimWake;
    AloneReclaiming(s, t, n);
    WakeFrame(s, t);
    var s' := ReclaimWake(s, t);
    SameSlots(s, s', {});
    WindowsKept(s, s', {});
    TransitStep(s, s', t, n);
  }

  lemma FreeFrame(s: State, t: nat)
    requires t < |s.threads| && s.threads[t].Reclaiming? && Alone(s, t, s.threads[t].node)
    ensures var s', n := Free(s, t), s.threads[t].node;
            SameExchanges(s.threads, s'.threads) && KeepsNodes(s.nodes, s'.nodes, {n}) && OnlyTransit(s, s', t, n)
  {
  }

  lemma FreeKeeps(s: State, t: nat)
    requires Valid(s) && t < |s.threads| && s.threads[t].Reclaiming?
    ensures WindowsOk(Free(s, t)) && TransitOk(Free(s, t))
  {
    ValidSize(s);
    var n := s.threads[t].node;
    hide Settled, WindowsOk, TransitOk, State.Hashed, KeepsNodes, SameExchanges, KeepsHashed, OnlyTransit, Alone,
         InWindow;
    AloneReclaiming(s, t, n);
    NotExchanged(s, n);
    FreeFrame(s, t);
    var s' := Free(s, t);
    SameSlots(s, s', {n});
    WindowsKept(s, s', {n});
    TransitStep(s, s', t, n);
  }

  // ------------------------------------------------------------------- the exchanges

  lemma OtherWindows(s: State, s': State, t: nat)
    requires |s.threads| == |s'.threads| && forall u :: 0 <= u < |s.threads| && u != t ==> s'.threads[u] == s.threads[u]
    ensures forall k :: InWindow(s, k) ==> InWindow(s', k) || (t < |s.threads| && Takes(s.threads[t], k))
  {
    forall k | InWindow(s, k) ensures InWindow(s', k) || (t < |s.threads| && Takes(s.threads[t], k)) {
      var u :| 0 <= u < |s.threads| && s.threads[u].Exchanging? && (s.threads[u].node == k || s.threads[u].other == k);
      if u != t { assert s'.threads[u] == s.threads[u]; }
    }
  }

  predicate Takes(x: Thread, n: nat) { x.Exchanging? && (x.node == n || x.other == n) }

  /** Of the exchanges only that of `t` changes, and of the keys only those of its nodes. */
  ghost predicate OnlyExchange(s: State, s': State, t: nat, n: nat, m: nat)
    requires |s.chains| > 0 && |s'.chains| > 0
  {
    && t < |s.threads| == |s'.threads| && (forall u :: 0 <= u < |s.threads| && u != t ==> s'.threads[u] == s.threads[u])
    && n in s.nodes && m in s.nodes && (forall k :: k in s'.nodes <==> k in s.nodes)
    && (forall k :: k in s.nodes && k != n && k != m ==> s'.nodes[k] == s.nodes[k])
    && (forall k :: k != n && k != m ==> (s'.Hashed(k) <==> s.Hashed(k)))
    && (forall u :: 0 <= u < |s.threads| && u != t && s.threads[u].Exchanging? ==>
          !Takes(s.threads[u], n) && !Takes(s.threads[u], m))
  }

  lemma ExchangeStep(s: State, s': State, t: nat, n: nat, m: nat)
    requires |s.chains| > 0 && |s'.chains| > 0 && WindowsOk(s) && OnlyExchange(s, s', t, n, m)
    requires s.threads[t].Exchanging? ==> s.threads[t].node == n && s.threads[t].other == m
    requires s'.threads[t].Exchanging? ==>
              s'.threads[t].node == n && s'.threads[t].other == m && WindowOk(s', s'.threads[t])
    requires !s'.threads[t].Exchanging? ==> Home(s'.nodes[n]) && Home(s'.nodes[m])
    ensures WindowsOk(s')
  {
    hide State.Hashed;
    OtherWindows(s, s', t);
    forall u | 0 <= u < |s.threads| && u != t && s.threads[u].Exchanging? ensures WindowOk(s', s.threads[u]) {
      assert WindowOk(s, s.threads[u]);
      InNodesIfHashed(s, s.threads[u].node);
      InNodesIfHashed(s, s.threads[u].other);
    }
    if s'.threads[t].Exchanging? { assert InWindow(s', n) && InWindow(s', m); }
  }

  lemma ApartFromOthers(s: State, t: nat)
    requires |s.chains| > 0 && WindowsOk(s) && t < |s.threads| && s.threads[t].Exchanging?
    ensures WindowOk(s, s.threads[t])
    ensures var x := s.threads[t]; forall u :: 0 <= u < |s.threads| && u != t && s.threads[u].Exchanging? ==>
              !Takes(s.threads[u], x.node) && !Takes(s.threads[u], x.other)
  {
    var x := s.threads[t];
    forall u | 0 <= u < |s.threads| && u != t && s.threads[u].Exchanging?
      ensures !Takes(s.threads[u], x.node) && !Takes(s.threads[u], x.other)
    {
      if u < t { assert Apart(s.threads[u], x); } else { assert Apart(x, s.threads[u]); }
    }
  }

  lemma SlotsSame(s: State, s': State)
    requires |s.chains| > 0 && s'.chains == s.chains && SameIds(s.nodes, s'.nodes)
    ensures forall k :: s'.Hashed(k) <==> s.Hashed(k)
  {
  }

  lemma HomesOf(s: State, n: nat)
    requires |s.chains| > 0 && WindowsOk(s) && n in s.nodes && !InWindow(s, n)
    ensures Home(s.nodes[n])
  {
  }

  lemma FirstFrame(s: State, t: nat, n: nat, m: nat)
    requires |s.chains| > 0 && t < |s.threads| && n in s.nodes && m in s.nodes && s.threads[t].Idle?
    requires forall u :: 0 <= u < |s.threads| && s.threads[u].Exchanging? ==> !Takes(s.threads[u], n) && !Takes(s.threads[u], m)
    ensures var s' := FirstWrite(s, t, n, m);
            && OnlyExchange(s, s', t, n, m) && SameReclaims(s.threads, s'.threads) && SameTransit(s.nodes, s'.nodes)
            && forall k :: s'.Hashed(k) <==> s.Hashed(k)
  {
    SlotsSame(s, FirstWrite(s, t, n, m));
    hide State.Hashed;
  }

  lemma NotTaken(s: State, n: nat)
    requires !InWindow(s, n)
    ensures forall u :: 0 <= u < |s.threads| && s.threads[u].Exchanging? ==> !Takes(s.threads[u], n)
  {
  }

  lemma FirstKeeps(s: State, t: nat, n: nat, m: nat)
    requires Valid(s) && t < |s.threads| && s.threads[t].Idle? && n != m && s.Hashed(n) && s.Hashed(m)
    requires s.nodes[n].data && s.nodes[m].data && !InWindow(s, n) && !InWindow(s, m)
    ensures WindowsOk(FirstWrite(s, t, n, m)) && TransitOk(FirstWrite(s, t, n, m))
  {
    ValidSize(s);
    HomesOf(s, n);
    HomesOf(s, m);
    NotTaken(s, n);
    NotTaken(s, m);
    hide Settled, WindowsOk, TransitOk, InWindow, OnlyExchange, SameReclaims, SameTransit, Takes;
    FirstFrame(s, t, n, m);
    var s' := FirstWrite(s, t, n, m);
    assert WindowOk(s', s'.threads[t]);
    hide State.Hashed;
    ExchangeStep(s, s', t, n, m);
    TransitsKept(s, s');
  }

  lemma SecondFrame(s: State, t: nat)
    requires |s.chains| > 0 && t < |s.threads| && s.threads[t].Exchanging?
    requires s.threads[t].node in s.nodes && s.threads[t].other in s.nodes
    requires var x := s.threads[t]; forall u :: 0 <= u < |s.threads| && u != t && s.threads[u].Exchanging? ==>
               !Takes(s.threads[u], x.node) && !Takes(s.threads[u], x.other)
    ensures var s' := SecondWrite(s, t);
            && OnlyExchange(s, s', t, s.threads[t].node, s.threads[t].other)
            && SameReclaims(s.threads, s'.threads) && SameTransit(s.nodes, s'.nodes)
            && forall k :: s'.Hashed(k) <==> s.Hashed(k)
  {
    SlotsSame(s, SecondWrite(s, t));
    hide State.Hashed;
  }

  lemma SecondKeeps(s: State, t: nat)
    requires Valid(s) && t < |s.threads| && s.threads[t].Exchanging? && s.threads[t].other in s.nodes
    ensures WindowsOk(SecondWrite(s, t)) && TransitOk(SecondWrite(s, t))
  {
    ValidSize(s);
    hide Settled, WindowsOk, TransitOk, InWindow, OnlyExchange, SameReclaims, SameTransit, Takes;
    var x := s.threads[t];
    var s' := SecondWrite(s, t);
    ApartFromOthers(s, t);
    SecondFrame(s, t);
    assert WindowOk(s', s'.threads[t]);
    hide State.Hashed;
    ExchangeStep(s, s', t, x.node, x.other);
    TransitsKept(s, s');
  }

  lemma RehashHashed(s: State, t: nat)
    requires Valid(s) && t < |s.threads| && s.threads[t].Exchanging? && s.threads[t].second
    requires s.threads[t].node in s.nodes && s.threads[t].other in s.nodes
    ensures var x := s.threads[t];
            |RehashAfter(s, t).chains| > 0 && forall k :: k != x.node && k != x.other ==> (RehashAfter(s, t).Hashed(k) <==> s.Hashed(k))
  {
    var x := s.threads[t];
    var s1 := s.(threads := s.threads[t := Idle]);
    hide ChainOk, OwnersOk, SleepersOk, ReclaimersOk, TransitOk, Rehash;
    assert WindowOk(s, x);
    SameChains(s, s1);
    RehashChains(s1, x.node, x.other);
  }

  lemma RehashFrame(s: State, s': State, t: nat, n: nat, m: nat)
    requires |s.chains| > 0 && |s'.chains| > 0 && t < |s.threads| && s.threads[t].Exchanging?
    requires n in s.nodes && m in s.nodes && n != m && s'.threads == s.threads[t := Idle]
    requires s'.nodes == s.nodes[n := s.nodes[n].(home := s.nodes[n].fileId)][m := s.nodes[m].(home := s.nodes[m].fileId)]
    requires forall u :: 0 <= u < |s.threads| && u != t && s.threads[u].Exchanging? ==>
               !Takes(s.threads[u], n) && !Takes(s.threads[u], m)
    requires forall k :: k != n && k != m ==> (s'.Hashed(k) <==> s.Hashed(k))
    ensures OnlyExchange(s, s', t, n, m) && SameReclaims(s.threads, s'.threads) && SameTransit(s.nodes, s'.nodes)
    ensures n in s'.nodes && m in s'.nodes && Home(s'.nodes[n]) && Home(s'.nodes[m])
  {
    hide State.Hashed;
  }

  lemma RehashKeeps(s: State, t: nat)
    requires Valid(s) && t < |s.threads| && s.threads[t].Exchanging? && s.threads[t].second
    requires s.threads[t].node in s.nodes && s.threads[t].other in s.nodes
    ensures |RehashAfter(s, t).chains| > 0 && WindowsOk(RehashAfter(s, t)) && TransitOk(RehashAfter(s, t))
  {
    ValidSize(s);
    hide Settled, WindowsOk, TransitOk, InWindow, OnlyExchange, SameReclaims, SameTransit, Takes, State.Hashed, Rehash,
         Home;
    var x := s.threads[t];
    var s' := RehashAfter(s, t);
    ApartFromOthers(s, t);
    RehashHashed(s, t);
    RehashNodes(s.(threads := s.threads[t := Idle]), x.node, x.other);
    RehashFrame(s, s', t, x.node, x.other);
    ExchangeStep(s, s', t, x.node, x.other);
    TransitsKept(s, s');
  }

  lemma NextKeeps(s: State, a: Step)
    requires Valid(s) && Enabled(s, a) && Clean(s, a)
    ensures |Next(s, a).chains| > 0 && WindowsOk(Next(s, a)) && TransitOk(Next(s, a))
  {
    hide Settled, TransitOk, WindowsOk, State.Hashed, Scan, Finish, Abort, Unhash, Reclaim, ReclaimWake, Free, Rehash, Unused,
         Inserts, Mark, FirstWrite, SecondWrite, RehashAfter;
    NextSettled(s, a);
    SettledSize(s);
    SettledSize(Next(s, a));
    match a
    case Begin(t, inum, wantRsrc, create) => ThreadKeeps(s, t, Looking(inum, wantRsrc, create, false));
    case ScanStep(t) => ScanKeeps(s, t);
    case Got(t, ok) =>
      var g := s.threads[t];
      ThreadKeeps(s, t, if ok then Idle else Looking(g.inum, g.wantRsrc, g.create, g.spare));
    case FinishStep(t, made) => FinishKeeps(s, t, made);
    case AbortStep(t) => AbortKeeps(s, t);
    case Detach(n, rsrcVnode) =>
      var c := s.nodes[n];
      DetachKeeps(s, n, if rsrcVnode then c.(rsrc := false) else c.(data := false));
    case MarkInTransit(t, n) => MarkKeeps(s, t, n);
    case Unlink(n) => if !s.nodes[n].attach { UnlinkKeeps(s, n); }
    case ReclaimStep(t, n) => ReclaimKeeps(s, t, n);
    case WakeStep(t) => WakeKeeps(s, t);
    case FreeStep(t) => FreeKeeps(s, t);
    case ExchangeFirst(t, n, m) => FirstKeeps(s, t, n, m);
    case ExchangeSecond(t) => SecondKeeps(s, t);
    case RehashStep(t) => RehashKeeps(s, t);
  }

  lemma SettledSize(s: State)
    requires Settled(s)
    ensures |s.chains| > 0
  {
  }

  // ----------------------------------------------------------------------- every run

  /** A step keeps the invariant if and only if it does not put a second node into the hash
      for an ID. */
  lemma NextValid(s: State, a: Step)
    requires Valid(s) && Enabled(s, a)
    ensures Valid(Next(s, a)) <==> Clean(s, a)
  {
    if Clean(s, a) {
      hide Settled, WindowsOk, TransitOk, Next, Enabled, Clean;
      NextSettled(s, a);
      NextKeeps(s, a);
    } else {
      var t := a.t;
      var s', id := Next(s, a), s.threads[t].inum;
      hide OwnersOk, SleepersOk, ReclaimersOk, TransitOk, WindowsOk, ChainOk;
      var k :| s.Hashed(k) && s.nodes[k].home == id;
      assert s'.Hashed(k) && s'.Hashed(s.next);
      if ChainsOk(s') { UniqueByHome(s', k, s.next); }
    }
  }

  /** Whether a walk for an ID fails although the node put into the hash by that ID is there. */
  ghost predicate Misses(s: State, id: nat)
    requires |s.chains| > 0
  { Find(s, id).None? && !Unused(s, id) }

  /** An exchange hides an ID: after its first write the ID it has overwritten, and after both
      writes either ID, if the two IDs belong to different chains. */
  predicate Hides(s: State, x: Thread, id: nat)
    requires |s.chains| > 0
  {
    && x.Exchanging? && x.node in s.nodes
    && var b := s.nodes[x.node].fileId;
       if x.second then s.Slot(x.saved) != s.Slot(b) && (id == x.saved || id == b) else id == x.saved
  }

  /** Walks miss exactly the IDs hidden by an exchange in progress. */
  lemma MissesExactly(s: State, id: nat)
    requires Valid(s)
    ensures Misses(s, id) <==> exists t :: 0 <= t < |s.threads| && Hides(s, s.threads[t], id)
  {
    if Misses(s, id) { MissIsHidden(s, id); }
    if t :| 0 <= t < |s.threads| && Hides(s, s.threads[t], id) { HiddenIsMissed(s, t, id); }
  }

  lemma MissIsHidden(s: State, id: nat)
    requires Valid(s) && Misses(s, id)
    ensures exists t :: 0 <= t < |s.threads| && Hides(s, s.threads[t], id)
  {
    hide OwnersOk, SleepersOk, ReclaimersOk, TransitOk, ChainOk;
    var k :| s.Hashed(k) && s.nodes[k].home == id;
    assert s.nodes[k].fileId != id;
    assert InWindow(s, k);
    var t :| 0 <= t < |s.threads| && s.threads[t].Exchanging? && (s.threads[t].node == k || s.threads[t].other == k);
    var x := s.threads[t];
    assert WindowOk(s, x);
    if x.second {
      assert s.nodes[x.node].fileId == s.nodes[x.other].home;
      assert x.other in s.chains[s.Slot(s.nodes[x.other].home)];
    }
    assert Hides(s, x, id);
  }

  lemma HiddenIsMissed(s: State, t: nat, id: nat)
    requires Valid(s) && t < |s.threads| && Hides(s, s.threads[t], id)
    ensures Misses(s, id)
  {
    hide OwnersOk, SleepersOk, ReclaimersOk, TransitOk, ChainOk;
    var x := s.threads[t];
    assert WindowOk(s, x);
    assert !Unused(s, id);
    if Find(s, id).Some? {
      var k := Find(s, id).value;
      FoundHashed(s, id);
      ChainSlot(s, s.Slot(id), k);
      FoundOnlyHome(s, t, k);
    }
  }

  /** A node that has an ID hidden by an exchange is in another chain. */
  lemma FoundOnlyHome(s: State, t: nat, k: nat)
    requires Valid(s) && t < |s.threads| && s.Hashed(k) && Hides(s, s.threads[t], s.nodes[k].fileId)
    ensures s.Slot(s.nodes[k].home) != s.Slot(s.nodes[k].fileId)
  {
    ValidSize(s);
    InNodesIfHashed(s, k);
    var x := s.threads[t];
    var id := s.nodes[k].fileId;
    var a := Source(s, k);
    ApartFromOthers(s, t);
    hide ChainOk, OwnersOk, SleepersOk, ReclaimersOk, TransitOk, WindowsOk, Source, State.Hashed, InWindow;
    if s.nodes[x.node].home == s.nodes[x.other].home { UniqueByHome(s, x.node, x.other); }
    if id == x.saved { UniqueByHome(s, a, x.node); } else { UniqueByHome(s, a, x.other); }
    if a != k {
      var u :| 0 <= u < |s.threads| && Exchanges(s.threads[u], k, a);
      assert Takes(s.threads[u], a);
      assert u == t;
    }
  }

  /** An interleaving of the threads' steps. */
  ghost predicate Run(states: seq<State>, steps: seq<Step>) {
    && |states| == |steps| + 1 && (forall i :: 0 <= i < |states| ==> |states[i].chains| > 0)
    && forall i :: 0 <= i < |steps| ==> Enabled(states[i], steps[i]) && states[i + 1] == Next(states[i], steps[i])
  }

  /** A step that makes a node for an ID hidden by an exchange in progress. */
  ghost predicate MakesHidden(s: State, a: Step)
    requires |s.chains| > 0 && Enabled(s, a)
  {
    a.ScanStep? && Inserts(s, a.t) && exists u :: 0 <= u < |s.threads| && Hides(s, s.threads[u], s.threads[a.t].inum)
  }

  /** In every interleaving in which no thread makes a node for an ID that an exchange hides,
      the hash holds at most one node per ID, a node being allocated or attached to has
      exactly one owner, and whoever sleeps has a thread that is to wake them. */
  lemma {:induction false} RunValid(states: seq<State>, steps: seq<Step>, i: nat)
    requires Run(states, steps) && Valid(states[0]) && i < |states|
    requires forall j :: 0 <= j < i ==> !MakesHidden(states[j], steps[j])
    ensures Valid(states[i])
  {
    hide Valid, Next, Enabled, MakesHidden;
    if i > 0 {
      RunValid(states, steps, i - 1);
      assert states[i - 1 + 1] == Next(states[i - 1], steps[i - 1]);
      StepValid(states[i - 1], steps[i - 1]);
    }
  }

  /** And the first step that does make such a node ends this. */
  lemma StepValid(s: State, a: Step)
    requires Valid(s) && Enabled(s, a)
    ensures Valid(Next(s, a)) <==> !MakesHidden(s, a)
  {
    hide Valid, Next, Hides, Unused, Find;
    NextValid(s, a);
    ValidSize(s);
    if a.ScanStep? { MissesExactly(s, s.threads[a.t].inum); }
  }

  lemma ValidSize(s: State)
    requires Valid(s)
    ensures |s.chains| > 0
  {
  }

  // ---------------------------------------------------------------------- who holds what

  predicate Holds(x: Thread) { x.Getting? || x.Owning? }

  /** What a thread may hold after a pass: the node that the walk found under its ID, or the
      node it has just put there. */
  predicate FromScan(s: State, t: nat, n: nat)
    requires |s.chains| > 0 && t < |s.threads|
  {
    && s.threads[t].Looking?
    && var id := s.threads[t].inum;
       (n in s.nodes && n in s.chains[s.Slot(id)] && s.nodes[n].fileId == id) || (Inserts(s, t) && n == s.next)
  }

  /** A step gives a thread a node only if it is that thread's own pass over the chain. */
  lemma HoldStep(s: State, a: Step, t: nat)
    requires |s.chains| > 0 && Enabled(s, a) && t < |s.threads|
    ensures |Next(s, a).threads| == |s.threads|
    ensures var r := Next(s, a).threads[t];
            Holds(r) ==> r == s.threads[t] || (a == ScanStep(t) && FromScan(s, t, r.node))
  {
    hide Filtered;
    if a.RehashStep? {
      var x := s.threads[a.t];
      hide Rehash;
      RehashThreads(s.(threads := s.threads[a.t := Idle]), x.node, x.other);
    }
  }

  lemma RehashThreads(s: State, n: nat, m: nat)
    requires |s.chains| > 0 && n in s.nodes && m in s.nodes
    ensures Rehash(s, n, m).threads == s.threads
  {
    hide Unhash, Enter;
    Sizes(s, n);
    Sizes(Unhash(s, n), m);
    Sizes(Unhash(Unhash(s, n), m), n);
    Sizes(Enter(Unhash(Unhash(s, n), m), n), m);
  }

  /** The number of threads does not change. */
  lemma {:induction false} RunThreads(states: seq<State>, steps: seq<Step>, i: nat)
    requires Run(states, steps) && i < |states|
    ensures |states[i].threads| == |states[0].threads|
  {
    hide Next, Enabled;
    if i > 0 {
      RunThreads(states, steps, i - 1);
      assert states[i - 1 + 1] == Next(states[i - 1], steps[i - 1]);
      NextThreads(states[i - 1], steps[i - 1]);
    }
  }

  /** A thread that slept, or otherwise held nothing, and later holds a node, has since walked
      the chain of an ID, and the node was then in that chain with that ID, or was put there by
      that pass. Nothing of what it slept on is carried over. */
  lemma {:induction false} HeldFromScan(states: seq<State>, steps: seq<Step>, i: nat, j: nat, t: nat) returns (k: nat)
    requires Run(states, steps) && i <= j < |states| && t < |states[i].threads| && !Holds(states[i].threads[t])
    requires t < |states[j].threads| && Holds(states[j].threads[t])
    ensures i <= k < j && steps[k] == ScanStep(t)
    ensures t < |states[k].threads| && FromScan(states[k], t, states[j].threads[t].node)
    ensures forall q :: k < q <= j ==> t < |states[q].threads| && states[q].threads[t] == states[j].threads[t]
  {
    hide FromScan, Next, Enabled;
    assert j > 0 && states[j - 1 + 1] == Next(states[j - 1], steps[j - 1]);
    RunThreads(states, steps, j);
    RunThreads(states, steps, j - 1);
    HoldStep(states[j - 1], steps[j - 1], t);
    if states[j].threads[t] == states[j - 1].threads[t] {
      k := HeldFromScan(states, steps, i, j - 1, t);
    } else {
      k := j - 1;
    }
  }

  lemma NextThreads(s: State, a: Step)
    requires |s.chains| > 0 && Enabled(s, a)
    ensures |Next(s, a).threads| == |s.threads|
  {
    hide Find, Filtered;
    if a.RehashStep? {
      var x := s.threads[a.t];
      hide Rehash;
      RehashThreads(s.(threads := s.threads[a.t := Idle]), x.node, x.other);
    }
  }

  /** A pass yields a node that the hash has under the ID, or a new one; and the new one, if
      no exchange hides the ID, is the only one. */
  lemma ScanUsesHash(s: State, t: nat)
    requires Valid(s) && t < |s.threads| && s.threads[t].Looking?
    ensures var l := s.threads[t]; var r := Scan(s, t).threads[t];
            && (r.Getting? || r.Asleep? || (r.Owning? && !r.isNew) ==> s.Hashed(r.node) && s.nodes[r.node].fileId == l.inum)
            && (r.Owning? && r.isNew ==> r.node !in s.nodes)
            && (r.Owning? && r.isNew && !Misses(s, l.inum) ==> forall n :: s.Hashed(n) ==> s.nodes[n].fileId != l.inum)
  {
    var id := s.threads[t].inum;
    if Find(s, id).Some? {
      FoundHashed(s, id);
    } else if !Misses(s, id) {
      forall n | s.Hashed(n) ensures s.nodes[n].fileId != id {
        var k := Source(s, n);
        assert s.nodes[k].home == s.nodes[n].fileId;
      }
    }
  }

  /** What a pass does with the node it finds, by the flags and vnodes of the node. A node with a
      flag set is slept on; else the wanted vnode is taken if it is there; else a getcnode pass
      tags the node, to make that vnode, and a getvnode pass ends. Without a node a getvnode
      pass ends, and a getcnode pass allocates one and looks again, or puts it in. */
  lemma ScanGetsWanted(s: State, t: nat)
    requires |s.chains| > 0 && t < |s.threads| && s.threads[t].Looking?
    ensures var l := s.threads[t]; var s' := Scan(s, t); var r := s'.threads[t];
            match Find(s, l.inum)
            case Some(n) =>
              var c := s.nodes[n];
              var busy, there := c.alloc || c.attach || c.transit, (l.wantRsrc && c.rsrc) || (!l.wantRsrc && c.data);
              && (busy <==> r.Asleep?) && (!busy && there <==> r.Getting?)
              && (!busy && !there && l.create <==> r.Owning?)
              && (!busy && !there && !l.create <==> r.Idle?)
              && (!r.Idle? ==> r.node == n) && (r.Owning? ==> r.wantRsrc == l.wantRsrc && !r.isNew)
              && s'.nodes == (if busy then s.nodes[n := c.(waiting := true)]
                              else if r.Owning? then s.nodes[n := c.(attach := true)] else s.nodes)
            case None =>
              && (!l.create <==> r.Idle?) && (l.create && !l.spare <==> r.Looking?)
              && (l.create && l.spare <==> r.Owning?)
              && (r.Looking? ==> r == Looking(l.inum, l.wantRsrc, true, true))
              && (r.Owning? ==> r.wantRsrc == l.wantRsrc && r.isNew && r.node in s'.nodes && s'.nodes[r.node].fileId == l.inum)
  {
  }

  /** The owner of a node ends with the vnode that its lookup wanted, and no other. */
  lemma OwnerMakesWanted(s: State, t: nat, made: bool)
    requires t < |s.threads| && s.threads[t].Owning? && s.threads[t].node in s.nodes
    ensures var o := s.threads[t]; var c, d := s.nodes[o.node], Finish(s, t, made).nodes[o.node];
            && (made && o.wantRsrc ==> d.rsrc && d.data == c.data)
            && (made && !o.wantRsrc ==> d.data && d.rsrc == c.rsrc)
            && (!made ==> d.data == c.data && d.rsrc == c.rsrc) && !d.alloc && !d.attach && !d.waiting
  {
  }

  // ------------------------------------------------- a lookup in the middle of an exchange

  /** Two different nodes of the hash have the ID. */
  predicate Twice(s: State, n: nat, m: nat, id: nat)
    requires |s.chains| > 0
  { n != m && s.Hashed(n) && s.Hashed(m) && s.nodes[n].fileId == id && s.nodes[m].fileId == id }

  /** The steps of an exchange by thread `x`, with a pass by thread `t` after the two writes and
      before the rehash. */
  function Overtaking(x: nat, n: nat, m: nat, t: nat): seq<Step> {
    [ExchangeFirst(x, n, m), ExchangeSecond(x), ScanStep(t), RehashStep(x)]
  }

  /** If the pass is for the ID that `n` had, with a spare node in hand, then the hash ends up
      with two nodes of that ID if and only if the two IDs belong to different chains. */
  lemma SplitExchange(states: seq<State>, x: nat, n: nat, m: nat, t: nat)
    requires Run(states, Overtaking(x, n, m, t)) && Valid(states[0]) && t < |states[0].threads|
    requires var l := states[0].threads[t]; l.Looking? && l.create && l.spare && l.inum == states[0].nodes[n].fileId
    ensures var s := states[0]; var a, b := s.nodes[n].fileId, s.nodes[m].fileId;
            Twice(states[4], m, s.next, a) <==> s.Slot(a) != s.Slot(b)
  {
    hide Valid, State.Hashed, Rehash, Scan, InWindow, Inserts, Find;
    OvertakingSteps(states, x, n, m, t);
    var s, s1, s2 := states[0], states[1], states[2];
    NextValid(s, ExchangeFirst(x, n, m));
    NextValid(s1, ExchangeSecond(x));
    InNodesIfHashed(s, n);
    InNodesIfHashed(s, m);
    NextIsNew(s);
    OvertakenPass(s2, x, t);
    OvertakenScan(s2, x, t);
    OvertakenEnd(states[3], states[4], x, s.next);
  }

  lemma OvertakingSteps(states: seq<State>, x: nat, n: nat, m: nat, t: nat)
    requires Run(states, Overtaking(x, n, m, t))
    ensures Enabled(states[0], ExchangeFirst(x, n, m)) && states[1] == Next(states[0], ExchangeFirst(x, n, m))
    ensures Enabled(states[1], ExchangeSecond(x)) && states[2] == Next(states[1], ExchangeSecond(x))
    ensures Enabled(states[2], ScanStep(t)) && states[3] == Next(states[2], ScanStep(t))
    ensures Enabled(states[3], RehashStep(x)) && states[4] == Next(states[3], RehashStep(x))
  {
    hide Enabled, Next;
    var steps := Overtaking(x, n, m, t);
    assert states[1] == Next(states[0], steps[0]);
    assert states[2] == Next(states[1], steps[1]);
    assert states[3] == Next(states[2], steps[2]);
    assert states[4] == Next(states[3], steps[3]);
  }

  lemma OvertakenEnd(s: State, s': State, x: nat, k: nat)
    requires |s.chains| > 0 && Enabled(s, RehashStep(x)) && s' == Next(s, RehashStep(x))
    requires s.threads[x].node != s.threads[x].other && k != s.threads[x].node && k != s.threads[x].other
    ensures var m := s.threads[x].other;
            |s'.chains| > 0 && s'.Hashed(m) && s'.nodes[m].fileId == s.nodes[m].fileId
    ensures s.Hashed(k) ==> s'.Hashed(k) && s'.nodes[k].fileId == s.nodes[k].fileId
    ensures k !in s.nodes ==> !s'.Hashed(k)
  {
    var y := s.threads[x];
    SlotsSame(s, s.(threads := s.threads[x := Idle]));
    RehashHashes(s.(threads := s.threads[x := Idle]), y.node, y.other);
    hide Rehash;
  }

  /** If the pass comes between the two writes, there are always two. */
  lemma EarlyPass(states: seq<State>, x: nat, n: nat, m: nat, t: nat)
    requires Run(states, Early(x, n, m, t)) && Valid(states[0]) && t < |states[0].threads|
    requires var l := states[0].threads[t]; l.Looking? && l.create && l.spare && l.inum == states[0].nodes[n].fileId
    ensures Twice(states[4], m, states[0].next, states[0].nodes[n].fileId)
  {
    hide Valid, State.Hashed, Rehash, Scan, InWindow, Unused, Find;
    var s, s1, s2 := states[0], states[1], states[2];
    EarlySteps(states, x, n, m, t);
    NextValid(s, ExchangeFirst(x, n, m));
    InNodesIfHashed(s, n);
    InNodesIfHashed(s, m);
    NextIsNew(s);
    HiddenIsMissed(s1, x, s.nodes[n].fileId);
    OvertakenScan(s1, x, t);
    EarlyEnd(s2, states[3], states[4], x);
  }

  function Early(x: nat, n: nat, m: nat, t: nat): seq<Step> {
    [ExchangeFirst(x, n, m), ScanStep(t), ExchangeSecond(x), RehashStep(x)]
  }

  lemma EarlySteps(states: seq<State>, x: nat, n: nat, m: nat, t: nat)
    requires Run(states, Early(x, n, m, t))
    ensures Enabled(states[0], ExchangeFirst(x, n, m)) && states[1] == Next(states[0], ExchangeFirst(x, n, m))
    ensures Enabled(states[1], ScanStep(t)) && states[2] == Next(states[1], ScanStep(t))
    ensures Enabled(states[2], ExchangeSecond(x)) && states[3] == Next(states[2], ExchangeSecond(x))
    ensures Enabled(states[3], RehashStep(x)) && states[4] == Next(states[3], RehashStep(x))
  {
    hide Enabled, Next;
    var steps := Early(x, n, m, t);
    assert states[1] == Next(states[0], steps[0]);
    assert states[2] == Next(states[1], steps[1]);
    assert states[3] == Next(states[2], steps[2]);
    assert states[4] == Next(states[3], steps[3]);
  }

  /** The second write and the rehash keep other nodes where they are. */
  lemma EarlyEnd(s: State, s1: State, s2: State, x: nat)
    requires |s.chains| > 0 && Enabled(s, ExchangeSecond(x)) && s1 == Next(s, ExchangeSecond(x)) && |s1.chains| > 0
    requires Enabled(s1, RehashStep(x)) && s2 == Next(s1, RehashStep(x)) && s.threads[x].node != s.threads[x].other
    ensures var y := s.threads[x];
            && |s2.chains| > 0 && s2.Hashed(y.other) && s2.nodes[y.other].fileId == y.saved
            && forall k :: k in s.nodes && s.Hashed(k) && k != y.node && k != y.other ==>
                 k in s2.nodes && s2.Hashed(k) && s2.nodes[k].fileId == s.nodes[k].fileId
  {
    hide State.Hashed, Rehash;
    var y := s.threads[x];
    SlotsSame(s, s1);
    SlotsSame(s1, s1.(threads := s1.threads[x := Idle]));
    RehashHashes(s1.(threads := s1.threads[x := Idle]), y.node, y.other);
  }

  /** Two chains, the nodes 0 and 1 of the files 2 and 3 in them; thread 1 looks for file 2
      with a spare node while thread 0 exchanges the two IDs. */
  function ExampleStart(): State {
    State([[0], [1]], map[0 := Cnode(2, 2, false, false, false, false, true, false),
                          1 := Cnode(3, 3, false, false, false, false, true, false)],
          [Idle, Looking(2, false, true, true)], 2)
  }

  /** There are such runs from every state that allows the exchange. */
  lemma OvertakingRuns(s: State, x: nat, n: nat, m: nat, t: nat) returns (states: seq<State>)
    requires |s.chains| > 0 && Enabled(s, ExchangeFirst(x, n, m)) && t < |s.threads| && s.threads[t].Looking?
    requires s.next !in s.nodes
    ensures Run(states, Overtaking(x, n, m, t)) && states[0] == s
  {
    WritesFrame(s, x, n, m, t);
    hide Next, Enabled;
    var s1 := Next(s, ExchangeFirst(x, n, m));
    var s2 := Next(s1, ExchangeSecond(x));
    PassFrame(s2, x, t);
    var s3 := Next(s2, ScanStep(t));
    RehashSize(s3, x);
    states := [s, s1, s2, s3, Next(s3, RehashStep(x))];
  }

  lemma WritesFrame(s: State, x: nat, n: nat, m: nat, t: nat)
    requires |s.chains| > 0 && Enabled(s, ExchangeFirst(x, n, m)) && t < |s.threads| && s.threads[t].Looking?
    requires s.next !in s.nodes
    ensures var s1 := Next(s, ExchangeFirst(x, n, m));
            && |s1.chains| > 0 && Enabled(s1, ExchangeSecond(x))
            && var s2 := Next(s1, ExchangeSecond(x));
               && |s2.chains| > 0 && Enabled(s2, ScanStep(t)) && t != x && x < |s2.threads| && s2.threads[x].Exchanging?
               && s2.threads[x].second && s2.threads[x].node in s2.nodes && s2.threads[x].other in s2.nodes
               && s2.threads[x].node != s2.threads[x].other && s2.next !in s2.nodes
  {
    InNodesIfHashed(s, n);
    InNodesIfHashed(s, m);
    hide State.Hashed, InWindow;
  }

  lemma PassFrame(s: State, x: nat, t: nat)
    requires |s.chains| > 0 && Enabled(s, ScanStep(t)) && t != x && x < |s.threads| && s.threads[x].Exchanging?
    requires s.threads[x].second && s.threads[x].node in s.nodes && s.threads[x].other in s.nodes && s.next !in s.nodes
    ensures |Next(s, ScanStep(t)).chains| > 0 && Enabled(Next(s, ScanStep(t)), RehashStep(x))
    ensures Next(s, ScanStep(t)).threads[x] == s.threads[x]
  {
    OvertakenScan(s, x, t);
    hide Scan;
  }

  lemma RehashSize(s: State, x: nat)
    requires |s.chains| > 0 && Enabled(s, RehashStep(x))
    requires s.threads[x].node != s.threads[x].other
    ensures |Next(s, RehashStep(x)).chains| > 0
  {
    RehashHashes(s.(threads := s.threads[x := Idle]), s.threads[x].node, s.threads[x].other);
    hide Rehash;
  }

  /** Two nodes with the file ID 2 end up in the hash. */
  lemma ExchangeExample() returns (states: seq<State>)
    ensures Run(states, Overtaking(0, 0, 1, 1)) && states[0] == ExampleStart() && Valid(states[0])
    ensures Twice(states[4], 1, 2, 2)
  {
    var s := ExampleStart();
    ExampleValid();
    ExampleEnabled();
    hide Valid, State.Hashed, InWindow, Enabled, Run, Twice;
    states := OvertakingRuns(s, 0, 0, 1, 1);
    SplitExchange(states, 0, 0, 1, 1);
  }

  lemma ExampleEnabled()
    ensures Enabled(ExampleStart(), ExchangeFirst(0, 0, 1))
  {
    var s := ExampleStart();
    assert 0 in s.chains[0] && 1 in s.chains[1];
    assert s.Hashed(0) && s.Hashed(1);
  }

  lemma ExampleValid()
    ensures Valid(ExampleStart())
  {
    ExampleChains();
    ExampleSettled();
    ExampleKept();
    hide ChainsOk, OwnersOk, SleepersOk, ReclaimersOk, TransitOk, WindowsOk;
  }

  lemma ExampleSettled()
    ensures OwnersOk(ExampleStart()) && SleepersOk(ExampleStart()) && ReclaimersOk(ExampleStart())
  {
    hide State.Hashed;
  }

  lemma ExampleKept()
    ensures TransitOk(ExampleStart()) && WindowsOk(ExampleStart())
  {
    hide State.Hashed;
  }

  lemma ExampleChains()
    ensures ChainsOk(ExampleStart())
  {
    var s := ExampleStart();
    assert ChainOk(s.chains[0], s.nodes, 0, 2);
    assert ChainOk(s.chains[1], s.nodes, 1, 2);
  }

  /** A pass for the ID that the first node of an exchange had inserts a node exactly when the
      two IDs belong to different chains. */
  lemma OvertakenPass(s: State, x: nat, t: nat)
    requires Valid(s) && x < |s.threads| && t < |s.threads| && s.threads[x].Exchanging? && s.threads[x].second
    requires var l := s.threads[t]; l.Looking? && l.create && l.spare && l.inum == s.threads[x].saved
    ensures s.threads[x].node in s.nodes
    ensures Inserts(s, t) <==> s.Slot(s.threads[x].saved) != s.Slot(s.nodes[s.threads[x].node].fileId)
  {
    var y := s.threads[x];
    hide OwnersOk, SleepersOk, ReclaimersOk, TransitOk, ChainOk;
    assert WindowOk(s, y);
    hide WindowsOk;
    if s.Slot(y.saved) != s.Slot(s.nodes[y.node].fileId) {
      HiddenIsMissed(s, x, y.saved);
    } else {
      assert y.other in s.chains[s.Slot(y.saved)];
    }
  }

  /** What a pass for that ID leaves of the exchange. */
  lemma OvertakenScan(s: State, x: nat, t: nat)
    requires |s.chains| > 0 && t < |s.threads| && x < |s.threads| && x != t && s.threads[t].Looking?
    requires s.next !in s.nodes
    ensures var s' := Scan(s, t);
            && |s'.chains| == |s.chains| && |s'.threads| == |s.threads| && s'.threads[x] == s.threads[x]
            && (forall k :: k in s.nodes ==> k in s'.nodes && SameKey(s.nodes[k], s'.nodes[k]))
            && (Inserts(s, t) ==> s'.Hashed(s.next) && s'.nodes[s.next].fileId == s.threads[t].inum)
            && (!Inserts(s, t) ==> s.next !in s'.nodes)
  {
  }

  /** After a rehash both nodes are hashed, and of the others the same ones. */
  lemma RehashHashes(s: State, n: nat, m: nat)
    requires |s.chains| > 0 && n in s.nodes && m in s.nodes && n != m
    ensures var s' := Rehash(s, n, m);
            && |s'.chains| == |s.chains| && (forall k :: k in s'.nodes <==> k in s.nodes)
            && (forall k :: k in s.nodes ==> s'.nodes[k].fileId == s.nodes[k].fileId)
            && s'.Hashed(n) && s'.Hashed(m) && forall k :: k != n && k != m ==> (s'.Hashed(k) <==> s.Hashed(k))
  {
    UnhashHashes(s, n);
    var s1 := Unhash(s, n);
    UnhashHashes(s1, m);
    var s2 := Unhash(s1, m);
    EnterHashes(s2, n);
    EnterHashes(Enter(s2, n), m);
    hide State.Hashed;
  }

  lemma UnhashHashes(s: State, n: nat)
    requires |s.chains| > 0 && n in s.nodes
    ensures var s' := Unhash(s, n);
            && |s'.chains| == |s.chains| && s'.nodes == s.nodes && forall k :: k != n ==> (s'.Hashed(k) <==> s.Hashed(k))
  {
  }

  lemma EnterHashes(s: State, n: nat)
    requires |s.chains| > 0 && n in s.nodes
    ensures var s' := Enter(s, n);
            && |s'.chains| == |s.chains| && s'.nodes == s.nodes[n := s.nodes[n].(home := s.nodes[n].fileId)]
            && s'.Hashed(n) && forall k :: k != n ==> (s'.Hashed(k) <==> s.Hashed(k))
  {
  }
}
