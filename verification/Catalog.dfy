/** The catalog: file and folder records and their thread records in one ordered tree, under
    create, rename and delete. The tree is a map from classes of equal keys. */
module Catalogs {
  import opened KeyOrders

  /** The key order of the volume. */
  datatype Order = Insensitive(tables: Tables) | Binary {
    predicate Ok() { Insensitive? ==> tables.Ok() }
  }

  /** Keys that compare equal have the same class. */
  datatype Class = Class(parent: nat, thread: bool, name: seq<UniChar>)

  function ClassOf(o: Order, k: Key): (c: Class)
    requires o.Ok()
    ensures c.parent == k.parent && (c.thread <==> k.name == [])
  { Class(k.parent, k.name == [], if o.Binary? then k.name else o.tables.Folded(k.name)) }

  lemma ClassIsTie(o: Order, a: Key, b: Key)
    requires o.Ok()
    ensures o.Binary? ==> (ClassOf(o, a) == ClassOf(o, b) <==> BinaryOrder(a, b) == 0)
    ensures o.Insensitive? ==> (ClassOf(o, a) == ClassOf(o, b) <==> KeyOrder(o.tables, a, b) == 0)
  {
    if o.Binary? {
      BinaryOrderIsTotal(a, b, a);
    } else {
      KeyOrderIsTotalPreorder(o.tables, a, b, a);
    }
  }

  /** A file or folder record, with its link flag, text encoding and other contents, or a
      thread record. */
  datatype Rec =
    | Node(dir: bool, cnid: nat, linked: bool, encoding: nat, info: nat)
    | Thread(dir: bool, parent: nat, name: seq<UniChar>)

  datatype Entry = Entry(key: Key, rec: Rec)

  type Tree = map<Class, Entry>

  const ROOT_PARENT: nat := 1
  const ROOT: nat := 2
  const FIRST_USER: nat := 16

  function ThreadClass(c: nat): Class { Class(c, true, []) }

  lemma ThreadKeyClass(o: Order, c: nat)
    requires o.Ok()
    ensures ClassOf(o, Key(c, [])) == ThreadClass(c)
  {
  }

  predicate HasThread(t: Tree, c: nat) { ThreadClass(c) in t && t[ThreadClass(c)].rec.Thread? }

  function ThreadOf(t: Tree, c: nat): (r: Rec)
    requires HasThread(t, c)
    ensures r.Thread?
  { t[ThreadClass(c)].rec }

  function ParentOf(t: Tree, c: nat): nat
    requires HasThread(t, c)
  { ThreadOf(t, c).parent }

  // ------------------------------------------------------------------- the bijection

  /** The thread of `c` names the key whose record holds `c`, spelling included. */
  ghost predicate ThreadFits(o: Order, t: Tree, c: nat)
    requires o.Ok() && HasThread(t, c)
  {
    var r := ThreadOf(t, c);
    var k := Key(r.parent, r.name);
    && r.name != [] && ClassOf(o, k) in t && t[ClassOf(o, k)].key == k
    && t[ClassOf(o, k)].rec.Node? && t[ClassOf(o, k)].rec.cnid == c && t[ClassOf(o, k)].rec.dir == r.dir
  }

  /** The record at class `k` has a thread that names it. */
  ghost predicate NodeFits(t: Tree, k: Class)
    requires k in t && t[k].rec.Node?
  {
    var n := t[k].rec;
    n.cnid >= ROOT && HasThread(t, n.cnid) && ThreadOf(t, n.cnid) == Thread(n.dir, t[k].key.parent, t[k].key.name)
  }

  /** Entries are filed under the class of their key, threads under empty names. */
  ghost predicate Filed(o: Order, t: Tree)
    requires o.Ok()
  { forall k :: k in t ==> ClassOf(o, t[k].key) == k && (t[k].rec.Thread? <==> k.thread) && (k.thread ==> k.name == []) }

  /** Records and threads are in bijection. */
  ghost predicate Paired(o: Order, t: Tree)
    requires o.Ok()
  {
    && Filed(o, t)
    && (forall c: nat :: HasThread(t, c) ==> ThreadFits(o, t, c))
    && (forall k :: k in t && t[k].rec.Node? ==> NodeFits(t, k))
  }

  /** No ID has two records. */
  lemma OneRecordPerId(o: Order, t: Tree, k: Class, m: Class)
    requires o.Ok() && Paired(o, t) && k in t && m in t && t[k].rec.Node? && t[m].rec.Node?
    requires t[k].rec.cnid == t[m].rec.cnid
    ensures k == m
  {
    assert NodeFits(t, k) && NodeFits(t, m);
  }

  // ------------------------------------------------------------------------- steps

  function WithNode(o: Order, t: Tree, k: Key, n: Rec): Tree
    requires o.Ok() && n.Node?
  {
    t[ClassOf(o, k) := Entry(k, n)][ThreadClass(n.cnid) := Entry(Key(n.cnid, []), Thread(n.dir, k.parent, k.name))]
  }

  lemma AddedFiled(o: Order, t: Tree, k: Key, n: Rec)
    requires o.Ok() && Filed(o, t) && n.Node? && k.name != []
    ensures Filed(o, WithNode(o, t, k, n)) && ClassOf(o, k) != ThreadClass(n.cnid)
  {
    ThreadKeyClass(o, n.cnid);
    ClassApart(o, k, n.cnid);
    assert !ClassOf(o, k).thread;
    hide ClassOf, Filed;
    FiledWith(o, t, ClassOf(o, k), Entry(k, n));
    FiledWith(o, t[ClassOf(o, k) := Entry(k, n)], ThreadClass(n.cnid), Entry(Key(n.cnid, []), Thread(n.dir, k.parent, k.name)));
  }

  lemma FiledWith(o: Order, t: Tree, c: Class, e: Entry)
    requires o.Ok() && Filed(o, t) && ClassOf(o, e.key) == c && (e.rec.Thread? <==> c.thread)
    requires (c.thread ==> c.name == [])
    ensures Filed(o, t[c := e])
  {
    hide ClassOf;
  }

  lemma AddedThreads(o: Order, t: Tree, k: Key, n: Rec)
    requires o.Ok() && Paired(o, t) && n.Node? && k.name != [] && ClassOf(o, k) !in t && ThreadClass(n.cnid) !in t
    ensures var t' := WithNode(o, t, k, n);
            && HasThread(t', n.cnid) && ThreadOf(t', n.cnid) == Thread(n.dir, k.parent, k.name)
            && OthersSame(t, t', n.cnid) && forall c: nat :: HasThread(t', c) ==> ThreadFits(o, t', c)
  {
    AddedFiled(o, t, k, n);
    AddedOthers(o, t, k, n);
    hide ClassOf, Filed, NodeFits, ThreadFits, WithNode;
    var t' := WithNode(o, t, k, n);
    forall c: nat | HasThread(t', c) ensures ThreadFits(o, t', c) {
      if c == n.cnid { NewThreadFits(o, t, k, n); } else { OldThreadFits(o, t, k, n, c); }
    }
  }

  lemma AddedOthers(o: Order, t: Tree, k: Key, n: Rec)
    requires o.Ok() && n.Node? && k.name != [] && ClassOf(o, k) != ThreadClass(n.cnid)
    ensures var t' := WithNode(o, t, k, n);
            && HasThread(t', n.cnid) && ThreadOf(t', n.cnid) == Thread(n.dir, k.parent, k.name)
            && OthersSame(t, t', n.cnid)
  {
    forall c: nat ensures ClassOf(o, k) != ThreadClass(c) { ClassApart(o, k, c); }
    hide ClassOf;
  }

  lemma NewThreadFits(o: Order, t: Tree, k: Key, n: Rec)
    requires o.Ok() && n.Node? && k.name != [] && ClassOf(o, k) != ThreadClass(n.cnid)
    ensures HasThread(WithNode(o, t, k, n), n.cnid) && ThreadFits(o, WithNode(o, t, k, n), n.cnid)
  {
    hide ClassOf;
  }

  lemma OldThreadFits(o: Order, t: Tree, k: Key, n: Rec, c: nat)
    requires o.Ok() && n.Node? && ClassOf(o, k) !in t && ThreadClass(n.cnid) !in t && HasThread(t, c)
    requires ThreadFits(o, t, c)
    ensures HasThread(WithNode(o, t, k, n), c) && ThreadFits(o, WithNode(o, t, k, n), c)
  {
    hide ClassOf;
  }

  /** A record and its thread enter the tree. */
  lemma Added(o: Order, t: Tree, k: Key, n: Rec)
    requires o.Ok() && Paired(o, t) && n.Node? && n.cnid >= ROOT && k.name != [] && ClassOf(o, k) !in t
    requires ThreadClass(n.cnid) !in t
    ensures var t' := WithNode(o, t, k, n);
            && Paired(o, t') && OthersSame(t, t', n.cnid)
            && HasThread(t', n.cnid) && ThreadOf(t', n.cnid) == Thread(n.dir, k.parent, k.name)
  {
    AddedFiled(o, t, k, n);
    AddedThreads(o, t, k, n);
    hide ClassOf, Filed, ThreadFits;
    var t' := WithNode(o, t, k, n);
    forall m | m in t' && t'[m].rec.Node? ensures NodeFits(t', m) {
      if m != ClassOf(o, k) { assert NodeFits(t, m); }
    }
  }

  /** A record and its thread leave the tree. */
  lemma Dropped(o: Order, t: Tree, kc: Class)
    requires o.Ok() && Paired(o, t) && kc in t && t[kc].rec.Node?
    ensures var c := t[kc].rec.cnid; var t' := t - {kc} - {ThreadClass(c)};
            Paired(o, t') && !HasThread(t', c) && OthersSame(t, t', c)
  {
    hide ClassOf;
    var c := t[kc].rec.cnid;
    var t' := t - {kc} - {ThreadClass(c)};
    assert NodeFits(t, kc) && ThreadFits(o, t, c);
    forall x: nat | HasThread(t', x) ensures ThreadFits(o, t', x) {
      assert HasThread(t, x) && ThreadFits(o, t, x);
    }
    forall m | m in t' && t'[m].rec.Node? ensures NodeFits(t', m) {
      assert NodeFits(t, m);
      if t[m].rec.cnid == c { OneRecordPerId(o, t, m, kc); }
    }
  }

  /** A record that leaves with the thread of another ID leaves its own thread behind. */
  lemma Unpaired(o: Order, t: Tree, kc: Class, c: nat)
    requires o.Ok() && Paired(o, t) && kc in t && t[kc].rec.Node? && t[kc].rec.cnid != c
    ensures !Paired(o, t - {kc} - {ThreadClass(c)})
  {
    hide ClassOf;
    var t' := t - {kc} - {ThreadClass(c)};
    assert NodeFits(t, kc);
    assert HasThread(t', t[kc].rec.cnid);
    assert !ThreadFits(o, t', t[kc].rec.cnid);
  }

  // ------------------------------------------------------------------------- the forest

  /** The root folder is at most `n` parents above `c`. */
  ghost predicate Reaches(t: Tree, c: nat, n: nat)
    decreases n
  { c == ROOT || (n > 0 && HasThread(t, c) && Reaches(t, ParentOf(t, c), n - 1)) }

  /** `a` is `c` or at most `n` parents above it. */
  ghost predicate Above(t: Tree, a: nat, c: nat, n: nat)
    decreases n
  { a == c || (n > 0 && c != ROOT && HasThread(t, c) && Above(t, a, ParentOf(t, c), n - 1)) }

  /** `a` is `c` or one of its ancestors. */
  ghost predicate IsAncestor(t: Tree, a: nat, c: nat) { exists n: nat :: Above(t, a, c, n) }

  predicate IsFolder(t: Tree, c: nat) { HasThread(t, c) && ThreadOf(t, c).dir }

  /** Everything hangs below the root folder, by folders. */
  ghost predicate Forest(t: Tree) {
    && IsFolder(t, ROOT) && ParentOf(t, ROOT) == ROOT_PARENT
    && (forall c: nat :: HasThread(t, c) ==> c >= ROOT && (exists n: nat :: Reaches(t, c, n)))
    && (forall c: nat :: HasThread(t, c) && c != ROOT ==> IsFolder(t, ParentOf(t, c)))
  }

  lemma {:induction false} ReachesMore(t: Tree, c: nat, n: nat, m: nat)
    requires Reaches(t, c, n) && n <= m
    ensures Reaches(t, c, m)
    decreases n
  {
    if c != ROOT { ReachesMore(t, ParentOf(t, c), n - 1, m - 1); }
  }

  lemma {:induction false} AboveMore(t: Tree, a: nat, c: nat, n: nat, m: nat)
    requires Above(t, a, c, n) && n <= m
    ensures Above(t, a, c, m)
    decreases n
  {
    if a != c { AboveMore(t, a, ParentOf(t, c), n - 1, m - 1); }
  }

  /** Ancestry goes up one parent at a time. */
  lemma AncestorStep(t: Tree, a: nat, c: nat)
    requires HasThread(t, c) && c != ROOT
    ensures IsAncestor(t, a, c) <==> a == c || IsAncestor(t, a, ParentOf(t, c))
  {
    if IsAncestor(t, a, c) && a != c {
      var n: nat :| Above(t, a, c, n);
      assert Above(t, a, ParentOf(t, c), n - 1);
    }
    if IsAncestor(t, a, ParentOf(t, c)) {
      var n: nat :| Above(t, a, ParentOf(t, c), n);
      assert Above(t, a, c, n + 1);
    }
    if a == c { assert Above(t, a, c, 0); }
  }

  lemma AncestorOfRoot(t: Tree, a: nat)
    ensures IsAncestor(t, a, ROOT) <==> a == ROOT
  {
    if a == ROOT { assert Above(t, a, ROOT, 0); }
  }

  /** Threads other than that of `c` are the same in both trees. */
  ghost predicate OthersSame(t: Tree, t': Tree, c: nat) {
    forall x: nat :: x != c ==> (HasThread(t', x) <==> HasThread(t, x)) && (HasThread(t, x) ==> ThreadOf(t', x) == ThreadOf(t, x))
  }

  /** A path to the root that avoids `c` is still there. */
  lemma {:induction false} PathKept(t: Tree, t': Tree, c: nat, x: nat, n: nat)
    requires OthersSame(t, t', c) && Reaches(t, x, n) && !Above(t, c, x, n)
    ensures Reaches(t', x, n)
    decreases n
  {
    if x != ROOT { PathKept(t, t', c, ParentOf(t, x), n - 1); }
  }

  /** A path that meets `c` goes on by the new parent of `c`. */
  lemma {:induction false} PathMoved(t: Tree, t': Tree, c: nat, x: nat, n: nat, m: nat)
    requires OthersSame(t, t', c) && Reaches(t, x, n) && Reaches(t', c, m)
    ensures Reaches(t', x, n + m)
    decreases n
  {
    if x == c {
      ReachesMore(t', c, m, n + m);
    } else if x != ROOT {
      PathMoved(t, t', c, ParentOf(t, x), n - 1, m);
    }
  }

  /** Moving `c` under a folder that is not below it keeps the forest. */
  lemma MovedForest(t: Tree, t': Tree, c: nat, q: nat)
    requires Forest(t) && OthersSame(t, t', c) && HasThread(t, c) && HasThread(t', c) && c != ROOT
    requires ThreadOf(t', c).dir == ThreadOf(t, c).dir && ParentOf(t', c) == q && IsFolder(t, q) && !IsAncestor(t, c, q)
    ensures Forest(t')
  {
    var m: nat :| Reaches(t, q, m);
    assert !Above(t, c, q, m);
    PathKept(t, t', c, q, m);
    assert Reaches(t', c, m + 1);
    forall x: nat | HasThread(t', x) ensures x >= ROOT && exists n: nat :: Reaches(t', x, n) {
      var n: nat :| Reaches(t, x, n);
      PathMoved(t, t', c, x, n, m + 1);
    }
    assert c != q by { assert Above(t, c, c, 0); }
    assert IsFolder(t', q);
    forall x: nat | HasThread(t', x) && x != ROOT ensures IsFolder(t', ParentOf(t', x)) {
      if x != c { assert IsFolder(t, ParentOf(t, x)); }
    }
  }

  /** A rename within a folder changes no parent. */
  lemma RenamedForest(t: Tree, t': Tree, c: nat)
    requires Forest(t) && OthersSame(t, t', c) && HasThread(t, c) && HasThread(t', c)
    requires ThreadOf(t', c).dir == ThreadOf(t, c).dir && ParentOf(t', c) == ParentOf(t, c)
    ensures Forest(t')
  {
    forall x: nat, n: nat | Reaches(t, x, n) ensures Reaches(t', x, n) { SamePaths(t, t', c, x, n); }
    forall x: nat | HasThread(t', x) && x != ROOT ensures IsFolder(t', ParentOf(t', x)) {
      assert IsFolder(t, ParentOf(t, x));
    }
  }

  lemma {:induction false} SamePaths(t: Tree, t': Tree, c: nat, x: nat, n: nat)
    requires OthersSame(t, t', c) && HasThread(t, c) && HasThread(t', c) && ParentOf(t', c) == ParentOf(t, c)
    requires Reaches(t, x, n)
    ensures Reaches(t', x, n)
    decreases n
  {
    if x != ROOT { SamePaths(t, t', c, ParentOf(t, x), n - 1); }
  }

  /** A new ID hangs below its folder, if it has one. */
  lemma AddedForest(t: Tree, t': Tree, c: nat, q: nat)
    requires Forest(t) && OthersSame(t, t', c) && !HasThread(t, c) && HasThread(t', c) && c > ROOT
    requires ParentOf(t', c) == q
    ensures Forest(t') <==> IsFolder(t, q)
  {
    if IsFolder(t, q) {
      forall x: nat, n: nat | Reaches(t, x, n) ensures Reaches(t', x, n) { OldPaths(t, t', c, x, n); }
      var m: nat :| Reaches(t, q, m);
      assert Reaches(t', c, m + 1);
      forall x: nat | HasThread(t', x) && x != ROOT ensures IsFolder(t', ParentOf(t', x)) {
        if x != c { assert IsFolder(t, ParentOf(t, x)); }
      }
    } else if q == c {
      forall n: nat ensures !Reaches(t', c, n) { SelfParent(t', c, n); }
    }
  }

  lemma {:induction false} SelfParent(t: Tree, c: nat, n: nat)
    requires HasThread(t, c) && ParentOf(t, c) == c && c != ROOT
    ensures !Reaches(t, c, n)
  {
    if n > 0 { SelfParent(t, c, n - 1); }
  }

  lemma {:induction false} OldPaths(t: Tree, t': Tree, c: nat, x: nat, n: nat)
    requires OthersSame(t, t', c) && !HasThread(t, c) && Reaches(t, x, n)
    ensures Reaches(t', x, n)
    decreases n
  {
    if x != ROOT { OldPaths(t, t', c, ParentOf(t, x), n - 1); }
  }

  /** An ID may go if and only if nothing else has it as its parent. */
  lemma DroppedForest(t: Tree, t': Tree, c: nat)
    requires Forest(t) && OthersSame(t, t', c) && HasThread(t, c) && !HasThread(t', c)
    ensures Forest(t') <==> c != ROOT && Childless(t, c)
  {
    if c != ROOT && Childless(t, c) {
      forall x: nat | HasThread(t', x) ensures x >= ROOT && exists n: nat :: Reaches(t', x, n) {
        var n: nat :| Reaches(t, x, n);
        PathAvoids(t, t', c, x, n);
      }
      forall x: nat | HasThread(t', x) && x != ROOT ensures IsFolder(t', ParentOf(t', x)) {
        assert IsFolder(t, ParentOf(t, x));
      }
    } else if c != ROOT {
      var k :| k in t && k.thread && t[k].rec.Thread? && k == ThreadClass(k.parent) && k.parent != c && t[k].rec.parent == c;
      assert HasThread(t, k.parent) && ParentOf(t, k.parent) == c;
      assert HasThread(t', k.parent) && !IsFolder(t', ParentOf(t', k.parent));
    }
  }

  /** Nothing else has the ID as its parent. */
  predicate Childless(t: Tree, c: nat) {
    forall k :: k in t && k.thread && t[k].rec.Thread? && k == ThreadClass(k.parent) && k.parent != c ==> t[k].rec.parent != c
  }

  lemma NoChild(t: Tree, c: nat, x: nat)
    requires Childless(t, c) && HasThread(t, x) && x != c
    ensures ParentOf(t, x) != c
  {
    assert ThreadClass(x).parent == x;
  }

  lemma {:induction false} PathAvoids(t: Tree, t': Tree, c: nat, x: nat, n: nat)
    requires OthersSame(t, t', c) && c != ROOT && x != c && Reaches(t, x, n) && Childless(t, c)
    ensures Reaches(t', x, n)
    decreases n
  {
    if x != ROOT {
      NoChild(t, c, x);
      PathAvoids(t, t', c, ParentOf(t, x), n - 1);
    }
  }

  /** Nothing hangs below a file. */
  lemma FileNotAncestor(t: Tree, c: nat, q: nat)
    requires Forest(t) && HasThread(t, c) && !ThreadOf(t, c).dir && IsFolder(t, q)
    ensures !IsAncestor(t, c, q)
  {
    forall n: nat ensures !Above(t, c, q, n) { FileNotAbove(t, c, q, n); }
  }

  lemma {:induction false} FileNotAbove(t: Tree, c: nat, q: nat, n: nat)
    requires Forest(t) && HasThread(t, c) && !ThreadOf(t, c).dir && IsFolder(t, q)
    ensures !Above(t, c, q, n)
    decreases n
  {
    if n > 0 && q != ROOT { FileNotAbove(t, c, ParentOf(t, q), n - 1); }
  }

  // ------------------------------------------------------------------- the operations

  /** What a caller says about a node: its parent, name, ID and whether it is a directory. */
  datatype Desc = Desc(parent: nat, name: seq<UniChar>, cnid: nat, dir: bool) {
    function Key(): Key { KeyOrders.Key(parent, name) }
  }

  datatype Option<T> = None | Some(value: T)

  datatype Result = Done | Exists | NotFound | Invalid

  /** Where the record of a descriptor is: under its name, or else under the full name that
      its mangled name stands for. */
  function Source(o: Order, t: Tree, d: Desc, alias: Option<Key>): (r: Option<Class>)
    requires o.Ok()
    ensures r.Some? ==> r.value in t
  {
    if ClassOf(o, d.Key()) in t then Some(ClassOf(o, d.Key()))
    else if alias.Some? && ClassOf(o, alias.value) in t then Some(ClassOf(o, alias.value))
    else None
  }

  /** The full name is in the same folder, and not a thread. */
  predicate AliasOk(d: Desc,
                    alias: Option<Key>) { alias.Some? ==> alias.value.parent == d.parent && alias.value.name != [] }

  /** The thread that a rename writes says what kind of node it is. A directory hard link is a
      file record with its link flag set. */
  function ThreadDir(n: Rec, d: Desc): bool
    requires n.Node?
  { if d.dir && !n.dir && n.linked then false else d.dir }

  /** The descriptor has the record's ID, and its kind. */
  predicate Describes(d: Desc, n: Rec) { n.Node? && n.cnid == d.cnid && ThreadDir(n, d) == n.dir }

  /** The descriptor is up to date with the record it leads to. */
  predicate Current(o: Order, t: Tree, d: Desc, alias: Option<Key>)
    requires o.Ok()
  {
    var s := Source(o, t, d, alias);
    s.Some? ==> Describes(d, t[s.value].rec)
  }

  /** The tree after a node has been taken from class `from` and put under key `k`. */
  function Moved(o: Order, t: Tree, from: Class, k: Key, n: Rec): Tree
    requires o.Ok() && n.Node?
  { WithNode(o, t - {from} - {ThreadClass(n.cnid)}, k, n) }

  lemma MovedPaired(o: Order, t: Tree, from: Class, k: Key, n: Rec)
    requires o.Ok() && Paired(o, t) && from in t && t[from].rec.Node? && n.Node? && n.cnid == t[from].rec.cnid
    requires n.dir == t[from].rec.dir
    requires k.name != [] && (ClassOf(o, k) in t ==> ClassOf(o, k) == from)
    ensures var t' := Moved(o, t, from, k, n);
            && Paired(o, t') && OthersSame(t, t', n.cnid)
            && HasThread(t, n.cnid) && ThreadOf(t, n.cnid).dir == n.dir
            && ParentOf(t, n.cnid) == t[from].key.parent == from.parent
            && HasThread(t', n.cnid) && ThreadOf(t', n.cnid) == Thread(n.dir, k.parent, k.name)
  {
    Dropped(o, t, from);
    var t1 := t - {from} - {ThreadClass(n.cnid)};
    assert NodeFits(t, from);
    Added(o, t1, k, n);
  }

  /** The tree after a rename: the record `n` under key `k`, and a thread of `c` that names `k`. */
  function Renamed(o: Order, t: Tree, from: Class, k: Key, n: Rec, c: nat, dir: bool): Tree
    requires o.Ok()
  {
    ((t - {from})[ClassOf(o, k) := Entry(k, n)] - {ThreadClass(c)})
    [ThreadClass(c) := Entry(Key(c, []), Thread(dir, k.parent, k.name))]
  }

  /** With the thread of another ID, or of another kind, the bijection is lost. */
  lemma RenamedUnpaired(o: Order, t: Tree, from: Class, k: Key, n: Rec, c: nat, dir: bool)
    requires o.Ok() && n.Node? && k.name != [] && !(n.cnid == c && n.dir == dir)
    ensures !Paired(o, Renamed(o, t, from, k, n, c, dir))
  {
    ClassApart(o, k, c);
    hide ClassOf;
    var t' := Renamed(o, t, from, k, n, c, dir);
    assert HasThread(t', c) && !ThreadFits(o, t', c);
  }

  /** Two records with one ID are not paired. */
  lemma DoubledUnpaired(o: Order, t: Tree, k: Class, m: Class)
    requires o.Ok() && k != m && k in t && m in t && t[k].rec.Node? && t[k].rec == t[m].rec
    ensures !Paired(o, t)
  {
    if Paired(o, t) { OneRecordPerId(o, t, k, m); }
  }

  class Catalog {
    const order: Order
    var tree: Tree

    /** A catalog with nothing but its root folder. */
    constructor (o: Order, volume: seq<UniChar>)
      requires o.Ok() && volume != []
      ensures order == o && tree == RootOnly(o, volume) && Valid()
    {
      order, tree := o, RootOnly(o, volume);
      RootOnlyValid(o, volume);
    }

    ghost predicate Valid()
      reads this
    { order.Ok() && Paired(order, tree) && Forest(tree) }

    // The B-tree operations, without faults.

    method SearchRecord(k: Key) returns (r: Option<Entry>)
      requires order.Ok()
      ensures r == if ClassOf(order, k) in tree then Some(tree[ClassOf(order, k)]) else None
    {
      var c := ClassOf(order, k);
      r := if c in tree then Some(tree[c]) else None;
    }

    method InsertRecord(k: Key, rec: Rec) returns (ok: bool)
      requires order.Ok()
      modifies this`tree
      ensures ok == (ClassOf(order, k) !in old(tree))
      ensures tree == if ok then old(tree)[ClassOf(order, k) := Entry(k, rec)] else old(tree)
    {
      var c := ClassOf(order, k);
      ok := c !in tree;
      if ok { tree := tree[c := Entry(k, rec)]; }
    }

    method DeleteRecord(k: Key) returns (ok: bool)
      requires order.Ok()
      modifies this`tree
      ensures ok == (ClassOf(order, k) in old(tree))
      ensures tree == old(tree) - {ClassOf(order, k)}
    {
      var c := ClassOf(order, k);
      ok := c in tree;
      tree := tree - {c};
    }

    /** getkey: the key that the thread of an ID names. */
    method GetKey(cnid: nat) returns (r: Option<Key>)
      requires order.Ok()
      ensures r == if HasThread(tree, cnid) then Some(Key(ThreadOf(tree, cnid).parent, ThreadOf(tree, cnid).name)) else None
    {
      ThreadKeyClass(order, cnid);
      var e := SearchRecord(Key(cnid, []));
      if e.None? { return None; }
      match e.value.rec
      case Thread(_, parent, name) => return Some(Key(parent, name));
      case Node(_, _, _, _, _) => return None;
    }

    /** cat_create: the thread first, then the record; the thread is backed out if the name is
        taken. */
    method Create(newId: nat, d: Desc, linked: bool, encoding: nat, info: nat) returns (r: Result)
      requires order.Ok() && Paired(order, tree) && newId >= FIRST_USER
      modifies this`tree
      ensures Paired(order, tree)
      ensures r.Done? <==> d.name != [] && ThreadClass(newId) !in old(tree) && ClassOf(order, d.Key()) !in old(tree)
      ensures r.Done? ==> HasThread(tree, newId) && ThreadOf(tree, newId) == Thread(d.dir, d.parent, d.name)
      ensures r.Done? ==> tree == WithNode(order, old(tree), d.Key(), Node(d.dir, newId, linked, encoding, info))
      ensures !r.Done? ==> tree == old(tree)
      ensures old(Forest(tree)) && r.Done? ==> (Forest(tree) <==> IsFolder(old(tree), d.parent))
    {
      hide ClassOf, Paired, Forest;
      if d.name == [] { return Invalid; }
      var k := d.Key();
      ghost var t, kc := tree, ClassOf(order, k);
      ThreadKeyClass(order, newId);
      var ok := InsertRecord(Key(newId, []), Thread(d.dir, d.parent, d.name));
      if !ok { return Exists; }
      ClassApart(order, k, newId);
      ok := InsertRecord(k, Node(d.dir, newId, linked, encoding, info));
      if !ok {
        ok := DeleteRecord(Key(newId, []));
        assert tree == t;
        return Exists;
      }
      var n := Node(d.dir, newId, linked, encoding, info);
      assert tree == WithNode(order, t, k, n);
      Added(order, t, k, n);
      if Forest(t) { AddedForest(t, tree, newId, d.parent); }
      return Done;
    }

    /** The walk of cat_rename up the destination path: refuses a move of the root, and of a
        directory under itself, and nothing else. */
    method CheckMove(cnid: nat, toParent: nat, above: nat) returns (ok: bool)
      requires Valid() && cnid >= ROOT && IsFolder(tree, toParent) && above == ParentOf(tree, toParent)
      ensures ok <==> cnid != ROOT && !IsAncestor(tree, cnid, toParent)
    {
      AncestorOfRoot(tree, cnid);
      if toParent != ROOT { AncestorStep(tree, cnid, toParent); }
      if cnid == ROOT || cnid == toParent || cnid == above {
        AboveRoot(tree, cnid, toParent, above);
        return false;
      }
      var path := above;
      ghost var depth: nat := if above >= ROOT then DepthOf(tree, above) else 0;
      while path > ROOT
        invariant path != cnid && (path >= ROOT ==> HasThread(tree, path) && Reaches(tree, path, depth))
        invariant path >= ROOT ==> (IsAncestor(tree, cnid, toParent) <==> IsAncestor(tree, cnid, path))
        invariant path < ROOT ==> toParent == ROOT
        decreases depth
      {
        AncestorStep(tree, cnid, path);
        var e := GetKey(path);
        if e.None? { return false; }
        path := e.value.parent;
        AncestorSelf(tree, path);
        if path == cnid || path == 0 { return false; }
        depth := depth - 1;
      }
      return true;
    }

    /** cat_rename. `encoding` is the new text encoding, if it is to change. A descriptor that
        is out of date breaks the bijection, unless the rename is refused. */
    method Rename(from: Desc, todir: Desc, to: Desc, encoding: Option<nat>, alias: Option<Key>) returns (r: Result)
      requires order.Ok() && Paired(order, tree) && from.cnid >= ROOT && AliasOk(from, alias)
      requires from.dir && from.parent != to.parent ==>
                 Forest(tree) && IsFolder(tree, to.parent) && todir.parent == ParentOf(tree, to.parent)
      modifies this`tree
      ensures Paired(order, tree) <==>
                Refuses(order, old(tree), from, to, alias) || Current(order, old(tree), from, alias)
      ensures Refuses(order, old(tree), from, to, alias) ==> !r.Done? && tree == old(tree)
      ensures old(Forest(tree)) && r.Done? && Current(order, old(tree), from, alias) ==>
                (Forest(tree) <==> IntoFolder(old(tree), from, to))
      ensures r.Invalid? <==>
                || from.name == [] || to.name == []
                || (from.dir && from.parent != to.parent && (from.cnid == ROOT || IsAncestor(old(tree), from.cnid, to.parent)))
      ensures !r.Invalid? ==> (r.NotFound? <==> Source(order, old(tree), from, alias).None?)
      ensures r.Done? || r.Exists? ==>
                Outcome(order, old(tree), Source(order, old(tree), from, alias), from, to, encoding, r, tree)
      ensures r.Invalid? || r.NotFound? ==> tree == old(tree)
      ensures !r.Done? && Current(order, old(tree), from, alias) ==> tree == old(tree)
    {
      hide ClassOf, Paired, Forest, Outcome, IsAncestor, Occupied;
      if from.name == [] || to.name == [] { return Invalid; }
      if from.dir && from.parent != to.parent {
        var ok := CheckMove(from.cnid, to.parent, todir.parent);
        if !ok { return Invalid; }
      }
      var source := from.Key();
      var e := SearchRecord(source);
      if e.None? {
        if alias.None? { return NotFound; }
        source := alias.value;
        e := SearchRecord(source);
        if e.None? { return NotFound; }
      }
      NamedIsNode(order, tree, source);
      r := Replace(source, e.value.rec, from, to, encoding);
    }

    /** Steps 2 to 5 of cat_rename: the record moves, then its thread. */
    method Replace(source: Key, n: Rec, from: Desc, to: Desc, encoding: Option<nat>) returns (r: Result)
      requires order.Ok() && Paired(order, tree) && source.name != [] && to.name != [] && source.parent == from.parent
      requires ClassOf(order, source) in tree && tree[ClassOf(order, source)].rec == n && n.Node?
      requires from.dir && from.parent != to.parent ==>
                 from.cnid != ROOT && !IsAncestor(tree, from.cnid, to.parent) && IsFolder(tree, to.parent)
      modifies this`tree
      ensures r.Done? || r.Exists?
      ensures Outcome(order, old(tree), Some(ClassOf(order, source)), from, to, encoding, r, tree)
      ensures Paired(order, tree) <==> Occupied(order, old(tree), n, from, to) || Describes(from, n)
      ensures Occupied(order, old(tree), n, from, to) ==> r.Exists? && tree == old(tree)
      ensures Describes(from, n) && r.Exists? ==> tree == old(tree)
      ensures old(Forest(tree)) && r.Done? && Describes(from, n) ==> (Forest(tree) <==> IntoFolder(old(tree), from, to))
    {
      hide ClassOf, Paired, Forest, Moved, IsAncestor, Renamed;
      ghost var t, sc, kc := tree, ClassOf(order, source), ClassOf(order, to.Key());
      var rec := if encoding.Some? then n.(encoding := encoding.value) else n;
      ThreadKeyClass(order, from.cnid);
      ClassApart(order, source, from.cnid);
      ClassApart(order, to.Key(), from.cnid);
      ClassParents(order, source, to.Key());
      var ok := InsertRecord(to.Key(), rec);
      if !ok {
        if from.parent != to.parent { return Exists; }
        var there := SearchRecord(to.Key());
        NamedIsNode(order, tree, to.Key());
        if n.dir != there.value.rec.dir || from.cnid != there.value.rec.cnid { return Exists; }
        rec := there.value.rec;
        ok := DeleteRecord(source);
        ok := InsertRecord(to.Key(), rec);
        if !ok {
          // The record at the new place, read above, goes where the old one was.
          ok := InsertRecord(source, rec);
          RestoredWrong(order, t, tree, source, kc);
          if Describes(from, n) { OneRecordPerId(order, t, sc, kc); }
          return Exists;
        }
      } else {
        ok := DeleteRecord(source);
      }
      ghost var u := tree;
      ok := DeleteRecord(Key(from.cnid, []));
      var dirlink := from.dir && !n.dir && n.linked;
      ok := InsertRecord(Key(from.cnid, []), Thread(if dirlink then false else from.dir, to.parent, to.name));
      SameRenamed(order, t, u, tree, sc, to.Key(), rec, from.cnid, ThreadDir(n, from));
      if Describes(from, n) {
        SameMove(order, t, tree, sc, to.Key(), rec);
        MovedPaired(order, t, sc, to.Key(), rec);
        if Forest(t) { MoveKeepsForest(order, t, sc, to.Key(), rec); }
      } else {
        RenamedUnpaired(order, t, sc, to.Key(), rec, from.cnid, ThreadDir(n, from));
      }
      return Done;
    }

    /** cat_delete. Nothing is checked about the record beyond its name: the bijection survives
        if and only if the thread that goes is that of the record, and the forest if and only
        if, further, nothing has the ID as its parent. */
    method Delete(d: Desc, fileId: nat, alias: Option<Key>) returns (r: Result)
      requires order.Ok() && Paired(order, tree) && AliasOk(d, alias)
      modifies this`tree
      ensures r.Invalid? <==> d.cnid < FIRST_USER || d.parent == ROOT_PARENT
      ensures r.NotFound? <==> !r.Invalid? && Doomed(order, old(tree), d, fileId, alias).None?
      ensures !r.Exists?
      ensures !r.Done? ==> tree == old(tree)
      ensures r.Done? ==>
                var k := Doomed(order, old(tree), d, fileId, alias).value;
                var c := DoomedId(order, old(tree), d, fileId, k);
                && k in old(tree) && old(tree)[k].rec.Node?
                && tree == old(tree) - {k} - {ThreadClass(c)}
                && (Paired(order, tree) <==> old(tree)[k].rec.cnid == c)
                && (Paired(order, tree) && old(Forest(tree)) ==> (Forest(tree) <==> c != ROOT && Childless(old(tree), c)))
    {
      hide ClassOf, Paired, Forest, Childless;
      if d.cnid < FIRST_USER || d.parent == ROOT_PARENT { return Invalid; }
      ghost var t := tree;
      var k, c := d.Key(), d.cnid;
      if d.name == [] {
        var found := GetKey(fileId);
        if found.None? { return NotFound; }
        k, c := found.value, fileId;
        ThreadLeads(order, t, fileId);
      }
      NamedIsNode(order, t, k);
      var ok := DeleteRecord(k);
      if !ok {
        assert tree == t;
        if d.name == [] || alias.None? { return NotFound; }
        k := alias.value;
        NamedIsNode(order, t, k);
        var e := SearchRecord(k);
        if e.None? { return NotFound; }
        c := e.value.rec.cnid;
        ok := DeleteRecord(k);
      }
      ThreadKeyClass(order, c);
      ok := DeleteRecord(Key(c, []));
      ghost var kc := ClassOf(order, k);
      assert tree == t - {kc} - {ThreadClass(c)};
      if t[kc].rec.cnid == c {
        Dropped(order, t, kc);
        NodeHasThread(order, t, kc);
        if Forest(t) { DroppedForest(t, tree, c); }
      } else {
        Unpaired(order, t, kc, c);
      }
      return Done;
    }

    /** cat_check_link_ancestry: whether the folder `pointedAt`, or a directory hard link, is
        the folder itself or one of its ancestors. */
    method CheckLinkAncestry(cnid: nat, pointedAt: nat) returns (invalid: bool)
      requires Valid() && IsFolder(tree, cnid)
      ensures invalid <==> exists a: nat :: IsAncestor(tree, a, cnid) && Bars(order, tree, a, pointedAt)
    {
      hide ClassOf, Paired, Forest, IsAncestor;
      FolderId(tree, cnid);
      var at := cnid;
      ghost var depth: nat := DepthOf(tree, cnid);
      while at != ROOT_PARENT
        invariant at == ROOT_PARENT || (IsFolder(tree, at) && Reaches(tree, at, depth))
        invariant Barred(order, tree, cnid, pointedAt) <==> (at != ROOT_PARENT && Barred(order, tree, at, pointedAt))
        decreases if at == ROOT_PARENT then 0 else depth + 1
      {
        ThreadLeads(order, tree, at);
        BarredStep(order, tree, at, pointedAt);
        if pointedAt == at { return true; }
        var k := GetKey(at);
        if k.None? { return true; }
        var e := SearchRecord(k.value);
        if e.None? { return true; }
        if e.value.rec.linked { return true; }
        ParentFolder(tree, at);
        at := k.value.parent;
        depth := if at == ROOT_PARENT then 0 else depth - 1;
      }
      return false;
    }
  }

  function RootOnly(o: Order, volume: seq<UniChar>): Tree
    requires o.Ok()
  { WithNode(o, map[], Key(ROOT_PARENT, volume), Node(true, ROOT, false, 0, 0)) }

  lemma RootOnlyValid(o: Order, volume: seq<UniChar>)
    requires o.Ok() && volume != []
    ensures Paired(o, RootOnly(o, volume)) && Forest(RootOnly(o, volume))
  {
    Added(o, map[], Key(ROOT_PARENT, volume), Node(true, ROOT, false, 0, 0));
    hide ClassOf, Paired;
    var t := RootOnly(o, volume);
    assert Reaches(t, ROOT, 0);
    forall c: nat | HasThread(t, c) ensures c == ROOT { }
  }

  /** A move to another place leads into a folder. */
  predicate IntoFolder(t: Tree, from: Desc, to: Desc) { from.parent == to.parent || IsFolder(t, to.parent) }

  /** The target is taken, by something other than a case variant of the node: it is in another
      folder, of another kind, or has another ID. */
  predicate Occupied(o: Order, t: Tree, n: Rec, from: Desc, to: Desc)
    requires o.Ok() && n.Node?
  {
    && ClassOf(o, to.Key()) in t
    && var there := t[ClassOf(o, to.Key())].rec;
       from.parent != to.parent || !there.Node? || there.dir != n.dir || there.cnid != from.cnid
  }

  /** A rename that changes nothing: invalid, of something that is not there, or to a place that
      is taken. */
  ghost predicate Refuses(o: Order, t: Tree, from: Desc, to: Desc, alias: Option<Key>)
    requires o.Ok()
  {
    || from.name == [] || to.name == []
    || (from.dir && from.parent != to.parent && (from.cnid == ROOT || IsAncestor(t, from.cnid, to.parent)))
    || var s := Source(o, t, from, alias);
       s.None? || (t[s.value].rec.Node? && Occupied(o, t, t[s.value].rec, from, to))
  }

  /** What a rename has done to the record at `s`. When the new name is taken by a node with the
      descriptor's ID in another place, that node's record is left in both places. */
  ghost predicate Outcome(o: Order, t: Tree, s: Option<Class>, from: Desc, to: Desc, encoding: Option<nat>, r: Result,
                          t': Tree)
    requires o.Ok()
  {
    && s.Some? && s.value in t && t[s.value].rec.Node?
    && var kc, n := ClassOf(o, to.Key()), t[s.value].rec;
       if kc !in t then
         r == Done && t' == Renamed(o, t, s.value, to.Key(), if encoding.Some? then n.(encoding := encoding.value) else n,
                                    from.cnid, ThreadDir(n, from))
       else if from.parent != to.parent || !t[kc].rec.Node? || t[kc].rec.dir != n.dir || t[kc].rec.cnid != from.cnid then
         r == Exists && t' == t
       else if kc == s.value then
         r == Done && t' == Renamed(o, t, s.value, to.Key(), n, from.cnid, ThreadDir(n, from))
       else
         r == Exists && exists k :: ClassOf(o, k) == s.value && t' == t[s.value := Entry(k, t[kc].rec)]
  }

  /** The thread a rename writes: for a directory hard link, which the descriptor calls a directory
      and whose record is a linked file, a file thread; otherwise one of the descriptor's kind. */
  lemma RenameThread(o: Order, t: Tree, s: Option<Class>, from: Desc, to: Desc, encoding: Option<nat>, t': Tree)
    requires o.Ok() && to.name != [] && Outcome(o, t, s, from, to, encoding, Done, t')
    ensures HasThread(t', from.cnid)
    ensures var n := t[s.value].rec;
            && (from.dir && !n.dir && n.linked ==> ThreadOf(t', from.cnid) == Thread(false, to.parent, to.name))
            && (!(from.dir && !n.dir && n.linked) ==> ThreadOf(t', from.cnid) == Thread(from.dir, to.parent, to.name))
  {
    hide ClassOf;
  }

  /** Where the record that a delete removes is: under its name or full name, or, for a
      descriptor without a name, where the thread of the file ID says. */
  function Doomed(o: Order, t: Tree, d: Desc, fileId: nat, alias: Option<Key>): (r: Option<Class>)
    requires o.Ok()
  {
    if d.name != [] then Source(o, t, d, alias)
    else if HasThread(t, fileId) then Some(ClassOf(o, Key(ThreadOf(t, fileId).parent, ThreadOf(t, fileId).name)))
    else None
  }

  /** The ID whose thread goes with it: the descriptor's, or that of the record found by its
      full name. */
  function DoomedId(o: Order, t: Tree, d: Desc, fileId: nat, k: Class): nat
    requires o.Ok() && k in t && t[k].rec.Node?
  {
    if d.name == [] then fileId else if ClassOf(o, d.Key()) in t then d.cnid else t[k].rec.cnid
  }

  /** The record of another node, left in two places, breaks the bijection. */
  lemma RestoredWrong(o: Order, t: Tree, t': Tree, source: Key, kc: Class)
    requires o.Ok() && source.name != [] && ClassOf(o, source) in t && kc in t && kc != ClassOf(o, source)
    requires t[kc].rec.Node?
    requires t' == (t - {ClassOf(o, source)})[ClassOf(o, source) := Entry(source, t[kc].rec)]
    ensures t' == t[ClassOf(o, source) := Entry(source, t[kc].rec)] && !Paired(o, t')
  {
    hide ClassOf, Paired;
    DoubledUnpaired(o, t', ClassOf(o, source), kc);
  }

  /** The folder is the one pointed at, or a directory hard link. */
  ghost predicate Bars(o: Order, t: Tree, a: nat, pointedAt: nat)
    requires o.Ok()
  { HasThread(t, a) && (a == pointedAt || RecordOf(o, t, a).linked) }

  ghost function RecordOf(o: Order, t: Tree, a: nat): Rec
    requires o.Ok() && HasThread(t, a)
  {
    var k := ClassOf(o, Key(ThreadOf(t, a).parent, ThreadOf(t, a).name));
    if k in t && t[k].rec.Node? then t[k].rec else Node(false, 0, false, 0, 0)
  }

  ghost predicate Barred(o: Order, t: Tree, c: nat, pointedAt: nat)
    requires o.Ok()
  { exists a: nat :: IsAncestor(t, a, c) && Bars(o, t, a, pointedAt) }

  lemma BarredStep(o: Order, t: Tree, c: nat, pointedAt: nat)
    requires o.Ok() && Forest(t) && HasThread(t, c)
    ensures c != ROOT ==>
              (Barred(o, t, c, pointedAt) <==> Bars(o, t, c, pointedAt) || Barred(o, t, ParentOf(t, c), pointedAt))
    ensures c == ROOT ==> (Barred(o, t, c, pointedAt) <==> Bars(o, t, c, pointedAt))
  {
    hide ClassOf, IsAncestor, Bars;
    AncestorSelf(t, c);
    if c == ROOT {
      forall a: nat ensures IsAncestor(t, a, c) <==> a == ROOT { AncestorOfRoot(t, a); }
    } else {
      forall a: nat ensures IsAncestor(t, a, c) <==> a == c || IsAncestor(t, a, ParentOf(t, c)) { AncestorStep(t, a, c); }
    }
  }

  lemma ParentFolder(t: Tree, c: nat)
    requires Forest(t) && HasThread(t, c)
    ensures if c == ROOT then ParentOf(t, c) == ROOT_PARENT else IsFolder(t, ParentOf(t, c)) && ParentOf(t, c) != ROOT_PARENT
    ensures forall n: nat :: Reaches(t, c, n) && c != ROOT ==> n > 0 && Reaches(t, ParentOf(t, c), n - 1)
  {
    if c != ROOT { assert IsFolder(t, ParentOf(t, c)); }
  }

  /** An entry under a non-empty name is a record. */
  lemma NamedIsNode(o: Order, t: Tree, k: Key)
    requires o.Ok() && Paired(o, t) && k.name != []
    ensures ClassOf(o, k) in t ==> t[ClassOf(o, k)].rec.Node?
  {
  }

  lemma ThreadLeads(o: Order, t: Tree, c: nat)
    requires o.Ok() && Paired(o, t) && HasThread(t, c)
    ensures var r := ThreadOf(t, c); var k := Key(r.parent, r.name);
            r.name != [] && ClassOf(o, k) in t && t[ClassOf(o, k)].rec.Node? && t[ClassOf(o, k)].rec.cnid == c
  {
    assert ThreadFits(o, t, c);
  }

  lemma NodeHasThread(o: Order, t: Tree, k: Class)
    requires o.Ok() && Paired(o, t) && k in t && t[k].rec.Node?
    ensures HasThread(t, t[k].rec.cnid) && ParentOf(t, t[k].rec.cnid) == k.parent
  {
    assert NodeFits(t, k);
  }

  /** The steps of a rename, in either order, amount to the same. */
  lemma SameRenamed(o: Order, t: Tree, u: Tree, t': Tree, sc: Class, k: Key, n: Rec, c: nat, dir: bool)
    requires o.Ok() && k.name != []
    requires (u == t[ClassOf(o, k) := Entry(k, n)] - {sc} && sc != ClassOf(o, k)) || u == (t - {sc})[ClassOf(o, k) := Entry(k, n)]
    requires t' == (u - {ThreadClass(c)})[ThreadClass(c) := Entry(Key(c, []), Thread(dir, k.parent, k.name))]
    ensures t' == Renamed(o, t, sc, k, n, c, dir)
  {
    hide ClassOf;
  }

  /** A rename by a descriptor that is up to date is a move. */
  lemma SameMove(o: Order, t: Tree, t': Tree, sc: Class, k: Key, n: Rec)
    requires o.Ok() && n.Node? && k.name != [] && t' == Renamed(o, t, sc, k, n, n.cnid, n.dir)
    ensures t' == Moved(o, t, sc, k, n)
  {
    ClassApart(o, k, n.cnid);
    hide ClassOf;
  }

  lemma ClassParents(o: Order, a: Key, b: Key)
    requires o.Ok()
    ensures ClassOf(o, a) == ClassOf(o, b) ==> a.parent == b.parent
    ensures ClassOf(o, a).parent == a.parent && ClassOf(o, b).parent == b.parent
  {
  }

  /** A checked move keeps the forest if and only if it leads into a folder. */
  lemma MoveKeepsForest(o: Order, t: Tree, from: Class, k: Key, n: Rec)
    requires o.Ok() && Paired(o, t) && Forest(t) && from in t && t[from].rec.Node? && n.Node?
    requires n.cnid == t[from].rec.cnid && n.dir == t[from].rec.dir && k.name != []
    requires ClassOf(o, k) in t ==> ClassOf(o, k) == from
    requires from.parent != k.parent && n.dir ==>
               n.cnid != ROOT && !IsAncestor(t, n.cnid, k.parent) && IsFolder(t, k.parent)
    ensures Forest(Moved(o, t, from, k, n)) <==> from.parent == k.parent || IsFolder(t, k.parent)
  {
    hide ClassOf, Paired, Forest, Moved, IsAncestor;
    MovedPaired(o, t, from, k, n);
    var t' := Moved(o, t, from, k, n);
    RootIsFolder(t);
    if from.parent == k.parent {
      RenamedForest(t, t', n.cnid);
    } else if IsFolder(t, k.parent) {
      if !n.dir { FileNotAncestor(t, n.cnid, k.parent); }
      MovedForest(t, t', n.cnid, k.parent);
    } else {
      NotInFolder(t', n.cnid);
    }
  }

  lemma NotInFolder(t: Tree, c: nat)
    requires HasThread(t, c) && c != ROOT && !IsFolder(t, ParentOf(t, c))
    ensures !Forest(t)
  {
  }

  lemma FolderId(t: Tree, c: nat)
    requires Forest(t) && HasThread(t, c)
    ensures c >= ROOT
  {
  }

  lemma RootIsFolder(t: Tree)
    requires Forest(t)
    ensures IsFolder(t, ROOT)
  {
  }

  lemma AncestorSelf(t: Tree, c: nat)
    ensures IsAncestor(t, c, c)
  {
    assert Above(t, c, c, 0);
  }

  /** A parent found on the way up is an ancestor. */
  lemma AboveRoot(t: Tree, cnid: nat, toParent: nat, above: nat)
    requires Forest(t) && IsFolder(t, toParent) && above == ParentOf(t, toParent)
    ensures cnid == toParent || (cnid == above && toParent != ROOT) ==> IsAncestor(t, cnid, toParent)
    ensures toParent == ROOT ==> above == ROOT_PARENT
  {
    AncestorSelf(t, cnid);
    if toParent != ROOT { AncestorStep(t, cnid, toParent); }
  }

  ghost function DepthOf(t: Tree, c: nat): (n: nat)
    requires Forest(t) && HasThread(t, c)
    ensures Reaches(t, c, n)
  { var n: nat :| Reaches(t, c, n); n }

  lemma ClassApart(o: Order, k: Key, c: nat)
    requires o.Ok() && k.name != []
    ensures ClassOf(o, k) != ThreadClass(c)
  {
  }

  // ------------------------------------------------------------------------ examples

  /** The root folder, a node 16 in it, and a file 17 in the folder `parent`. */
  function Example(dir: bool, parent: nat): Tree {
    var t := WithNode(Binary, RootOnly(Binary, [0x76]), Key(ROOT, [0x61]), Node(dir, 16, false, 0, 0));
    WithNode(Binary, t, Key(parent, [0x62]), Node(false, 17, false, 0, 0))
  }

  lemma ExampleValid(dir: bool, parent: nat)
    requires parent == ROOT || (dir && parent == 16)
    ensures Paired(Binary, Example(dir, parent)) && Forest(Example(dir, parent))
  {
    var t0, k, n := RootOnly(Binary, [0x76]), Key(ROOT, [0x61]), Node(dir, 16, false, 0, 0);
    var m, l := Node(false, 17, false, 0, 0), Key(parent, [0x62]);
    var t1 := WithNode(Binary, t0, k, n);
    ExampleNames(dir, parent);
    hide Paired, Forest, WithNode, RootOnly, ClassOf, IsFolder;
    RootOnlyValid(Binary, [0x76]);
    ExampleStep(t0, k, n);
    ExampleStep(t1, l, m);
  }

  lemma ExampleNames(dir: bool, parent: nat)
    ensures var t := RootOnly(Binary, [0x76]); var k := Key(ROOT, [0x61]);
            && ClassOf(Binary, k) !in t && ThreadClass(16) !in t
            && var t' := WithNode(Binary, t, k, Node(dir, 16, false, 0, 0));
               ClassOf(Binary, Key(parent, [0x62])) !in t' && ThreadClass(17) !in t'
  {
  }

  lemma ExampleStep(t: Tree, k: Key, n: Rec)
    requires Paired(Binary, t) && Forest(t) && n.Node? && n.cnid >= FIRST_USER && k.name != []
    requires ClassOf(Binary, k) !in t && ThreadClass(n.cnid) !in t && (k.parent == ROOT || IsFolder(t, k.parent))
    ensures var t' := WithNode(Binary, t, k, n); Paired(Binary, t') && Forest(t') && (n.dir ==> IsFolder(t', n.cnid))
  {
    hide Paired, Forest, WithNode, ClassOf;
    RootIsFolder(t);
    Added(Binary, t, k, n);
    AddedForest(t, WithNode(Binary, t, k, n), n.cnid, k.parent);
  }

  lemma ExampleRecords(dir: bool, parent: nat)
    requires parent == ROOT || (dir && parent == 16)
    ensures var t := Example(dir, parent); var a, b := Class(ROOT, false, [0x61]), Class(parent, false, [0x62]);
            && a in t && t[a] == Entry(Key(ROOT, [0x61]), Node(dir, 16, false, 0, 0))
            && b in t && t[b] == Entry(Key(parent, [0x62]), Node(false, 17, false, 0, 0))
            && Class(ROOT, false, [0x63]) !in t && HasThread(t, 16) && HasThread(t, 17) && ParentOf(t, 17) == parent
  {
  }

  /** Deleting file 16 by a descriptor with the ID 17 leaves a tree that is not paired. */
  lemma StaleDelete()
    ensures var t, d := Example(false, ROOT), Desc(ROOT, [0x61], 17, false); var k := Class(ROOT, false, [0x61]);
            && Paired(Binary, t) && Forest(t) && Doomed(Binary, t, d, 17, None) == Some(k)
            && k in t && t[k].rec.Node? && DoomedId(Binary, t, d, 17, k) == 17
            && !Paired(Binary, t - {k} - {ThreadClass(17)})
  {
    ExampleValid(false, ROOT);
    ExampleRecords(false, ROOT);
    hide Example, Paired, Forest;
    Unpaired(Binary, Example(false, ROOT), Class(ROOT, false, [0x61]), 17);
  }

  /** Renaming file 16 by a descriptor with the ID 17 leaves a tree that is not paired. */
  lemma StaleRename(r: Result, t': Tree)
    requires Outcome(Binary, Example(false, ROOT), Some(Class(ROOT, false, [0x61])), Desc(ROOT, [0x61], 17, false),
                     Desc(ROOT, [0x63], 17, false), None, r, t')
    ensures Source(Binary, Example(false, ROOT), Desc(ROOT, [0x61], 17, false), None) == Some(Class(ROOT, false, [0x61]))
    ensures Paired(Binary, Example(false, ROOT)) && r == Done && !Paired(Binary, t')
  {
    ExampleValid(false, ROOT);
    ExampleRecords(false, ROOT);
    hide Example, Paired, Forest, Renamed;
    RenamedUnpaired(Binary, Example(false, ROOT), Class(ROOT, false, [0x61]), Key(ROOT, [0x63]), Node(false, 16, false, 0, 0),
                    17, false);
  }

  /** Renaming file 16 to the name of file 17, by a descriptor with the ID 17, is refused, and
      the record of file 17 is then in both places. */
  lemma RefusedRename(r: Result, t': Tree)
    requires Outcome(Binary, Example(false, ROOT), Some(Class(ROOT, false, [0x61])), Desc(ROOT, [0x61], 17, false),
                     Desc(ROOT, [0x62], 17, false), None, r, t')
    ensures r == Exists && !Paired(Binary, t')
    ensures var a, b := Class(ROOT, false, [0x61]), Class(ROOT, false, [0x62]);
            a in t' && b in t' && t'[a].rec == t'[b].rec == Node(false, 17, false, 0, 0)
  {
    ExampleRecords(false, ROOT);
    hide Example, Paired, Renamed;
    DoubledUnpaired(Binary, t', Class(ROOT, false, [0x61]), Class(ROOT, false, [0x62]));
  }

  /** Deleting folder 16, which holds file 17, leaves records and threads paired and the file
      without its folder. */
  lemma ParentDeleted()
    ensures var t, d := Example(true, 16), Desc(ROOT, [0x61], 16, true); var k := Class(ROOT, false, [0x61]);
            && Paired(Binary, t) && Forest(t) && Doomed(Binary, t, d, 16, None) == Some(k)
            && k in t && t[k].rec.Node? && DoomedId(Binary, t, d, 16, k) == 16
            && Paired(Binary, t - {k} - {ThreadClass(16)}) && !Forest(t - {k} - {ThreadClass(16)})
  {
    ExampleValid(true, 16);
    ExampleRecords(true, 16);
    hide Example, Paired, Forest;
    var t, k := Example(true, 16), Class(ROOT, false, [0x61]);
    Dropped(Binary, t, k);
    assert ThreadClass(17) in t && t[ThreadClass(17)].rec.parent == 16;
    DroppedForest(t, t - {k} - {ThreadClass(16)}, 16);
  }

  // ---------------------------------------------------------------------------- runs

  datatype Op =
    | CreateOp(newId: nat, d: Desc, linked: bool, info: nat)
    | RenameOp(from: Desc, todir: Desc, to: Desc, encoding: Option<nat>, alias: Option<Key>)
    | DeleteOp(gone: Desc, fileId: nat, fullName: Option<Key>)

  /** What callers vouch for: folders they name exist, and descriptors are up to date. The walk
      of a directory move is only sure to end in a forest. */
  predicate Allowed(o: Order, t: Tree, op: Op, forest: bool)
    requires o.Ok()
  {
    match op
    case CreateOp(newId, d, _, _) => newId >= FIRST_USER && IsFolder(t, d.parent)
    case RenameOp(from, todir, to, _, alias) =>
      && from.cnid >= ROOT && AliasOk(from, alias) && Current(o, t, from, alias)
      && (from.parent != to.parent ==> IsFolder(t, to.parent) && todir.parent == ParentOf(t, to.parent))
      && (from.dir && from.parent != to.parent ==> forest)
    case DeleteOp(d, fileId, alias) =>
      && AliasOk(d, alias) && (d.name == [] ==> fileId != ROOT)
      && var k := Doomed(o, t, d, fileId, alias);
         k.Some? && k.value in t && t[k.value].rec.Node? ==> t[k.value].rec.cnid == DoomedId(o, t, d, fileId, k.value) != ROOT
  }

  /** Whether a delete leaves something without its parent. */
  predicate Orphans(o: Order, t: Tree, op: Op)
    requires o.Ok()
  {
    && op.DeleteOp?
    && var k := Doomed(o, t, op.gone, op.fileId, op.fullName);
       k.Some? && k.value in t && t[k.value].rec.Node? && !Childless(t, t[k.value].rec.cnid)
  }

  /** Any run of operations: records and threads stay in bijection, and an operation that fails
      changes nothing. Up to the first delete of a node that is a parent, everything hangs below
      the root; and that delete ends it. */
  method Run(c: Catalog, ops: seq<Op>) returns (results: seq<Result>, intact: nat, ghost trees: seq<Tree>)
    requires c.Valid()
    modifies c`tree
    ensures |results| == |ops| && |trees| == |ops| + 1 && trees[0] == old(c.tree) && trees[|ops|] == c.tree
    ensures forall i :: 0 <= i < |trees| ==> Paired(c.order, trees[i])
    ensures forall i :: 0 <= i < |ops| && !results[i].Done? ==> trees[i + 1] == trees[i]
    ensures intact <= |ops| && forall i :: 0 <= i <= intact ==> Forest(trees[i])
    ensures intact < |ops| ==>
              results[intact].Done? && Orphans(c.order, trees[intact], ops[intact]) && !Forest(trees[intact + 1])
  {
    hide ClassOf, Paired, Forest, Allowed, Orphans;
    results, trees, intact := [], [c.tree], 0;
    var i := 0;
    while i < |ops|
      invariant 0 <= i <= |ops| && |results| == i && |trees| == i + 1 && trees[0] == old(c.tree) && trees[i] == c.tree
      invariant forall j :: 0 <= j < |trees| ==> Paired(c.order, trees[j])
      invariant forall j :: 0 <= j < i && !results[j].Done? ==> trees[j + 1] == trees[j]
      invariant intact <= i && forall j :: 0 <= j <= intact ==> Forest(trees[j])
      invariant intact < i ==>
                  results[intact].Done? && Orphans(c.order, trees[intact], ops[intact]) && !Forest(trees[intact + 1])
    {
      var r, whole := Invalid, true;
      if Allowed(c.order, c.tree, ops[i], intact == i) {
        whole := !Orphans(c.order, c.tree, ops[i]);
        r := Perform(c, ops[i], intact == i);
      }
      results, trees := results + [r], trees + [c.tree];
      if intact == i && (whole || !r.Done?) { intact := i + 1; }
      i := i + 1;
    }
  }

  method Perform(c: Catalog, op: Op, forest: bool) returns (r: Result)
    requires c.order.Ok() && Paired(c.order, c.tree) && (forest ==> Forest(c.tree))
    requires Allowed(c.order, c.tree, op, forest)
    modifies c`tree
    ensures Paired(c.order, c.tree) && (!r.Done? ==> c.tree == old(c.tree))
    ensures forest && r.Done? ==> (Forest(c.tree) <==> !Orphans(c.order, old(c.tree), op))
  {
    hide ClassOf, Paired, Forest, Current, Outcome, Childless, Doomed, DoomedId;
    match op
    case CreateOp(newId, d, linked, info) => r := c.Create(newId, d, linked, 0, info);
    case RenameOp(from, todir, to, encoding, alias) => r := c.Rename(from, todir, to, encoding, alias);
    case DeleteOp(d, fileId, alias) => r := c.Delete(d, fileId, alias);
  }
}
