/** Committing: what a crash between two block writes leaves on disk. */
module IndexTreeCommit {
  import opened IndexLayout
  import opened IndexTreeShape
  import opened IndexTreeZipper
  import opened IndexTreeSearch

  /** Every block of the tree is on disk. */
  ghost predicate OnDisk(disk: map<Vbn, Block>, t: Tree) {
    match t
    case Nil => true
    case Node(v, cap, es, kids) =>
      v in disk && disk[v] == Block(cap, es) && forall i | 0 <= i < |kids| :: OnDisk(disk, kids[i])
  }

  /** The tree that is read from disk, starting at block v. */
  function Load(disk: map<Vbn, Block>, v: Vbn, levels: nat): Tree
    decreases levels
  {
    if levels == 0 || v !in disk then Nil
    else
      var es := disk[v].es;
      Node(v, disk[v].cap, es, seq(|es|, i requires 0 <= i < |es| => if es[i].node
          then Load(disk, es[i].vbn, levels - 1) else Nil))
  }

  /** Reading finds exactly the tree that was written. */
  lemma {:induction false} LoadOnDisk(disk: map<Vbn, Block>, t: Tree, h: nat, root: bool, levels: nat)
    requires Shape(t, h, root) && OnDisk(disk, t) && h <= levels && 1 <= h
    ensures Load(disk, t.vbn, levels) == t
    decreases h
  {
    var u := Load(disk, t.vbn, levels);
    forall i | 0 <= i < |t.kids| ensures u.kids[i] == t.kids[i] {
      assert EntryOk(t.es[i], h > 1);
      if h > 1 {
        LoadOnDisk(disk, t.kids[i], h - 1, false, levels - 1);
      }
    }
    assert u.kids == t.kids;
  }

  lemma {:induction false} OnDiskMember(disk: map<Vbn, Block>, t: Tree, v: Vbn)
    requires OnDisk(disk, t) && v in Foot(t)
    ensures v in disk
    decreases t, 0
  {
    if v != t.vbn { OnDiskMembers(disk, t.kids, v); }
  }

  lemma {:induction false} OnDiskMembers(disk: map<Vbn, Block>, kids: seq<Tree>, v: Vbn)
    requires (forall i | 0 <= i < |kids| :: OnDisk(disk, kids[i])) && v in FootAll(kids)
    ensures v in disk
    decreases kids, 1
  {
    if v in Foot(kids[0]) { OnDiskMember(disk, kids[0], v); } else { OnDiskMembers(disk, kids[1..], v); }
  }

  /** Writes elsewhere, or of the same contents, leave the tree on disk. */
  lemma {:induction false} OnDiskFrame(disk: map<Vbn, Block>, disk': map<Vbn, Block>, t: Tree)
    requires OnDisk(disk, t)
    requires forall v | v in Foot(t) :: v in disk' && v in disk && disk'[v] == disk[v]
    ensures OnDisk(disk', t)
  {
    match t
    case Nil =>
    case Node(_, _, _, kids) =>
      forall i | 0 <= i < |kids| ensures OnDisk(disk', kids[i]) {
        forall v | v in Foot(kids[i]) ensures v in disk' && v in disk && disk'[v] == disk[v] {
          FootMember(kids, i, v);
        }
        OnDiskFrame(disk, disk', kids[i]);
      }
  }

  /** Once disk and cache agree on the blocks of the cached tree, that tree is on disk. */
  lemma {:induction false} HeldOnDisk(w: World, disk: map<Vbn, Block>, t: Tree)
    requires Holds(w, t)
    requires forall v | v in Foot(t) && v in w.store :: v in disk && disk[v] == w.store[v]
    ensures OnDisk(disk, t)
  {
    match t
    case Nil =>
    case Node(_, _, _, kids) =>
      forall i | 0 <= i < |kids| ensures OnDisk(disk, kids[i]) {
        forall v | v in Foot(kids[i]) && v in w.store ensures v in disk && disk[v] == w.store[v] {
          FootMember(kids, i, v);
        }
        HeldOnDisk(w, disk, kids[i]);
      }
  }

  lemma {:induction false} HeldSynced(w: World, t: Tree, v: Vbn)
    requires Holds(w, t) && v in Foot(t)
    ensures Synced(w, v) && v in w.store
    decreases t, 0
  {
    if v != t.vbn { HeldAllSynced(w, t.kids, v); }
  }

  lemma {:induction false} HeldAllSynced(w: World, kids: seq<Tree>, v: Vbn)
    requires (forall i | 0 <= i < |kids| :: Holds(w, kids[i])) && v in FootAll(kids)
    ensures Synced(w, v) && v in w.store
    decreases kids, 1
  {
    if v in Foot(kids[0]) { HeldSynced(w, kids[0], v); } else { HeldAllSynced(w, kids[1..], v); }
  }

  /** A clean root means a clean tree. */
  lemma {:induction false} CleanTree(w: World, t: Tree, v: Vbn)
    requires Holds(w, t) && t.Node? && t.vbn !in w.dirty && v in Foot(t)
    ensures v !in w.dirty
    decreases t, 0
  {
    if v != t.vbn { CleanTrees(w, t.kids, v); }
  }

  lemma {:induction false} CleanTrees(w: World, kids: seq<Tree>, v: Vbn)
    requires forall i | 0 <= i < |kids| :: Holds(w, kids[i]) && RootVbn(kids[i]) !in w.dirty
    requires v in FootAll(kids)
    ensures v !in w.dirty
    decreases kids, 1
  {
    if v in Foot(kids[0]) { CleanTree(w, kids[0], v); } else { CleanTrees(w, kids[1..], v); }
  }

  /** After all dirty blocks were written, the cached tree is on disk and all its blocks are clean. */
  lemma {:induction false} FlushedTree(w: World, u: World, t: Tree, h: nat)
    requires TreeOk(w, [], t, h) && u.store == w.store && u.dirty == {}
    requires forall v | v in w.dirty :: v in u.disk && v in w.store && u.disk[v] == w.store[v]
    requires forall v | v !in w.dirty && v in w.disk :: v in u.disk && u.disk[v] == w.disk[v]
    ensures OnDisk(u.disk, t) && t.Node? && Shape(t, h, true) && NoDup(Foot(t)) && 1 <= h
    ensures TreeOk(u, [], t, h)
  {
    hide Shape, Foot, Flat;
    TreeFacts(w, [], t, h);
    assert ZipFoot([], t) + multiset{} == Foot(t);
    TreeRoot(w, t, h);
    forall v | v in Foot(t) && v in w.store ensures v in u.disk && u.disk[v] == w.store[v] {
      HeldSynced(w, t, v);
    }
    HeldOnDisk(w, u.disk, t);
    forall v | v in Foot(t) && v in u.disk ensures v in u.store && u.store[v] == u.disk[v] {
      HeldSynced(w, t, v);
    }
    CachedHolds(u.disk, u.store, t);
    assert Holds(u, t);
  }

  lemma {:induction false} TreeRoot(w: World, t: Tree, h: nat)
    requires TreeOk(w, [], t, h)
    ensures Holds(w, t) && 0 !in w.store
  {
  }

  // ---- the tree in a fresh cache

  function Cached(disk: map<Vbn, Block>, t: Tree): map<Vbn, Block> {
    map v | v in Foot(t) && v in disk :: disk[v]
  }

  lemma {:induction false} CachedHolds(disk: map<Vbn, Block>, store: map<Vbn, Block>, t: Tree)
    requires OnDisk(disk, t) && forall v | v in Foot(t) && v in disk :: v in store && store[v] == disk[v]
    ensures Holds(World(store, {}, disk), t)
  {
    match t
    case Nil =>
    case Node(_, _, _, kids) =>
      forall i | 0 <= i < |kids| ensures Holds(World(store, {}, disk), kids[i]) {
        forall v | v in Foot(kids[i]) && v in disk ensures v in store && store[v] == disk[v] {
          FootMember(kids, i, v);
        }
        CachedHolds(disk, store, kids[i]);
      }
  }

  lemma {:induction false} CachedOk(disk: map<Vbn, Block>, t: Tree, h: nat)
    requires OnDisk(disk, t) && Shape(t, h, true) && 1 <= h && NoDup(Foot(t))
    ensures TreeOk(World(Cached(disk, t), {}, disk), [], t, h)
    ensures ZipFlat([], t) == Flat(t) && Plug([], t) == t
  {
    hide Foot, Flat, Holds, OnDisk;
    var w := World(Cached(disk, t), {}, disk);
    CachedHolds(disk, w.store, t);
    assert 0 !in w.store by {
      if 0 in Foot(t) { FootNonZero(t, h, true, 0); }
    }
    assert ZipFoot([], t) + multiset{} == Foot(t);
    assert ZipFlat([], t) == [] + Flat(t) + [];
  }

  // ---- when is it safe to write?

  /** The disk after some of the cached blocks were written. */
  function Overlay(disk: map<Vbn, Block>, store: map<Vbn, Block>, s: set<Vbn>): map<Vbn, Block> {
    disk + map v | v in s && v in store :: store[v]
  }

  /** None of the blocks s overwrites a block of tree t with other contents. */
  ghost predicate Harmless(disk: map<Vbn, Block>, store: map<Vbn, Block>, s: set<Vbn>, t: Tree) {
    forall v | v in s && v in Foot(t) && v in store :: v in disk && store[v] == disk[v]
  }

  /** After some of the cached blocks were written the old tree can still be read exactly when these
      writes were harmless. */
  lemma {:induction false} StopPoint(disk: map<Vbn, Block>, store: map<Vbn, Block>, s: set<Vbn>, t: Tree, h: nat)
    requires OnDisk(disk, t) && Shape(t, h, true) && 1 <= h <= TREE_MAX_DEPTH
    ensures Load(Overlay(disk, store, s), RootVbn(t), TREE_MAX_DEPTH) == t <==> Harmless(disk, store, s, t)
    ensures Harmless(disk, store, s, t) <==> OnDisk(Overlay(disk, store, s), t)
  {
    hide Foot, Load, Shape, OnDisk;
    ShapeNode(t, h);
    var d := Overlay(disk, store, s);
    if Harmless(disk, store, s, t) {
      forall v | v in Foot(t) ensures v in d && v in disk && d[v] == disk[v] {
        OnDiskMember(disk, t, v);
      }
      OnDiskFrame(disk, d, t);
      LoadOnDisk(d, t, h, true, TREE_MAX_DEPTH);
    } else {
      var v :| v in s && v in Foot(t) && v in store && !(v in disk && store[v] == disk[v]);
      OnDiskMember(disk, t, v);
      LoadedOnDisk(d, RootVbn(t), TREE_MAX_DEPTH);
      if OnDisk(d, t) {
        OnDiskBlock(d, disk, t, v);
        assert false;
      }
    }
  }

  /** Whatever part of the dirty blocks reaches the disk, the old tree can still be read: exactly when
      no dirty block overwrites one of its blocks with something else. */
  lemma {:induction false} SafeToWrite(disk: map<Vbn, Block>, store: map<Vbn, Block>, dirty: set<Vbn>, t: Tree, h: nat)
    requires OnDisk(disk, t) && Shape(t, h, true) && 1 <= h <= TREE_MAX_DEPTH
    ensures (forall s | s <= dirty :: Load(Overlay(disk, store, s), RootVbn(t), TREE_MAX_DEPTH) == t)
        <==> Harmless(disk, store, dirty, t)
  {
    hide Foot, Load, Shape, OnDisk, Overlay;
    forall s | s <= dirty
      ensures Load(Overlay(disk, store, s), RootVbn(t), TREE_MAX_DEPTH) == t <==> Harmless(disk, store, s, t)
      ensures Harmless(disk, store, dirty, t) ==> Harmless(disk, store, s, t)
    {
      StopPoint(disk, store, s, t, h);
    }
    assert dirty <= dirty;
  }

  /** Writing one more block. */
  lemma {:induction false} OverlayStep(disk: map<Vbn, Block>, store: map<Vbn, Block>, s: set<Vbn>, v: Vbn)
    requires v in store
    ensures Overlay(disk, store, s)[v := store[v]] == Overlay(disk, store, s + {v})
  {
  }

  lemma {:induction false} OverlayNone(disk: map<Vbn, Block>, store: map<Vbn, Block>)
    ensures Overlay(disk, store, {}) == disk
  {
  }

  lemma {:induction false} OverlayAll(disk: map<Vbn, Block>, store: map<Vbn, Block>, s: set<Vbn>)
    requires forall v | v in s :: v in store
    ensures var d := Overlay(disk, store, s);
            && (forall v | v in s :: v in d && v in store && d[v] == store[v])
            && (forall v | v !in s && v in disk :: v in d && d[v] == disk[v])
  {
  }

  lemma {:induction false} ShapeNode(t: Tree, h: nat)
    requires Shape(t, h, true) && 1 <= h
    ensures t.Node?
  {
  }

  lemma {:induction false} LoadedOnDisk(disk: map<Vbn, Block>, v: Vbn, levels: nat)
    ensures OnDisk(disk, Load(disk, v, levels))
    decreases levels
  {
    if levels != 0 && v in disk {
      var es := disk[v].es;
      var t := Load(disk, v, levels);
      forall i | 0 <= i < |t.kids| ensures OnDisk(disk, t.kids[i]) {
        if es[i].node { LoadedOnDisk(disk, es[i].vbn, levels - 1); }
      }
    }
  }

  /** Two disks that both hold the tree agree on its blocks. */
  lemma {:induction false} OnDiskBlock(d1: map<Vbn, Block>, d2: map<Vbn, Block>, t: Tree, v: Vbn)
    requires OnDisk(d1, t) && OnDisk(d2, t) && v in Foot(t)
    ensures v in d1 && v in d2 && d1[v] == d2[v]
    decreases t, 0
  {
    if v != t.vbn { OnDiskBlocks(d1, d2, t.kids, v); }
  }

  lemma {:induction false} OnDiskBlocks(d1: map<Vbn, Block>, d2: map<Vbn, Block>, kids: seq<Tree>, v: Vbn)
    requires (forall i | 0 <= i < |kids| :: OnDisk(d1, kids[i]) && OnDisk(d2, kids[i])) && v in FootAll(kids)
    ensures v in d1 && v in d2 && d1[v] == d2[v]
    decreases kids, 1
  {
    if v in Foot(kids[0]) { OnDiskBlock(d1, d2, kids[0], v); } else { OnDiskBlocks(d1, d2, kids[1..], v); }
  }

  // ---- the writes of a commit, one by one

  datatype Write = BlockWrite(vbn: Vbn, block: Block) | RootWrite(vbn: Vbn)

  /** What is on disk: the blocks, and the root number in the super block. */
  datatype Durable = Durable(disk: map<Vbn, Block>, root: Vbn)

  function Replay(d: Durable, log: seq<Write>): Durable {
    if log == [] then d
    else
      var e := Replay(d, log[..|log| - 1]);
      match log[|log| - 1]
      case BlockWrite(v, b) => e.(disk := e.disk[v := b])
      case RootWrite(v) => e.(root := v)
  }

  function Touched(log: seq<Write>): set<Vbn> { set x | x in log && x.BlockWrite? :: x.vbn }

  /** The writes are of the cached blocks s, each of them once. */
  ghost predicate Lists(log: seq<Write>, store: map<Vbn, Block>, s: set<Vbn>) {
    && (forall x | x in log :: x.BlockWrite? && x.vbn in store && x.block == store[x.vbn])
    && Touched(log) == s && |log| == |s|
  }

  lemma {:induction false} ListsMore(log: seq<Write>, store: map<Vbn, Block>, s: set<Vbn>, v: Vbn)
    requires Lists(log, store, s) && v !in s && v in store
    ensures Lists(log + [BlockWrite(v, store[v])], store, s + {v})
  {
    var more := log + [BlockWrite(v, store[v])];
    forall u ensures u in Touched(more) <==> u in s + {v} {
      if u in s { var x :| x in log && x.BlockWrite? && x.vbn == u; assert x in more; }
      if u == v { assert BlockWrite(v, store[v]) in more; }
    }
  }

  /** Block writes leave the root number, and add up to an overlay. */
  lemma {:induction false} ReplayBlocks(d: Durable, log: seq<Write>, store: map<Vbn, Block>)
    requires forall x | x in log :: x.BlockWrite? && x.vbn in store && x.block == store[x.vbn]
    ensures Replay(d, log) == Durable(Overlay(d.disk, store, Touched(log)), d.root)
  {
    if log == [] {
      assert Touched(log) == {};
      OverlayNone(d.disk, store);
    } else {
      var n := |log| - 1;
      ReplayBlocks(d, log[..n], store);
      OverlayStep(d.disk, store, Touched(log[..n]), log[n].vbn);
      assert Touched(log) == Touched(log[..n]) + {log[n].vbn} by {
        forall u ensures u in Touched(log) <==> u in Touched(log[..n]) + {log[n].vbn} {
          if u in Touched(log) { var i :| 0 <= i < |log| && log[i].BlockWrite? && log[i].vbn == u;
            if i < n { assert log[..n][i] == log[i]; } }
          if u in Touched(log[..n]) { var x :| x in log[..n] && x.BlockWrite? && x.vbn == u; assert x in log; }
        }
      }
    }
  }

  /** After any number of the writes w but all of them, tree t is still the one that is read, exactly when the blocks
      written by then did it no harm. */
  ghost predicate Interruptible(d: Durable, w: seq<Write>, store: map<Vbn, Block>, t: Tree) {
    t.Node? ==>
      forall k | 0 <= k < |w| ::
        var e := Replay(d, w[..k]);
        && e.root == d.root
        && (Load(e.disk, e.root, TREE_MAX_DEPTH) == t <==> Harmless(d.disk, store, Touched(w[..k]), t))
  }

  lemma {:induction false} ListsNone(store: map<Vbn, Block>)
    ensures Lists([], store, {})
  {
  }

  /** All block writes, and then the root. */
  lemma {:induction false} CommitWrites(d: Durable, log: seq<Write>, store: map<Vbn, Block>, s: set<Vbn>, root: Vbn,
      t: Tree, h: nat)
    requires Lists(log, store, s)
    requires t.Node? ==>
               OnDisk(d.disk, t) && Shape(t, h, true) && 1 <= h <= TREE_MAX_DEPTH && d.root == RootVbn(t)
    ensures Replay(d, log) == Durable(Overlay(d.disk, store, s), d.root) && (s == {} ==> log == [])
    ensures var w := log + [RootWrite(root)];
            && Replay(d, w) == Durable(Overlay(d.disk, store, s), root) && w[..|w| - 1] == log
            && Interruptible(d, w, store, t)
    ensures Interruptible(d, [], store, t)
  {
    hide OnDisk, Shape, Load, Harmless, Overlay;
    ReplayBlocks(d, log, store);
    var w := log + [RootWrite(root)];
    assert w[..|w| - 1] == log;
    if t.Node? {
      forall k | 0 <= k < |w|
        ensures var e := Replay(d, w[..k]);
            && e.root == d.root
            && (Load(e.disk, e.root, TREE_MAX_DEPTH) == t <==> Harmless(d.disk, store, Touched(w[..k]), t))
      {
        assert w[..k] == log[..k];
        StopBetween(d, log, k, store, s, t, h);
      }
    }
  }

  /** A stop after any number of the block writes. */
  lemma {:induction false} StopBetween(d: Durable, log: seq<Write>, k: nat, store: map<Vbn, Block>, s: set<Vbn>,
      t: Tree, h: nat)
    requires Lists(log, store, s) && k <= |log|
    requires OnDisk(d.disk, t) && Shape(t, h, true) && 1 <= h <= TREE_MAX_DEPTH && d.root == RootVbn(t)
    ensures var e := Replay(d, log[..k]);
            && e.root == d.root && Touched(log[..k]) <= s
            && (Load(e.disk, e.root, TREE_MAX_DEPTH) == t <==> Harmless(d.disk, store, Touched(log[..k]), t))
  {
    hide OnDisk, Shape, Load, Harmless, Overlay, Replay;
    ReplayBlocks(d, log[..k], store);
    StopPoint(d.disk, store, Touched(log[..k]), t, h);
  }
}
