/** Committing across the index tree and the ring of super blocks: where a stop leaves the store. */
module StoreCommit {
  import opened IndexLayout
  import opened IndexTreeShape
  import opened IndexTreeZipper
  import opened IndexTreeSearch
  import opened IndexTreeCommit
  import opened IndexTreeCount
  import opened IndexTree
  import opened Collate
  import SB = SuperBlockRing

  /** The newest version in the ring names the root of the committed tree. */
  ghost predicate Paired(tree: IndexTree, ring: SB.Ring)
    reads tree, ring, ring.slots
  {
    && tree.Saved() && tree.saved.Node? && ring.Ok() && ring.hist != []
    && ring.hist[|ring.hist| - 1].body == [tree.savedRoot]
  }

  /** The root number that a super block names. */
  function RootOf(body: SB.Data): Vbn { if |body| == 1 && body[0] >= 0 then body[0] else 0 }

  /** A new store: an empty object, committed for the first time. */
  method Format(cr: CollateRule, vbn: Vbn) returns (tree: IndexTree, ring: SB.Ring, sb: SB.SuperBlock)
    requires vbn != 0
    ensures fresh(tree) && fresh(ring) && fresh(ring.slots) && fresh(sb)
    ensures tree.Ok() && Paired(tree, ring) && sb.Ready(|ring.hist|) && tree.Contents() == []
  {
    hide TreeOk, Shape, Foot, OnDisk, NoDup, Flat, Plug, ZipFlat, Counted, SB.Lasting;
    tree := new IndexTree(cr, vbn);
    ghost var w := tree.Commit();
    RootNamed(tree);
    ring, sb := NewRing(tree.savedRoot);
  }

  lemma {:induction false} RootNamed(tree: IndexTree)
    requires tree.Ok()
    ensures tree.TheTree().Node? && RootVbn(tree.TheTree()) == tree.root
  {
    hide TreeOk, Plug;
    TreeTop(tree.Blocks(), tree.frames, tree.focus, tree.height);
    TreeFacts(tree.Blocks(), [], tree.TheTree(), tree.height);
  }

  method NewRing(root: Vbn) returns (ring: SB.Ring, sb: SB.SuperBlock)
    ensures fresh(ring) && fresh(ring.slots) && fresh(sb) && ring.Ok() && sb.Ready(|ring.hist|)
    ensures |ring.hist| == 1 && ring.hist[0].body == [root]
  {
    hide SB.Lasting;
    ring := new SB.Ring();
    sb := new SB.SuperBlock([root], 0);
    ring.UpdateInit(sb);
  }

  /** ofs_update_super_block: the next version names the root of a tree that can be read from disk already. */
  method NameRoot(tree: IndexTree, ring: SB.Ring, sb: SB.SuperBlock, root: Vbn)
    requires ring.Ok() && sb.Ready(|ring.hist|) && Load(tree.disk, root, TREE_MAX_DEPTH) == tree.TheTree()
    modifies ring`hist, ring.slots, sb
    ensures ring.Ok() && sb.Ready(|ring.hist|) && |ring.hist| == |old(ring.hist)| + 1
    ensures ring.hist[|ring.hist| - 1].body == [root] && ring.hist[..|ring.hist| - 1] == old(ring.hist)
  {
    hide SB.Lasting, Load, Plug;
    sb.blk := sb.blk.(body := [root]);
    ring.Update(sb);
  }

  /** commit_container_modification: the blocks, and then, if the root was dirty, the super block. */
  method CommitStore(tree: IndexTree, ring: SB.Ring, sb: SB.SuperBlock)
    requires tree.Ok() && Paired(tree, ring) && sb.Ready(|ring.hist|) && tree.height <= TREE_MAX_DEPTH
    modifies tree`disk, tree`dirty, tree`savedRoot, tree`saved, tree`savedHeight, tree`live, tree`reused, tree`freed,
      tree`log, tree`depth, tree`cacheStack, tree`posStack, tree`pos, tree`frames, tree`focus, ring`hist, ring.slots, sb
    ensures tree.Ok() && Paired(tree, ring) && sb.Ready(|ring.hist|)
    ensures tree.saved == tree.TheTree() == old(tree.TheTree()) && tree.Contents() == old(tree.Contents())
    ensures if old(tree.root in tree.dirty)
            then |ring.hist| == |old(ring.hist)| + 1 && ring.hist[..|ring.hist| - 1] == old(ring.hist)
            else ring.hist == old(ring.hist) && ring.slots[..] == old(ring.slots[..])
  {
    hide TreeOk, Shape, Foot, OnDisk, NoDup, Flat, Plug, ZipFlat, Counted, Load, SB.Lasting;
    // FLAG_DIRTY
    var moved := tree.root in tree.dirty;
    ghost var root := tree.savedRoot;
    ghost var w := tree.Commit();
    RootNamed(tree);
    if moved {
      LoadOnDisk(tree.disk, tree.saved, tree.savedHeight, true, TREE_MAX_DEPTH);
      NameRoot(tree, ring, sb, tree.savedRoot);
    } else {
      assert tree.savedRoot == root;
    }
  }

  /** The system stops in a commit, when the blocks s were written, or when all were and parts of the super
      block (wrote), and is started again.  The root that recovery finds is that of the committed tree, unless
      both ends of the slot are of the new version; then it is that of the new tree, if the contents arrived as
      well, and otherwise what the slot named before.  The committed tree is then read exactly when no block
      written overwrote one of its blocks with other contents, and the new tree always. */
  method StopStore(tree: IndexTree, ring: SB.Ring, sb: SB.SuperBlock, s: set<Vbn>, wrote: bool, head: bool, rest: bool,
      tail: bool)
    returns (root: Vbn)
    requires tree.Ok() && Paired(tree, ring) && sb.Ready(|ring.hist|) && tree.height <= TREE_MAX_DEPTH
    requires s <= tree.dirty && (wrote ==> s == tree.dirty && sb.blk.body == [tree.root])
    modifies tree`disk, tree`dirty, tree`log, ring`hist, ring.slots, sb
    ensures ring.Ok()
    ensures var b := old(ring.slots[SB.SlotOf(|ring.hist|)]);
            var both := wrote && SB.BothEnds(b, |old(ring.hist)|, head, tail);
            && root == (if !both then tree.savedRoot else if rest then tree.root else RootOf(b.body))
            && (!both ==> (Load(tree.disk, root, TREE_MAX_DEPTH) == tree.saved
                <==> Harmless(old(tree.disk), tree.store, s, tree.saved)))
            && (both && root == tree.root ==> Load(tree.disk, root, TREE_MAX_DEPTH) == tree.TheTree())
  {
    hide TreeOk, Shape, Foot, OnDisk, NoDup, Flat, Plug, ZipFlat, Counted, Load, Harmless, Overlay, SB.Lasting,
      SB.BothEnds;
    ghost var n := |ring.hist|;
    ghost var b, both := ring.slots[SB.SlotOf(n)], wrote && SB.BothEnds(ring.slots[SB.SlotOf(n)], n, head, tail);
    StopBlocks(tree, s);
    if wrote {
      ring.TornUpdate(sb, head, rest, tail);
    }
    var found := ring.Recover();
    root := RootOf(found.blk.body);
  }

  /** The part of it that concerns the blocks. */
  method StopBlocks(tree: IndexTree, s: set<Vbn>)
    requires tree.Ok() && tree.Saved() && tree.saved.Node? && s <= tree.dirty && tree.height <= TREE_MAX_DEPTH
    modifies tree`disk, tree`dirty, tree`log
    ensures Load(tree.disk, tree.savedRoot, TREE_MAX_DEPTH) == tree.saved
        <==> Harmless(old(tree.disk), tree.store, s, tree.saved)
    ensures s == old(tree.dirty) ==> Load(tree.disk, tree.root, TREE_MAX_DEPTH) == tree.TheTree()
  {
    hide TreeOk, Shape, Foot, OnDisk, NoDup, Flat, Plug, ZipFlat, Counted, Load, Harmless, Overlay;
    ghost var w, t := tree.Blocks(), tree.TheTree();
    RootNamed(tree);
    TreeTop(w, tree.frames, tree.focus, tree.height);
    DirtyStored(w, tree.frames, tree.focus, tree.height);
    tree.StopInCommit(s);
    if s == w.dirty {
      OverlayAll(w.disk, w.store, w.dirty);
      FlushedTree(w, World(w.store, {}, tree.disk), t, tree.height);
      LoadOnDisk(tree.disk, t, tree.height, true, TREE_MAX_DEPTH);
    }
  }
}
