/** Runs that lose keys: a block handed out again too early, and a removal in an overfull block. */
module IndexTreeRuns {
  import opened IndexLayout
  import opened IndexTreeShape
  import opened IndexTreeZipper
  import opened IndexTreeDirty
  import opened IndexTreeEdit
  import opened IndexTreeInsert
  import opened IndexTreeSearch
  import opened IndexTreeRemove
  import opened IndexTreeCommit
  import opened IndexTreeCount
  import opened IndexTreeSwap
  import opened IndexTreeOverfull
  import opened IndexTree
  import opened Collate

  function OneEntry(k: u8): Entry { Entry(KV([k], []), false, 0, false) }

  /** A root with nothing but a child, and a leaf with one key. */
  function SmallLeaf(): Tree { Node(2, BLOCK_CAP, [OneEntry(5), EndEntry(false, 0)], [Nil, Nil]) }

  function SmallTree(): Tree { Node(1, ROOT_CAP, [EndEntry(true, 2)], [SmallLeaf()]) }

  function SmallDisk(): map<Vbn, Block> {
    map[1 := Block(ROOT_CAP, SmallTree().es), 2 := Block(BLOCK_CAP, SmallLeaf().es)]
  }

  lemma {:induction false} SumTwo(a: Entry, b: Entry)
    ensures SumLen([a, b]) == Len(a) + Len(b) && SumLen([b]) == Len(b)
  {
    assert [a, b][1..] == [b];
    assert SumLen([b]) == Len(b) + SumLen([]);
  }

  lemma {:induction false} SmallLeafOk()
    ensures Shape(SmallLeaf(), 1, false) && Foot(SmallLeaf()) == multiset{2} && Flat(SmallLeaf()) == [KV([5], [])]
    ensures OnDisk(SmallDisk(), SmallLeaf())
  {
    var t := SmallLeaf();
    SumTwo(t.es[0], t.es[1]);
    assert t.kids[1..] == [Nil] && t.es[1..] == [t.es[1]];
    FootOne(Nil);
    WeaveOne(Nil, t.es[1]);
  }

  lemma {:induction false} SmallTreeOk()
    ensures var t := SmallTree();
            && OnDisk(SmallDisk(), t) && Shape(t, 2, true) && NoDup(Foot(t)) && 2 in Foot(t) && Flat(t) == [KV([5], [])]
            && Foot(t) == multiset{1, 2}
  {
    hide SmallLeaf, Foot, Flat, SumLen;
    var t := SmallTree();
    SmallLeafOk();
    SmallLeafVbn();
    SumTwo(t.es[0], t.es[0]);
    FootOne(SmallLeaf());
    WeaveOne(SmallLeaf(), t.es[0]);
    TreeIsNode(t);
  }

  lemma {:induction false} SmallLeafVbn()
    ensures SmallLeaf().Node? && SmallLeaf().vbn == 2
  {
  }

  lemma {:induction false} TreeIsNode(t: Tree)
    requires t.Node?
    ensures Flat(t) == Weave(t.kids, t.es) && Foot(t) == multiset{t.vbn} + FootAll(t.kids)
  {
  }

  /** Reading back when block 2 was taken by a root whose child is not on disk yet. */
  lemma {:induction false} Unreadable(disk: map<Vbn, Block>, v: Vbn)
    requires disk.Keys == {1, 2} && disk[1].es == [EndEntry(true, 2)] && disk[2].es == [EndEntry(true, v)] && v !in disk
    ensures Flat(Load(disk, 1, TREE_MAX_DEPTH)) == []
  {
    var t := Load(disk, 1, TREE_MAX_DEPTH);
    var u := Load(disk, 2, TREE_MAX_DEPTH - 1);
    assert Load(disk, v, TREE_MAX_DEPTH - 2) == Nil;
    assert u.kids == [Nil];
    WeaveOne(Nil, EndEntry(true, v));
    assert t.kids == [u];
    WeaveOne(u, EndEntry(true, 2));
  }

  lemma {:induction false} CachedSmall()
    ensures Cached(SmallDisk(), SmallTree()) == SmallDisk()
  {
    hide Foot;
    SmallTreeOk();
  }

  lemma {:induction false} OverlayTwo(store: map<Vbn, Block>)
    requires 2 in store
    ensures Overlay(SmallDisk(), store, {2}) == SmallDisk()[2 := store[2]]
  {
  }

  /** set_ib_dirty on a leaf below the root, both clean, with an allocator that looks first at the leaf's
      number: the leaf moves to some block v, and the root to the leaf's old block. */
  method MoveBoth(t: IndexTree) returns (v: Vbn)
    requires t.AtPath() && PathOk(t.Blocks(), t.frames, t.focus, t.height, t.depth, 0, multiset{})
    requires t.Clear() && Counted(t.Blocks(), t.frames, t.focus, multiset{})
    requires t.depth == 1 && t.dirty == {} && t.wish == t.focus.vbn
    modifies t`root, t`store, t`dirty, t`reused, t`freed, t`cacheStack, t`frames, t`focus
    ensures t.AtPath() && PathOk(t.Blocks(), t.frames, t.focus, t.height, -1, 0, multiset{})
    ensures Progress(old(t.Blocks()), old(t.frames), old(t.focus), t.Blocks(), t.frames, t.focus, multiset{})
    ensures t.Clear() && Counted(t.Blocks(), t.frames, t.focus, multiset{})
    ensures v !in old(t.store) && t.dirty == {v, t.wish} && t.root == t.wish
    ensures t.frames == old(t.frames)[0 := Redirect(old(t.frames)[0], t.wish, v)]
    ensures t.wish in t.store && t.store[t.wish] == Block(t.frames[0].cap, t.frames[0].es)
  {
    hide PathOk, Progress, Counted;
    ghost var o, m := t.ThePath(), multiset{};
    ProgressRefl(t.Blocks(), t.frames, t.focus, t.height, 1, 0, m);
    PathCached(t.Blocks(), t.frames, t.focus, t.height, 1, 0, m);
    PathFacts(t.Blocks(), t.frames, t.focus, t.height, 1, 0, m);
    v := t.MoveBlockTo(1, 0, o, m);
    assert t.wish !in t.store;
    PathCached(t.Blocks(), t.frames, t.focus, t.height, 0, v, m);
    assert t.dirty == {v} && t.cacheStack[0] in old(t.store);
    var w := t.MoveBlockTo(0, v, o, m);
    assert w == t.wish && t.dirty == {v, w};
    PathDone(t.Blocks(), t.frames, t.focus, t.height, w, 0, m);
    CountMoved(o.w, o.fs, o.x, t.Blocks(), t.frames, t.focus, t.height, 1, m);
  }

  /** A key is put into the leaf.  set_ib_dirty moves the leaf away from block 2 and gives that number
      back; the root, which moves next, gets it.  Then the commit writes block 2, and the system stops.  The
      super block still names block 1, and from there the committed key cannot be read any more. */
  method ReuseRun() returns (t: IndexTree)
    ensures t.saved == SmallTree() && Flat(t.saved) == [KV([5], [])] && t.savedRoot == 1
    ensures Load(t.disk, t.savedRoot, TREE_MAX_DEPTH) != t.saved
    ensures Flat(Load(t.disk, t.savedRoot, TREE_MAX_DEPTH)) == []
  {
    hide TreeOk, Foot, Flat, Shape, Holds, ZipOk, PathOk, Counted, NoDup, SumLen, Load, Cached;
    SmallTreeOk();
    CachedSmall();
    t := OpenSmall();
    PutKey(t);
    CrashAfter(t);
  }

  /** The object is opened, and the cursor goes to the leaf. */
  method OpenSmall() returns (t: IndexTree)
    ensures fresh(t) && t.Ok() && t.Saved() && t.saved == SmallTree() && t.savedRoot == 1 && t.disk == SmallDisk()
    ensures t.store == Cached(SmallDisk(), SmallTree())
    ensures t.dirty == {} && t.depth == 1 && t.height == 2 && t.pos == 0 && t.wish == 2
    ensures t.frames == [OpenAt(SmallTree(), 0)] && t.focus == SmallLeaf()
  {
    hide TreeOk, Foot, Flat, Shape, Holds, ZipOk, PathOk, Counted, NoDup, SumLen, Load, Cached, OnDisk;
    SmallTreeOk();
    t := new IndexTree.Existing(CrBinary, SmallDisk(), 1, 2, SmallTree(), 2);
    t.PushCacheStack(false);
    assert [] + [OpenAt(SmallTree(), 0)] == [OpenAt(SmallTree(), 0)];
  }

  /** Block 2 is written, and nothing else. */
  method CrashAfter(t: IndexTree)
    requires t.Ok() && t.Saved() && t.saved == SmallTree() && t.savedRoot == 1 && t.disk == SmallDisk()
    requires 2 in t.dirty && 2 in t.store && 2 in Foot(SmallTree())
    requires exists v :: v !in SmallDisk() && t.store[2] == Block(ROOT_CAP, [EndEntry(true, v)])
    modifies t`disk, t`dirty, t`log
    ensures Load(t.disk, 1, TREE_MAX_DEPTH) != SmallTree() && Flat(Load(t.disk, 1, TREE_MAX_DEPTH)) == []
  {
    hide TreeOk, Foot, Flat, Shape, Holds, ZipOk, PathOk, Counted, NoDup, Load, Overlay, OnDisk;
    assert 1 in SmallDisk() && 2 in SmallDisk();
    ghost var v :| v !in Cached(SmallDisk(), SmallTree()) && t.store[2] == Block(ROOT_CAP, [EndEntry(true, v)]);
    CachedSmall();
    t.StopInCommit({2});
    OverlayTwo(t.store);
    Unreadable(t.disk, v);
  }

  method PutKey(t: IndexTree)
    requires t.Ok() && t.dirty == {} && t.depth == 1 && t.height == 2 && t.pos == 0 && t.wish == 2
    requires t.frames == [OpenAt(SmallTree(), 0)] && t.focus == SmallLeaf()
    modifies t`root, t`store, t`dirty, t`reused, t`freed, t`cacheStack, t`frames, t`focus
    ensures t.Ok() && 2 in t.dirty && 2 in t.store
    ensures exists v :: v !in old(t.store) && t.store[2] == Block(ROOT_CAP, [EndEntry(true, v)])
  {
    hide TreeOk, Foot, Flat, Shape, Holds, ZipOk, PathOk, Progress, Counted, InsertOk, NoDup, Apart, SumLen, Before,
      After, CtxShape;
    var e := OneEntry(3);
    TreeFacts(t.Blocks(), t.frames, t.focus, 2);
    NilFacts(t.Blocks());
    TreeCtx(t.Blocks(), t.frames, t.focus, 2);
    SumTwo(t.focus.es[0], t.focus.es[1]);
    LeafInsertOk(t.Blocks(), t.frames, t.focus, 0, e, 2);
    FitStart(t.Blocks(), t.frames, t.focus, 0, e, Nil, 2);
    CountInserted(t.Blocks(), t.frames, t.focus, 0, e, Nil, Block(t.focus.cap, Insert(t.focus.es, 0, e)));
    t.InsertIe(e, Nil);
    ghost var o := t.ThePath();
    var v := MoveBoth(t);
    DirtyDone(o.w, o.fs, o.x, t.Blocks(), t.frames, t.focus, 2, multiset{});
    TreeIs(t.Blocks(), t.frames, t.focus, 2);
  }

  // ---- removing from an overfull block

  lemma {:induction false} WideOnDisk()
    ensures var t := WideRoot(); t.Node? && t.vbn == 1 && OnDisk(WideStore(), t) && Shape(t, 2, true) && NoDup(Foot(t))
  {
    hide Shape, Foot, Holds, WideStore, WideRoot, OnDisk, NoDup, ZipOk;
    WideOk();
    WideVbn();
    var w, t := WideWorld(), WideRoot();
    TreeFacts(w, [], t, 2);
    TreeRoot(w, t, 2);
    HeldOnDisk(w, w.disk, t);
    TreeOwns(w, [], t, 2);
    TopFoot(t);
  }

  /** The tree of WideRoot is read from disk, and the second key is removed: it is gone, and so is another one,
      while its successor is there twice. */
  method LoseKeyRun() returns (t: IndexTree, ghost lost: KV)
    ensures t.Ok() && lost in Flat(WideRoot()) && lost.key != [2] && lost !in t.Contents()
  {
    hide TreeOk, Foot, Flat, Shape, WideRoot, WideStore, OnDisk, Sorted, CollateSign, Overfull, CopiedDropped,
      DeleteAt, Cached, ZipOk, PathOk, Counted, ZipFlat, KeyOk, QueryOk, NoDup, Plug;
    WideOnDisk();
    WideRootLosesKey();
    t := new IndexTree.Existing(CrBinary, WideStore(), 1, 0, WideRoot(), 2);
    ghost var c := Flat(WideRoot());
    WideKeys(c);
    assert c[1] in c;
    var removed;
    ghost var r, j;
    removed, r, j := t.RemoveKey([2]);
    lost := c[j];
    SwapWrong(CrBinary, c, r, j);
    OthersKeys(c, j);
  }

  /** Only the second key of the wide tree is the one searched for. */
  lemma {:induction false} WideKeys(c: seq<KV>)
    requires c == Flat(WideRoot())
    ensures |c| == 9 && forall i | 0 <= i < 9 ::
                         c[i].key == [i + 1] && (CollateSign(CrBinary, c[i], [2], []) == 0 <==> i == 1)
    ensures QueryOk(CrBinary, [2], [])
  {
    hide WideRoot, Flat;
    WideFlat();
    forall i | 0 <= i < 9 ensures c[i].key == [i + 1] && (CollateSign(CrBinary, c[i], [2], []) == 0 <==> i == 1) {
      OneByte(i + 1);
      OneByte(2);
    }
  }

  lemma {:induction false} OthersKeys(c: seq<KV>, j: nat)
    requires |c| == 9 && j < 9 && j != 1 && forall i | 0 <= i < 9 :: c[i].key == [i + 1]
    ensures c[j].key != [2]
  {
    assert c[j].key[0] == j + 1;
  }
}
