/** No block is lost: as many blocks are stored as the tree, and whatever is pending, owns. */
module IndexTreeCount {
  import opened IndexLayout
  import opened IndexTreeShape
  import opened IndexTreeZipper
  import opened IndexTreeDirty
  import opened IndexTreeEdit
  import opened IndexTreeSplit
  import opened IndexTreeInsert
  import opened IndexTreeSearch
  import opened IndexTreeRemove
  import opened IndexTreeCommit

  ghost predicate Counted(w: World, fs: seq<Frame>, x: Tree, m: multiset<Vbn>) {
    |w.store| == |ZipFoot(fs, x)| + |m|
  }

  /** Owned blocks are stored, and no number is owned twice: if also the numbers of blocks agree, then
      every stored block is owned. */
  lemma {:induction false} CountedExact(w: World, fs: seq<Frame>, x: Tree, h: nat)
    requires TreeOk(w, fs, x, h) && Counted(w, fs, x, multiset{})
    ensures ZipFoot(fs, x) == multiset(w.store.Keys)
  {
    hide ZipFoot, ZipOk, TreeOk;
    var m := ZipFoot(fs, x);
    TreeOwns(w, fs, x, h);
    var s := set v | v in m;
    NoDupSet(m, s);
    assert |w.store.Keys| == |w.store| == |m|;
    SubsetSize(s, w.store.Keys);
  }

  lemma {:induction false} TreeOwns(w: World, fs: seq<Frame>, x: Tree, h: nat)
    requires TreeOk(w, fs, x, h)
    ensures NoDup(ZipFoot(fs, x)) && forall v | v in ZipFoot(fs, x) :: v in w.store
  {
    hide CtxFoot, Foot, ZipOk, CtxHolds, CtxShape;
    TreeParts(w, fs, x, h);
    assert ZipFoot(fs, x) + multiset{} == ZipFoot(fs, x);
    forall v | v in ZipFoot(fs, x) ensures v in w.store {
      ZipFootInStore(w, fs, x, h, v);
    }
  }

  lemma {:induction false} NoDupSet(m: multiset<Vbn>, s: set<Vbn>)
    requires NoDup(m) && forall v :: v in s <==> v in m
    ensures m == multiset(s) && |m| == |s|
  {
    forall v ensures m[v] == multiset(s)[v] {
      assert m[v] <= 1;
    }
    assert m == multiset(s);
  }

  lemma {:induction false} SubsetSize<T>(a: set<T>, b: set<T>)
    requires a <= b && |a| == |b|
    ensures a == b
  {
    assert b == a + (b - a) && |b - a| == 0;
  }

  // ---- the size of the store

  lemma {:induction false} MapRemoveSize<T, U>(m: map<T, U>, k: T)
    requires k in m
    ensures |m - {k}| == |m| - 1 && k !in m - {k}
  {
    assert (m - {k}).Keys == m.Keys - {k};
    assert |(m - {k}).Keys| == |m.Keys| - 1;
  }

  lemma {:induction false} MovedSize(p: Path, d: nat, v: Vbn, nv: Vbn)
    requires d <= |p.fs| && p.x.Node? && VbnAt(p.fs, p.x.vbn, d) in p.w.store && nv !in p.w.store
    ensures |MovedAt(p, d, v, nv).w.store| == |p.w.store|
  {
    MapRemoveSize(p.w.store, VbnAt(p.fs, p.x.vbn, d));
  }

  // ---- set_ib_dirty

  lemma {:induction false} SamePathFoot(fs: seq<Frame>, gs: seq<Frame>)
    requires SamePath(fs, gs) && forall f | f in fs :: f.pos < |f.kids| == |f.es|
    ensures |CtxFoot(gs)| == |CtxFoot(fs)|
    decreases |fs|
  {
    hide FrameFoot, SetVbn;
    if fs != [] {
      var n := |fs| - 1;
      assert SameAt(fs, gs, n);
      forall i | 0 <= i < n ensures SameAt(fs[..n], gs[..n], i) {
        assert SameAt(fs, gs, i);
      }
      SamePathFoot(fs[..n], gs[..n]);
      FrameFootVbn(fs[n], gs[n]);
      SameSize(FrameFoot(fs[n]), FrameFoot(gs[n]), gs[n].vbn, fs[n].vbn);
    }
  }

  lemma {:induction false} SameSize(a: multiset<Vbn>, b: multiset<Vbn>, v: Vbn, u: Vbn)
    requires a + multiset{v} == b + multiset{u}
    ensures |a| == |b|
  {
    assert |a + multiset{v}| == |a| + 1 && |b + multiset{u}| == |b| + 1;
  }

  lemma {:induction false} CountMoved(w: World, fs: seq<Frame>, x: Tree, u: World, gs: seq<Frame>, y: Tree, h: nat,
      d: int, m: multiset<Vbn>)
    requires PathOk(w, fs, x, h, d, 0, m) && Progress(w, fs, x, u, gs, y, m)
    requires Counted(w, fs, x, m) && |u.store| == |w.store|
    ensures Counted(u, gs, y, m)
  {
    hide CtxFoot, PathLinks, CtxHolds, FootAll;
    SamePathFoot(fs, gs);
    assert |Foot(x)| == 1 + |FootAll(x.kids)| == |Foot(y)|;
  }

  // ---- edits of the block under the cursor

  /** The block gets other children; owned blocks move between it and m. */
  lemma {:induction false} CountRewritten(w: World, fs: seq<Frame>, x: Tree, m: multiset<Vbn>, y: Tree,
      m': multiset<Vbn>, b: Block)
    requires Counted(w, fs, x, m) && x.Node? && y.Node? && x.vbn in w.store && y.vbn == x.vbn
    requires FootAll(y.kids) + m' == FootAll(x.kids) + m
    ensures Counted(Rewritten(w, x.vbn, b), fs, y, m')
  {
    hide CtxFoot, FootAll;
    assert |FootAll(y.kids)| + |m'| == |FootAll(y.kids) + m'|;
    assert |FootAll(x.kids)| + |m| == |FootAll(x.kids) + m|;
    assert |Foot(x)| == 1 + |FootAll(x.kids)| && |Foot(y)| == 1 + |FootAll(y.kids)|;
  }

  lemma {:induction false} CountInserted(w: World, fs: seq<Frame>, x: Tree, p: nat, e: Entry, l: Tree, b: Block)
    requires Counted(w, fs, x, Foot(l)) && x.Node? && x.vbn in w.store && p <= |x.kids|
    ensures Counted(Rewritten(w, x.vbn, b), fs, Inserted(x, p, e, l), multiset{})
  {
    hide Counted, FootAll, Foot, Insert;
    InsertFoot(x.kids, p, l);
    CountRewritten(w, fs, x, Foot(l), Inserted(x, p, e, l), multiset{}, b);
  }

  lemma {:induction false} CountDeleted(w: World, fs: seq<Frame>, x: Tree, p: nat, b: Block)
    requires Counted(w, fs, x, multiset{}) && x.Node? && x.vbn in w.store && p < |x.kids|
    ensures Counted(Rewritten(w, x.vbn, b), fs, Deleted(x, p), Foot(x.kids[p]))
  {
    hide Counted, FootAll, Foot, Delete;
    DeleteFoot(x.kids, p);
    CountRewritten(w, fs, x, multiset{}, Deleted(x, p), Foot(x.kids[p]), b);
  }

  lemma {:induction false} CountRepaired(w: World, fs: seq<Frame>, z: Tree, p: nat, b: Block)
    requires Counted(w, fs, z, multiset{}) && z.Node? && z.vbn in w.store && p < |z.kids| && z.kids[p].Nil?
    ensures Counted(Rewritten(w, z.vbn, b), fs, Repaired(z, p), multiset{})
  {
    hide Counted, FootAll, Delete, RepairedEntries;
    DeleteFoot(z.kids, p);
    CountRewritten(w, fs, z, multiset{}, Repaired(z, p), multiset{}, b);
  }

  lemma {:induction false} CountSmall(w: World, z: Tree, b: Block)
    requires Counted(w, [], z, multiset{}) && Hollow(z) && z.vbn in w.store
    ensures Counted(Rewritten(w, z.vbn, b), [], Node(z.vbn, z.cap, b.es, [Nil]), multiset{})
  {
    hide Counted;
    assert z.kids == [Nil];
    CountRewritten(w, [], z, multiset{}, Node(z.vbn, z.cap, b.es, [Nil]), multiset{}, b);
  }

  // ---- freeing and adding blocks

  lemma {:induction false} CountFreed(w: World, fs: seq<Frame>, y: Tree)
    requires Counted(w, fs, y, multiset{}) && fs != [] && Hollow(y) && y.vbn in w.store
    requires fs[|fs| - 1].pos < |fs[|fs| - 1].kids|
    ensures Counted(Freed(w, y.vbn), fs[..|fs| - 1], Close(fs[|fs| - 1], Nil), multiset{})
  {
    hide FrameFoot, Foot;
    var n := |fs| - 1;
    CloseFoot(fs[n], Nil);
    HollowFoot(y);
    MapRemoveSize(w.store, y.vbn);
  }

  lemma {:induction false} CountAdded(w: World, fs: seq<Frame>, x: Tree, m: multiset<Vbn>, nv: Vbn, b: Block,
      dirty: set<Vbn>)
    requires Counted(w, fs, x, m) && nv !in w.store
    ensures Counted(World(w.store[nv := b], dirty, w.disk), fs, x, multiset{nv} + m)
  {
    hide ZipFoot;
    assert |multiset{nv} + m| == 1 + |m|;
  }

  lemma {:induction false} CountReparented(w: World, x: Tree, m: multiset<Vbn>, nv: Vbn)
    requires Counted(w, [], x, m) && x.Node? && x.vbn in w.store && nv !in w.store
    ensures Counted(Reparented(w, x, nv), [], NewRoot(x, nv), m)
  {
    hide Counted, FootAll;
    var b := Block(BLOCK_CAP, x.es);
    CountAdded(w, [], x, m, nv, b, w.dirty + {nv});
    NewRootFlat(x, nv);
    assert FootAll(NewRoot(x, nv).kids) + m == FootAll(x.kids) + (multiset{nv} + m);
    CountRewritten(World(w.store[nv := b], w.dirty + {nv}, w.disk), [], x, multiset{nv} + m, NewRoot(x, nv), m,
                   Block(x.cap, [EndEntry(true, nv)]));
  }

  /** The end of split_ib: the block is cut to its left part a, and r takes its place in the parent. */
  lemma {:induction false} CountSplit(w: World, fs: seq<Frame>, x: Tree, h: nat, k: nat, nv: Vbn, p: nat, e: Entry,
      l: Tree, b: Block, c: Block)
    requires Counted(w, fs, x, multiset{nv} + Foot(l)) && fs != []
    requires PathOk(w, fs, x, h, -1, 0, multiset{nv} + Foot(l)) && |x.es| == |x.kids| && k < |x.es| && p < |x.es|
    ensures var n := |fs| - 1; var a, r := LeftPart(x, k, p, e, l), RightPart(x, k, nv, p, e, l);
            Counted(Rewritten(Rewritten(w, x.vbn, b), fs[n].vbn, c), fs[..n], Swapped(fs[n], r), Foot(a))
  {
    hide Counted, LeftPart, RightPart, ZipFoot, FootAll, PathOk;
    PathFrames(w, fs, x, h, -1, multiset{nv} + Foot(l));
    var n := |fs| - 1;
    var f := fs[n];
    var a, r := LeftPart(x, k, p, e, l), RightPart(x, k, nv, p, e, l);
    PartsVbn(x, x.vbn, k, nv, p, e, l);
    SplitFoot(x, k, nv, p, e, l);
    CutFoot(FootAll(a.kids), FootAll(r.kids), FootAll(x.kids), Foot(l), nv);
    CountRewritten(w, fs, x, multiset{nv} + Foot(l), a, Foot(r), b);
    var t := Rewritten(w, x.vbn, b);
    ZipUpView(fs, a);
    CountSame(t, fs, a, fs[..n], Close(f, a), Foot(r));
    SwapFoot(f, a, r);
    CountRewritten(t, fs[..n], Close(f, a), Foot(r), Swapped(f, r), Foot(a), c);
  }

  lemma {:induction false} PathFrames(w: World, fs: seq<Frame>, x: Tree, h: nat, d: int, m: multiset<Vbn>)
    requires PathOk(w, fs, x, h, d, 0, m) && fs != []
    ensures forall f | f in fs :: f.pos < |f.kids| == |f.es|
    ensures x.Node? && x.vbn in w.store && fs[|fs| - 1].vbn in w.store
  {
    hide Foot, CtxFoot, FrameShape;
    LastFrame(w, fs, x, h, d, m);
  }

  lemma {:induction false} CountStore(w: World, u: World, fs: seq<Frame>, x: Tree, m: multiset<Vbn>)
    requires Counted(w, fs, x, m) && u.store == w.store
    ensures Counted(u, fs, x, m)
  {
  }

  /** Opening and closing blocks along the path. */
  lemma {:induction false} CountSame(w: World, fs: seq<Frame>, x: Tree, gs: seq<Frame>, y: Tree, m: multiset<Vbn>)
    requires Counted(w, fs, x, m) && ZipFoot(fs, x) == ZipFoot(gs, y)
    ensures Counted(w, gs, y, m)
  {
  }

  lemma {:induction false} TopFoot(x: Tree)
    ensures ZipFoot([], x) == Foot(x)
  {
  }

  lemma {:induction false} CountEmpty(w: World, x: Tree)
    requires x.Node? && x.kids == [Nil] && w.store.Keys == {x.vbn}
    ensures Counted(w, [], x, multiset{})
  {
    FootOne(Nil);
    assert |w.store| == |w.store.Keys| == 1;
  }

  lemma {:induction false} CountCached(disk: map<Vbn, Block>, t: Tree)
    requires OnDisk(disk, t) && NoDup(Foot(t))
    ensures Counted(World(Cached(disk, t), {}, disk), [], t, multiset{})
  {
    hide Foot, OnDisk;
    var store := Cached(disk, t);
    forall v ensures v in store.Keys <==> v in Foot(t) {
      if v in Foot(t) { OnDiskMember(disk, t, v); }
    }
    NoDupSet(Foot(t), store.Keys);
    assert |store.Keys| == |store|;
    assert ZipFoot([], t) == Foot(t);
  }
}
