/** Inserting a pending entry, with the subtree to its left, at the cursor. */
module IndexTreeInsert {
  import opened IndexLayout
  import opened IndexTreeShape
  import opened IndexTreeZipper
  import opened IndexTreeDirty
  import opened IndexTreeEdit
  import opened IndexTreeSplit
  import opened IndexTreeLanding

  /** The state of tree_insert_ie: a well-formed tree opened down to block x, a position in x, and
      a pending entry whose left child l is stored but not linked yet. */
  ghost predicate InsertOk(w: World, fs: seq<Frame>, x: Tree, p: nat, e: Entry, l: Tree, h: nat) {
    && ZipOk(w, fs, x, h)
    && Holds(w, l)
    && Shape(l, h - |fs| - 1, false)
    && NoDup(ZipFoot(fs, x) + Foot(l))
    && Apart(w, Foot(l))
    && p < |x.es|
    && EntryOk(e, h - |fs| > 1)
    && !e.end
    && e.vbn == RootVbn(l)
  }

  /** The contents of the tree with the pending entry in place. */
  function InsertFlat(fs: seq<Frame>, x: Tree, p: nat, e: Entry, l: Tree): seq<KV> {
    Before(fs) + Pending(x, p, e, l) + After(fs)
  }

  // ---- the entry fits

  lemma {:induction false} ShapeVbn(x: Tree, v: Vbn, h: nat, root: bool)
    requires Shape(x, h, root) && 1 <= h && v != 0
    ensures Shape(x.(vbn := v), h, root)
  {
  }

  lemma {:induction false} FitStart(w: World, fs: seq<Frame>, x: Tree, p: nat, e: Entry, l: Tree, h: nat)
    requires InsertOk(w, fs, x, p, e, l, h)
    requires RealSize(x.es) + Len(e) <= x.cap
    ensures var y := Inserted(x, p, e, l);
            && PathOk(Rewritten(w, x.vbn, Block(x.cap, y.es)), fs, y, h, |fs|, 0, multiset{})
            && Shape(y, h - |fs|, |fs| == 0)
            && InsertFlat(fs, x, p, e, l) == ZipFlat(fs, y)
  {
    hide Flat, Weave, Foot, Before, After, CtxFoot, SumLen;
    hide PathHeld, PathLinks, CtxShape, CtxHolds, Linked, DirtyUp;
    var y := Inserted(x, p, e, l);
    FlatIs(y);
    ZipToPath(w, fs, x, h, Foot(l));
    InsertFoot(x.kids, p, l);
    InsertShape(x, p, e, l, h - |fs|, |fs| == 0);
    InsertWeave(x.kids, x.es, p, e, l);
    InsertHolds(w, x.kids, p, l);
    Rewrite(w, fs, x, h, |fs|, Foot(l), y.es, y.kids, multiset{});
  }

  /** After set_ib_dirty the tree is well formed again, with the same contents. */
  lemma {:induction false} DirtyDone(w: World, fs: seq<Frame>, x: Tree, u: World, gs: seq<Frame>, y: Tree, h: nat,
      m: multiset<Vbn>)
    requires CtxShape(fs, h) && Shape(x, h - |fs|, |fs| == 0)
    requires PathOk(u, gs, y, h, -1, 0, m) && Progress(w, fs, x, u, gs, y, m)
    ensures ZipOk(u, gs, y, h) && NoDup(ZipFoot(gs, y) + m) && Apart(u, m)
    ensures ZipFlat(gs, y) == ZipFlat(fs, x) && Before(gs) == Before(fs) && After(gs) == After(fs)
  {
    hide Flat, Weave, Before, After, CtxFoot, Foot, PathHeld, PathLinks, CtxHolds, SumLen;
    PathDirty(u, gs, y, h, m);
    assert y == x.(vbn := y.vbn);
    ShapeVbn(x, y.vbn, h - |fs|, |fs| == 0);
    PathToZip(u, gs, y, h, -1, m);
    SamePathView(fs, gs);
    FlatIs(x);
    FlatIs(y);
  }

  lemma {:induction false} ProgressFocus(w: World, fs: seq<Frame>, x: Tree, u: World, gs: seq<Frame>, y: Tree,
      m: multiset<Vbn>)
    requires Progress(w, fs, x, u, gs, y, m)
    ensures Renumbered(x, y) && w.disk == u.disk && |fs| == |gs|
    ensures fs != [] ==> |fs[0].es| == |gs[0].es|
  {
    if fs != [] { assert SameAt(fs, gs, 0); }
  }

  // ---- the root overflows

  function NewRoot(x: Tree, nv: Vbn): Tree
    requires x.Node?
  {
    Node(x.vbn, x.cap, [EndEntry(true, nv)], [Node(nv, BLOCK_CAP, x.es, x.kids)])
  }

  /** The store after reparent_root moved the root's entries to block nv. */
  function Reparented(w: World, x: Tree, nv: Vbn): World
    requires x.Node?
  {
    World(w.store[nv := Block(BLOCK_CAP, x.es)][x.vbn := Block(x.cap, [EndEntry(true, nv)])], w.dirty + {nv}, w.disk)
  }

  lemma {:induction false} NewRootShape(x: Tree, h: nat, nv: Vbn)
    requires Shape(x, h, true) && nv != 0 && (h == 1 ==> 1 < |x.es|)
    ensures Shape(NewRoot(x, nv), h + 1, true)
  {
    var r := NewRoot(x, nv);
    assert SumLen([EndEntry(true, nv)]) == Len(EndEntry(true, nv)) + SumLen([]);
    assert Shape(r.kids[0], h, false);
  }

  lemma {:induction false} NewRootFlat(x: Tree, nv: Vbn)
    requires x.Node?
    ensures Flat(NewRoot(x, nv)) == Flat(x)
    ensures FootAll(NewRoot(x, nv).kids) == multiset{nv} + FootAll(x.kids)
  {
    WeaveOne(NewRoot(x, nv).kids[0], EndEntry(true, nv));
    FootOne(NewRoot(x, nv).kids[0]);
  }

  lemma {:induction false} AddBlock(w: World, fs: seq<Frame>, x: Tree, h: nat, m: multiset<Vbn>, nv: Vbn, b: Block)
    requires PathOk(w, fs, x, h, |fs|, 0, m) && nv !in w.store && nv != 0
    ensures var u := World(w.store[nv := b], w.dirty + {nv}, w.disk);
            PathOk(u, fs, x, h, |fs|, 0, multiset{nv} + m)
    ensures var u := World(w.store[nv := b], w.dirty + {nv}, w.disk);
            forall a | a != nv :: Same(w, u, a)
  {
    hide Foot, CtxFoot, FrameFoot, FrameShape, FrameHolds, Holds;
    var u := World(w.store[nv := b], w.dirty + {nv}, w.disk);
    ZipFootInStore(w, fs, x, h, nv);
    PathInStore(w, fs, x, h);
    AddFoot(ZipFoot(fs, x), m, nv);
    forall i | 0 <= i < |fs| ensures HoldsAt(u, fs, i) && DirtyAt(u, fs, x.vbn, i) {
      assert HoldsAt(w, fs, i) && DirtyAt(w, fs, x.vbn, i);
      forall a | a in FrameFoot(fs[i]) ensures Same(w, u, a) {
        FrameFootInStore(w, fs[i], a);
      }
      FrameHoldsFrame(w, u, fs[i]);
      assert VbnAt(fs, x.vbn, i + 1) in w.store;
    }
    forall k | 0 <= k < |x.kids| ensures Holds(u, x.kids[k]) {
      StillHolds(w, u, x.kids[k], nv);
    }
  }

  lemma {:induction false} AddFoot(z: multiset<Vbn>, m: multiset<Vbn>, nv: Vbn)
    requires NoDup(z + m) && nv !in z + m
    ensures NoDup(z + (multiset{nv} + m))
  {
    forall a {:trigger (z + (multiset{nv} + m))[a]} ensures (z + (multiset{nv} + m))[a] <= 1 {
      assert (z + m)[a] <= 1;
    }
  }

  lemma {:induction false} StillHolds(w: World, u: World, t: Tree, nv: Vbn)
    requires Holds(w, t) && nv !in w.store && 0 !in w.dirty && 0 !in u.dirty
    requires forall a | a != nv :: Same(w, u, a)
    ensures Holds(u, t)
  {
    forall a | a in Foot(t) ensures Same(w, u, a) {
      FootInStore(w, t, a);
    }
    HoldsFrame(w, u, t);
  }

  lemma {:induction false} KeptHolds(w: World, u: World, t: Tree, m: multiset<Vbn>)
    requires Holds(w, t) && Kept(w, u, m) && 0 !in w.dirty && 0 !in u.dirty
    requires forall v | v in Foot(t) :: v in m
    ensures Holds(u, t)
  {
    forall a | a in Foot(t) ensures Same(w, u, a) {
    }
    HoldsFrame(w, u, t);
  }

  lemma {:induction false} OverfullRoot(w: World, x: Tree, p: nat, e: Entry, l: Tree, h: nat)
    requires InsertOk(w, [], x, p, e, l, h)
    requires RealSize(x.es) + Len(e) > x.cap
    ensures x.Node? && 1 < |x.es|
  {
    hide InsertOk, RealSize;
    InsertFacts(w, [], x, p, e, l, h);
  }

  /** reparent_root up to its call of set_ib_dirty. */
  lemma {:induction false} ReparentStart(w: World, x: Tree, p: nat, e: Entry, l: Tree, h: nat, nv: Vbn)
    requires InsertOk(w, [], x, p, e, l, h)
    requires RealSize(x.es) + Len(e) > x.cap
    requires nv !in w.store && nv != 0
    ensures PathOk(Reparented(w, x, nv), [], NewRoot(x, nv), h + 1, 0, 0, Foot(l))
    ensures Shape(NewRoot(x, nv), h + 1, true)
    ensures Holds(Reparented(w, x, nv), l) && 0 !in Reparented(w, x, nv).dirty
  {
    hide Foot, CtxFoot, Flat;
    var u := World(w.store[nv := Block(BLOCK_CAP, x.es)], w.dirty + {nv}, w.disk);
    ZipToPath(w, [], x, h, Foot(l));
    AddBlock(w, [], x, h, Foot(l), nv, Block(BLOCK_CAP, x.es));
    StillHolds(w, u, l, nv);
    OverfullRoot(w, x, p, e, l, h);
    NewRootShape(x, h, nv);
    NewRootFlat(x, nv);
    var y := Node(nv, BLOCK_CAP, x.es, x.kids);
    assert Holds(u, y);
    assert PathOk(u, [], x, h + 1, 0, 0, multiset{nv} + Foot(l));
    Rewrite(u, [], x, h + 1, 0, multiset{nv} + Foot(l), [EndEntry(true, nv)], [y], Foot(l));
    KeptHolds(u, Reparented(w, x, nv), l, Foot(l));
  }

  /** reparent_root after set_ib_dirty gave the root its number: the cursor steps down. */
  lemma {:induction false} ReparentDone(w: World, x: Tree, p: nat, e: Entry, l: Tree, h: nat, nv: Vbn, u: World,
      r: Tree)
    requires x.Node? && Shape(NewRoot(x, nv), h + 1, true) && p < |x.es| == |x.kids|
    requires PathOk(u, [], r, h + 1, -1, 0, Foot(l)) && Progress(w, [], NewRoot(x, nv), u, [], r, Foot(l))
    requires Holds(w, l) && 0 !in w.dirty
    requires Shape(l, h - 1, false) && EntryOk(e, h > 1) && !e.end && e.vbn == RootVbn(l)
    ensures r.Node? && |r.es| == |r.kids| == 1
    ensures InsertOk(u, [OpenAt(r, 0)], r.kids[0], p, e, l, h + 1)
    ensures r.kids[0] == Node(nv, BLOCK_CAP, x.es, x.kids) && r.es == [EndEntry(true, nv)]
    ensures InsertFlat([OpenAt(r, 0)], r.kids[0], p, e, l) == InsertFlat([], x, p, e, l)
    ensures Before([OpenAt(r, 0)]) == [] && Bare(OpenAt(r, 0)) && SmallEntries(x.es)
    ensures ZipFoot([OpenAt(r, 0)], r.kids[0]) == ZipFoot([], r)
  {
    hide Holds, Foot, Weave, Flat, Bare, SmallEntries, InsertFlat, Before, After, Shape, PathHeld, PathLinks, Kept,
      CtxHolds, Linked, DirtyUp,
      NewRoot, CtxFoot, InsertOk, ZipOk;
    ProgressSame(w, [], NewRoot(x, nv), u, [], r, Foot(l));
    DirtyDone(w, [], NewRoot(x, nv), u, [], r, h + 1, Foot(l));
    ReparentView(x, p, e, l, nv, r);
    RootSmall(r.kids[0], h) by { ReparentKid(x, nv, h, r); }
    ZipDown(u, [], r, h + 1, 0) by { ReparentKid(x, nv, h, r); }
    assert [] + [OpenAt(r, 0)] == [OpenAt(r, 0)];
    ReparentKept(w, u, r, h, nv, l);
    ReparentReady(u, [OpenAt(r, 0)], r.kids[0], p, e, l, h);
  }

  lemma {:induction false} SamePathEmpty(w: World, x: Tree, u: World, gs: seq<Frame>, y: Tree, m: multiset<Vbn>)
    requires Progress(w, [], x, u, gs, y, m)
    ensures gs == []
  {
  }

  lemma {:induction false} ReparentKid(x: Tree, nv: Vbn, h: nat, r: Tree)
    requires x.Node? && Shape(NewRoot(x, nv), h + 1, true) && Renumbered(NewRoot(x, nv), r)
    ensures r.kids == [Node(nv, BLOCK_CAP, x.es, x.kids)] && |r.es| == 1 && Shape(r.kids[0], h, false) && 1 <= h
  {
  }

  /** What is stored is kept. */
  lemma {:induction false} ReparentKept(w: World, u: World, r: Tree, h: nat, nv: Vbn, l: Tree)
    requires PathOk(u, [], r, h + 1, -1, 0, Foot(l)) && Kept(w, u, Foot(l)) && Holds(w, l) && 0 !in w.dirty
    ensures Holds(u, l) && 0 !in u.dirty
  {
    hide Holds, Foot, PathHeld, PathLinks, CtxFoot;
    KeptHolds(w, u, l, Foot(l));
  }

  lemma {:induction false} ReparentReady(u: World, fs: seq<Frame>, x: Tree, p: nat, e: Entry, l: Tree, h: nat)
    requires ZipOk(u, fs, x, h + 1) && |fs| == 1 && NoDup(ZipFoot(fs, x) + Foot(l)) && Apart(u, Foot(l)) && Holds(u, l)
    requires Shape(l, h - 1, false) && EntryOk(e, h > 1) && !e.end && e.vbn == RootVbn(l) && x.Node? && p < |x.es|
    ensures InsertOk(u, fs, x, p, e, l, h + 1)
  {
    hide ZipOk, Holds, Foot, CtxFoot, NoDup;
  }

  /** The root keeps nothing but END, and the contents are as before. */
  lemma {:induction false} ReparentView(x: Tree, p: nat, e: Entry, l: Tree, nv: Vbn, r: Tree)
    requires x.Node? && Renumbered(NewRoot(x, nv), r) && p < |x.es| == |x.kids|
    ensures r.kids == [Node(nv, BLOCK_CAP, x.es, x.kids)] && r.es == [EndEntry(true, nv)]
    ensures var f := OpenAt(r, 0);
            Before([f]) == [] && Bare(f) && InsertFlat([f], r.kids[0], p, e, l) == InsertFlat([], x, p, e, l)
                && ZipFoot([f], r.kids[0]) == ZipFoot([], r)
  {
    hide Foot, Weave, Flat, CtxFoot, FootAll, Plug, SumLen, FrameFoot, Before, After, ZipFlat, ZipFoot, LeftOf, RightOf;
    ZipDownView([], r, 0);
    BeforeTop();
    assert [] + [OpenAt(r, 0)] == [OpenAt(r, 0)];
    assert LeftOf(r.kids, r.es, 0) == [] && RightOf(r.kids, r.es, 0) == [] by { ReparentSides(nv, r); }
    assert Pending(r.kids[0], p, e, l) == Pending(x, p, e, l);
  }

  lemma {:induction false} ReparentSides(nv: Vbn, r: Tree)
    requires r.Node? && |r.kids| == 1 && r.es == [EndEntry(true, nv)]
    ensures LeftOf(r.kids, r.es, 0) == [] && RightOf(r.kids, r.es, 0) == []
  {
  }

  lemma {:induction false} RootSmall(x: Tree, h: nat)
    requires Shape(x, h, false) && 1 <= h
    ensures SmallEntries(x.es)
  {
    forall i | 0 <= i < |x.es| ensures Len(x.es[i]) <= ENTRY_HEAD_SIZE + KEY_MAX_SIZE + VALUE_MAX_SIZE + VBN_SIZE {
      assert EntryOk(x.es[i], h > 1);
    }
  }

  // ---- a block below the root overflows

  /** split_ib up to its call of set_ib_dirty: the right part is stored under a new number. */
  lemma {:induction false} SplitStart(w: World, fs: seq<Frame>, x: Tree, p: nat, e: Entry, l: Tree, h: nat, nv: Vbn)
    requires InsertOk(w, fs, x, p, e, l, h) && fs != []
    requires RealSize(x.es) + Len(e) > x.cap
    requires nv !in w.store && nv != 0
    ensures var k := Middle(x.es); var r := RightPart(x, k, nv, p, e, l);
            var u := World(w.store[nv := Block(r.cap, r.es)], w.dirty + {nv}, w.disk);
            && 1 <= k < |x.es| - 2
            && PathOk(u, fs, x, h, |fs|, 0, multiset{nv} + Foot(l))
            && RightStored(u, x, p, e, l, h - |fs|, nv)
  {
    hide Holds, Foot, CtxFoot, SumLen, Middle, PathHeld, PathLinks, CtxHolds, Linked, DirtyUp, FrameShape, LeftPart,
      RightPart;
    var k := Middle(x.es);
    var r := RightPart(x, k, nv, p, e, l);
    InsertFacts(w, fs, x, p, e, l, h);
    PartsVbn(x, x.vbn, k, nv, p, e, l);
    SplitShape(x, h - |fs|, nv, p, e, l);
    ZipToPath(w, fs, x, h, Foot(l));
    AddBlock(w, fs, x, h, Foot(l), nv, Block(r.cap, r.es));
    var u := World(w.store[nv := Block(r.cap, r.es)], w.dirty + {nv}, w.disk);
    StillHolds(w, u, l, nv);
  }

  lemma {:induction false} InsertHolds(w: World, kids: seq<Tree>, p: nat, l: Tree)
    requires forall i | 0 <= i < |kids| :: Holds(w, kids[i])
    requires Holds(w, l)
    ensures var ks := Insert(kids, p, l); forall i | 0 <= i < |ks| :: Holds(w, ks[i])
  {
    hide Holds;
    var ks := Insert(kids, p, l);
    forall i | 0 <= i < |ks| ensures Holds(w, ks[i]) {
      if p <= |kids| && i == p { assert ks[i] == l; }
      else { assert ks[i] == kids[if p <= |kids| && p < i then i - 1 else i]; }
    }
  }

  lemma {:induction false} PartsHold(w: World, x: Tree, k: nat, nv: Vbn, p: nat, e: Entry, l: Tree)
    requires x.Node? && |x.es| == |x.kids| && p < |x.es| && k < |x.es|
    requires forall i | 0 <= i < |x.kids| :: Holds(w, x.kids[i])
    requires Holds(w, l)
    ensures var a := LeftPart(x, k, p, e, l); forall i | 0 <= i < |a.kids| :: Holds(w, a.kids[i])
    ensures var b := RightPart(x, k, nv, p, e, l); forall i | 0 <= i < |b.kids| :: Holds(w, b.kids[i])
  {
    hide Holds;
    var a, b := x.kids[..k + 1], x.kids[k + 1..];
    forall i | 0 <= i < |a| ensures Holds(w, a[i]) { assert a[i] == x.kids[i]; }
    forall i | 0 <= i < |b| ensures Holds(w, b[i]) { assert b[i] == x.kids[i + k + 1]; }
    if p <= k {
      InsertHolds(w, a, p, l);
    } else {
      InsertHolds(w, b, p - k - 1, l);
    }
  }

  /** split_ib cuts the old block down to the left part. */
  lemma {:induction false} SplitCut(u: World, fs: seq<Frame>, x: Tree, p: nat, e: Entry, l: Tree, h: nat, nv: Vbn)
    requires x.Node? && PathOk(u, fs, x, h, -1, 0, multiset{nv} + Foot(l)) && fs != []
    requires |x.es| == |x.kids| && p < |x.es| && x.es[|x.es| - 1].end && Middle(x.es) < |x.es|
    requires var r := RightPart(x, Middle(x.es), nv, p, e, l);
             Held(u, nv, r.cap, r.es) && nv in u.dirty && Shape(r, h - |fs|, false)
    requires Holds(u, l)
    requires Shape(LeftPart(x, Middle(x.es), p, e, l), h - |fs|, false)
    ensures var k := Middle(x.es); var r, a := RightPart(x, k, nv, p, e, l), LeftPart(x, k, p, e, l);
            var t := Rewritten(u, x.vbn, Block(a.cap, a.es));
            && ZipOk(t, fs, a, h) && NoDup(ZipFoot(fs, a) + Foot(r)) && Apart(t, Foot(r))
            && Holds(t, r)
            && fs[|fs| - 1].vbn in t.dirty
  {
    hide PathHeld, PathLinks, NoDup, Shape, CtxFoot, FootAll, LeftPart, RightPart, Middle;
    var k := Middle(x.es);
    var r, a := RightPart(x, k, nv, p, e, l), LeftPart(x, k, p, e, l);
    PartsVbn(x, x.vbn, k, nv, p, e, l);
    var t := Rewritten(u, x.vbn, Block(a.cap, a.es));
    PathDirty(u, fs, x, h, multiset{nv} + Foot(l));
    PathKids(u, fs, x, h, -1, multiset{nv} + Foot(l));
    PartsHold(u, x, k, nv, p, e, l);
    SplitFoot(x, k, nv, p, e, l);
    CutFoot(FootAll(a.kids), FootAll(r.kids), FootAll(x.kids), Foot(l), nv);
    Rewrite(u, fs, x, h, -1, multiset{nv} + Foot(l), a.es, a.kids, Foot(r));
    assert Holds(u, r) && a == Node(x.vbn, x.cap, a.es, a.kids);
    SplitCutDone(u, t, fs, a, r, h);
  }

  lemma {:induction false} PathKids(w: World, fs: seq<Frame>, x: Tree, h: nat, d: int, m: multiset<Vbn>)
    requires PathOk(w, fs, x, h, d, 0, m)
    ensures x.Node? && (forall k | 0 <= k < |x.kids| :: Holds(w, x.kids[k])) && 0 !in w.dirty
  {
  }

  lemma {:induction false} CutFoot(a: multiset<Vbn>, r: multiset<Vbn>, x: multiset<Vbn>, l: multiset<Vbn>, nv: Vbn)
    requires a + r == x + l
    ensures a + (multiset{nv} + r) == x + (multiset{nv} + l)
  {
    assert a + (multiset{nv} + r) == multiset{nv} + (a + r);
  }

  lemma {:induction false} SplitCutDone(u: World, t: World, fs: seq<Frame>, a: Tree, r: Tree, h: nat)
    requires PathOk(t, fs, a, h, -1, 0, Foot(r)) && Shape(a, h - |fs|, false) && fs != []
    requires Holds(u, r) && Kept(u, t, Foot(r)) && 0 !in u.dirty
    ensures ZipOk(t, fs, a, h) && NoDup(ZipFoot(fs, a) + Foot(r)) && Apart(t, Foot(r))
    ensures Holds(t, r) && fs[|fs| - 1].vbn in t.dirty
  {
    hide Holds, Foot, Shape, CtxFoot;
    PathDirty(t, fs, a, h, Foot(r));
    PathToZip(t, fs, a, h, -1, Foot(r));
    KeptHolds(u, t, r, Foot(r));
  }

  /** The parent of the block under the cursor, with block r in place of it. */
  function Swapped(f: Frame, r: Tree): Tree {
    Node(f.vbn, f.cap, SetVbn(f.es, f.pos, RootVbn(r)), if f.pos < |f.kids| then f.kids[f.pos := r] else f.kids)
  }

  lemma {:induction false} SwapFoot(f: Frame, a: Tree, r: Tree)
    requires f.pos < |f.es| == |f.kids|
    ensures FootAll(Swapped(f, r).kids) + Foot(a) == FootAll(Close(f, a).kids) + Foot(r)
  {
    hide Foot, FootAll;
    FootAt(f.kids[f.pos := r], f.pos);
    FootAt(f.kids[f.pos := a], f.pos);
    assert f.kids[f.pos := r][..f.pos] == f.kids[f.pos := a][..f.pos];
    assert f.kids[f.pos := r][f.pos + 1..] == f.kids[f.pos := a][f.pos + 1..];
  }

  lemma {:induction false} SwapShape(f: Frame, r: Tree, h: nat, root: bool)
    requires FrameShape(f, h, root) && Shape(r, h - 1, false)
    ensures Shape(Swapped(f, r), h, root)
  {
    var y := Swapped(f, r);
    FrameShapeSetVbn(f, h, root, f.vbn, RootVbn(r));
    forall i | 0 <= i < |y.kids|
      ensures Shape(y.kids[i], h - 1, false) && y.es[i].vbn == RootVbn(y.kids[i])
    {
      if i != f.pos { assert y.kids[i] == f.kids[i] && y.es[i] == f.es[i]; }
    }
  }

  /** The cursor steps up; the open entry is pointed at block r, and the block it named before is
      now the left child of the pending entry. */
  lemma {:induction false} SwapChild(w: World, fs: seq<Frame>, a: Tree, r: Tree, h: nat)
    requires ZipOk(w, fs, a, h) && fs != [] && Holds(w, r) && Shape(r, h - |fs|, false)
    requires NoDup(ZipFoot(fs, a) + Foot(r)) && Apart(w, Foot(r))
    requires fs[|fs| - 1].vbn in w.dirty
    ensures var n := |fs| - 1; var y := Swapped(fs[n], r);
            var t := Rewritten(w, y.vbn, Block(y.cap, y.es));
            && ZipOk(t, fs[..n], y, h) && Holds(t, a)
            && NoDup(ZipFoot(fs[..n], y) + Foot(a)) && Apart(t, Foot(a))
  {
    hide Foot, FootAll, CtxFoot, Shape, Holds, FrameShape, Flat, Weave, Before, After, PathHeld, PathLinks, NoDup;
    var n := |fs| - 1;
    var f := fs[n];
    var gs := fs[..n];
    var x, y := Close(f, a), Swapped(f, r);
    var t := Rewritten(w, y.vbn, Block(y.cap, y.es));
    SwapParts(w, fs, a, r, h);
    ZipUp(w, fs, a, h);
    ZipUpView(fs, a);
    ZipToPath(w, gs, x, h, Foot(r));
    SwapFoot(f, a, r);
    SwapShape(f, r, h - n, n == 0);
    Rewrite(w, gs, x, h, n, Foot(r), y.es, y.kids, Foot(a));
    SwapDone(w, t, gs, y, a, h);
  }

  lemma {:induction false} SwapParts(w: World, fs: seq<Frame>, a: Tree, r: Tree, h: nat)
    requires ZipOk(w, fs, a, h) && fs != [] && Holds(w, r) && fs[|fs| - 1].vbn in w.dirty
    ensures var n := |fs| - 1; FrameShape(fs[n], h - n, n == 0) && fs[n].pos < |fs[n].es| == |fs[n].kids|
    ensures var y := Swapped(fs[|fs| - 1], r); forall k | 0 <= k < |y.kids| :: Holds(w, y.kids[k])
    ensures Holds(w, a) && (forall f | f in fs :: f.pos < |f.kids| == |f.es|)
  {
    hide Holds;
    var n := |fs| - 1;
    var f := fs[n];
    var y := Swapped(f, r);
    assert ShapeAt(fs, h, n) && HoldsAt(w, fs, n);
    forall k | 0 <= k < |y.kids| ensures Holds(w, y.kids[k]) {
      if k != f.pos { assert y.kids[k] == f.kids[k]; }
    }
  }

  lemma {:induction false} SwapDone(w: World, t: World, gs: seq<Frame>, y: Tree, a: Tree, h: nat)
    requires PathOk(t, gs, y, h, |gs|, 0, Foot(a)) && Shape(y, h - |gs|, |gs| == 0) && y.vbn in t.dirty
    requires Holds(w, a) && Kept(w, t, Foot(a)) && 0 !in w.dirty
    ensures ZipOk(t, gs, y, h) && Holds(t, a)
    ensures NoDup(ZipFoot(gs, y) + Foot(a)) && Apart(t, Foot(a))
  {
    hide Holds, Foot, Shape, CtxFoot;
    PathToZip(t, gs, y, h, |gs|, Foot(a));
    KeptHolds(w, t, a, Foot(a));
  }

  // ---- where the entries are, counted in order

  /** In-order positions around the cursor: the pending entry, with the subtrees beside it,
      covers Lo..Hi, and itself is at Idx. */
  function Lo(fs: seq<Frame>, x: Tree, p: nat): nat {
    |Before(fs)| + if x.Node? then |LeftOf(x.kids, x.es, p)| else 0
  }

  function Idx(fs: seq<Frame>, x: Tree, p: nat, l: Tree): nat {
    Lo(fs, x, p) + |Flat(l)|
  }

  function Hi(fs: seq<Frame>, x: Tree, p: nat, l: Tree): nat {
    Idx(fs, x, p, l) + if x.Node? && p < |x.kids| then |Flat(x.kids[p])| else 0
  }

  lemma {:induction false} SwappedView(f: Frame, r: Tree)
    requires f.pos < |f.es| == |f.kids|
    ensures var y := Swapped(f, r);
            && LeftOf(y.kids, y.es, f.pos) == LeftOf(f.kids, f.es, f.pos)
            && Weave(y.kids[f.pos..], y.es[f.pos..]) == Flat(r) + RightOf(f.kids, f.es, f.pos)
            && y.kids[f.pos] == r
  {
    hide Flat;
    var y := Swapped(f, r);
    assert y.kids[..f.pos] == f.kids[..f.pos] && y.es[..f.pos] == f.es[..f.pos];
    assert y.kids[f.pos + 1..] == f.kids[f.pos + 1..] && y.es[f.pos + 1..] == f.es[f.pos + 1..];
    WeaveTail(y.kids, y.es, f.pos);
    Regroup3(Flat(r), Own(f.es[f.pos]), Weave(f.kids[f.pos + 1..], f.es[f.pos + 1..]));
  }

  lemma {:induction false} Regroup3(a: seq<KV>, b: seq<KV>, c: seq<KV>)
    ensures a + b + c == a + (b + c)
  {
  }

  lemma {:induction false} Regroup7(b: seq<KV>, lf: seq<KV>, a: seq<KV>, m: seq<KV>, r: seq<KV>, rf: seq<KV>,
      t: seq<KV>)
    ensures b + (lf + (a + m) + (r + rf)) + t == (b + lf) + (a + m + r) + (rf + t)
  {
  }

  /** The contents survive a split, and the entry that was pending ends up strictly on one side of
      the new pending entry, together with the subtrees beside it. */
  lemma {:induction false} SplitView(fs: seq<Frame>, x: Tree, p: nat, e: Entry, l: Tree, nv: Vbn)
    requires forall f | f in fs :: f.pos < |f.kids| == |f.es|
    requires fs != [] && x.Node? && |x.es| == |x.kids| && p < |x.es| && !e.end
    requires x.es[|x.es| - 1].end && Middle(x.es) < |x.es| - 1 && !x.es[Middle(x.es)].end
    ensures var n := |fs| - 1; var f := fs[n]; var k := Middle(x.es); var gs := fs[..n];
            var a, r := LeftPart(x, k, p, e, l), RightPart(x, k, nv, p, e, l);
            var y, mid := Swapped(f, r), AddVbn(x.es[k], x.vbn);
            && InsertFlat(gs, y, f.pos, mid, a) == InsertFlat(fs, x, p, e, l)
            && Lo(gs, y, f.pos) <= Lo(fs, x, p) && Hi(fs, x, p, l) <= Hi(gs, y, f.pos, a)
            && (if p <= k then Hi(fs, x, p, l) < Idx(gs, y, f.pos, a) else Idx(gs, y, f.pos, a) < Lo(fs, x, p))
            && (k < p ==> Idx(gs, y, f.pos, a) == RankIn(fs, OpenAt(x, p), k))
  {
    hide Flat, Weave;
    var n := |fs| - 1;
    var f := fs[n];
    var k := Middle(x.es);
    var a, r := LeftPart(x, k, p, e, l), RightPart(x, k, nv, p, e, l);
    SwappedView(f, r);
    if p <= k {
      SplitFlatLeft(x, k, nv, p, e, l);
    } else {
      SplitFlatRight(x, k, nv, p, e, l);
      LeftHalfFlat(x, k);
    }
    Regroup7(Before(fs[..n]), LeftOf(f.kids, f.es, f.pos), Flat(a), [x.es[k].kv], Flat(r),
             RightOf(f.kids, f.es, f.pos), After(fs[..n]));
    PendingLength(x, p, e, l);
  }

  lemma {:induction false} PendingLength(x: Tree, p: nat, e: Entry, l: Tree)
    requires x.Node? && |x.es| == |x.kids| && p < |x.es|
    ensures |LeftOf(x.kids, x.es, p)| + |Flat(l)| + 1 + |Flat(x.kids[p])| <= |Pending(x, p, e, l)|
  {
    WeaveTail(x.kids, x.es, p);
  }

  // ---- facts the operations start from

  lemma {:induction false} InsertFacts(w: World, fs: seq<Frame>, x: Tree, p: nat, e: Entry, l: Tree, h: nat)
    requires InsertOk(w, fs, x, p, e, l, h)
    ensures x.Node? && x.vbn != 0 && |fs| < h && p < |x.es| == |x.kids| && Held(w, x.vbn, x.cap, x.es)
    ensures x.es[|x.es| - 1].end && forall i | 0 <= i < |x.es| - 1 :: !x.es[i].end
    ensures x.cap == CapOf(fs == []) && RealSize(x.es) <= x.cap
    ensures !e.end && Len(e) <= ENTRY_HEAD_SIZE + KEY_MAX_SIZE + VALUE_MAX_SIZE + VBN_SIZE
    ensures EntryOk(e, h - |fs| > 1) && e.vbn == RootVbn(l) && Shape(l, h - |fs| - 1, false) && Holds(w, l)
    ensures forall f | f in fs :: f.pos < |f.kids| == |f.es|
    ensures |x.es| == 1 ==> RealSize(x.es) + Len(e) <= ROOT_CAP
    ensures CtxShape(fs, h) && 0 !in w.dirty && Shape(x, h - |fs|, |fs| == 0)
  {
    hide ZipOk;
    ZipFacts(w, fs, x, h);
    forall i | 0 <= i < |x.es| - 1 ensures !x.es[i].end {
    }
    if |x.es| == 1 {
      assert x.es == [x.es[0]];
      assert SumLen(x.es) == Len(x.es[0]) + SumLen([]);
    }
  }

  lemma {:induction false} ZipFacts(w: World, fs: seq<Frame>, x: Tree, h: nat)
    requires ZipOk(w, fs, x, h)
    ensures x.Node? && x.vbn != 0 && |fs| < h && 0 < |x.es| == |x.kids| && Held(w, x.vbn, x.cap, x.es)
    ensures forall i | 0 <= i < |x.es| :: EntryOk(x.es[i], h - |fs| > 1) && (x.es[i].end <==> i == |x.es| - 1)
    ensures x.cap == CapOf(fs == []) && RealSize(x.es) <= x.cap
    ensures forall f | f in fs :: f.pos < |f.kids| == |f.es|
    ensures CtxShape(fs, h) && Shape(x, h - |fs|, |fs| == 0)
  {
  }

  lemma {:induction false} LastFrame(w: World, fs: seq<Frame>, x: Tree, h: nat, d: int, m: multiset<Vbn>)
    requires PathOk(w, fs, x, h, d, 0, m) && fs != []
    ensures var f := fs[|fs| - 1]; f.pos < |f.es| == |f.kids| && Held(w, f.vbn, f.cap, f.es) && f.vbn != x.vbn
    ensures x.Node? && Held(w, x.vbn, x.cap, x.es)
  {
    var n := |fs| - 1;
    assert ShapeAt(fs, h, n) && HoldsAt(w, fs, n);
    PathApartBlock(fs, x, m, |fs|, n);
  }

  function RootEntries(fs: seq<Frame>, x: Tree): seq<Entry> {
    if fs != [] then fs[0].es else if x.Node? then x.es else []
  }

  /** A split moves the insertion one level up: same contents, and the entry that was pending, with
      the subtrees beside it, lies strictly on one side of the new pending entry. */
  ghost predicate StepsUp(fs: seq<Frame>, x: Tree, p: nat, e: Entry, l: Tree, gs: seq<Frame>, z: Tree, q: nat,
      mid: Entry, a: Tree) {
    && InsertFlat(gs, z, q, mid, a) == InsertFlat(fs, x, p, e, l)
    && Lo(gs, z, q) <= Lo(fs, x, p)
    && Hi(fs, x, p, l) <= Hi(gs, z, q, a)
    && |RootEntries(gs, z)| == |RootEntries(fs, x)|
    && x.Node? && z.Node?
    && (var k := Middle(x.es);
        && k < |x.es| && Len(mid) == SepLen(x.es[k])
        && (if p <= k then Hi(fs, x, p, l) < Idx(gs, z, q, a) else Idx(gs, z, q, a) < Lo(fs, x, p))
        && (k < p ==> Idx(gs, z, q, a) == RankIn(fs, OpenAt(x, p), k)))
    && LikeAll(gs + [OpenAt(z, q)], fs)
  }

  /** The right part of block x (at level h) is stored as block nv; the left part is well shaped. */
  ghost predicate RightStored(v: World, x: Tree, p: nat, e: Entry, l: Tree, h: nat, nv: Vbn) {
    && x.Node?
    && 1 <= Middle(x.es) < |x.es| - 2
    && (var r := RightPart(x, Middle(x.es), nv, p, e, l);
        r.Node? && Held(v, nv, r.cap, r.es) && nv in v.dirty && Shape(r, h, false))
    && Shape(LeftPart(x, Middle(x.es), p, e, l), h, false)
    && Holds(v, l)
    && 0 !in v.dirty
    && !e.end
  }

  // ---- split_ib after set_ib_dirty

  lemma {:induction false} PartsVbn(x: Tree, v: Vbn, k: nat, nv: Vbn, p: nat, e: Entry, l: Tree)
    requires x.Node? && |x.es| == |x.kids| && k < |x.es| && p < |x.es|
    ensures var y := x.(vbn := v);
            && LeftPart(y, k, p, e, l) == LeftPart(x, k, p, e, l).(vbn := v)
            && RightPart(y, k, nv, p, e, l) == RightPart(x, k, nv, p, e, l)
            && LeftPart(x, k, p, e, l).Node? && RightPart(x, k, nv, p, e, l).Node?
            && RightPart(x, k, nv, p, e, l).vbn == nv && RightPart(x, k, nv, p, e, l).cap == x.cap
            && LeftPart(x, k, p, e, l).cap == x.cap
  {
  }

  lemma {:induction false} ViewVbn(fs: seq<Frame>, x: Tree, gs: seq<Frame>, v: Vbn, p: nat, e: Entry, l: Tree)
    requires x.Node? && Before(gs) == Before(fs) && After(gs) == After(fs)
    ensures var y := x.(vbn := v);
            && InsertFlat(gs, y, p, e, l) == InsertFlat(fs, x, p, e, l)
            && Lo(gs, y, p) == Lo(fs, x, p) && Hi(gs, y, p, l) == Hi(fs, x, p, l)
  {
  }

  lemma {:induction false} SplitLight(v: World, fs: seq<Frame>, x: Tree, p: nat, e: Entry, l: Tree, h: nat, nv: Vbn,
                                       u: World, gs: seq<Frame>, y: Tree)
    requires PathOk(u, gs, y, h, -1, 0, multiset{nv} + Foot(l)) && gs != []
    requires Progress(v, fs, x, u, gs, y, multiset{nv} + Foot(l))
    requires x.Node? && |fs| < h && CtxShape(fs, h) && Shape(x, h - |fs|, false) && p < |x.es| && nv != 0
    requires RightStored(v, x, p, e, l, h - |fs|, nv)
    ensures Renumbered(x, y) && p < |y.es| == |y.kids| && Middle(x.es) < |y.es| - 1 && y.es == x.es
        && y.es[|y.es| - 1].end
    ensures !y.es[Middle(x.es)].end && !e.end && EntryOk(y.es[Middle(x.es)], h - |fs| > 1)
    ensures Held(u, y.vbn, y.cap, y.es) && |gs| == |fs| && y.vbn != 0
    ensures var f := gs[|gs| - 1]; f.pos < |f.es| == |f.kids| && Held(u, f.vbn, f.cap, f.es) && f.vbn != y.vbn
  {
    hide PathOk, Progress, ZipOk, Shape, Holds, Foot, Flat, Weave, Before, After, NoDup, Apart, LeftPart, RightPart,
      Swapped,
      Lo, Hi, Idx, InsertFlat, InsertOk, CtxShape, Middle;
    ProgressFocus(v, fs, x, u, gs, y, multiset{nv} + Foot(l));
    SplitEntries(x, h - |fs|);
    LastFrame(u, gs, y, h, -1, multiset{nv} + Foot(l));
    LastVbn(u, gs, y, h, -1, multiset{nv} + Foot(l));
  }

  lemma {:induction false} SplitTree(v: World, fs: seq<Frame>, x: Tree, p: nat, e: Entry, l: Tree, h: nat, nv: Vbn,
                                       u: World, gs: seq<Frame>, y: Tree)
    requires PathOk(u, gs, y, h, -1, 0, multiset{nv} + Foot(l)) && gs != []
    requires Progress(v, fs, x, u, gs, y, multiset{nv} + Foot(l))
    requires x.Node? && |fs| < h && CtxShape(fs, h) && Shape(x, h - |fs|, false) && p < |x.es| && nv != 0
    requires RightStored(v, x, p, e, l, h - |fs|, nv)
    ensures var f := gs[|gs| - 1]; var k := Middle(x.es);
            var a, r := LeftPart(y, k, p, e, l), RightPart(y, k, nv, p, e, l);
            var mid, z := AddVbn(if k < |x.es| then x.es[k] else e, RootVbn(y)), Swapped(f, r);
            && a.Node? && r.Node? && r.vbn == nv && z.Node?
            && InsertOk(Rewritten(Rewritten(u, RootVbn(y), Block(a.cap, a.es)), z.vbn, Block(z.cap, z.es)),
                        gs[..|gs| - 1], z, f.pos, mid, a, h)
  {
    hide PathOk, Progress, ZipOk, Shape, Holds, Foot, Flat, Weave, Before, After, NoDup, Apart, LeftPart, RightPart,
      Swapped,
      Lo, Hi, Idx, InsertFlat, InsertOk, CtxShape, Middle, StepsUp;
    SplitLight(v, fs, x, p, e, l, h, nv, u, gs, y);
    var f, k := gs[|gs| - 1], Middle(x.es);
    PartsVbn(x, y.vbn, k, nv, p, e, l);
    var a, r := LeftPart(y, k, p, e, l), RightPart(y, k, nv, p, e, l);
    ShapeVbn(LeftPart(x, k, p, e, l), y.vbn, h - |fs|, false);
    SwappedIs(f, r);
    SplitKept(v, fs, x, u, gs, y, h, nv, l, r);
    SplitCut(u, gs, y, p, e, l, h, nv);
    var t := Rewritten(u, y.vbn, Block(a.cap, a.es));
    SwapChild(t, gs, a, r, h);
    SplitAssemble(t, gs[..|gs| - 1], Swapped(f, r), f, AddVbn(y.es[k], y.vbn), a, h, y.es[k], h - |fs|);
  }

  /** The rest of split_ib: cut, step up and link leave an insertion one level up. */
  lemma {:induction false} SplitFacts(v: World, fs: seq<Frame>, x: Tree, p: nat, e: Entry, l: Tree, h: nat, nv: Vbn,
                                       u: World, gs: seq<Frame>, y: Tree)
    requires PathOk(u, gs, y, h, -1, 0, multiset{nv} + Foot(l)) && gs != []
    requires Progress(v, fs, x, u, gs, y, multiset{nv} + Foot(l))
    requires x.Node? && |fs| < h && CtxShape(fs, h) && Shape(x, h - |fs|, false) && p < |x.es| && nv != 0
    requires RightStored(v, x, p, e, l, h - |fs|, nv)
    ensures Renumbered(x, y) && p < |y.es| == |y.kids| && Middle(x.es) < |y.es| - 1 && y.es == x.es
        && y.es[|y.es| - 1].end
    ensures !y.es[Middle(x.es)].end && !e.end && EntryOk(y.es[Middle(x.es)], h - |fs| > 1)
    ensures Held(u, y.vbn, y.cap, y.es) && |gs| == |fs| && y.vbn != 0
    ensures var f := gs[|gs| - 1]; f.pos < |f.es| == |f.kids| && Held(u, f.vbn, f.cap, f.es) && f.vbn != y.vbn
    ensures var f := gs[|gs| - 1]; var k := Middle(x.es);
            var a, r := LeftPart(y, k, p, e, l), RightPart(y, k, nv, p, e, l);
            var mid, z := AddVbn(if k < |x.es| then x.es[k] else e, RootVbn(y)), Swapped(f, r);
            && a.Node? && r.Node? && r.vbn == nv && z.Node?
            && InsertOk(Rewritten(Rewritten(u, RootVbn(y), Block(a.cap, a.es)), z.vbn, Block(z.cap, z.es)),
                        gs[..|gs| - 1], z, f.pos, mid, a, h)
            && StepsUp(fs, x, p, e, l, gs[..|gs| - 1], z, f.pos, mid, a)
  {
    hide PathOk, Progress, ZipOk, Shape, Holds, Foot, Flat, Weave, Before, After, NoDup, Apart, LeftPart, RightPart,
      Swapped,
      Lo, Hi, Idx, InsertFlat, InsertOk, CtxShape, Middle, RightStored;
    SplitLight(v, fs, x, p, e, l, h, nv, u, gs, y);
    SplitTree(v, fs, x, p, e, l, h, nv, u, gs, y);
    SplitPaths(v, fs, x, u, gs, y, h, p, e, l, multiset{nv} + Foot(l));
    SplitView(gs, y, p, e, l, nv);
    ProgressSame(v, fs, x, u, gs, y, multiset{nv} + Foot(l));
    SwappedLike(fs, gs, RightPart(y, Middle(x.es), nv, p, e, l));
  }

  lemma {:induction false} LastVbn(w: World, fs: seq<Frame>, x: Tree, h: nat, d: int, m: multiset<Vbn>)
    requires PathOk(w, fs, x, h, d, 0, m)
    ensures x.vbn != 0
  {
  }

  lemma {:induction false} SwappedIs(f: Frame, r: Tree)
    requires f.pos < |f.es| == |f.kids|
    ensures Swapped(f, r).Node? && |Swapped(f, r).es| == |f.es| && Swapped(f, r).vbn == f.vbn
  {
  }

  lemma {:induction false} SplitEntries(x: Tree, h: nat)
    requires Shape(x, h, false) && 1 <= h
    ensures x.Node? && |x.es| == |x.kids| && 0 < |x.es| && x.vbn != 0
    ensures forall i | 0 <= i < |x.es| :: EntryOk(x.es[i], h > 1) && (x.es[i].end <==> i == |x.es| - 1)
  {
  }

  lemma {:induction false} SplitKept(v: World, fs: seq<Frame>, x: Tree, u: World, gs: seq<Frame>, y: Tree, h: nat,
      nv: Vbn, l: Tree, r: Tree)
    requires PathOk(u, gs, y, h, -1, 0, multiset{nv} + Foot(l))
    requires Progress(v, fs, x, u, gs, y, multiset{nv} + Foot(l))
    requires r.Node? && Held(v, nv, r.cap, r.es) && nv in v.dirty && Holds(v, l) && 0 !in v.dirty
    ensures Held(u, nv, r.cap, r.es) && nv in u.dirty && Holds(u, l)
  {
    hide PathHeld, PathLinks, CtxFoot;
    KeptHolds(v, u, l, multiset{nv} + Foot(l));
    assert nv in multiset{nv} + Foot(l);
    assert Same(v, u, nv);
  }

  lemma {:induction false} SplitPaths(v: World, fs: seq<Frame>, x: Tree, u: World, gs: seq<Frame>, y: Tree, h: nat,
                                      p: nat, e: Entry, l: Tree, m: multiset<Vbn>)
    requires CtxShape(fs, h) && Progress(v, fs, x, u, gs, y, m) && gs != []
    ensures forall f | f in gs :: f.pos < |f.kids| == |f.es|
    ensures InsertFlat(gs, y, p, e, l) == InsertFlat(fs, x, p, e, l)
    ensures Lo(gs, y, p) == Lo(fs, x, p) && Hi(gs, y, p, l) == Hi(fs, x, p, l)
    ensures var n := |gs| - 1; var z := gs[n];
            forall r :: |RootEntries(gs[..n], Swapped(z, r))| == |RootEntries(fs, x)|
    ensures forall k :: RankIn(gs, OpenAt(y, p), k) == RankIn(fs, OpenAt(x, p), k)
  {
    hide InsertFlat, Lo, Hi, Before, After, Weave, Flat;
    SamePathView(fs, gs);
    ViewVbn(fs, x, gs, y.vbn, p, e, l);
    assert SameAt(fs, gs, 0);
  }

  lemma {:induction false} ProgressSame(w: World, fs: seq<Frame>, x: Tree, u: World, gs: seq<Frame>, y: Tree,
      m: multiset<Vbn>)
    requires Progress(w, fs, x, u, gs, y, m)
    ensures SamePath(fs, gs) && Renumbered(x, y)
  {
  }

  lemma {:induction false} SwappedLike(fs: seq<Frame>, gs: seq<Frame>, r: Tree)
    requires SamePath(fs, gs) && gs != []
    ensures var n := |gs| - 1; LikeAll(gs[..n] + [OpenAt(Swapped(gs[n], r), gs[n].pos)], fs)
  {
    hide SameAt, SetVbn, LikeAll, Like;
    var n := |gs| - 1;
    var f := gs[n];
    SameIsLike(fs, gs);
    LikeSym(fs, gs);
    LikeRefl(gs[..n]);
    OneLike(f, r);
    LikeConcat(gs[..n], gs[..n], [OpenAt(Swapped(f, r), f.pos)], [f]);
    assert gs[..n] + [f] == gs;
    LikeTrans(gs[..n] + [OpenAt(Swapped(f, r), f.pos)], gs, fs);
  }

  lemma {:induction false} OneLike(f: Frame, r: Tree)
    ensures LikeAll([OpenAt(Swapped(f, r), f.pos)], [f])
  {
  }

  lemma {:induction false} SplitAssemble(t: World, gs: seq<Frame>, z: Tree, f: Frame, mid: Entry, a: Tree, h: nat,
      e: Entry, hx: nat)
    requires z.Node? && f.pos < |z.es|
    requires var u := Rewritten(t, z.vbn, Block(z.cap, z.es));
             ZipOk(u, gs, z, h) && Holds(u, a) && NoDup(ZipFoot(gs, z) + Foot(a)) && Apart(u, Foot(a))
    requires hx + |gs| + 1 == h && 1 <= hx && Shape(a, hx, false) && a.Node?
    requires EntryOk(e, hx > 1) && !e.end && mid == AddVbn(e, a.vbn)
    ensures InsertOk(Rewritten(t, z.vbn, Block(z.cap, z.es)), gs, z, f.pos, mid, a, h)
  {
    hide ZipOk, Shape, Holds, NoDup, Apart, Foot;
  }

  // ---- tree_insert_ie as a whole

  /** The block would have to be split even if it were not the root: this is when inserting entry e
      moves the cursor off the block. */
  predicate Splits(es: seq<Entry>, e: Entry) { RealSize(es) + Len(e) > BLOCK_CAP }

  /** How far the insertion that started as (fs0, x0, p0, e0, l0), h0 levels high, has come. */
  ghost predicate Underway(fs0: seq<Frame>, x0: Tree, p0: nat, e0: Entry, l0: Tree, h0: nat,
                           fs: seq<Frame>, x: Tree, p: nat, e: Entry, l: Tree, h: nat, split: bool) {
    && InsertFlat(fs, x, p, e, l) == InsertFlat(fs0, x0, p0, e0, l0)
    && x0.Node? && x.Node?
    && (!split ==>
          && e == e0 && l == l0 && p == p0 && x.es == x0.es && x.kids == x0.kids
          && Before(fs) == Before(fs0) && h - |fs| == h0 - |fs0|
          && (SamePath(fs0, fs) || (fs0 == [] && |fs| == 1 && Bare(fs[0]))))
    && (split ==>
          && Splits(x0.es, e0)
          && h - |fs| > h0 - |fs0|
          && Lo(fs, x, p) <= Lo(fs0, x0, p0) && Hi(fs0, x0, p0, l0) <= Hi(fs, x, p, l)
          && (Hi(fs0, x0, p0, l0) < Idx(fs, x, p, l) || Idx(fs, x, p, l) < Lo(fs0, x0, p0))
          && (!Splits(x.es, e) ==> Met(BackRank(fs0 + [OpenAt(x0, p0)]), Idx(fs, x, p, l), Hi(fs0, x0, p0, l0))))
    && (Splits(x.es, e) ==> BackRank(fs + [OpenAt(x, p)]) == BackRank(fs0 + [OpenAt(x0, p0)]))
  }

  /** The cursor ends at rank r: at the one foretold, or, if that is -1, beyond hi. */
  ghost predicate Met(back: int, r: nat, hi: nat) { if back >= 0 then r == back else hi < r }

  /** What is foretold for the block that is split is foretold for its parent, or happens there. */
  lemma {:induction false} BackStep(fs: seq<Frame>, x: Tree, p: nat, e: Entry, l: Tree, gs: seq<Frame>, z: Tree, q: nat,
      mid: Entry, a: Tree)
    requires StepsUp(fs, x, p, e, l, gs, z, q, mid, a) && |gs| == |fs| - 1
    ensures x.Node? && z.Node?
    ensures var b := BackRank(fs + [OpenAt(x, p)]);
            if Splits(z.es, mid) then BackRank(gs + [OpenAt(z, q)]) == b
            else b == if Middle(x.es) < p then Idx(gs, z, q, a) else -1
  {
    hide InsertFlat, LikeAll, Like, LikeEntries, Middle, RankIn, Before, LeftOf, Flat, Lo, Hi, Idx, SumLen, Len;
    var own, path := fs + [OpenAt(x, p)], gs + [OpenAt(z, q)];
    assert own[..|own| - 1] == fs && own[|own| - 1] == OpenAt(x, p);
    assert path[..|path| - 1] == gs && path[|path| - 1] == OpenAt(z, q);
    LikeInit(path, fs);
    LikeParts(OpenAt(z, q), fs[|fs| - 1]);
    LikeLen(z.es, fs[|fs| - 1].es);
    LikeBack(path, fs);
  }

  lemma {:induction false} UnderwaySplit(fs0: seq<Frame>, x0: Tree, p0: nat, e0: Entry, l0: Tree, h0: nat,
                                         fs: seq<Frame>, x: Tree, p: nat, e: Entry, l: Tree, h: nat, split: bool,
                                         gs: seq<Frame>, z: Tree, q: nat, mid: Entry, a: Tree)
    requires Underway(fs0, x0, p0, e0, l0, h0, fs, x, p, e, l, h, split)
    requires StepsUp(fs, x, p, e, l, gs, z, q, mid, a) && |gs| == |fs| - 1 && z.Node? && Splits(x.es, e)
    ensures Underway(fs0, x0, p0, e0, l0, h0, gs, z, q, mid, a, h, true)
  {
    hide InsertFlat, Before, Flat, Weave, LeftOf, RealSize, BackRank, RankIn, Middle, SamePath, Bare;
    IdxBetween(fs, x, p, l);
    BackStep(fs, x, p, e, l, gs, z, q, mid, a);
    if !split {
      assert Lo(fs, x, p) == Lo(fs0, x0, p0) && Hi(fs, x, p, l) == Hi(fs0, x0, p0, l0);
    }
  }

  lemma {:induction false} IdxBetween(fs: seq<Frame>, x: Tree, p: nat, l: Tree)
    ensures Lo(fs, x, p) <= Idx(fs, x, p, l) <= Hi(fs, x, p, l)
  {
  }

  /** In-order position of the entry under the cursor. */
  function Rank(fs: seq<Frame>, x: Tree, p: nat): nat {
    Lo(fs, x, p) + if x.Node? && p < |x.kids| then |Flat(x.kids[p])| else 0
  }

  /** Where tree_insert_ie leaves the cursor: on the entry it was called for when no block had to be
      split, and otherwise on another entry, beyond the subtrees beside it. */
  ghost predicate Landed(fs0: seq<Frame>, x0: Tree, p0: nat, e0: Entry, l0: Tree, h0: nat,
                         fs: seq<Frame>, x: Tree, p: nat, h: nat, split: bool) {
    && x0.Node? && x.Node? && p < |x.es| - 1
    && (split <==> Splits(x0.es, e0))
    && (!split ==>
          && Rank(fs, x, p) == Idx(fs0, x0, p0, l0) && h - |fs| == h0 - |fs0| && Lo(fs, x, p) == Lo(fs0, x0, p0)
          && p < |x.kids| && x.kids[p] == l0 && Own(x.es[p]) == [e0.kv]
          && p == p0 && x.es == Insert(x0.es, p0, e0) && x.kids == Insert(x0.kids, p0, l0)
          && (SamePath(fs0, fs) || (fs0 == [] && |fs| == 1 && Bare(fs[0]))))
    && (split ==>
          && h - |fs| > h0 - |fs0|
          && (Hi(fs0, x0, p0, l0) < Rank(fs, x, p) || Rank(fs, x, p) < Lo(fs0, x0, p0))
          && Met(BackRank(fs0 + [OpenAt(x0, p0)]), Rank(fs, x, p), Hi(fs0, x0, p0, l0)))
  }

  lemma {:induction false} UnderwayIs(fs0: seq<Frame>, x0: Tree, p0: nat, e0: Entry, l0: Tree, h0: nat,
                                      fs: seq<Frame>, x: Tree, p: nat, e: Entry, l: Tree, h: nat, split: bool)
    requires Underway(fs0, x0, p0, e0, l0, h0, fs, x, p, e, l, h, split)
    ensures x0.Node? && x.Node? && (!split ==> e == e0 && p == p0 && x.es == x0.es)
  {
  }

  lemma {:induction false} LandedIs(fs0: seq<Frame>, x0: Tree, p0: nat, e0: Entry, l0: Tree, h0: nat,
                                    fs: seq<Frame>, x: Tree, p: nat, h: nat, split: bool)
    requires Landed(fs0, x0, p0, e0, l0, h0, fs, x, p, h, split)
    ensures x0.Node? && x.Node? && (split <==> RealSize(x0.es) + Len(e0) > BLOCK_CAP)
    ensures !split ==> p == p0 && x.es == Insert(x0.es, p0, e0)
  {
  }

  lemma {:induction false} LandedHere(fs0: seq<Frame>, x0: Tree, p0: nat, e0: Entry, l0: Tree, h0: nat,
                                      fs: seq<Frame>, x: Tree, p: nat, e: Entry, l: Tree, h: nat, split: bool,
                                      gs: seq<Frame>, z: Tree)
    requires Underway(fs0, x0, p0, e0, l0, h0, fs, x, p, e, l, h, split)
    requires p < |x.es| == |x.kids| && !Splits(x.es, e) && !e.end
    requires Renumbered(Inserted(x, p, e, l), z) && Before(gs) == Before(fs) && SamePath(fs, gs)
    ensures Landed(fs0, x0, p0, e0, l0, h0, gs, z, p, h, split)
    ensures InsertFlat(fs, x, p, e, l) == InsertFlat(fs0, x0, p0, e0, l0)
  {
    hide InsertFlat, Before, Flat, Weave, RealSize, BackRank;
    if !split && SamePath(fs0, fs) { SamePathTrans(fs0, fs, gs); }
    if !split && fs0 == [] && |fs| == 1 { assert SameAt(fs, gs, 0); }
    assert z.es[p] == e && z.kids[p] == l && |z.es| == |x.es| + 1;
    assert z.kids[..p] == x.kids[..p] && z.es[..p] == x.es[..p];
    assert LeftOf(z.kids, z.es, p) == LeftOf(x.kids, x.es, p);
    assert Rank(gs, z, p) == Idx(fs, x, p, l);
  }

  lemma {:induction false} UnderwayStart(fs: seq<Frame>, x: Tree, p: nat, e: Entry, l: Tree, h: nat)
    requires x.Node? && forall f | f in fs :: f.pos < |f.es|
    ensures Underway(fs, x, p, e, l, h, fs, x, p, e, l, h, false)
  {
    SamePathRefl(fs);
  }

  lemma {:induction false} UnderwayReparent(fs0: seq<Frame>, x0: Tree, p0: nat, e0: Entry, l0: Tree, h0: nat,
                                            x: Tree, p: nat, e: Entry, l: Tree, h: nat, split: bool, gs: seq<Frame>,
                                                z: Tree)
    requires Underway(fs0, x0, p0, e0, l0, h0, [], x, p, e, l, h, split)
    requires x.Node? && z.Node? && z.es == x.es && z.kids == x.kids && |gs| == 1 && Before(gs) == []
    requires Bare(gs[0]) && SmallEntries(x.es)
    requires InsertFlat(gs, z, p, e, l) == InsertFlat([], x, p, e, l)
    ensures Underway(fs0, x0, p0, e0, l0, h0, gs, z, p, e, l, h + 1, split)
  {
    hide InsertFlat, Flat, Weave, LeftOf, RealSize, BackRank, Bare, SmallEntries;
    assert Before([]) == [];
    BareBack(gs[0], [OpenAt(z, p)]);
    LikeBack([OpenAt(z, p)], [OpenAt(x, p)]);
    assert [gs[0]] + [OpenAt(z, p)] == gs + [OpenAt(z, p)] && [] + [OpenAt(x, p)] == [OpenAt(x, p)];
  }

  lemma {:induction false} StepsUpFacts(fs: seq<Frame>, x: Tree, p: nat, e: Entry, l: Tree, gs: seq<Frame>, z: Tree,
      q: nat, mid: Entry, a: Tree)
    requires StepsUp(fs, x, p, e, l, gs, z, q, mid, a)
    ensures |RootEntries(gs, z)| == |RootEntries(fs, x)|
  {
  }
}
