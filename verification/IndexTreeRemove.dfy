/** Removing entries: emptied blocks, the repair of their parent, and the successor swap. */
module IndexTreeRemove {
  import opened IndexLayout
  import opened IndexTreeShape
  import opened IndexTreeZipper
  import opened IndexTreeDirty
  import opened IndexTreeEdit
  import opened IndexTreeSplit
  import opened IndexTreeInsert
  import opened IndexTreeSearch

  // ---- taking one entry out of the cursor's block

  /** remove_ie: the entry's left child, if it has one, is stored but no longer linked. */
  lemma {:induction false} TakeOut(w: World, fs: seq<Frame>, x: Tree, p: nat, h: nat)
    requires TreeOk(w, fs, x, h) && p < |x.es| - 1
    ensures var y := Deleted(x, p);
            && |x.kids| == |x.es|
            && PathOk(Rewritten(w, x.vbn, Block(x.cap, y.es)), fs, y, h, |fs|, 0, Foot(x.kids[p]))
            && Holds(Rewritten(w, x.vbn, Block(x.cap, y.es)), x.kids[p])
            && (1 < h - |fs| || fs == [] || 2 < |x.es| ==> Shape(y, h - |fs|, |fs| == 0))
            && CtxShape(fs, h)
  {
    hide Foot, CtxFoot, ZipOk, Shape, Holds, PathHeld, PathLinks, CtxShape, EntryOk, SumLen;
    TreeFacts(w, fs, x, h);
    ZipFacts(w, fs, x, h);
    TreeParts(w, fs, x, h);
    var y := Deleted(x, p);
    DeleteFoot(x.kids, p);
    forall k | 0 <= k < |y.kids| ensures Holds(w, y.kids[k]) {
      assert y.kids[k] == x.kids[if k < p then k else k + 1];
    }
    assert FootAll(y.kids) + Foot(x.kids[p]) == FootAll(x.kids) + multiset{};
    Rewrite(w, fs, x, h, |fs|, multiset{}, y.es, y.kids, Foot(x.kids[p]));
    KeptHolds(w, Rewritten(w, x.vbn, Block(x.cap, y.es)), x.kids[p], Foot(x.kids[p]));
    if 1 < h - |fs| || fs == [] || 2 < |x.es| {
      DeleteShape(x, p, h - |fs|, |fs| == 0);
    }
  }

  lemma {:induction false} TreeParts(w: World, fs: seq<Frame>, x: Tree, h: nat)
    requires TreeOk(w, fs, x, h)
    ensures PathOk(w, fs, x, h, |fs|, 0, multiset{}) && 0 !in w.dirty
    ensures x.Node? && forall k | 0 <= k < |x.kids| :: Holds(w, x.kids[k])
  {
    hide Foot, CtxFoot;
    ZipToPath(w, fs, x, h, multiset{});
    TreeFacts(w, fs, x, h);
  }

  lemma {:induction false} DeletedView(fs: seq<Frame>, x: Tree, p: nat)
    requires x.Node? && |x.kids| == |x.es| && p < |x.es| - 1 && !x.es[p].end && x.kids[p].Nil?
    ensures ZipFlat(fs, Deleted(x, p)) == DeleteAt(ZipFlat(fs, x), Rank(fs, x, p))
  {
    hide Weave, Before, After, Flat, Rank, DeleteAt;
    CursorView(fs, x, p);
    DeleteWeave(x.kids, x.es, p);
    FlatIs(Deleted(x, p));
    FlatIs(x);
    WeaveAt(x.kids, x.es, p);
    NilFlat();
    LeafRank(fs, x, p);
    DeletedSeq(Before(fs), LeftOf(x.kids, x.es, p), x.es[p].kv, Weave(x.kids[p + 1..], x.es[p + 1..]), After(fs));
  }

  lemma {:induction false} NilFlat()
    ensures Flat(Nil) == []
  {
  }

  lemma {:induction false} DeletedSeq(b: seq<KV>, l: seq<KV>, e: KV, t: seq<KV>, a: seq<KV>)
    ensures DeleteAt(b + (l + ([] + [e] + t)) + a, |b| + |l|) == b + (l + t) + a
  {
    hide DeleteAt;
    assert [] + [e] + t == [e] + t;
    Regroup9(b, l, [e], t, a);
    Regroup8(b, l, t, a);
    DeleteCut(b + l, e, t + a);
  }

  lemma {:induction false} DeleteCut(x: seq<KV>, e: KV, y: seq<KV>)
    ensures DeleteAt(x + [e] + y, |x|) == x + y
  {
    assert (x + [e] + y)[..|x|] == x && (x + [e] + y)[|x| + 1..] == y;
  }

  // ---- freeing emptied blocks

  function Freed(w: World, v: Vbn): World {
    World(w.store - {v}, w.dirty - {v}, w.disk)
  }

  /** The blocks of a path (root first) below level d, from the last one upwards. */
  function Upwards(path: seq<Vbn>, d: nat): seq<Vbn>
    decreases |path|
  {
    if |path| <= d + 1 then [] else [path[|path| - 1]] + Upwards(path[..|path| - 1], d)
  }

  lemma {:induction false} UpwardsNone(path: seq<Vbn>, d: nat)
    requires |path| == d + 1
    ensures Upwards(path, d) == []
  {
  }

  lemma {:induction false} UpwardsStep(path: seq<Vbn>, d: nat)
    requires d + 1 < |path|
    ensures Upwards(path, d) == Upwards(path, d + 1) + [path[d + 1]]
    decreases |path|
  {
    if d + 2 < |path| {
      UpwardsStep(path[..|path| - 1], d);
    } else {
      assert Upwards(path, d + 1) == [] && Upwards(path[..|path| - 1], d) == [];
    }
  }

  /** A block without entries and without children. */
  ghost predicate Hollow(y: Tree) {
    y.Node? && |y.es| == |y.kids| == 1 && y.es[0].end && y.kids[0].Nil?
  }

  /** check_removed_ib frees the hollow block under the cursor and steps up; in the parent the place
      of the freed child is empty. */
  lemma {:induction false} FreeStep(w: World, fs: seq<Frame>, y: Tree, h: nat)
    requires PathOk(w, fs, y, h, -1, 0, multiset{}) && fs != [] && Hollow(y)
    ensures var n := |fs| - 1; var z := Close(fs[n], Nil);
            && PathOk(Freed(w, y.vbn), fs[..n], z, h, -1, 0, multiset{})
            && ZipFlat(fs[..n], z) == ZipFlat(fs, y)
            && fs[n].pos < |fs[n].es| == |fs[n].kids|
            && |fs| < h && FrameShape(fs[n], h - n, n == 0)
            && 0 < |z.es| && z.es == fs[n].es && z.cap == CapOf(n == 0)
            && if z.es[0].end then Hollow(z) else 1 < |z.es|
  {
    hide Flat, Weave, Before, After, Shape, CtxFoot;
    var n := |fs| - 1;
    var f := fs[n];
    var z := Close(f, Nil);
    var u := Freed(w, y.vbn);
    LastFrame(w, fs, y, h, -1, multiset{});
    PathApart(fs, y, multiset{}, n + 1);
    FreeHeld(w, fs, y, h);
    FreeLinks(w, fs, y, h);
    FreeFoot(fs, y);
    FreeFlat(fs, y);
    assert ShapeAt(fs, h, n);
    FreedParent(f, h - n, n == 0);
  }

  lemma {:induction false} FreeFoot(fs: seq<Frame>, y: Tree)
    requires fs != [] && Hollow(y) && NoDup(ZipFoot(fs, y) + multiset{})
    requires fs[|fs| - 1].pos < |fs[|fs| - 1].kids|
    ensures NoDup(ZipFoot(fs[..|fs| - 1], Close(fs[|fs| - 1], Nil)) + multiset{})
  {
    hide FrameFoot, Foot;
    var n := |fs| - 1;
    CloseFoot(fs[n], Nil);
    HollowFoot(y);
    DropFoot(CtxFoot(fs[..n]), FrameFoot(fs[n]), Foot(y), Foot(Nil));
  }

  lemma {:induction false} HollowFoot(y: Tree)
    requires Hollow(y)
    ensures Foot(y) == multiset{y.vbn} && Foot(Nil) == multiset{}
  {
    assert y.kids == [y.kids[0]];
    FootOne(y.kids[0]);
  }

  lemma {:induction false} DropFoot(c: multiset<Vbn>, f: multiset<Vbn>, y: multiset<Vbn>, z: multiset<Vbn>)
    requires NoDup((c + f + y) + multiset{}) && z == multiset{}
    ensures NoDup(c + (f + z) + multiset{})
  {
    forall v {:trigger (c + (f + z) + multiset{})[v]} ensures (c + (f + z) + multiset{})[v] <= 1 {
      assert ((c + f + y) + multiset{})[v] <= 1;
    }
  }

  lemma {:induction false} FreeFlat(fs: seq<Frame>, y: Tree)
    requires fs != [] && Hollow(y) && fs[|fs| - 1].pos < |fs[|fs| - 1].kids| == |fs[|fs| - 1].es|
    ensures ZipFlat(fs[..|fs| - 1], Close(fs[|fs| - 1], Nil)) == ZipFlat(fs, y)
  {
    hide Weave;
    var n := |fs| - 1;
    var f := fs[n];
    assert Flat(y) == [] by { assert y.kids == [y.kids[0]] && y.es == [y.es[0]]; WeaveOne(y.kids[0], y.es[0]); }
    CloseFlat(f, Nil);
    Regroup(Before(fs[..n]), LeftOf(f.kids, f.es, f.pos), [], RightOf(f.kids, f.es, f.pos), After(fs[..n]));
  }

  lemma {:induction false} FreeHeld(w: World, fs: seq<Frame>, y: Tree, h: nat)
    requires PathOk(w, fs, y, h, -1, 0, multiset{}) && fs != [] && Hollow(y)
    ensures var n := |fs| - 1;
            PathHeld(Freed(w, y.vbn), fs[..n], Close(fs[n], Nil), h) && Apart(Freed(w, y.vbn), multiset{})
  {
    hide Shape, CtxFoot, Foot;
    var n := |fs| - 1;
    var f := fs[n];
    var gs := fs[..n];
    var u := Freed(w, y.vbn);
    OthersHold(w, u, fs, y, h, n + 1, y.vbn, multiset{});
    assert ShapeAt(fs, h, n) && HoldsAt(u, fs, n);
    forall i | 0 <= i < n ensures ShapeAt(gs, h, i) && HoldsAt(u, gs, i) {
      assert ShapeAt(fs, h, i) && HoldsAt(u, fs, i);
    }
    var z := Close(f, Nil);
    forall k | 0 <= k < |z.kids| ensures Holds(u, z.kids[k]) {
      if k != f.pos { assert z.kids[k] == f.kids[k]; }
    }
  }

  lemma {:induction false} FreeLinks(w: World, fs: seq<Frame>, y: Tree, h: nat)
    requires PathOk(w, fs, y, h, -1, 0, multiset{}) && fs != [] && Hollow(y) && CtxShape(fs, h)
    ensures var n := |fs| - 1; PathLinks(Freed(w, y.vbn), fs[..n], fs[n].vbn, -1, 0)
  {
    hide PathHeld, Foot, CtxFoot, FrameShape;
    var n := |fs| - 1;
    var gs := fs[..n];
    var u := Freed(w, y.vbn);
    PathApart(fs, y, multiset{}, n + 1);
    forall i | 0 <= i <= n ensures VbnAt(gs, fs[n].vbn, i) == VbnAt(fs, y.vbn, i)
        && VbnAt(gs, fs[n].vbn, i) in u.dirty {
      assert VbnAt(fs, y.vbn, i) in w.dirty;
    }
    forall i | 0 <= i < n ensures LinkAt(gs, fs[n].vbn, i) && DirtyAt(u, gs, fs[n].vbn, i) {
      assert LinkAt(fs, y.vbn, i);
      assert VbnAt(gs, fs[n].vbn, i) in u.dirty;
    }
  }

  /** The parent either has entries left or is hollow itself. */
  lemma {:induction false} FreedParent(f: Frame, h: nat, root: bool)
    requires FrameShape(f, h, root)
    ensures var z := Close(f, Nil);
            && z.es == f.es && 0 < |f.es| && z.cap == CapOf(root)
            && if f.es[0].end then Hollow(z) else 1 < |f.es|
  {
  }

  // ---- the root lost its last entry

  /** make_ib_small. */
  lemma {:induction false} MakeSmall(w: World, z: Tree, h: nat)
    requires PathOk(w, [], z, h, -1, 0, multiset{}) && Hollow(z) && z.cap == ROOT_CAP
    ensures var y := Node(z.vbn, z.cap, [EndEntry(false, 0)], [Nil]);
            && TreeOk(Rewritten(w, z.vbn, Block(z.cap, y.es)), [], y, 1)
            && ZipFlat([], y) == ZipFlat([], z) == []
  {
    var y := Node(z.vbn, z.cap, [EndEntry(false, 0)], [Nil]);
    FootOne(Nil);
    assert z.kids == [Nil];
    assert z.es == [z.es[0]];
    WeaveOne(Nil, z.es[0]);
    WeaveOne(Nil, y.es[0]);
    Rewrite(w, [], z, h, -1, multiset{}, y.es, y.kids, multiset{});
    var u := Rewritten(w, z.vbn, Block(z.cap, y.es));
    assert SumLen(y.es) == Len(y.es[0]) + SumLen([]);
    assert Shape(y, 1, true);
    assert CtxShape([], 1);
    assert PathOk(u, [], y, 1, -1, 0, multiset{});
    PathDirty(u, [], y, 1, multiset{});
    PathToZip(u, [], y, 1, -1, multiset{});
  }

  // ---- repairing the parent of a freed chain of blocks

  /** Block z has other entries, but nothing where the entry at p has its child. */
  ghost predicate Gap(w: World, fs: seq<Frame>, z: Tree, p: nat, h: nat) {
    && PathOk(w, fs, z, h, -1, 0, multiset{})
    && z.Node? && 1 < |z.es| == |z.kids| && p < |z.es| && z.kids[p] == Nil
    && FrameShape(OpenAt(z, p), h - |fs|, fs == [])
  }

  lemma {:induction false} GapStart(w: World, fs: seq<Frame>, f: Frame, h: nat)
    requires PathOk(w, fs, Close(f, Nil), h, -1, 0, multiset{})
    requires FrameShape(f, h - |fs|, fs == []) && 1 < |f.es|
    ensures Gap(w, fs, Close(f, Nil), f.pos, h)
  {
    hide PathOk;
  }

  lemma {:induction false} GapFacts(w: World, fs: seq<Frame>, z: Tree, p: nat, h: nat)
    requires Gap(w, fs, z, p, h)
    ensures z.Node? && 1 < |z.es| == |z.kids| && p < |z.es| && z.kids[p] == Nil && Held(w, z.vbn, z.cap, z.es)
    ensures 2 <= h - |fs| && z.vbn != 0
    ensures forall i | 0 <= i < |z.es| :: z.es[i].end <==> i == |z.es| - 1
  {
  }

  /** The place an entry is taken from: the entry itself, or, if that is END, the one before it. */
  function Taken(z: Tree, p: nat): nat {
    if z.Node? && p < |z.es| && z.es[p].end && 0 < p then p - 1 else p
  }

  /** The entries after one was taken out; an END entry takes over its left neighbour's child. */
  function RepairedEntries(es: seq<Entry>, p: nat): seq<Entry> {
    if p < |es| && es[p].end && 0 < p then Delete(SetVbn(es, p, es[p - 1].vbn), p - 1) else Delete(es, p)
  }

  function Repaired(z: Tree, p: nat): Tree {
    if z.Node? then Node(z.vbn, z.cap, RepairedEntries(z.es, p), Delete(z.kids, p)) else z
  }

  /** Where the entry taken out has to go, as an in-order position. */
  function RepairRank(fs: seq<Frame>, y: Tree, q: nat, last: bool): int {
    if last then |ZipFlat(fs, y)| - |After(fs)| else Lo(fs, y, q)
  }

  lemma {:induction false} RepairShape(z: Tree, p: nat, h: nat, root: bool)
    requires FrameShape(OpenAt(z, p), h, root) && z.Node? && 1 < |z.es| == |z.kids| && p < |z.es|
    ensures Shape(Repaired(z, p), h, root)
    ensures Taken(z, p) < |Repaired(z, p).es|
    ensures z.es[p].end <==> Repaired(z, p).es[Taken(z, p)].end && p == |z.es| - 1
  {
    hide Shape;
    var f := OpenAt(z, p);
    var us, q := SetVbn(z.es, p, z.es[if 0 < p then p - 1 else 0].vbn), Taken(z, p);
    RepairEntries(z.es, p, h > 1, z.cap);
    var y := Repaired(z, p);
    forall i | 0 <= i < |y.kids|
      ensures Shape(y.kids[i], h - 1, false) && y.es[i].vbn == RootVbn(y.kids[i])
    {
      var j := if i < p then i else i + 1;
      assert y.kids[i] == f.kids[j] && j != p;
    }
    assert Shape(y, h, root) by { ShapeOf(y, h, root); }
  }

  lemma {:induction false} ShapeOf(y: Tree, h: nat, root: bool)
    requires y.Node? && 2 <= h && y.vbn != 0 && y.cap == CapOf(root) && EntriesOk(y.es, true, y.cap)
        && |y.kids| == |y.es|
    requires forall i | 0 <= i < |y.kids| :: Shape(y.kids[i], h - 1, false)
    requires forall i | 0 <= i < |y.kids| :: y.es[i].vbn == RootVbn(y.kids[i])
    ensures Shape(y, h, root)
  {
  }

  lemma {:induction false} RepairEntries(es: seq<Entry>, p: nat, node: bool, cap: nat)
    requires EntriesOk(es, node, cap) && 1 < |es| && p < |es| && node
    ensures var us := RepairedEntries(es, p);
            && EntriesOk(us, node, cap) && |us| == |es| - 1
            && (forall i | 0 <= i < |us| :: us[i].vbn == es[if i < p then i else i + 1].vbn)
  {
    hide SumLen, Delete, EntryOk;
    var q := if es[p].end && 0 < p then p - 1 else p;
    var ts := if es[p].end && 0 < p then SetVbn(es, p, es[p - 1].vbn) else es;
    if es[p].end && 0 < p {
      EndTakesOver(es, p, node, cap);
    }
    DeleteEntries(ts, q, node, cap);
    DeleteIndex(ts, q, 0);
    var us := RepairedEntries(es, p);
    forall i | 0 <= i < |us| ensures us[i].vbn == es[if i < p then i else i + 1].vbn {
      DeleteIndex(ts, q, i);
    }
  }

  lemma {:induction false} EndTakesOver(es: seq<Entry>, p: nat, node: bool, cap: nat)
    requires EntriesOk(es, node, cap) && 0 < p < |es| && node && es[p].end
    ensures p == |es| - 1 && EntriesOk(SetVbn(es, p, es[p - 1].vbn), node, cap)
  {
    hide SumLen;
    var ts := SetVbn(es, p, es[p - 1].vbn);
    SumLenUpdate(es, p, es[p - 1].vbn);
    forall i | 0 <= i < |ts| ensures EntryOk(ts[i], node) && (ts[i].end <==> i == |ts| - 1) {
      assert EntryOk(es[i], node);
    }
  }

  lemma {:induction false} RepairPath(w: World, fs: seq<Frame>, z: Tree, p: nat, h: nat)
    requires Gap(w, fs, z, p, h)
    ensures var y := Repaired(z, p);
            && PathOk(Rewritten(w, z.vbn, Block(z.cap, y.es)), fs, y, h, |fs|, 0, multiset{})
            && Shape(y, h - |fs|, fs == []) && CtxShape(fs, h)
            && Taken(z, p) < |z.es| && Taken(z, p) < |y.es| && !z.es[Taken(z, p)].end
                && EntryOk(DelVbn(z.es[Taken(z, p)]), false)
            && |y.kids| == |y.es| && (z.es[p].end ==> Taken(z, p) == |y.es| - 1 && y.es[Taken(z, p)].end)
  {
    hide Foot, CtxFoot, FrameShape, PathHeld, PathLinks, Shape;
    var y := Repaired(z, p);
    GapFacts(w, fs, z, p, h);
    GapEntry(w, fs, z, p, h);
    RepairShape(z, p, h - |fs|, fs == []);
    PathKids(w, fs, z, h, -1, multiset{});
    forall k | 0 <= k < |y.kids| ensures Holds(w, y.kids[k]) {
      assert y.kids[k] == z.kids[if k < p then k else k + 1];
    }
    DeleteFoot(z.kids, p);
    NilFacts(w);
    assert FootAll(y.kids) + multiset{} == FootAll(z.kids) + multiset{};
    Rewrite(w, fs, z, h, -1, multiset{}, y.es, y.kids, multiset{});
    PathRestart(Rewritten(w, z.vbn, Block(z.cap, y.es)), fs, y, h, multiset{});
  }

  lemma {:induction false} GapEntry(w: World, fs: seq<Frame>, z: Tree, p: nat, h: nat)
    requires Gap(w, fs, z, p, h)
    ensures var q := Taken(z, p); q < |z.es| - 1 && !z.es[q].end && EntryOk(DelVbn(z.es[q]), false)
    ensures CtxShape(fs, h)
  {
    assert EntryOk(z.es[Taken(z, p)], true);
  }

  /** A path that is dirty throughout is one on which set_ib_dirty may start. */
  lemma {:induction false} PathRestart(w: World, fs: seq<Frame>, y: Tree, h: nat, m: multiset<Vbn>)
    requires PathOk(w, fs, y, h, -1, 0, m)
    ensures PathOk(w, fs, y, h, |fs|, 0, m)
  {
    hide PathHeld, Foot, CtxFoot;
  }

  /** Putting the entry taken out back at its rank restores the contents. */
  lemma {:induction false} RepairView(fs: seq<Frame>, z: Tree, p: nat)
    requires z.Node? && 1 < |z.es| == |z.kids| && p < |z.es| && z.kids[p] == Nil
    requires forall i | 0 <= i < |z.es| :: z.es[i].end <==> i == |z.es| - 1
    ensures var y, q := Repaired(z, p), Taken(z, p);
            var r := RepairRank(fs, y, q, z.es[p].end);
            && 0 <= r <= |ZipFlat(fs, y)|
            && InsertAt(ZipFlat(fs, y), r, z.es[q].kv) == ZipFlat(fs, z)
            && r == Lo(fs, z, p) - if z.es[p].end then 1 else 0
  {
    hide Before, After, Weave, Repaired, Taken, InsertAt;
    RepairedIs(z, p);
    var y := Repaired(z, p);
    FlatIs(z);
    FlatIs(y);
    if z.es[p].end {
      RepairViewEnd(z, p);
      InsertLast(Before(fs), Flat(y), z.es[p - 1].kv, After(fs));
    } else {
      RepairViewMid(z, p);
      InsertMid(Before(fs), LeftOf(z.kids, z.es, p), Weave(z.kids[p + 1..], z.es[p + 1..]), z.es[p].kv, After(fs));
    }
  }

  lemma {:induction false} RepairedIs(z: Tree, p: nat)
    requires z.Node? && p < |z.es|
    ensures Repaired(z, p).Node? && Taken(z, p) == if z.es[p].end && 0 < p then p - 1 else p
  {
  }

  lemma {:induction false} InsertCut(x: seq<KV>, y: seq<KV>, e: KV)
    ensures InsertAt(x + y, |x|, e) == x + [e] + y
  {
    assert (x + y)[..|x|] == x && (x + y)[|x|..] == y;
  }

  lemma {:induction false} InsertLast(b: seq<KV>, t: seq<KV>, e: KV, a: seq<KV>)
    ensures InsertAt(b + t + a, |b| + |t|, e) == b + (t + [e]) + a
  {
    hide InsertAt;
    InsertCut(b + t, a, e);
    assert b + (t + [e]) == (b + t) + [e];
  }

  lemma {:induction false} InsertMid(b: seq<KV>, l: seq<KV>, t: seq<KV>, e: KV, a: seq<KV>)
    ensures InsertAt(b + (l + t) + a, |b| + |l|, e) == b + (l + ([e] + t)) + a
  {
    hide InsertAt;
    InsertCut(b + l, t + a, e);
    Regroup8(b, l, t, a);
    Regroup9(b, l, [e], t, a);
  }

  lemma {:induction false} Regroup8(b: seq<KV>, l: seq<KV>, t: seq<KV>, a: seq<KV>)
    ensures b + (l + t) + a == (b + l) + (t + a)
  {
  }

  lemma {:induction false} Regroup9(b: seq<KV>, l: seq<KV>, e: seq<KV>, t: seq<KV>, a: seq<KV>)
    ensures b + (l + (e + t)) + a == (b + l) + e + (t + a)
  {
  }

  lemma {:induction false} RepairViewEnd(z: Tree, p: nat)
    requires z.Node? && 1 < |z.es| == |z.kids| && p < |z.es| && z.kids[p] == Nil && z.es[p].end && p == |z.es| - 1
    requires !z.es[p - 1].end
    ensures Flat(z) == Flat(Repaired(z, p)) + [z.es[p - 1].kv] && Flat(z) == LeftOf(z.kids, z.es, p)
  {
    hide Weave;
    var y := Repaired(z, p);
    var k, e := z.kids[..p - 1], z.es[..p - 1];
    assert z.kids == z.kids[..p + 1] && z.es == z.es[..p + 1];
    WeaveInit(z.kids, z.es, p);
    WeaveInit(z.kids, z.es, p - 1);
    assert y.kids == k + [z.kids[p - 1]] && y.es == e + [z.es[p].(vbn := z.es[p - 1].vbn)];
    WeaveAppend(k, e, [z.kids[p - 1]], [z.es[p].(vbn := z.es[p - 1].vbn)]);
    WeaveOne(z.kids[p - 1], z.es[p].(vbn := z.es[p - 1].vbn));
    FlatIs(y);
    FlatIs(z);
    assert Flat(Nil) == [];
  }

  lemma {:induction false} RepairViewMid(z: Tree, p: nat)
    requires z.Node? && 1 < |z.es| == |z.kids| && p < |z.es| && z.kids[p] == Nil && !z.es[p].end
    ensures var y := Repaired(z, p); var l, t := LeftOf(z.kids, z.es, p), Weave(z.kids[p + 1..], z.es[p + 1..]);
            Flat(z) == l + ([z.es[p].kv] + t) && Flat(y) == l + t && LeftOf(y.kids, y.es, p) == l
  {
    hide Weave;
    var y := Repaired(z, p);
    WeaveAt(z.kids, z.es, p);
    DeleteWeave(z.kids, z.es, p);
    FlatIs(y);
    FlatIs(z);
    assert y.kids[..p] == z.kids[..p] && y.es[..p] == z.es[..p];
    assert Flat(Nil) == [];
  }

  lemma {:induction false} RepairDone(fs: seq<Frame>, y: Tree, gs: seq<Frame>, z: Tree, q: nat, last: bool)
    requires Renumbered(y, z) && ZipFlat(gs, z) == ZipFlat(fs, y) && Before(gs) == Before(fs) && After(gs) == After(fs)
    requires |y.kids| == |y.es| && q < |y.es| && (last ==> y.es[q].end && q == |y.es| - 1)
    ensures RepairRank(fs, y, q, last) == if last then Rank(gs, z, q) else Lo(gs, z, q)
  {
    hide Before, After, Flat, Weave;
    CursorView(gs, z, q);
    if last { WeaveEnd(z, q); }
  }

  lemma {:induction false} WeaveEnd(z: Tree, q: nat)
    requires z.Node? && |z.kids| == |z.es| && q == |z.es| - 1 && z.es[q].end
    ensures RightOf(z.kids, z.es, q) == []
  {
  }

  /** Going down by last entries keeps the rank; by first entries, the position where the subtree starts. */
  lemma {:induction false} DownView(fs: seq<Frame>, x: Tree, p: nat, y: Tree)
    requires x.Node? && |x.kids| == |x.es| && p < |x.es| && y == x.kids[p]
    requires y.Node? && |y.kids| == |y.es| && 0 < |y.es| && y.es[|y.es| - 1].end
    ensures var gs := fs + [OpenAt(x, p)];
            && Lo(gs, y, 0) == Lo(fs, x, p)
            && Rank(gs, y, |y.es| - 1) == Rank(fs, x, p)
  {
    hide Weave, Before, After, Flat, LeftOf, RightOf;
    OpenView(fs, x, p);
    var gs := fs + [OpenAt(x, p)];
    CursorView(fs, x, p);
    CursorView(gs, y, |y.es| - 1);
    WeaveEnd(y, |y.es| - 1);
    LeftOfNone(y.kids, y.es);
  }

  lemma {:induction false} TreeIs(w: World, fs: seq<Frame>, x: Tree, h: nat)
    requires ZipOk(w, fs, x, h) && NoDup(ZipFoot(fs, x) + multiset{}) && Apart(w, multiset{})
    ensures TreeOk(w, fs, x, h)
  {
  }

  /** set_ib_dirty keeps the contents, also of a tree with a hollow block under the cursor. */
  lemma {:induction false} ProgressView(w: World, fs: seq<Frame>, y: Tree, u: World, gs: seq<Frame>, z: Tree, h: nat,
      m: multiset<Vbn>)
    requires CtxShape(fs, h) && Progress(w, fs, y, u, gs, z, m)
    ensures ZipFlat(gs, z) == ZipFlat(fs, y) && Renumbered(y, z) && |fs| == |gs|
  {
    hide CtxHolds;
    SamePathView(fs, gs);
    FlatIs(y);
    FlatIs(z);
  }
}
