/** Where the cursor is in the contents, and what a search knows about it. */
module IndexTreeSearch {
  import opened IndexLayout
  import opened IndexTreeShape
  import opened IndexTreeZipper
  import opened IndexTreeDirty
  import opened IndexTreeEdit
  import opened IndexTreeSplit
  import opened IndexTreeInsert
  import opened Collate

  lemma {:induction false} Regroup5(b: seq<KV>, l: seq<KV>, c: seq<KV>, o: seq<KV>, t: seq<KV>, a: seq<KV>)
    ensures b + (l + (c + o + t)) + a == (b + l) + c + (o + t + a)
  {
  }

  /** The contents, seen from the cursor: what is left of the entry's child, the child, the entry
      and what follows. */
  lemma {:induction false} CursorView(fs: seq<Frame>, x: Tree, p: nat)
    requires x.Node? && |x.kids| == |x.es| && p < |x.es|
    ensures var c := ZipFlat(fs, x);
            && c == (Before(fs) + LeftOf(x.kids, x.es, p)) + Flat(x.kids[p]) + (RightOf(x.kids, x.es, p) + After(fs))
            && Rank(fs, x, p) + |RightOf(x.kids, x.es, p)| + |After(fs)| == |c|
            && (!x.es[p].end ==> Rank(fs, x, p) < |c| && c[Rank(fs, x, p)] == x.es[p].kv)
  {
    hide Weave, Before, After;
    WeaveAt(x.kids, x.es, p);
    FlatIs(x);
    Regroup5(Before(fs), LeftOf(x.kids, x.es, p), Flat(x.kids[p]), Own(x.es[p]), Weave(x.kids[p + 1..], x.es[p + 1..]),
        After(fs));
  }

  /** What is to the left of the cursor's child is smaller than the key, what is to the right of the
      block is greater. */
  ghost predicate Narrowed(cr: CollateRule, c: seq<KV>, fs: seq<Frame>, x: Tree, p: nat, key: seq<u8>, val: seq<u8>) {
    && c == ZipFlat(fs, x)
    && x.Node? && |x.kids| == |x.es| && p < |x.es|
    && Lo(fs, x, p) + |After(fs)| <= |c|
    && (forall i | 0 <= i < Lo(fs, x, p) :: CollateSign(cr, c[i], key, val) < 0)
    && (forall i | |c| - |After(fs)| <= i < |c| :: CollateSign(cr, c[i], key, val) > 0)
  }

  lemma {:induction false} NarrowStart(cr: CollateRule, x: Tree, key: seq<u8>, val: seq<u8>)
    requires x.Node? && |x.kids| == |x.es| && 0 < |x.es|
    ensures Narrowed(cr, Flat(x), [], x, 0, key, val)
  {
    assert LeftOf(x.kids, x.es, 0) == [];
    assert ZipFlat([], x) == [] + Flat(x) + [];
    assert ZipFlat([], x) == Flat(x);
  }

  /** The entry is smaller: go on to the next one. */
  lemma {:induction false} NarrowNext(cr: CollateRule, c: seq<KV>, fs: seq<Frame>, x: Tree, p: nat, key: seq<u8>,
      val: seq<u8>)
    requires Narrowed(cr, c, fs, x, p, key, val) && Run(cr, c, key, val)
    requires !x.es[p].end && p + 1 < |x.es| && CollateSign(cr, x.es[p].kv, key, val) < 0
    ensures Narrowed(cr, c, fs, x, p + 1, key, val)
  {
    hide Weave, Before, After, CollateSign;
    CursorView(fs, x, p);
    CursorView(fs, x, p + 1);
    WeaveInit(x.kids, x.es, p);
    var r := Rank(fs, x, p);
    assert Lo(fs, x, p + 1) == r + 1;
    forall i | 0 <= i < r + 1 ensures CollateSign(cr, c[i], key, val) < 0 {
      if i < r { assert c[r] == x.es[p].kv; }
    }
  }

  /** The entry is greater, or END: go down to its child. */
  lemma {:induction false} NarrowDown(cr: CollateRule, c: seq<KV>, fs: seq<Frame>, x: Tree, p: nat, key: seq<u8>,
      val: seq<u8>)
    requires Narrowed(cr, c, fs, x, p, key, val) && Run(cr, c, key, val)
    requires x.es[p].end ==> p == |x.es| - 1
    requires x.es[p].end || CollateSign(cr, x.es[p].kv, key, val) > 0
    requires x.kids[p].Node? && |x.kids[p].kids| == |x.kids[p].es| && 0 < |x.kids[p].es|
    ensures Narrowed(cr, c, fs + [OpenAt(x, p)], x.kids[p], 0, key, val)
  {
    hide Weave, Before, After, CollateSign, ZipFlat, Run;
    var gs := fs + [OpenAt(x, p)];
    CursorView(fs, x, p);
    CursorView(gs, x.kids[p], 0);
    OpenView(fs, x, p);
    AboveCursor(cr, c, fs, x, p, key, val);
    assert LeftOf(x.kids[p].kids, x.kids[p].es, 0) == [] by { LeftOfNone(x.kids[p].kids, x.kids[p].es); }
  }

  lemma {:induction false} LeftOfNone(kids: seq<Tree>, es: seq<Entry>)
    ensures LeftOf(kids, es, 0) == []
  {
  }

  lemma {:induction false} OpenView(fs: seq<Frame>, x: Tree, p: nat)
    requires x.Node? && |x.kids| == |x.es| && p < |x.es|
    ensures var gs := fs + [OpenAt(x, p)];
            && Before(gs) == Before(fs) + LeftOf(x.kids, x.es, p)
            && After(gs) == RightOf(x.kids, x.es, p) + After(fs)
            && ZipFlat(gs, x.kids[p]) == ZipFlat(fs, x)
            && Plug(gs, x.kids[p]) == Plug(fs, x)
  {
    hide Weave, LeftOf, RightOf;
    var gs := fs + [OpenAt(x, p)];
    assert gs[..|gs| - 1] == fs && gs[|gs| - 1] == OpenAt(x, p);
    assert x.kids[p := x.kids[p]] == x.kids;
    CursorView(fs, x, p);
  }

  /** Everything from a greater entry (or from END) on is greater than the key. */
  lemma {:induction false} AboveCursor(cr: CollateRule, c: seq<KV>, fs: seq<Frame>, x: Tree, p: nat, key: seq<u8>,
      val: seq<u8>)
    requires Narrowed(cr, c, fs, x, p, key, val) && Run(cr, c, key, val)
    requires x.es[p].end ==> p == |x.es| - 1
    requires x.es[p].end || CollateSign(cr, x.es[p].kv, key, val) > 0
    ensures forall i | Rank(fs, x, p) <= i < |c| :: CollateSign(cr, c[i], key, val) > 0
    ensures Rank(fs, x, p) + |RightOf(x.kids, x.es, p)| + |After(fs)| == |c|
  {
    hide Before, After, CollateSign;
    CursorView(fs, x, p);
    var r := Rank(fs, x, p);
    forall i | r <= i < |c| ensures CollateSign(cr, c[i], key, val) > 0 {
      if x.es[p].end {
        assert RightOf(x.kids, x.es, p) == [];
      } else {
        assert c[r] == x.es[p].kv;
      }
    }
  }

  /** Deleting the entry at an in-order position, or putting one there. */
  function DeleteAt(c: seq<KV>, r: nat): seq<KV> { Delete(c, r) }

  function InsertAt(c: seq<KV>, r: nat, a: KV): seq<KV> { Insert(c, r, a) }

  lemma {:induction false} InsertLeafView(fs: seq<Frame>, x: Tree, p: nat, e: Entry)
    requires x.Node? && |x.kids| == |x.es| && p < |x.es| && x.kids[p].Nil?
    ensures Rank(fs, x, p) == Lo(fs, x, p) <= |ZipFlat(fs, x)|
    ensures InsertFlat(fs, x, p, e, Nil) == InsertAt(ZipFlat(fs, x), Rank(fs, x, p), e.kv)
  {
    hide Weave, Before, After;
    CursorView(fs, x, p);
    WeaveTail(x.kids, x.es, p);
    var b, t := Before(fs) + LeftOf(x.kids, x.es, p), RightOf(x.kids, x.es, p) + After(fs);
    assert Flat(x.kids[p]) == [];
    assert ZipFlat(fs, x) == b + t;
    assert Weave(x.kids[p..], x.es[p..]) == RightOf(x.kids, x.es, p);
    Regroup6(Before(fs), LeftOf(x.kids, x.es, p), [e.kv], RightOf(x.kids, x.es, p), After(fs));
    assert (b + t)[..|b|] == b && (b + t)[|b|..] == t;
  }

  lemma {:induction false} Regroup6(b: seq<KV>, l: seq<KV>, m: seq<KV>, r: seq<KV>, a: seq<KV>)
    ensures b + (l + ([] + m) + r) + a == (b + l) + m + (r + a)
  {
  }

  /** Inserting a new key where a failed search ended keeps the contents sorted. */
  lemma {:induction false} InsertSorted(cr: CollateRule, c: seq<KV>, r: nat, a: KV)
    requires Sorted(cr, c) && KeyOk(cr, a) && r <= |c|
    requires forall i | 0 <= i < r :: CollateSign(cr, c[i], a.key, a.val) < 0
    requires forall i | r <= i < |c| :: CollateSign(cr, c[i], a.key, a.val) > 0
    ensures Sorted(cr, InsertAt(c, r, a))
  {
    hide CollateSign, KeyOk;
    var d := InsertAt(c, r, a);
    forall i, j | 0 <= i < j < |d| ensures Precedes(cr, d[i], d[j]) {
      if i == r {
        SignFlip(cr, c[j - 1], a);
      } else {
        assert d[i] == c[if i < r then i else i - 1];
        if j != r {
          assert d[j] == c[if j < r then j else j - 1];
          assert Precedes(cr, c[if i < r then i else i - 1], c[if j < r then j else j - 1]);
        }
      }
    }
    forall i | 0 <= i < |d| ensures KeyOk(cr, d[i]) {
      if i != r { assert d[i] == c[if i < r then i else i - 1]; }
    }
  }

  // ---- moving the cursor in a well-formed tree

  ghost predicate TreeOk(w: World, fs: seq<Frame>, x: Tree, h: nat) {
    ZipOk(w, fs, x, h) && NoDup(ZipFoot(fs, x) + multiset{}) && Apart(w, multiset{})
  }

  lemma {:induction false} TreeDown(w: World, fs: seq<Frame>, x: Tree, h: nat, p: nat)
    requires TreeOk(w, fs, x, h) && 1 < h - |fs| && p < |x.es|
    ensures TreeOk(w, fs + [OpenAt(x, p)], x.kids[p], h)
    ensures ZipFoot(fs + [OpenAt(x, p)], x.kids[p]) == ZipFoot(fs, x)
    ensures x.es[p].vbn == RootVbn(x.kids[p])
  {
    hide Holds, Foot, Flat, Before, After, CtxFoot;
    ZipDown(w, fs, x, h, p);
    ZipDownView(fs, x, p);
  }

  lemma {:induction false} TreeUp(w: World, fs: seq<Frame>, x: Tree, h: nat)
    requires TreeOk(w, fs, x, h) && fs != []
    ensures TreeOk(w, fs[..|fs| - 1], Close(fs[|fs| - 1], x), h)
    ensures ZipFlat(fs[..|fs| - 1], Close(fs[|fs| - 1], x)) == ZipFlat(fs, x)
    ensures ZipFoot(fs[..|fs| - 1], Close(fs[|fs| - 1], x)) == ZipFoot(fs, x)
    ensures var f := fs[|fs| - 1]; f.pos < |f.kids| == |f.es|
  {
    hide Holds, Foot, Flat, Before, After, CtxFoot, FrameShape;
    ZipUp(w, fs, x, h);
    ZipUpView(fs, x);
  }

  lemma {:induction false} TreeTop(w: World, fs: seq<Frame>, x: Tree, h: nat)
    requires TreeOk(w, fs, x, h)
    ensures TreeOk(w, [], Plug(fs, x), h)
    ensures ZipFoot([], Plug(fs, x)) == ZipFoot(fs, x)
    ensures Flat(Plug(fs, x)) == ZipFlat(fs, x) && ZipFlat([], Plug(fs, x)) == ZipFlat(fs, x)
    ensures RootVbn(Plug(fs, x)) == VbnAt(fs, RootVbn(x), 0) && Plug([], Plug(fs, x)) == Plug(fs, x)
  {
    hide Holds, Foot, Flat, FrameShape;
    PlugOk(w, fs, x, h);
    PlugRoot(fs, x);
    var g := Plug(fs, x);
    assert ZipFoot([], g) == Foot(g);
    assert ZipFlat([], g) == [] + Flat(g) + [];
  }

  lemma {:induction false} PlugRoot(fs: seq<Frame>, x: Tree)
    ensures RootVbn(Plug(fs, x)) == VbnAt(fs, RootVbn(x), 0)
    decreases |fs|
  {
    if fs != [] {
      PlugRoot(fs[..|fs| - 1], Close(fs[|fs| - 1], x));
    }
  }

  lemma {:induction false} TreeFacts(w: World, fs: seq<Frame>, x: Tree, h: nat)
    requires TreeOk(w, fs, x, h)
    ensures x.Node? && x.vbn != 0 && |fs| < h && 0 < |x.es| == |x.kids| && Held(w, x.vbn, x.cap, x.es)
    ensures forall i | 0 <= i < |x.es| :: EntryOk(x.es[i], h - |fs| > 1) && (x.es[i].end <==> i == |x.es| - 1)
    ensures h - |fs| == 1 ==> forall i | 0 <= i < |x.kids| :: x.kids[i].Nil?
    ensures h - |fs| == 1 && fs != [] ==> 1 < |x.es|
    ensures Shape(x, h - |fs|, |fs| == 0)
  {
    hide ZipOk;
    ZipFacts(w, fs, x, h);
    if h - |fs| == 1 {
      forall i | 0 <= i < |x.kids| ensures x.kids[i].Nil? {
        assert Shape(x.kids[i], 0, false);
      }
    }
  }

  /** A pending entry without children, at the leaf the cursor is in. */
  lemma {:induction false} LeafInsertOk(w: World, fs: seq<Frame>, x: Tree, p: nat, e: Entry, h: nat)
    requires TreeOk(w, fs, x, h) && h - |fs| == 1 && p < |x.es|
    requires EntryOk(e, false) && !e.end
    ensures InsertOk(w, fs, x, p, e, Nil, h)
  {
    hide ZipOk, Holds, Foot, CtxFoot;
    TreeFacts(w, fs, x, h);
    NilFacts(w);
  }

  lemma {:induction false} NilFacts(w: World)
    ensures Foot(Nil) == multiset{} && Holds(w, Nil) && Shape(Nil, 0, false)
  {
  }

  lemma {:induction false} EntryKeyOk(cr: CollateRule, c: seq<KV>, r: nat)
    requires Sorted(cr, c) && r < |c|
    ensures KeyOk(cr, c[r])
  {
  }

  lemma {:induction false} KeyIsQuery(cr: CollateRule, key: seq<u8>, val: seq<u8>)
    requires KeyOk(cr, KV(key, val))
    ensures QueryOk(cr, key, val)
  {
  }

  lemma {:induction false} KeySize(cr: CollateRule, e: Entry)
    requires KeyOk(cr, e.kv) && |e.kv.key| <= KEY_MAX_SIZE && |e.kv.val| <= VALUE_MAX_SIZE
    requires !e.end && !e.node && e.vbn == 0
    ensures EntryOk(e, false)
  {
  }

  lemma {:induction false} LeafRank(fs: seq<Frame>, x: Tree, p: nat)
    requires x.Node? && p < |x.kids| && x.kids[p].Nil?
    ensures Rank(fs, x, p) == Lo(fs, x, p)
  {
  }

  lemma {:induction false} NarrowedPos(cr: CollateRule, c: seq<KV>, fs: seq<Frame>, x: Tree, p: nat, key: seq<u8>,
      val: seq<u8>)
    requires Narrowed(cr, c, fs, x, p, key, val)
    ensures c == ZipFlat(fs, x) && x.Node? && p < |x.es| == |x.kids|
  {
  }

  lemma {:induction false} NarrowedLow(cr: CollateRule, c: seq<KV>, fs: seq<Frame>, x: Tree, p: nat, key: seq<u8>,
      val: seq<u8>)
    requires Narrowed(cr, c, fs, x, p, key, val)
    ensures forall i | 0 <= i < Lo(fs, x, p) && i < |c| :: CollateSign(cr, c[i], key, val) < 0
  {
  }

  lemma {:induction false} RootDirty(w: World, fs: seq<Frame>, x: Tree, h: nat, m: multiset<Vbn>)
    requires PathOk(w, fs, x, h, -1, 0, m)
    ensures x.Node? && VbnAt(fs, x.vbn, 0) in w.dirty
  {
  }

  lemma {:induction false} TopTree(x: Tree)
    ensures Plug([], x) == x
  {
  }

  lemma {:induction false} TopFlat(x: Tree)
    ensures ZipFlat([], x) == Flat(x)
  {
    assert [] + Flat(x) + [] == Flat(x);
  }

  lemma {:induction false} DirtyStored(w: World, fs: seq<Frame>, x: Tree, h: nat)
    requires TreeOk(w, fs, x, h)
    ensures forall v | v in w.dirty :: v in w.store
  {
  }

  lemma {:induction false} EmptyTreeOk(w: World, x: Tree)
    requires x.Node? && x == Node(x.vbn, ROOT_CAP, [EndEntry(false, 0)], [Nil]) && x.vbn != 0
    requires w.store == map[x.vbn := Block(ROOT_CAP, x.es)] && w.dirty == {x.vbn}
    ensures TreeOk(w, [], x, 1) && ZipFlat([], x) == []
  {
    FootOne(Nil);
    WeaveOne(Nil, x.es[0]);
    assert SumLen(x.es) == Len(x.es[0]) + SumLen([]);
    assert Shape(x, 1, true);
    assert Holds(w, x) by { assert forall i | 0 <= i < |x.kids| :: x.kids[i] == Nil; }
    assert CtxShape([], 1) && Linked([], x.vbn) && CtxHolds(w, []) && DirtyUp(w, [], x.vbn);
    assert CtxFoot([]) == multiset{} && Foot(x) == multiset{x.vbn};
  }
}
