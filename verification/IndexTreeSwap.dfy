/** Removing an entry of an inner block: its successor takes its place. */
module IndexTreeSwap {
  import opened IndexLayout
  import opened IndexTreeShape
  import opened IndexTreeZipper
  import opened IndexTreeDirty
  import opened IndexTreeEdit
  import opened IndexTreeSplit
  import opened IndexTreeInsert
  import opened IndexTreeSearch
  import opened Collate

  /** The entry with its child taken out, and the successor ready to be inserted in its place. */
  lemma {:induction false} SwapStart(w: World, fs: seq<Frame>, x: Tree, p: nat, s: Entry, h: nat, u: World,
      gs: seq<Frame>, y: Tree)
    requires x.Node? && p < |x.es| - 1 && |x.kids| == |x.es| && 1 < h - |fs| && Shape(x, h - |fs|, |fs| == 0)
    requires Holds(w, x.kids[p]) && 0 !in w.dirty
    requires ZipOk(u, gs, y, h) && NoDup(ZipFoot(gs, y) + Foot(x.kids[p])) && Apart(u, Foot(x.kids[p]))
    requires Progress(w, fs, Deleted(x, p), u, gs, y, Foot(x.kids[p]))
    requires EntryOk(s, false) && !s.end
    ensures InsertOk(u, gs, y, p, AddVbn(s, x.es[p].vbn), x.kids[p], h)
  {
    hide ZipOk, CtxFoot;
    KeptHolds(w, u, x.kids[p], Foot(x.kids[p]));
    assert |gs| == |fs|;
    assert |y.es| == |x.es| - 1;
  }

  /** With the successor in place of the entry removed, the contents have it twice. */
  lemma {:induction false} SwapView(fs: seq<Frame>, x: Tree, p: nat, s: Entry, gs: seq<Frame>, y: Tree)
    requires x.Node? && |x.kids| == |x.es| && p < |x.es| - 1 && !x.es[p].end
    requires Renumbered(Deleted(x, p), y) && Before(gs) == Before(fs) && After(gs) == After(fs)
    ensures var c, i := ZipFlat(fs, x), Rank(fs, x, p);
            && i < |c|
            && InsertFlat(gs, y, p, s, x.kids[p]) == c[i := s.kv]
    ensures Lo(gs, y, p) == Lo(fs, x, p) && Idx(gs, y, p, x.kids[p]) == Rank(fs, x, p)
    ensures y.kids[p] == x.kids[p + 1] && Hi(gs, y, p, x.kids[p]) == Rank(fs, x, p) + |Flat(x.kids[p + 1])|
  {
    hide Weave, Before, After, Flat;
    CursorView(fs, x, p);
    assert y.kids[..p] == x.kids[..p] && y.es[..p] == x.es[..p];
    assert y.kids[p..] == x.kids[p + 1..] && y.es[p..] == x.es[p + 1..];
    var b, l, t, r, a := Before(fs), LeftOf(x.kids, x.es, p), Flat(x.kids[p]), Weave(x.kids[p + 1..], x.es[p + 1..]),
        After(fs);
    SwapSeq(b, l, t, x.es[p].kv, s.kv, r, a);
  }

  lemma {:induction false} SwapSeq(b: seq<KV>, l: seq<KV>, t: seq<KV>, o: KV, s: KV, r: seq<KV>, a: seq<KV>)
    ensures b + (l + (t + [s]) + r) + a == ((b + l) + t + ([o] + r + a))[|b| + |l| + |t| := s]
  {
    assert b + (l + (t + [s]) + r) + a == (b + l + t) + [s] + (r + a);
    assert (b + l) + t + ([o] + r + a) == (b + l + t) + [o] + (r + a);
  }

  /** Where the cursor is once the successor is in place. */
  lemma {:induction false} SwapLanded(fs: seq<Frame>, x: Tree, p: nat, s: Entry, gs: seq<Frame>, y: Tree, h: nat,
                                      hs: seq<Frame>, z: Tree, q: nat, k: nat, split: bool)
    requires x.Node? && |x.kids| == |x.es| && p < |x.es| - 1 && |gs| == |fs| && 1 < h - |fs|
    requires Shape(x, h - |fs|, fs == []) && Renumbered(Deleted(x, p), y) && s.node
    requires Landed(gs, y, p, s, x.kids[p], h, hs, z, q, k, split)
    requires Lo(gs, y, p) == Lo(fs, x, p) && Idx(gs, y, p, x.kids[p]) == Rank(fs, x, p)
    requires Hi(gs, y, p, x.kids[p]) == Rank(fs, x, p) + |Flat(x.kids[p + 1])|
    ensures q < |z.es| - 1 && 1 < k - |hs| && (split <==> SwapSplits(x.es, p, s.kv))
    ensures var i, r := Rank(fs, x, p), Rank(hs, z, q); if split then r + 1 < i || i + 1 < r else r == i
  {
    hide Lo, Idx, Hi, RealSize, Flat, Weave, Delete;
    KidShape(x, h - |fs|, fs == [], p);
    KidShape(x, h - |fs|, fs == [], p + 1);
    FlatNonEmpty(x.kids[p + 1], h - |fs| - 1);
    FlatNonEmpty(x.kids[p], h - |fs| - 1);
  }

  lemma {:induction false} KidShape(x: Tree, h: nat, root: bool, i: nat)
    requires Shape(x, h, root) && 1 <= h && x.Node? && i < |x.kids|
    ensures Shape(x.kids[i], h - 1, false)
  {
  }

  /** Whether putting the successor (in-order at i + 1) in place of the entry at p needs a split. */
  predicate SwapSplits(es: seq<Entry>, p: nat, succ: KV) {
    Splits(Delete(es, p), Entry(succ, true, 0, false))
  }

  /** A successor no longer than the entry it replaces never needs a split. */
  lemma {:induction false} ShorterNeverSplits(es: seq<Entry>, p: nat, succ: KV)
    requires p < |es| && es[p].node && RealSize(es) <= BLOCK_CAP
    requires |succ.key| + |succ.val| <= |es[p].kv.key| + |es[p].kv.val|
    ensures !SwapSplits(es, p, succ)
  {
    SumLenRemove(es, p);
  }

  /** What remove_node leaves: the successor copied over rank i, and the entry at rank j dropped. */
  function CopiedDropped(c: seq<KV>, i: nat, j: nat): seq<KV> {
    if i + 1 < |c| then DeleteAt(c[i := c[i + 1]], j) else c
  }

  lemma {:induction false} SwapRight(c: seq<KV>, i: nat)
    requires i + 1 < |c|
    ensures CopiedDropped(c, i, i + 1) == DeleteAt(c, i)
  {
    var d := c[i := c[i + 1]];
    assert d[..i + 1] == c[..i] + [c[i + 1]];
    assert c[i + 1..] == [c[i + 1]] + c[i + 2..];
    assert d[i + 2..] == c[i + 2..];
    assert c[..i] + [c[i + 1]] + c[i + 2..] == c[..i] + ([c[i + 1]] + c[i + 2..]);
  }

  /** Dropping any entry but the successor or the copy leaves a duplicate and loses a key. */
  lemma {:induction false} SwapWrong(cr: CollateRule, c: seq<KV>, i: nat, j: nat)
    requires i + 1 < |c| && j < |c| && (j < i || i + 1 < j) && Sorted(cr, c)
    ensures CopiedDropped(c, i, j) != DeleteAt(c, i)
    ensures c[j] !in CopiedDropped(c, i, j) && c[j] in DeleteAt(c, i)
  {
    hide CollateSign, KeyOk;
    var d := c[i := c[i + 1]];
    var r := CopiedDropped(c, i, j);
    forall k | 0 <= k < |r| ensures r[k] != c[j] {
      var k' := if k < j then k else k + 1;
      assert r[k] == d[k'];
      var k'' := if k' == i then i + 1 else k';
      assert r[k] == c[k''] && k'' != j;
      Distinct(cr, c, k'', j);
    }
    var t := DeleteAt(c, i);
    assert t[if j < i then j else j - 1] == c[j];
  }

  lemma {:induction false} Distinct(cr: CollateRule, c: seq<KV>, a: nat, b: nat)
    requires Sorted(cr, c) && a < |c| && b < |c| && a != b
    ensures c[a] != c[b]
  {
    hide CollateSign, KeyOk;
    if a < b { assert Precedes(cr, c[a], c[b]); } else { assert Precedes(cr, c[b], c[a]); }
    EntryKeyOk(cr, c, a);
    SignFlip(cr, c[a], c[b]);
    SignFlip(cr, c[b], c[a]);
  }

  // ---- which block an entry is in

  /** The entry at in-order rank r of tree t, searched from entry i of its root on: the path to its block
      (below the path fs), the block, and its position there. */
  function Locate(fs: seq<Frame>, t: Tree, i: nat, r: int): (seq<Frame>, Tree, nat)
    decreases t, if t.Node? then |t.kids| - i else 0
  {
    if t.Nil? || i >= |t.kids| || i >= |t.es| then (fs, Nil, 0)
    else if r < |Flat(t.kids[i])| then Locate(fs + [OpenAt(t, i)], t.kids[i], 0, r)
    else if r == |Flat(t.kids[i])| && !t.es[i].end then (fs, t, i)
    else Locate(fs, t, i + 1, r - |Flat(t.kids[i])| - |Own(t.es[i])|)
  }

  /** The block (its entries) and the position in it of the entry at in-order rank r. */
  function Home(t: Tree, r: int): (seq<Entry>, nat) {
    var (fs, x, p) := Locate([], t, 0, r);
    (if x.Node? then x.es else [], p)
  }

  lemma {:induction false} LocateSkip(fs: seq<Frame>, t: Tree, i: nat, d: nat, s: nat)
    requires t.Node? && |t.kids| == |t.es| && i <= d < |t.es| && forall j | 0 <= j < d :: !t.es[j].end
    ensures Locate(fs, t, i, |Weave(t.kids[i..d], t.es[i..d])| + s) == Locate(fs, t, d, s)
    decreases d - i
  {
    hide Flat;
    if i < d {
      assert t.kids[i..d][1..] == t.kids[i + 1..d] && t.es[i..d][1..] == t.es[i + 1..d];
      LocateSkip(fs, t, i + 1, d, s);
    } else {
      assert t.kids[i..d] == [] && t.es[i..d] == [];
    }
  }

  lemma {:induction false} LocateHere(fs: seq<Frame>, x: Tree, p: nat)
    requires x.Node? && |x.kids| == |x.es| && p < |x.es| && forall j | 0 <= j <= p :: !x.es[j].end
    ensures Locate(fs, x, 0, |LeftOf(x.kids, x.es, p)| + |Flat(x.kids[p])|) == (fs, x, p)
  {
    hide Flat, Weave;
    LocateSkip(fs, x, 0, p, |Flat(x.kids[p])|);
    assert x.kids[0..p] == x.kids[..p] && x.es[0..p] == x.es[..p];
  }

  lemma {:induction false} LocateBelow(fs: seq<Frame>, f: Frame, x: Tree, s: nat)
    requires f.pos < |f.es| == |f.kids| && s < |Flat(x)| && forall j | 0 <= j < f.pos :: !f.es[j].end
    ensures var z := Close(f, x);
            Locate(fs, z, 0, |LeftOf(f.kids, f.es, f.pos)| + s) == Locate(fs + [OpenAt(z, f.pos)], x, 0, s)
  {
    hide Flat, Weave;
    var z := Close(f, x);
    assert z.kids[0..f.pos] == f.kids[..f.pos] && z.es[0..f.pos] == f.es[..f.pos];
    LocateSkip(fs, z, 0, f.pos, s);
  }

  /** The path, with every child in its place. */
  function Filled(fs: seq<Frame>, x: Tree): seq<Frame>
    decreases |fs|
  {
    if fs == [] then []
    else
      var f := fs[|fs| - 1];
      Filled(fs[..|fs| - 1], Close(f, x)) + [OpenAt(Close(f, x), f.pos)]
  }

  ghost predicate EndLast(fs: seq<Frame>) {
    forall f | f in fs :: f.pos < |f.es| == |f.kids| && forall j | 0 <= j < f.pos :: !f.es[j].end
  }

  lemma {:induction false} FilledStep(fs: seq<Frame>, x: Tree)
    requires EndLast(fs)
    ensures if fs == [] then Filled(fs, x) == [] && Plug(fs, x) == x && Before(fs) == []
            else var n := |fs| - 1; var f := fs[n];
                 && Filled(fs, x) == Filled(fs[..n], Close(f, x)) + [OpenAt(Close(f, x), f.pos)]
                 && Plug(fs, x) == Plug(fs[..n], Close(f, x)) && EndLast(fs[..n])
                 && f.pos < |f.es| == |f.kids| && (forall j | 0 <= j < f.pos :: !f.es[j].end)
                 && Before(fs) == Before(fs[..n]) + LeftOf(f.kids, f.es, f.pos)
  {
    hide LeftOf, Close;
    if fs != [] { assert fs[|fs| - 1] in fs; }
  }

  lemma {:induction false} LocateUp(gs: seq<Frame>, fs: seq<Frame>, x: Tree, s: nat)
    requires EndLast(fs) && s < |Flat(x)|
    ensures Locate(gs, Plug(fs, x), 0, |Before(fs)| + s) == Locate(gs + Filled(fs, x), x, 0, s)
    decreases |fs|
  {
    hide Flat, Weave, Locate, LeftOf, Filled, Plug, Before, Close;
    FilledStep(fs, x);
    if fs != [] {
      var n := |fs| - 1;
      var z := Close(fs[n], x);
      CloseFlat(fs[n], x);
      LocateUp(gs, fs[..n], z, |LeftOf(fs[n].kids, fs[n].es, fs[n].pos)| + s);
      LocateBelow(gs + Filled(fs[..n], z), fs[n], x, s);
      assert gs + Filled(fs[..n], z) + [OpenAt(z, fs[n].pos)] == gs + (Filled(fs[..n], z) + [OpenAt(z, fs[n].pos)]);
    } else {
      assert gs + [] == gs;
    }
  }

  lemma {:induction false} CtxEndLast(fs: seq<Frame>, h: nat)
    requires CtxShape(fs, h)
    ensures EndLast(fs)
  {
    forall f | f in fs ensures f.pos < |f.es| == |f.kids| && forall j | 0 <= j < f.pos :: !f.es[j].end {
      var i :| 0 <= i < |fs| && fs[i] == f;
      assert ShapeAt(fs, h, i);
    }
  }

  /** The cursor's block is home to the entry at the cursor's rank, wherever the cursor came from. */
  lemma {:induction false} HomeOfCursor(w: World, fs: seq<Frame>, x: Tree, h: nat, p: nat)
    requires TreeOk(w, fs, x, h) && p < |x.es| - 1
    ensures Locate([], Plug(fs, x), 0, Rank(fs, x, p)) == (Filled(fs, x), x, p)
    ensures Home(Plug(fs, x), Rank(fs, x, p)) == (x.es, p)
    ensures x.es[p].node <==> 1 < h - |fs|
  {
    hide TreeOk, Flat, Weave, Locate, Before, LeftOf, Filled;
    TreeFacts(w, fs, x, h);
    TreeCtx(w, fs, x, h);
    CtxEndLast(fs, h);
    LocateHere([] + Filled(fs, x), x, p);
    WeaveAt(x.kids, x.es, p);
    FlatIs(x);
    assert LeftOf(x.kids, x.es, p) == Weave(x.kids[..p], x.es[..p]) by { LeftIs(x.kids, x.es, p); }
    assert EntryOk(x.es[p], h - |fs| > 1);
    LocateUp([], fs, x, |LeftOf(x.kids, x.es, p)| + |Flat(x.kids[p])|);
    assert [] + Filled(fs, x) == Filled(fs, x);
  }

  // ---- which entry a search meets

  /** How many blocks are above that of the entry at in-order rank r. */
  function DepthAt(t: Tree, r: int): nat { |Locate([], t, 0, r).0| }

  /** The entry at rank r is nearer to the root than that at rank i, or as near and not behind it. */
  predicate Sooner(t: Tree, r: int, i: int) {
    DepthAt(t, r) < DepthAt(t, i) || (DepthAt(t, r) == DepthAt(t, i) && r <= i)
  }

  lemma {:induction false} LocateDeeper(fs: seq<Frame>, t: Tree, i: nat, r: int)
    ensures |fs| <= |Locate(fs, t, i, r).0|
    decreases t, if t.Node? then |t.es| - i else 0
  {
    if t.Node? && i < |t.es| && i < |t.kids| {
      LocateDeeper(fs + [OpenAt(t, i)], t.kids[i], 0, r);
      LocateDeeper(fs, t, i + 1, r - |Flat(t.kids[i])| - |Own(t.es[i])|);
    }
  }

  lemma {:induction false} FilledSize(fs: seq<Frame>, x: Tree)
    ensures |Filled(fs, x)| == |fs|
    decreases |fs|
  {
    if fs != [] { FilledSize(fs[..|fs| - 1], Close(fs[|fs| - 1], x)); }
  }

  /** An entry of the subtree left of the cursor's entry is in a block below. */
  lemma {:induction false} ChildDeeper(fs: seq<Frame>, x: Tree, p: nat, s: nat)
    requires x.Node? && |x.kids| == |x.es| && p < |x.es| && forall j | 0 <= j <= p :: !x.es[j].end
    requires s < |Flat(x.kids[p])|
    ensures |fs| < |Locate(fs, x, 0, |LeftOf(x.kids, x.es, p)| + s).0|
  {
    hide Flat, Weave;
    LocateSkip(fs, x, 0, p, s);
    assert x.kids[0..p] == x.kids[..p] && x.es[0..p] == x.es[..p];
    LocateDeeper(fs + [OpenAt(x, p)], x.kids[p], 0, s);
  }

  /** Of all entries that compare equal, a search meets one that is nearest to the root, and in its block the first. */
  lemma {:induction false} MetTopmost(w: World, fs: seq<Frame>, x: Tree, h: nat, p: nat, cr: CollateRule, c: seq<KV>,
      key: seq<u8>, val: seq<u8>)
    requires TreeOk(w, fs, x, h) && p < |x.es| - 1 && Narrowed(cr, c, fs, x, p, key, val)
    ensures var t, r := Plug(fs, x), Rank(fs, x, p);
            forall i | 0 <= i < |c| && CollateSign(cr, c[i], key, val) == 0 :: Sooner(t, r, i)
  {
    hide TreeOk, Flat, Weave, Locate, Before, After, LeftOf, Filled, CollateSign;
    TreeFacts(w, fs, x, h);
    TreeCtx(w, fs, x, h);
    CtxEndLast(fs, h);
    HomeOfCursor(w, fs, x, h, p);
    FilledSize(fs, x);
    var t, r, b := Plug(fs, x), Rank(fs, x, p), |Before(fs)|;
    forall i | 0 <= i < |c| && CollateSign(cr, c[i], key, val) == 0
      ensures Sooner(t, r, i)
    {
      assert b <= Lo(fs, x, p) <= i < b + |Flat(x)|;
      LocateUp([], fs, x, i - b);
      assert [] + Filled(fs, x) == Filled(fs, x);
      LocateDeeper(Filled(fs, x), x, 0, i - b);
      if i < r { ChildDeeper(Filled(fs, x), x, p, i - Lo(fs, x, p)); }
    }
  }

  lemma {:induction false} LeftIs(kids: seq<Tree>, es: seq<Entry>, p: nat)
    requires p <= |kids| == |es|
    ensures LeftOf(kids, es, p) == Weave(kids[..p], es[..p])
  {
  }

  lemma {:induction false} TreeCtx(w: World, fs: seq<Frame>, x: Tree, h: nat)
    requires TreeOk(w, fs, x, h)
    ensures CtxShape(fs, h)
  {
  }

  /** Removing the entry of rank r goes wrong: it is in an inner block, and with its successor in its
      place that block would be overfull. */
  predicate Overfull(t: Tree, c: seq<KV>, r: nat) {
    var (es, p) := Home(t, r);
    p < |es| && es[p].node && r + 1 < |c| && SwapSplits(es, p, c[r + 1])
  }

  lemma {:induction false} DeleteSorted(cr: CollateRule, c: seq<KV>, r: nat)
    requires Sorted(cr, c) && r < |c|
    ensures Sorted(cr, DeleteAt(c, r))
  {
    hide CollateSign, KeyOk;
    var d := DeleteAt(c, r);
    forall i | 0 <= i < |d| ensures KeyOk(cr, d[i]) {
      assert d[i] == c[if i < r then i else i + 1];
    }
    forall i, j | 0 <= i < j < |d| ensures Precedes(cr, d[i], d[j]) {
      assert d[i] == c[if i < r then i else i + 1] && d[j] == c[if j < r then j else j + 1];
    }
  }
}
