/** The cursor's path from the root: a stack of blocks, each with one child left open. */
module IndexTreeZipper {
  import opened IndexLayout
  import opened IndexTreeShape

  /** A block on the path.  `pos` is the entry whose child is the next block down; what `kids`
      holds at `pos` is irrelevant. */
  datatype Frame = Frame(vbn: Vbn, cap: nat, es: seq<Entry>, kids: seq<Tree>, pos: nat)

  function OpenAt(t: Tree, p: nat): Frame {
    if t.Node? then Frame(t.vbn, t.cap, t.es, t.kids, p) else Frame(0, 0, [], [], p)
  }

  function Close(f: Frame, x: Tree): Tree {
    Node(f.vbn, f.cap, f.es, if f.pos < |f.kids| then f.kids[f.pos := x] else f.kids)
  }

  function FrameFoot(f: Frame): multiset<Vbn> {
    if f.pos < |f.kids| then multiset{f.vbn} + FootAll(f.kids[..f.pos]) + FootAll(f.kids[f.pos + 1..])
    else multiset{f.vbn}
  }

  function LeftOf(kids: seq<Tree>, es: seq<Entry>, p: nat): seq<KV> {
    if p <= |kids| && p <= |es| then Weave(kids[..p], es[..p]) else []
  }

  function RightOf(kids: seq<Tree>, es: seq<Entry>, p: nat): seq<KV> {
    if p < |kids| && p < |es| then Own(es[p]) + Weave(kids[p + 1..], es[p + 1..]) else []
  }

  ghost predicate FrameShape(f: Frame, h: nat, root: bool) {
    && 2 <= h
    && f.vbn != 0
    && f.cap == CapOf(root)
    && EntriesOk(f.es, true, f.cap)
    && f.pos < |f.es| == |f.kids|
    && (forall i | 0 <= i < |f.kids| && i != f.pos :: Shape(f.kids[i], h - 1, false))
    && (forall i | 0 <= i < |f.kids| && i != f.pos :: f.es[i].vbn == RootVbn(f.kids[i]))
  }

  ghost predicate FrameHolds(w: World, f: Frame) {
    && Held(w, f.vbn, f.cap, f.es)
    && Synced(w, f.vbn)
    && (forall i | 0 <= i < |f.kids| && i != f.pos :: Holds(w, f.kids[i]))
    && (forall i | 0 <= i < |f.kids| && i != f.pos :: RootVbn(f.kids[i]) in w.dirty ==> f.vbn in w.dirty)
  }

  // ---- one step up or down

  lemma {:induction false} CloseFacts(w: World, f: Frame, x: Tree, h: nat, root: bool)
    requires FrameShape(f, h, root) && Shape(x, h - 1, false) && f.es[f.pos].vbn == RootVbn(x)
    requires FrameHolds(w, f) && Holds(w, x) && (RootVbn(x) in w.dirty ==> f.vbn in w.dirty)
    ensures Shape(Close(f, x), h, root)
    ensures Holds(w, Close(f, x))
  {
    var t := Close(f, x);
    forall i | 0 <= i < |t.kids|
      ensures Holds(w, t.kids[i]) && (RootVbn(t.kids[i]) in w.dirty ==> t.vbn in w.dirty)
      ensures Shape(t.kids[i], h - 1, false) && t.es[i].vbn == RootVbn(t.kids[i])
    {
      if i != f.pos { assert t.kids[i] == f.kids[i]; }
    }
  }

  lemma {:induction false} CloseFoot(f: Frame, x: Tree)
    requires f.pos < |f.kids|
    ensures Foot(Close(f, x)) == FrameFoot(f) + Foot(x)
  {
    var kids := f.kids[f.pos := x];
    FootAt(kids, f.pos);
    assert kids[..f.pos] == f.kids[..f.pos] && kids[f.pos + 1..] == f.kids[f.pos + 1..];
  }

  lemma {:induction false} CloseFlat(f: Frame, x: Tree)
    requires f.pos < |f.kids| == |f.es|
    ensures Flat(Close(f, x)) == LeftOf(f.kids, f.es, f.pos) + Flat(x) + RightOf(f.kids, f.es, f.pos)
  {
    var kids := f.kids[f.pos := x];
    WeaveAt(kids, f.es, f.pos);
    assert kids[..f.pos] == f.kids[..f.pos] && kids[f.pos + 1..] == f.kids[f.pos + 1..];
    Regroup4(LeftOf(f.kids, f.es, f.pos), Flat(x), Own(f.es[f.pos]), Weave(f.kids[f.pos + 1..], f.es[f.pos + 1..]));
  }

  lemma {:induction false} Regroup4(a: seq<KV>, b: seq<KV>, c: seq<KV>, d: seq<KV>)
    ensures a + (b + c + d) == a + b + (c + d)
  {
  }

  lemma {:induction false} OpenFacts(w: World, t: Tree, p: nat, h: nat, root: bool)
    requires Shape(t, h, root) && 2 <= h && Holds(w, t) && p < |t.es|
    ensures FrameShape(OpenAt(t, p), h, root) && Shape(t.kids[p], h - 1, false)
    ensures FrameHolds(w, OpenAt(t, p)) && Holds(w, t.kids[p])
    ensures t.es[p].vbn == RootVbn(t.kids[p]) && (RootVbn(t.kids[p]) in w.dirty ==> t.vbn in w.dirty)
    ensures Close(OpenAt(t, p), t.kids[p]) == t
  {
    assert t.kids[p := t.kids[p]] == t.kids;
  }

  // ---- the whole path

  function CtxFoot(fs: seq<Frame>): multiset<Vbn> {
    if fs == [] then multiset{} else CtxFoot(fs[..|fs| - 1]) + FrameFoot(fs[|fs| - 1])
  }

  function Before(fs: seq<Frame>): seq<KV> {
    if fs == [] then []
    else
      var f := fs[|fs| - 1];
      Before(fs[..|fs| - 1]) + LeftOf(f.kids, f.es, f.pos)
  }

  function After(fs: seq<Frame>): seq<KV> {
    if fs == [] then []
    else
      var f := fs[|fs| - 1];
      RightOf(f.kids, f.es, f.pos) + After(fs[..|fs| - 1])
  }

  lemma {:induction false} BeforeTop()
    ensures Before([]) == [] && After([]) == []
  {
  }

  function VbnAt(fs: seq<Frame>, v: Vbn, i: nat): Vbn
    requires i <= |fs|
  {
    if i < |fs| then fs[i].vbn else v
  }

  ghost predicate ShapeAt(fs: seq<Frame>, h: nat, i: nat) {
    i < |fs| < h && FrameShape(fs[i], h - i, i == 0)
  }

  /** Every block on the path has the right shape for its level, in a tree of h levels. */
  ghost predicate CtxShape(fs: seq<Frame>, h: nat) {
    && |fs| < h
    && (forall f | f in fs :: f.pos < |f.kids| == |f.es|)
    && forall i | 0 <= i < |fs| :: ShapeAt(fs, h, i)
  }

  /** The open entry of level i names the block below, which is block v below the last level. */
  ghost predicate LinkAt(fs: seq<Frame>, v: Vbn, i: nat) {
    i < |fs| && fs[i].pos < |fs[i].es| && fs[i].es[fs[i].pos].vbn == VbnAt(fs, v, i + 1)
  }

  ghost predicate Linked(fs: seq<Frame>, v: Vbn) {
    forall i | 0 <= i < |fs| :: LinkAt(fs, v, i)
  }

  ghost predicate HoldsAt(w: World, fs: seq<Frame>, i: nat) {
    i < |fs| && FrameHolds(w, fs[i])
  }

  ghost predicate CtxHolds(w: World, fs: seq<Frame>) {
    forall i | 0 <= i < |fs| :: HoldsAt(w, fs, i)
  }

  /** If the block below level i is dirty, so is the one at level i. */
  ghost predicate DirtyAt(w: World, fs: seq<Frame>, v: Vbn, i: nat) {
    i < |fs| && (VbnAt(fs, v, i + 1) in w.dirty ==> fs[i].vbn in w.dirty)
  }

  ghost predicate DirtyUp(w: World, fs: seq<Frame>, v: Vbn) {
    forall i | 0 <= i < |fs| :: DirtyAt(w, fs, v, i)
  }

  /** A well-formed tree of h levels, opened down to x. */
  ghost predicate ZipOk(w: World, fs: seq<Frame>, x: Tree, h: nat) {
    && CtxShape(fs, h)
    && Shape(x, h - |fs|, |fs| == 0)
    && Linked(fs, RootVbn(x))
    && CtxHolds(w, fs)
    && Holds(w, x)
    && DirtyUp(w, fs, RootVbn(x))
  }

  function ZipFoot(fs: seq<Frame>, x: Tree): multiset<Vbn> {
    CtxFoot(fs) + Foot(x)
  }

  function ZipFlat(fs: seq<Frame>, x: Tree): seq<KV> {
    Before(fs) + Flat(x) + After(fs)
  }

  function Plug(fs: seq<Frame>, x: Tree): Tree {
    if fs == [] then x else Plug(fs[..|fs| - 1], Close(fs[|fs| - 1], x))
  }

  lemma {:induction false} ZipDown(w: World, fs: seq<Frame>, x: Tree, h: nat, p: nat)
    requires ZipOk(w, fs, x, h) && 1 < h - |fs| && p < |x.es|
    ensures ZipOk(w, fs + [OpenAt(x, p)], x.kids[p], h)
  {
    hide Holds, FrameShape, FrameHolds;
    OpenFacts(w, x, p, h - |fs|, |fs| == 0);
    var gs := fs + [OpenAt(x, p)];
    var v := RootVbn(x.kids[p]);
    forall i | 0 <= i < |gs|
      ensures ShapeAt(gs, h, i) && HoldsAt(w, gs, i) && LinkAt(gs, v, i) && DirtyAt(w, gs, v, i)
    {
      if i < |fs| {
        assert ShapeAt(fs, h, i) && HoldsAt(w, fs, i);
        assert LinkAt(fs, RootVbn(x), i) && DirtyAt(w, fs, RootVbn(x), i);
        assert VbnAt(gs, v, i + 1) == VbnAt(fs, RootVbn(x), i + 1);
      }
    }
  }

  lemma {:induction false} CtxInit(w: World, fs: seq<Frame>, v: Vbn, h: nat)
    requires fs != [] && CtxShape(fs, h) && Linked(fs, v) && CtxHolds(w, fs) && DirtyUp(w, fs, v)
    ensures var n := |fs| - 1; var gs := fs[..n];
            CtxShape(gs, h) && Linked(gs, fs[n].vbn) && CtxHolds(w, gs) && DirtyUp(w, gs, fs[n].vbn)
  {
    var n := |fs| - 1;
    var gs := fs[..n];
    forall i | 0 <= i < n
      ensures ShapeAt(gs, h, i) && HoldsAt(w, gs, i) && LinkAt(gs, fs[n].vbn, i) && DirtyAt(w, gs, fs[n].vbn, i)
    {
      assert ShapeAt(fs, h, i) && HoldsAt(w, fs, i);
      assert LinkAt(fs, v, i) && DirtyAt(w, fs, v, i);
      assert VbnAt(gs, fs[n].vbn, i + 1) == VbnAt(fs, v, i + 1);
    }
  }

  lemma {:induction false} ZipUp(w: World, fs: seq<Frame>, x: Tree, h: nat)
    requires ZipOk(w, fs, x, h) && fs != []
    ensures var n := |fs| - 1;
            ZipOk(w, fs[..n], Close(fs[n], x), h)
  {
    var n := |fs| - 1;
    var f := fs[n];
    assert ShapeAt(fs, h, n) && HoldsAt(w, fs, n);
    assert LinkAt(fs, RootVbn(x), n) && DirtyAt(w, fs, RootVbn(x), n);
    CloseFacts(w, f, x, h - n, n == 0);
    CtxInit(w, fs, RootVbn(x), h);
  }

  lemma {:induction false} Regroup(b: seq<KV>, l: seq<KV>, m: seq<KV>, r: seq<KV>, a: seq<KV>)
    ensures b + (l + m + r) + a == (b + l) + m + (r + a)
  {
  }

  lemma {:induction false} ZipUpView(fs: seq<Frame>, x: Tree)
    requires fs != [] && forall f | f in fs :: f.pos < |f.kids| == |f.es|
    ensures var n := |fs| - 1;
            && ZipFoot(fs[..n], Close(fs[n], x)) == ZipFoot(fs, x)
            && ZipFlat(fs[..n], Close(fs[n], x)) == ZipFlat(fs, x)
            && Plug(fs[..n], Close(fs[n], x)) == Plug(fs, x)
  {
    var n := |fs| - 1;
    var f := fs[n];
    CloseFoot(f, x);
    CloseFlat(f, x);
    Regroup(Before(fs[..n]), LeftOf(f.kids, f.es, f.pos), Flat(x), RightOf(f.kids, f.es, f.pos), After(fs[..n]));
  }

  lemma {:induction false} ZipDownView(fs: seq<Frame>, x: Tree, p: nat)
    requires forall f | f in fs :: f.pos < |f.kids| == |f.es|
    requires x.Node? && p < |x.kids| == |x.es|
    ensures var gs := fs + [OpenAt(x, p)];
            && (forall f | f in gs :: f.pos < |f.kids| == |f.es|)
            && ZipFoot(gs, x.kids[p]) == ZipFoot(fs, x)
            && ZipFlat(gs, x.kids[p]) == ZipFlat(fs, x)
            && Plug(gs, x.kids[p]) == Plug(fs, x)
            && Before(gs) == Before(fs) + LeftOf(x.kids, x.es, p)
            && After(gs) == RightOf(x.kids, x.es, p) + After(fs)
  {
    var gs := fs + [OpenAt(x, p)];
    assert gs[..|gs| - 1] == fs && gs[|gs| - 1] == OpenAt(x, p);
    assert x.kids[p := x.kids[p]] == x.kids;
    assert Close(OpenAt(x, p), x.kids[p]) == x;
    ZipUpView(gs, x.kids[p]);
  }

  lemma {:induction false} PlugOk(w: World, fs: seq<Frame>, x: Tree, h: nat)
    requires ZipOk(w, fs, x, h)
    ensures ZipOk(w, [], Plug(fs, x), h)
    ensures Foot(Plug(fs, x)) == ZipFoot(fs, x)
    ensures Flat(Plug(fs, x)) == ZipFlat(fs, x)
    decreases |fs|
  {
    if fs != [] {
      ZipUp(w, fs, x, h);
      ZipUpView(fs, x);
      PlugOk(w, fs[..|fs| - 1], Close(fs[|fs| - 1], x), h);
    }
  }

  // ---- footprints of paths

  lemma {:induction false} CtxFootAppend(a: seq<Frame>, b: seq<Frame>)
    ensures CtxFoot(a + b) == CtxFoot(a) + CtxFoot(b)
    decreases |b|
  {
    hide FrameFoot;
    if b == [] {
      assert a + b == a;
    } else {
      var n := |b| - 1;
      assert (a + b)[..|a + b| - 1] == a + b[..n];
      CtxFootAppend(a, b[..n]);
    }
  }

  lemma {:induction false} CtxFootAt(fs: seq<Frame>, d: nat)
    requires d < |fs|
    ensures CtxFoot(fs) == CtxFoot(fs[..d]) + FrameFoot(fs[d]) + CtxFoot(fs[d + 1..])
  {
    hide FrameFoot;
    assert fs == fs[..d + 1] + fs[d + 1..];
    CtxFootAppend(fs[..d + 1], fs[d + 1..]);
    assert fs[..d + 1][..d] == fs[..d];
  }

  lemma {:induction false} CtxFootPair(fs: seq<Frame>, i: nat, j: nat, v: Vbn)
    requires i < j < |fs|
    ensures CtxFoot(fs)[v] >= FrameFoot(fs[i])[v] + FrameFoot(fs[j])[v]
  {
    hide FrameFoot;
    CtxFootAt(fs, j);
    CtxFootAt(fs[..j], i);
  }

  /** Owned blocks are told apart along the path: a block on the path is nowhere else. */
  lemma {:induction false} PathApart(fs: seq<Frame>, x: Tree, m: multiset<Vbn>, d: nat)
    requires forall f | f in fs :: f.pos < |f.kids|
    requires x.Node? && d <= |fs| && NoDup(ZipFoot(fs, x) + m)
    ensures forall i | 0 <= i <= |fs| && i != d :: VbnAt(fs, x.vbn, i) != VbnAt(fs, x.vbn, d)
    ensures forall i, k | 0 <= i < |fs| && 0 <= k < |fs[i].kids| && k != fs[i].pos ::
              VbnAt(fs, x.vbn, d) !in Foot(fs[i].kids[k])
    ensures forall k | 0 <= k < |x.kids| :: VbnAt(fs, x.vbn, d) !in Foot(x.kids[k])
    ensures VbnAt(fs, x.vbn, d) !in m
  {
    var v := VbnAt(fs, x.vbn, d);
    assert (ZipFoot(fs, x) + m)[v] <= 1;
    if d < |fs| { CtxFootAt(fs, d); }
    forall i | 0 <= i <= |fs| && i != d
      ensures VbnAt(fs, x.vbn, i) != v
    {
      PathApartBlock(fs, x, m, d, i);
    }
    forall i, k | 0 <= i < |fs| && 0 <= k < |fs[i].kids| && k != fs[i].pos
      ensures v !in Foot(fs[i].kids[k])
    {
      PathApartSide(fs, x, m, d, i, k);
    }
    forall k | 0 <= k < |x.kids| ensures v !in Foot(x.kids[k]) {
      if v in Foot(x.kids[k]) {
        FootMember(x.kids, k, v);
      }
    }
  }

  lemma {:induction false} OwnVbn(fs: seq<Frame>, x: Tree, i: nat)
    requires i <= |fs| && x.Node?
    ensures if i < |fs| then fs[i].vbn in FrameFoot(fs[i]) else x.vbn in Foot(x)
  {
  }

  lemma {:induction false} PathApartBlock(fs: seq<Frame>, x: Tree, m: multiset<Vbn>, d: nat, i: nat)
    requires forall f | f in fs :: f.pos < |f.kids|
    requires x.Node? && d <= |fs| && NoDup(ZipFoot(fs, x) + m) && i <= |fs| && i != d
    ensures VbnAt(fs, x.vbn, i) != VbnAt(fs, x.vbn, d)
    ensures i < |fs| ==> VbnAt(fs, x.vbn, d) !in FrameFoot(fs[i])
  {
    hide FrameFoot, Foot, CtxFoot;
    var v := VbnAt(fs, x.vbn, d);
    assert (ZipFoot(fs, x) + m)[v] <= 1;
    OwnVbn(fs, x, i);
    OwnVbn(fs, x, d);
    if d == |fs| {
      CtxFootAt(fs, i);
    } else if i == |fs| {
      CtxFootAt(fs, d);
    } else if d < i {
      CtxFootPair(fs, d, i, v);
    } else {
      CtxFootPair(fs, i, d, v);
    }
  }

  lemma {:induction false} PathApartSide(fs: seq<Frame>, x: Tree, m: multiset<Vbn>, d: nat, i: nat, k: nat)
    requires forall f | f in fs :: f.pos < |f.kids|
    requires x.Node? && d <= |fs| && NoDup(ZipFoot(fs, x) + m)
    requires i < |fs| && k < |fs[i].kids| && k != fs[i].pos
    ensures VbnAt(fs, x.vbn, d) !in Foot(fs[i].kids[k])
  {
    var v := VbnAt(fs, x.vbn, d);
    assert (ZipFoot(fs, x) + m)[v] <= 1;
    FrameFootSide(fs[i], k, v);
    if i != d {
      PathApartBlock(fs, x, m, d, i);
    } else {
      CtxFootAt(fs, d);
      assert FrameFoot(fs[d])[v] <= 1;
    }
  }

  lemma {:induction false} FrameFootSide(f: Frame, k: nat, v: Vbn)
    requires f.pos < |f.kids| && k < |f.kids| && k != f.pos
    ensures v in Foot(f.kids[k]) ==> v in FootAll(f.kids[..f.pos]) + FootAll(f.kids[f.pos + 1..])
  {
    if v in Foot(f.kids[k]) {
      if k < f.pos {
        FootMember(f.kids[..f.pos], k, v);
      } else {
        assert f.kids[f.pos + 1..][k - f.pos - 1] == f.kids[k];
        FootMember(f.kids[f.pos + 1..], k - f.pos - 1, v);
      }
    }
  }

  lemma {:induction false} FrameFootInStore(w: World, f: Frame, v: Vbn)
    requires f.pos < |f.kids| && FrameHolds(w, f) && v in FrameFoot(f)
    ensures v in w.store
  {
    if v in FootAll(f.kids[..f.pos]) {
      FootAllInStore(w, f.kids[..f.pos], v);
    } else if v in FootAll(f.kids[f.pos + 1..]) {
      FootAllInStore(w, f.kids[f.pos + 1..], v);
    }
  }

  /** Blocks on the path, or owned beside it, are in the store. */
  lemma {:induction false} CtxFootInStore(w: World, fs: seq<Frame>, v: Vbn)
    requires forall f | f in fs :: f.pos < |f.kids|
    requires CtxHolds(w, fs) && v in CtxFoot(fs)
    ensures v in w.store
    decreases |fs|
  {
    hide FrameFoot, FrameHolds;
    var n := |fs| - 1;
    var f := fs[n];
    assert HoldsAt(w, fs, n);
    if v in FrameFoot(f) {
      FrameFootInStore(w, f, v);
    } else {
      forall i | 0 <= i < n ensures HoldsAt(w, fs[..n], i) {
        assert HoldsAt(w, fs, i);
      }
      CtxFootInStore(w, fs[..n], v);
    }
  }

  lemma {:induction false} FrameHoldsFrame(w: World, u: World, f: Frame)
    requires FrameHolds(w, f) && f.pos < |f.kids|
    requires forall v | v in FrameFoot(f) :: Same(w, u, v)
    requires 0 !in w.dirty && 0 !in u.dirty
    ensures FrameHolds(u, f)
  {
    assert Same(w, u, f.vbn);
    forall i | 0 <= i < |f.kids| && i != f.pos
      ensures Holds(u, f.kids[i]) && (RootVbn(f.kids[i]) in u.dirty ==> f.vbn in u.dirty)
    {
      forall v | v in Foot(f.kids[i]) ensures Same(w, u, v) {
        FrameFootSide(f, i, v);
      }
      HoldsFrame(w, u, f.kids[i]);
      if f.kids[i].Node? { assert RootVbn(f.kids[i]) in Foot(f.kids[i]); }
    }
  }
}
