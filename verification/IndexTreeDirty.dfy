/** Copy-on-write: moving the blocks of the path to fresh block numbers. */
module IndexTreeDirty {
  import opened IndexLayout
  import opened IndexTreeShape
  import opened IndexTreeZipper

  function SetVbn(es: seq<Entry>, p: nat, v: Vbn): seq<Entry> {
    if p < |es| then es[p := es[p].(vbn := v)] else es
  }

  /** A path block under number nv whose open entry points at block v. */
  function Redirect(f: Frame, nv: Vbn, v: Vbn): Frame {
    if f.pos < |f.es| then f.(vbn := nv, es := SetVbn(f.es, f.pos, v)) else f.(vbn := nv)
  }

  /** The bookkeeping every operation relies on: dirty blocks are cached, and so is whatever else
      is owned. */
  ghost predicate Apart(w: World, m: multiset<Vbn>) {
    && 0 !in w.store
    && (forall v | v in w.dirty :: v in w.store)
    && (forall v | v in m :: v in w.store)
  }

  /** What is stored along a path; the contents of the last block are not constrained. */
  ghost predicate PathHeld(w: World, fs: seq<Frame>, x: Tree, h: nat) {
    && CtxShape(fs, h)
    && CtxHolds(w, fs)
    && x.Node? && x.vbn != 0
    && Held(w, x.vbn, x.cap, x.es)
    && (forall k | 0 <= k < |x.kids| :: Holds(w, x.kids[k]))
  }

  /** The links of a path while set_ib_dirty works its way up: levels below d are done, and the
      open entry of level d still names the old number of the block below, whose new number
      is v. */
  ghost predicate PathLinks(w: World, fs: seq<Frame>, xv: Vbn, d: int, v: Vbn) {
    && -1 <= d <= |fs|
    && (forall i | 0 <= i < |fs| && i != d :: LinkAt(fs, xv, i))
    && (forall i | 0 <= i < |fs| && i != d :: DirtyAt(w, fs, xv, i))
    && (forall i | 0 <= i <= |fs| && d < i :: VbnAt(fs, xv, i) in w.dirty)
    && (0 <= d < |fs| ==> v == VbnAt(fs, xv, d + 1))
  }

  /** A path during set_ib_dirty; m is whatever else is stored. */
  ghost predicate PathOk(w: World, fs: seq<Frame>, x: Tree, h: nat, d: int, v: Vbn, m: multiset<Vbn>) {
    && PathHeld(w, fs, x, h)
    && PathLinks(w, fs, x.vbn, d, v)
    && NoDup(ZipFoot(fs, x) + m)
    && Apart(w, m)
  }

  /** Changing the store at the path block of level d, and at a number not in the store, leaves
      everything else in place. */
  lemma {:induction false} OthersHold(w: World, u: World, fs: seq<Frame>, x: Tree, h: nat, d: nat, nv: Vbn,
      m: multiset<Vbn>)
    requires CtxShape(fs, h) && CtxHolds(w, fs) && x.Node? && d <= |fs|
    requires forall k | 0 <= k < |x.kids| :: Holds(w, x.kids[k])
    requires NoDup(ZipFoot(fs, x) + m) && 0 !in w.dirty && 0 !in u.dirty
    requires nv !in w.store || nv == VbnAt(fs, x.vbn, d)
    requires forall a | a != nv && a != VbnAt(fs, x.vbn, d) :: Same(w, u, a)
    ensures forall i | 0 <= i < |fs| && i != d :: HoldsAt(u, fs, i)
    ensures d < |fs| ==> forall k | 0 <= k < |fs[d].kids| && k != fs[d].pos ::
              Holds(u, fs[d].kids[k]) && (RootVbn(fs[d].kids[k]) in w.dirty <==> RootVbn(fs[d].kids[k]) in u.dirty)
    ensures forall k | 0 <= k < |x.kids| :: Holds(u, x.kids[k])
  {
    PathApart(fs, x, m, d);
    forall i | 0 <= i < |fs| && i != d ensures HoldsAt(u, fs, i) {
      assert HoldsAt(w, fs, i);
      forall a | a in FrameFoot(fs[i]) ensures Same(w, u, a) {
        FrameFootInStore(w, fs[i], a);
        PathApartBlock(fs, x, m, d, i);
      }
      FrameHoldsFrame(w, u, fs[i]);
    }
    if d < |fs| {
      forall k | 0 <= k < |fs[d].kids| && k != fs[d].pos
        ensures Holds(u, fs[d].kids[k]) && (RootVbn(fs[d].kids[k]) in w.dirty <==> RootVbn(fs[d].kids[k]) in u.dirty)
      {
        assert HoldsAt(w, fs, d);
        KidHolds(w, u, fs[d].kids[k], nv, VbnAt(fs, x.vbn, d));
      }
    }
    forall k | 0 <= k < |x.kids| ensures Holds(u, x.kids[k]) {
      KidHolds(w, u, x.kids[k], nv, VbnAt(fs, x.vbn, d));
    }
  }

  lemma {:induction false} KidHolds(w: World, u: World, t: Tree, nv: Vbn, ov: Vbn)
    requires Holds(w, t) && ov !in Foot(t) && (nv !in w.store || nv == ov)
    requires 0 !in w.dirty && 0 !in u.dirty
    requires forall a | a != nv && a != ov :: Same(w, u, a)
    ensures Holds(u, t) && (RootVbn(t) in w.dirty <==> RootVbn(t) in u.dirty)
  {
    forall a | a in Foot(t) ensures Same(w, u, a) {
      FootInStore(w, t, a);
    }
    HoldsFrame(w, u, t);
    if t.Node? { assert t.vbn in Foot(t); }
  }

  /** All the blocks above a dirty block are dirty. */
  lemma {:induction false} DirtyChain(w: World, fs: seq<Frame>, v: Vbn, d: nat, i: nat)
    requires i <= d <= |fs| && VbnAt(fs, v, d) in w.dirty
    requires forall j | 0 <= j < |fs| && j != d :: DirtyAt(w, fs, v, j)
    ensures VbnAt(fs, v, i) in w.dirty
    decreases d - i
  {
    if i < d {
      DirtyChain(w, fs, v, d, i + 1);
      assert DirtyAt(w, fs, v, i);
    }
  }

  lemma {:induction false} FrameFootVbn(f: Frame, g: Frame)
    requires f.pos == g.pos && f.kids == g.kids
    ensures FrameFoot(f) + multiset{g.vbn} == FrameFoot(g) + multiset{f.vbn}
  {
    hide FootAll;
  }

  lemma {:induction false} SwapSum(a: multiset<Vbn>, f: multiset<Vbn>, b: multiset<Vbn>, g: multiset<Vbn>,
      x: multiset<Vbn>, y: multiset<Vbn>)
    requires f + y == g + x
    ensures (a + g + b) + x == (a + f + b) + y
  {
    assert (a + g + b) + x == a + (g + x) + b;
    assert (a + f + b) + y == a + (f + y) + b;
  }

  lemma {:induction false} CtxFootReplace(fs: seq<Frame>, d: nat, f: Frame)
    requires d < |fs| && (forall g | g in fs :: g.pos < |g.kids|)
    requires f.pos == fs[d].pos && f.kids == fs[d].kids
    ensures forall g | g in fs[d := f] :: g.pos < |g.kids|
    ensures CtxFoot(fs[d := f]) + multiset{fs[d].vbn} == CtxFoot(fs) + multiset{f.vbn}
  {
    hide FrameFoot, CtxFoot;
    var gs := fs[d := f];
    forall g | g in gs ensures g.pos < |g.kids| {
      var i :| 0 <= i < |gs| && gs[i] == g;
      if i != d { assert g == fs[i]; }
    }
    CtxFootAt(fs, d);
    CtxFootAt(gs, d);
    FrameFootVbn(fs[d], f);
    SwapSum(CtxFoot(fs[..d]), FrameFoot(fs[d]), CtxFoot(fs[d + 1..]), FrameFoot(f), multiset{fs[d].vbn},
        multiset{f.vbn});
    assert gs[..d] == fs[..d] && gs[d + 1..] == fs[d + 1..];
  }

  lemma {:induction false} FrameShapeSetVbn(f: Frame, h: nat, root: bool, nv: Vbn, v: Vbn)
    requires FrameShape(f, h, root) && nv != 0
    ensures FrameShape(f.(vbn := nv, es := SetVbn(f.es, f.pos, v)), h, root)
  {
    SumLenUpdate(f.es, f.pos, v);
    var us := SetVbn(f.es, f.pos, v);
    forall i | 0 <= i < |us|
      ensures EntryOk(us[i], true) && (us[i].end <==> i == |us| - 1)
    {
      assert EntryOk(f.es[i], true);
    }
  }

  /** The store after the block under number ov was rewritten and moved to nv, which is dirty. */
  function Moved(w: World, ov: Vbn, nv: Vbn, b: Block): World {
    World((w.store - {ov})[nv := b], w.dirty + {nv}, w.disk)
  }

  /** Exchanging one owned number for a fresh one. */
  lemma {:induction false} NoDupSwap(p: multiset<Vbn>, q: multiset<Vbn>, r: multiset<Vbn>, s: multiset<Vbn>, ov: Vbn,
      nv: Vbn)
    requires NoDup(p + r + s) && q + multiset{ov} == p + multiset{nv}
    requires nv == ov || nv !in p + r + s
    ensures NoDup(q + r + s)
  {
    forall v {:trigger (q + r + s)[v]} ensures (q + r + s)[v] <= 1 {
      assert (q + multiset{ov})[v] == (p + multiset{nv})[v];
      assert (p + r + s)[v] <= 1;
    }
  }

  lemma {:induction false} ZipFootInStore(w: World, fs: seq<Frame>, x: Tree, h: nat, v: Vbn)
    requires PathHeld(w, fs, x, h)
    ensures v in ZipFoot(fs, x) ==> v in w.store
  {
    if v in CtxFoot(fs) {
      CtxFootInStore(w, fs, v);
    } else if v in FootAll(x.kids) {
      FootAllInStore(w, x.kids, v);
    }
  }

  lemma {:induction false} MovedApart(w: World, m: multiset<Vbn>, ov: Vbn, nv: Vbn, b: Block)
    requires Apart(w, m) && nv !in w.store && nv != 0 && ov in w.store && ov !in w.dirty && ov !in m
    ensures Apart(Moved(w, ov, nv, b), m)
    ensures forall a | a != nv && a != ov :: Same(w, Moved(w, ov, nv, b), a)
    ensures Held(Moved(w, ov, nv, b), nv, b.cap, b.es)
  {
  }

  /** Ownership after level d took number f.vbn. */
  lemma {:induction false} StepFrameFoot(fs: seq<Frame>, x: Tree, d: nat, f: Frame, m: multiset<Vbn>)
    requires (forall g | g in fs :: g.pos < |g.kids|) && d < |fs| && NoDup(ZipFoot(fs, x) + m)
    requires f.vbn !in ZipFoot(fs, x) + m || f.vbn == fs[d].vbn
    requires f.pos == fs[d].pos && f.kids == fs[d].kids
    ensures (forall g | g in fs[d := f] :: g.pos < |g.kids|) && NoDup(ZipFoot(fs[d := f], x) + m)
  {
    CtxFootReplace(fs, d, f);
    NoDupSwap(CtxFoot(fs), CtxFoot(fs[d := f]), Foot(x), m, fs[d].vbn, f.vbn);
  }

  lemma {:induction false} StepFrameShape(fs: seq<Frame>, h: nat, d: nat, f: Frame, v: Vbn)
    requires CtxShape(fs, h) && d < |fs| && f.vbn != 0
    requires f == fs[d].(vbn := f.vbn, es := SetVbn(fs[d].es, fs[d].pos, v))
    ensures CtxShape(fs[d := f], h)
  {
    assert ShapeAt(fs, h, d);
    FrameShapeSetVbn(fs[d], h - d, d == 0, f.vbn, v);
    var gs := fs[d := f];
    forall i | 0 <= i < |gs| ensures ShapeAt(gs, h, i) {
      assert ShapeAt(fs, h, i);
    }
  }

  lemma {:induction false} StepFrameHeld(w: World, u: World, fs: seq<Frame>, x: Tree, h: nat, d: nat, f: Frame,
      m: multiset<Vbn>)
    requires PathHeld(w, fs, x, h) && d < |fs| && NoDup(ZipFoot(fs, x) + m) && 0 !in w.dirty && 0 !in u.dirty
    requires f.vbn !in w.store || f.vbn == fs[d].vbn
    requires f.pos == fs[d].pos && f.kids == fs[d].kids
    requires forall a | a != f.vbn && a != fs[d].vbn :: Same(w, u, a)
    requires Held(u, f.vbn, f.cap, f.es) && f.vbn in u.dirty
    ensures CtxHolds(u, fs[d := f]) && Held(u, x.vbn, x.cap, x.es)
        && forall k | 0 <= k < |x.kids| :: Holds(u, x.kids[k])
  {
    OthersHold(w, u, fs, x, h, d, f.vbn, m);
    PathApartBlock(fs, x, m, d, |fs|);
    assert Same(w, u, x.vbn);
    assert HoldsAt(w, fs, d);
    assert FrameHolds(u, f);
    var gs := fs[d := f];
    forall i | 0 <= i < |gs| ensures HoldsAt(u, gs, i) {
      assert i != d ==> HoldsAt(u, fs, i);
    }
  }

  lemma {:induction false} PathInStore(w: World, fs: seq<Frame>, x: Tree, h: nat)
    requires PathHeld(w, fs, x, h)
    ensures forall i | 0 <= i <= |fs| :: VbnAt(fs, x.vbn, i) in w.store && VbnAt(fs, x.vbn, i) != 0
    ensures forall i | 0 <= i < |fs| :: fs[i].pos < |fs[i].es| == |fs[i].kids|
  {
    forall i | 0 <= i < |fs| ensures VbnAt(fs, x.vbn, i) in w.store && fs[i].pos < |fs[i].es| == |fs[i].kids|
        && fs[i].vbn != 0 {
      assert HoldsAt(w, fs, i) && ShapeAt(fs, h, i);
    }
  }

  lemma {:induction false} StepFrameLinks(w: World, u: World, fs: seq<Frame>, xv: Vbn, d: nat, f: Frame, v: Vbn)
    requires PathLinks(w, fs, xv, d, v) && d < |fs|
    requires forall i | 0 <= i <= |fs| :: VbnAt(fs, xv, i) in w.store
    requires fs[d].pos < |fs[d].es|
    requires f == fs[d].(vbn := f.vbn, es := SetVbn(fs[d].es, fs[d].pos, v))
    requires f.vbn !in w.store && u.dirty == w.dirty + {f.vbn}
    ensures PathLinks(u, fs[d := f], xv, d - 1, f.vbn)
  {
    var gs := fs[d := f];
    forall i | 0 <= i <= |gs| && i != d
      ensures VbnAt(gs, xv, i) == VbnAt(fs, xv, i)
      ensures VbnAt(gs, xv, i) in w.dirty <==> VbnAt(gs, xv, i) in u.dirty
    {
      assert VbnAt(fs, xv, i) in w.store;
    }
    forall i | 0 <= i < |gs| && i != d - 1 ensures LinkAt(gs, xv, i) && DirtyAt(u, gs, xv, i) {
      if i != d {
        assert LinkAt(fs, xv, i) && DirtyAt(w, fs, xv, i);
      }
    }
  }

  /** One round of set_ib_dirty at an inner level of the path, when the block there was clean. */
  lemma {:induction false} StepFrame(w: World, fs: seq<Frame>, x: Tree, h: nat, d: nat, v: Vbn, m: multiset<Vbn>,
      nv: Vbn)
    requires PathOk(w, fs, x, h, d, v, m) && d < |fs|
    requires nv !in w.store && nv != 0
    requires fs[d].vbn !in w.dirty
    ensures var f := Redirect(fs[d], nv, v);
            && PathOk(Moved(w, fs[d].vbn, nv, Block(f.cap, f.es)), fs[d := f], x, h, d - 1, nv, m)
  {
    var ov := fs[d].vbn;
    var f := Redirect(fs[d], nv, v);
    var u := Moved(w, ov, nv, Block(f.cap, f.es));
    PathInStore(w, fs, x, h);
    assert VbnAt(fs, x.vbn, d) == ov;
    ZipFootInStore(w, fs, x, h, nv);
    PathApart(fs, x, m, d);
    MovedApart(w, m, ov, nv, Block(f.cap, f.es));
    StepFrameShape(fs, h, d, f, v);
    StepFrameHeld(w, u, fs, x, h, d, f, m);
    StepFrameLinks(w, u, fs, x.vbn, d, f, v);
    StepFrameFoot(fs, x, d, f, m);
  }

  /** One round of set_ib_dirty at the cursor's own block, when it was clean. */
  lemma {:induction false} StepFocus(w: World, fs: seq<Frame>, x: Tree, h: nat, m: multiset<Vbn>, nv: Vbn)
    requires PathOk(w, fs, x, h, |fs|, 0, m)
    requires nv !in w.store && nv != 0
    requires x.vbn !in w.dirty
    ensures PathOk(Moved(w, x.vbn, nv, Block(x.cap, x.es)), fs, x.(vbn := nv), h, |fs| - 1, nv, m)
  {
    var ov := x.vbn;
    var y := x.(vbn := nv);
    var u := Moved(w, ov, nv, Block(x.cap, x.es));
    PathApart(fs, x, m, |fs|);
    MovedApart(w, m, ov, nv, Block(x.cap, x.es));
    OthersHold(w, u, fs, x, h, |fs|, nv, m);
    ZipFootInStore(w, fs, x, h, nv);
    StepFocusFoot(CtxFoot(fs), x, y, m);
    StepFocusLinks(w, u, fs, x, h, nv);
  }

  lemma {:induction false} StepFocusFoot(c: multiset<Vbn>, x: Tree, y: Tree, m: multiset<Vbn>)
    requires x.Node? && y.Node? && y == x.(vbn := y.vbn) && NoDup(c + Foot(x) + m) && y.vbn !in c + Foot(x) + m
    ensures NoDup(c + Foot(y) + m)
  {
    assert Foot(y) + multiset{x.vbn} == Foot(x) + multiset{y.vbn};
    assert c + Foot(x) + m == Foot(x) + c + m && c + Foot(y) + m == Foot(y) + c + m;
    NoDupSwap(Foot(x), Foot(y), c, m, x.vbn, y.vbn);
  }

  lemma {:induction false} StepFocusLinks(w: World, u: World, fs: seq<Frame>, x: Tree, h: nat, nv: Vbn)
    requires PathHeld(w, fs, x, h) && PathLinks(w, fs, x.vbn, |fs|, 0)
    requires nv !in w.store && u.dirty == w.dirty + {nv}
    ensures PathLinks(u, fs, nv, |fs| - 1, nv)
  {
    forall i | 0 <= i < |fs|
      ensures VbnAt(fs, nv, i) == VbnAt(fs, x.vbn, i)
      ensures VbnAt(fs, nv, i) in w.dirty <==> VbnAt(fs, nv, i) in u.dirty
    {
      assert HoldsAt(w, fs, i);
    }
    forall i | 0 <= i < |fs| && i != |fs| - 1
      ensures LinkAt(fs, nv, i) && DirtyAt(u, fs, nv, i)
    {
      assert LinkAt(fs, x.vbn, i) && DirtyAt(w, fs, x.vbn, i);
      assert VbnAt(fs, nv, i + 1) == VbnAt(fs, x.vbn, i + 1);
    }
  }

  /** The last round: the block at level d is dirty already, so every block above it is. */
  lemma {:induction false} StopFrame(w: World, fs: seq<Frame>, x: Tree, h: nat, d: nat, v: Vbn, m: multiset<Vbn>)
    requires PathOk(w, fs, x, h, d, v, m) && d < |fs|
    requires fs[d].vbn in w.dirty
    ensures var f := Redirect(fs[d], fs[d].vbn, v);
            PathOk(w.(store := w.store[f.vbn := Block(f.cap, f.es)]), fs[d := f], x, h, -1, v, m)
  {
    var f := Redirect(fs[d], fs[d].vbn, v);
    var u := w.(store := w.store[f.vbn := Block(f.cap, f.es)]);
    PathInStore(w, fs, x, h);
    assert VbnAt(fs, x.vbn, d) == f.vbn;
    StepFrameShape(fs, h, d, f, v);
    StepFrameHeld(w, u, fs, x, h, d, f, m);
    StepFrameFoot(fs, x, d, f, m);
    StopFrameLinks(w, u, fs, x.vbn, d, f, v);
  }

  lemma {:induction false} StopFrameLinks(w: World, u: World, fs: seq<Frame>, xv: Vbn, d: nat, f: Frame, v: Vbn)
    requires PathLinks(w, fs, xv, d, v) && d < |fs| && fs[d].vbn in w.dirty && fs[d].pos < |fs[d].es|
    requires f == fs[d].(es := SetVbn(fs[d].es, fs[d].pos, v)) && u.dirty == w.dirty
    ensures PathLinks(u, fs[d := f], xv, -1, v)
  {
    var gs := fs[d := f];
    forall i | 0 <= i <= |gs|
      ensures VbnAt(gs, xv, i) == VbnAt(fs, xv, i) && VbnAt(gs, xv, i) in u.dirty
    {
      if i <= d { DirtyChain(w, fs, xv, d, i); }
    }
    forall i | 0 <= i < |gs| ensures LinkAt(gs, xv, i) && DirtyAt(u, gs, xv, i) {
      if i != d { assert LinkAt(fs, xv, i); }
      assert VbnAt(gs, xv, i) in u.dirty;
    }
  }

  lemma {:induction false} StopFocus(w: World, fs: seq<Frame>, x: Tree, h: nat, m: multiset<Vbn>)
    requires PathOk(w, fs, x, h, |fs|, 0, m)
    requires x.vbn in w.dirty
    ensures PathOk(w, fs, x, h, -1, 0, m)
  {
    forall i | 0 <= i <= |fs| ensures VbnAt(fs, x.vbn, i) in w.dirty {
      DirtyChain(w, fs, x.vbn, |fs|, i);
    }
  }

  /** Once all levels are done, the number carried upwards no longer matters. */
  lemma {:induction false} PathDone(w: World, fs: seq<Frame>, x: Tree, h: nat, v: Vbn, u: Vbn, m: multiset<Vbn>)
    requires PathOk(w, fs, x, h, -1, v, m)
    ensures PathOk(w, fs, x, h, -1, u, m)
  {
  }

  lemma {:induction false} ProgressRefl(w: World, fs: seq<Frame>, x: Tree, h: nat, d: int, v: Vbn, m: multiset<Vbn>)
    requires PathOk(w, fs, x, h, d, v, m)
    ensures Progress(w, fs, x, w, fs, x, m)
  {
    SamePathRefl(fs);
  }

  /** Facts a round starts from. */
  lemma {:induction false} PathFacts(w: World, fs: seq<Frame>, x: Tree, h: nat, d: nat, v: Vbn, m: multiset<Vbn>)
    requires PathOk(w, fs, x, h, d, v, m)
    ensures d <= |fs| && x.Node? && x.vbn != 0
    ensures VbnAt(fs, x.vbn, d) in w.store && VbnAt(fs, x.vbn, d) !in m
    ensures d < |fs| ==> fs[d].pos < |fs[d].es| && Held(w, fs[d].vbn, fs[d].cap, fs[d].es) && v != 0
    ensures d == |fs| ==> w.store[x.vbn] == Block(x.cap, x.es)
  {
    PathInStore(w, fs, x, h);
    PathApart(fs, x, m, d);
    if d < |fs| { assert HoldsAt(w, fs, d); }
  }

  // ---- what the moves leave alone

  ghost predicate Kept(w: World, u: World, m: multiset<Vbn>) {
    forall a | a in m :: Same(w, u, a)
  }

  ghost predicate SameAt(fs: seq<Frame>, gs: seq<Frame>, i: nat) {
    && i < |fs| && i < |gs|
    && fs[i].pos == gs[i].pos < |fs[i].es| == |gs[i].es|
    && fs[i].kids == gs[i].kids
    && fs[i].cap == gs[i].cap
    && gs[i].es == SetVbn(fs[i].es, fs[i].pos, gs[i].es[gs[i].pos].vbn)
  }

  /** Two paths that differ in block numbers only. */
  ghost predicate SamePath(fs: seq<Frame>, gs: seq<Frame>) {
    && |fs| == |gs|
    && forall i | 0 <= i < |fs| :: SameAt(fs, gs, i)
  }

  lemma {:induction false} SetVbnWeave(kids: seq<Tree>, es: seq<Entry>, p: nat, v: Vbn)
    requires p < |es| == |kids|
    ensures LeftOf(kids, SetVbn(es, p, v), p) == LeftOf(kids, es, p)
    ensures RightOf(kids, SetVbn(es, p, v), p) == RightOf(kids, es, p)
  {
    var us := SetVbn(es, p, v);
    assert us[..p] == es[..p] && us[p + 1..] == es[p + 1..];
  }

  lemma {:induction false} SamePathView(fs: seq<Frame>, gs: seq<Frame>)
    requires SamePath(fs, gs)
    requires forall f | f in fs :: f.pos < |f.kids| == |f.es|
    ensures forall f | f in gs :: f.pos < |f.kids| == |f.es|
    ensures Before(gs) == Before(fs) && After(gs) == After(fs)
    decreases |fs|
  {
    hide Weave, LeftOf, RightOf, SetVbn;
    if fs != [] {
      var n := |fs| - 1;
      forall i | 0 <= i < n ensures SameAt(fs[..n], gs[..n], i) {
        assert SameAt(fs, gs, i);
      }
      assert SameAt(fs, gs, n);
      SamePathView(fs[..n], gs[..n]);
      SetVbnWeave(fs[n].kids, fs[n].es, fs[n].pos, gs[n].es[gs[n].pos].vbn);
      assert gs[n].pos < |gs[n].kids| == |gs[n].es|;
      assert gs == gs[..n] + [gs[n]];
    }
  }

  lemma {:induction false} SamePathStep(fs: seq<Frame>, gs: seq<Frame>, d: nat, nv: Vbn, v: Vbn)
    requires SamePath(fs, gs) && d < |fs|
    ensures SamePath(fs, gs[d := Redirect(gs[d], nv, v)])
  {
    var hs := gs[d := Redirect(gs[d], nv, v)];
    assert SameAt(fs, gs, d);
    assert SetVbn(SetVbn(fs[d].es, fs[d].pos, gs[d].es[gs[d].pos].vbn), fs[d].pos, v) == SetVbn(fs[d].es, fs[d].pos, v);
    forall i | 0 <= i < |fs| ensures SameAt(fs, hs, i) {
      if i != d { assert SameAt(fs, gs, i); }
    }
  }

  /** The same block under another number. */
  ghost predicate Renumbered(x: Tree, y: Tree) {
    x.Node? && y.Node? && y == x.(vbn := y.vbn)
  }

  /** What set_ib_dirty may change: block numbers along the path.  Other stored blocks (m) stay. */
  ghost predicate Progress(w: World, fs: seq<Frame>, x: Tree, u: World, gs: seq<Frame>, y: Tree, m: multiset<Vbn>) {
    && Kept(w, u, m)
    && SamePath(fs, gs)
    && Renumbered(x, y)
    && w.disk == u.disk
  }

  lemma {:induction false} SamePathTrans(fs: seq<Frame>, gs: seq<Frame>, hs: seq<Frame>)
    requires SamePath(fs, gs) && SamePath(gs, hs)
    ensures SamePath(fs, hs)
  {
    forall i | 0 <= i < |fs| ensures SameAt(fs, hs, i) {
      assert SameAt(fs, gs, i) && SameAt(gs, hs, i);
    }
  }

  lemma {:induction false} ProgressTrans(w: World, fs: seq<Frame>, x: Tree, u: World, gs: seq<Frame>, y: Tree,
                                         t: World, hs: seq<Frame>, z: Tree, m: multiset<Vbn>)
    requires Progress(w, fs, x, u, gs, y, m) && Progress(u, gs, y, t, hs, z, m)
    ensures Progress(w, fs, x, t, hs, z, m)
  {
    SamePathTrans(fs, gs, hs);
    forall a | a in m ensures Same(w, t, a) {
      assert Same(w, u, a) && Same(u, t, a);
    }
  }

  lemma {:induction false} KeptMoved(w: World, m: multiset<Vbn>, ov: Vbn, nv: Vbn, b: Block)
    requires Apart(w, m) && ov !in m && nv !in w.store
    ensures Kept(w, Moved(w, ov, nv, b), m)
  {
  }

  lemma {:induction false} KeptRewritten(w: World, m: multiset<Vbn>, ov: Vbn, b: Block)
    requires Apart(w, m) && ov !in m
    ensures Kept(w, w.(store := w.store[ov := b]), m)
  {
  }

  /** The path, as set_ib_dirty transforms it. */
  datatype Path = Path(w: World, fs: seq<Frame>, x: Tree)

  /** The block at level d moves to nv; its open entry, if there is a block below, is set to v. */
  function MovedAt(p: Path, d: nat, v: Vbn, nv: Vbn): Path
    requires d <= |p.fs| && p.x.Node?
  {
    if d < |p.fs| then
      var f := Redirect(p.fs[d], nv, v);
      Path(Moved(p.w, p.fs[d].vbn, nv, Block(f.cap, f.es)), p.fs[d := f], p.x)
    else
      Path(Moved(p.w, p.x.vbn, nv, Block(p.x.cap, p.x.es)), p.fs, p.x.(vbn := nv))
  }

  /** The block at level d stays; its open entry, if there is a block below, is set to v. */
  function StoppedAt(p: Path, d: nat, v: Vbn): Path {
    if d < |p.fs| then
      var f := Redirect(p.fs[d], p.fs[d].vbn, v);
      Path(p.w.(store := p.w.store[f.vbn := Block(f.cap, f.es)]), p.fs[d := f], p.x)
    else p
  }

  lemma {:induction false} MoveRound(o: Path, p: Path, h: nat, d: nat, v: Vbn, m: multiset<Vbn>, nv: Vbn)
    requires PathOk(p.w, p.fs, p.x, h, d, v, m) && (d == |p.fs| ==> v == 0)
    requires Progress(o.w, o.fs, o.x, p.w, p.fs, p.x, m)
    requires nv !in p.w.store && nv != 0 && VbnAt(p.fs, p.x.vbn, d) !in p.w.dirty
    ensures var q := MovedAt(p, d, v, nv);
            PathOk(q.w, q.fs, q.x, h, d - 1, nv, m) && Progress(o.w, o.fs, o.x, q.w, q.fs, q.x, m)
  {
    var q := MovedAt(p, d, v, nv);
    PathFacts(p.w, p.fs, p.x, h, d, v, m);
    SamePathRefl(p.fs);
    if d < |p.fs| {
      StepFrame(p.w, p.fs, p.x, h, d, v, m, nv);
      SamePathStep(p.fs, p.fs, d, nv, v);
      KeptMoved(p.w, m, p.fs[d].vbn, nv, Block(q.fs[d].cap, q.fs[d].es));
    } else {
      StepFocus(p.w, p.fs, p.x, h, m, nv);
      KeptMoved(p.w, m, p.x.vbn, nv, Block(p.x.cap, p.x.es));
    }
    ProgressTrans(o.w, o.fs, o.x, p.w, p.fs, p.x, q.w, q.fs, q.x, m);
  }

  lemma {:induction false} StopRound(o: Path, p: Path, h: nat, d: nat, v: Vbn, m: multiset<Vbn>)
    requires PathOk(p.w, p.fs, p.x, h, d, v, m) && (d == |p.fs| ==> v == 0)
    requires Progress(o.w, o.fs, o.x, p.w, p.fs, p.x, m)
    requires VbnAt(p.fs, p.x.vbn, d) in p.w.dirty
    ensures var q := StoppedAt(p, d, v);
            PathOk(q.w, q.fs, q.x, h, -1, v, m) && Progress(o.w, o.fs, o.x, q.w, q.fs, q.x, m)
  {
    var q := StoppedAt(p, d, v);
    PathFacts(p.w, p.fs, p.x, h, d, v, m);
    SamePathRefl(p.fs);
    if d < |p.fs| {
      StopFrame(p.w, p.fs, p.x, h, d, v, m);
      SamePathStep(p.fs, p.fs, d, p.fs[d].vbn, v);
      KeptRewritten(p.w, m, p.fs[d].vbn, Block(q.fs[d].cap, q.fs[d].es));
      ProgressTrans(o.w, o.fs, o.x, p.w, p.fs, p.x, q.w, q.fs, q.x, m);
    } else {
      StopFocus(p.w, p.fs, p.x, h, m);
    }
  }

  lemma {:induction false} SamePathRefl(fs: seq<Frame>)
    requires forall f | f in fs :: f.pos < |f.es|
    ensures SamePath(fs, fs)
  {
    forall i | 0 <= i < |fs| ensures SameAt(fs, fs, i) {
      assert fs[i] in fs;
    }
  }

  // ---- which blocks are given back

  /** The numbers on a path (root first) from level d upwards, as far as they are clean. */
  function CleanFrom(path: seq<Vbn>, dirty: set<Vbn>, d: int): seq<Vbn> {
    if d < 0 || d >= |path| || path[d] in dirty then [] else [path[d]] + CleanFrom(path, dirty, d - 1)
  }

  /** Where parents of dirty blocks are dirty, these are all clean blocks of the path. */
  lemma {:induction false} CleanFromAll(path: seq<Vbn>, dirty: set<Vbn>, d: int)
    requires -1 <= d < |path| && forall i | 0 < i <= d && path[i] in dirty :: path[i - 1] in dirty
    ensures forall i | 0 <= i <= d :: path[i] in CleanFrom(path, dirty, d) <==> path[i] !in dirty
    ensures forall v | v in CleanFrom(path, dirty, d) :: v in path && v !in dirty
    decreases d + 1
  {
    if 0 <= d {
      CleanFromAll(path, dirty, d - 1);
      if path[d] in dirty {
        AllDirty(path, dirty, d);
      }
    }
  }

  /** The numbers given back are those of all clean blocks of the path. */
  ghost predicate GivesAll(path: seq<Vbn>, dirty: set<Vbn>, d: nat) {
    forall v :: v in CleanFrom(path, dirty, d) <==> v in path && v !in dirty
  }

  /** On a path on which set_ib_dirty may start, it gives back exactly the clean blocks. */
  /** The block numbers of a path, the dirty ones, those given back, and whether one was handed out again that a
      committed tree has. */
  datatype Keys = Keys(path: seq<Vbn>, dirty: set<Vbn>, freed: seq<Vbn>, reused: bool)

  /** From k to n: down to level d the blocks of the path have their numbers; those below were clean, and have new ones,
      and gave the old ones back. */
  ghost predicate Rekeyed(k: Keys, n: Keys, live: set<Vbn>, d: int) {
    && |n.path| == |k.path| && -1 <= d < |k.path|
    && (forall i | 0 <= i <= d :: n.path[i] == k.path[i] && (n.path[i] in n.dirty <==> k.path[i] in k.dirty))
    && (forall i | d < i < |k.path| :: n.path[i] != k.path[i] && k.path[i] !in k.dirty)
    && n.freed + CleanFrom(k.path, k.dirty, d) == k.freed + CleanFrom(k.path, k.dirty, |k.path| - 1)
    && (n.reused <==> k.reused || exists i :: d < i < |k.path| && n.path[i] in live)
  }

  /** Just the clean blocks of the path have other numbers than before, and a block of the set live was handed out again
      exactly when one of these numbers is in it. */
  ghost predicate CopiedOnWrite(k: Keys, n: Keys, live: set<Vbn>) {
    && |n.path| == |k.path|
    && (forall i | 0 <= i < |k.path| :: n.path[i] == k.path[i] <==> k.path[i] in k.dirty)
    && (n.reused <==> k.reused || exists i :: 0 <= i < |k.path| && n.path[i] != k.path[i] && n.path[i] in live)
  }

  lemma {:induction false} RekeyedNone(k: Keys, live: set<Vbn>)
    requires k.path != []
    ensures Rekeyed(k, k, live, |k.path| - 1)
  {
  }

  lemma {:induction false} RekeyedIs(k: Keys, n: Keys, live: set<Vbn>, d: int)
    requires Rekeyed(k, n, live, d) && 0 <= d
    ensures d < |n.path| == |k.path| && n.path[d] == k.path[d] && (n.path[d] in n.dirty <==> k.path[d] in k.dirty)
  {
  }

  lemma {:induction false} RekeyedStep(k: Keys, n: Keys, live: set<Vbn>, d: int, v: Vbn)
    requires Rekeyed(k, n, live, d) && 0 <= d && k.path[d] !in k.dirty && forall i | 0 <= i <= d :: n.path[i] != v
    ensures Rekeyed(k, Keys(n.path[d := v], n.dirty + {v}, n.freed + [n.path[d]], n.reused || v in live), live, d - 1)
  {
    assert n.path[d := v][d] == v;
    forall i | d < i < |k.path| ensures n.path[d := v][i] == n.path[i] {}
    assert n.freed + [n.path[d]] + CleanFrom(k.path, k.dirty, d - 1) == n.freed + CleanFrom(k.path, k.dirty, d);
  }

  lemma {:induction false} RekeyedDone(k: Keys, n: Keys, live: set<Vbn>, d: int)
    requires Rekeyed(k, n, live, d) && (0 <= d ==> k.path[d] in k.dirty)
    requires forall i, j | 0 <= i <= j < |k.path| && k.path[j] in k.dirty :: k.path[i] in k.dirty
    ensures n.freed == k.freed + CleanFrom(k.path, k.dirty, |k.path| - 1)
    ensures CopiedOnWrite(k, n, live)
  {
  }

  lemma {:induction false} GivesBackClean(w: World, fs: seq<Frame>, x: Tree, h: nat, m: multiset<Vbn>, path: seq<Vbn>)
    requires PathOk(w, fs, x, h, |fs|, 0, m)
    requires |path| == |fs| + 1 && forall i | 0 <= i <= |fs| :: path[i] == VbnAt(fs, x.vbn, i)
    ensures GivesAll(path, w.dirty, |fs|)
    ensures forall i, j | 0 <= i <= j <= |fs| && path[j] in w.dirty :: path[i] in w.dirty
  {
    hide Apart, NoDup, CleanFrom, Foot, CtxFoot, CtxShape, CtxHolds;
    forall i | 0 < i <= |fs| && path[i] in w.dirty ensures path[i - 1] in w.dirty {
      assert DirtyAt(w, fs, x.vbn, i - 1);
    }
    CleanFromAll(path, w.dirty, |fs|);
    forall i, j | 0 <= i <= j <= |fs| && path[j] in w.dirty ensures path[i] in w.dirty {
      AllDirty(path, w.dirty, j);
    }
  }

  lemma {:induction false} AllDirty(path: seq<Vbn>, dirty: set<Vbn>, d: nat)
    requires d < |path| && path[d] in dirty && forall i | 0 < i <= d && path[i] in dirty :: path[i - 1] in dirty
    ensures forall i | 0 <= i <= d :: path[i] in dirty
    decreases d
  {
    if 0 < d { AllDirty(path, dirty, d - 1); }
  }

  /** Every block of the path is in the store. */
  lemma {:induction false} PathCached(w: World, fs: seq<Frame>, x: Tree, h: nat, d: int, v: Vbn, m: multiset<Vbn>)
    requires PathOk(w, fs, x, h, d, v, m)
    ensures x.Node? && forall i | 0 <= i <= |fs| :: VbnAt(fs, x.vbn, i) in w.store
  {
    PathInStore(w, fs, x, h);
  }
}
