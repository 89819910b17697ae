/** Where a removal leaves the cursor, foretold from the tree before it. */
module IndexTreeRest {
  import opened IndexLayout
  import opened IndexTreeShape
  import opened IndexTreeZipper
  import opened IndexTreeDirty
  import opened IndexTreeEdit
  import opened IndexTreeSplit
  import opened IndexTreeLanding
  import opened IndexTreeInsert
  import opened IndexTreeSearch
  import opened IndexTreeRemove
  import opened IndexTreeSwap

  /** The path from entry p of block x down to a leaf, by first or by last entries. */
  function Down(x: Tree, p: nat, last: bool): (path: seq<Frame>)
    ensures x.Node? ==> path != []
    decreases x
  {
    match x
    case Nil => []
    case Node(_, _, es, kids) =>
      if p < |es| && p < |kids| && es[p].node then [OpenAt(x, p)] + Down(kids[p], FirstOrLast(kids[p], last), last)
      else [OpenAt(x, p)]
  }

  function FirstOrLast(y: Tree, last: bool): nat {
    if last && y.Node? && y.es != [] then |y.es| - 1 else 0
  }

  /** The child that the path leads to was freed.  Blocks without entries are freed as well; the first block with
      entries gives one up, the one after the child, or, if the child hung on END, the one before.  That is
      inserted in the leaf next to its old place, and there the cursor ends, unless blocks are split.  Its
      in-order position, or -1 if it is beyond the place of insertion; 0 if nothing is left. */
  function Mended(path: seq<Frame>): int
    decreases |path|
  {
    if path == [] then -1
    else
      var f, up := path[|path| - 1], path[..|path| - 1];
      if f.es == [] || f.pos >= |f.es| then -1
      else if f.es[0].end then (if up == [] then 0 else Mended(up))
      else Rejoined(up + Down(Repaired(Close(f, Nil), f.pos), Taken(Close(f, Nil), f.pos), f.es[f.pos].end),
                    DelVbn(f.es[Taken(Close(f, Nil), f.pos)]))
  }

  /** Where the cursor ends after entry e was inserted at the end of a path. */
  function Rejoined(low: seq<Frame>, e: Entry): int {
    if low != [] && Bursts(low[|low| - 1].es, Len(e)) then BackRank(low) else |Before(low)|
  }

  /** Where the cursor ends after the entry at the end of the path, in a leaf, was removed: where it was, if the
      leaf keeps an entry or is the root. */
  function Rest(path: seq<Frame>): int {
    if path == [] then -1
    else if |path[|path| - 1].es| != 2 || |path| == 1 then |Before(path)|
    else Mended(path[..|path| - 1])
  }

  /** The block with the entry's successor in place of it. */
  function WithSuccessor(x: Tree, p: nat): Tree {
    if x.Node? && p + 1 < |x.kids| && p < |x.es| && Flat(x.kids[p + 1]) != []
    then x.(es := x.es[p := Entry(Flat(x.kids[p + 1])[0], true, x.es[p].vbn, false)])
    else x
  }

  /** Where the cursor ends after entry p of block x was removed. */
  function RestOf(fs: seq<Frame>, x: Tree, p: nat): int {
    if x.Nil? || p >= |x.es| then -1
    else if x.es[p].node then Rest(fs + Down(WithSuccessor(x, p), p + 1, false))
    else Rest(fs + [OpenAt(x, p)])
  }

  // ---- what does not matter

  lemma {:induction false} LikeDown(x: Tree, y: Tree, p: nat, last: bool)
    requires x.Node? && y.Node? && LikeEntries(x.es, y.es) && x.kids == y.kids
    ensures LikeAll(Down(x, p, last), Down(y, p, last))
  {
    var d := if p < |x.es| && p < |x.kids| && x.es[p].node
             then Down(x.kids[p], FirstOrLast(x.kids[p], last), last) else [];
    if p < |x.es| { assert x.es[p].(vbn := 0) == y.es[p].(vbn := 0); }
    assert LikeAll([OpenAt(x, p)], [OpenAt(y, p)]);
    LikeRefl(d);
    LikeConcat([OpenAt(x, p)], [OpenAt(y, p)], d, d);
    assert [OpenAt(x, p)] + [] == [OpenAt(x, p)] && [OpenAt(y, p)] + [] == [OpenAt(y, p)];
  }

  lemma {:induction false} LikeDelete(es: seq<Entry>, us: seq<Entry>, p: nat)
    requires LikeEntries(es, us)
    ensures LikeEntries(Delete(es, p), Delete(us, p))
  {
    var d, e := Delete(es, p), Delete(us, p);
    forall i | 0 <= i < |d| ensures d[i].(vbn := 0) == e[i].(vbn := 0) {
      if p < |es| {
        var j := if i < p then i else i + 1;
        assert d[i] == es[j] && e[i] == us[j] && es[j].(vbn := 0) == us[j].(vbn := 0);
      }
    }
  }

  lemma {:induction false} LikeRepaired(f: Frame, g: Frame)
    requires Like(f, g) && f.pos < |f.es|
    ensures var y, z := Repaired(Close(f, Nil), f.pos), Repaired(Close(g, Nil), g.pos);
            y.Node? && z.Node? && LikeEntries(y.es, z.es) && y.kids == z.kids
    ensures Taken(Close(f, Nil), f.pos) == Taken(Close(g, Nil), g.pos) <= f.pos
    ensures var q := Taken(Close(f, Nil), f.pos);
            Len(DelVbn(f.es[q])) == Len(DelVbn(g.es[q])) && f.es[f.pos].end == g.es[f.pos].end
  {
    hide Delete;
    var p := f.pos;
    var q := Taken(Close(f, Nil), p);
    assert f.es[p].(vbn := 0) == g.es[p].(vbn := 0);
    assert f.es[q].(vbn := 0) == g.es[q].(vbn := 0);
    assert Close(f, Nil).kids == Close(g, Nil).kids;
    var us, ws := SetVbn(f.es, p, f.es[q].vbn), SetVbn(g.es, p, g.es[q].vbn);
    assert LikeEntries(us, ws) by {
      SetVbnLike(f.es, p, f.es[q].vbn);
      SetVbnLike(g.es, p, g.es[q].vbn);
    }
    LikeDelete(us, ws, q);
    LikeDelete(f.es, g.es, p);
  }

  lemma {:induction false} LikeRejoined(ps: seq<Frame>, qs: seq<Frame>, e: Entry, f: Entry)
    requires LikeAll(ps, qs) && Len(e) == Len(f)
    ensures Rejoined(ps, e) == Rejoined(qs, f)
  {
    hide LikeAll, Like, LikeEntries, Len, Middle;
    LikeSize(ps, qs);
    LikeBack(ps, qs);
    LikeBefore(ps, qs);
    if ps != [] {
      LikeInit(ps, qs);
      LikeParts(ps[|ps| - 1], qs[|qs| - 1]);
      LikeLen(ps[|ps| - 1].es, qs[|qs| - 1].es);
    }
  }

  lemma {:induction false} LikeEnds(es: seq<Entry>, us: seq<Entry>)
    requires LikeEntries(es, us)
    ensures |es| == |us| && (es != [] ==> es[0].end == us[0].end)
  {
    if es != [] { assert es[0].(vbn := 0) == us[0].(vbn := 0); }
  }

  lemma {:induction false} LikeMended(ps: seq<Frame>, qs: seq<Frame>)
    requires LikeAll(ps, qs)
    ensures Mended(ps) == Mended(qs)
    decreases |ps|
  {
    hide LikeAll, Like, LikeEntries, Rejoined, Down, Repaired, Taken, Close, DelVbn;
    LikeSize(ps, qs);
    if ps != [] {
      var n := |ps| - 1;
      var f, g := ps[n], qs[n];
      LikeInit(ps, qs);
      LikeParts(f, g);
      LikeEnds(f.es, g.es);
      LikeMended(ps[..n], qs[..n]);
      if f.es != [] && f.pos < |f.es| && !f.es[0].end {
        LikeRepaired(f, g);
        var y, z, q := Repaired(Close(f, Nil), f.pos), Repaired(Close(g, Nil), g.pos), Taken(Close(f, Nil), f.pos);
        LikeDown(y, z, q, f.es[f.pos].end);
        LikeConcat(ps[..n], qs[..n], Down(y, q, f.es[f.pos].end), Down(z, q, f.es[f.pos].end));
        LikeRejoined(ps[..n] + Down(y, q, f.es[f.pos].end), qs[..n] + Down(z, q, f.es[f.pos].end), DelVbn(f.es[q]),
            DelVbn(g.es[q]));
      }
    }
  }

  lemma {:induction false} LikeRest(ps: seq<Frame>, qs: seq<Frame>)
    requires LikeAll(ps, qs)
    ensures Rest(ps) == Rest(qs)
  {
    hide LikeAll, Like, LikeEntries, Mended;
    LikeSize(ps, qs);
    LikeBefore(ps, qs);
    if ps != [] {
      LikeInit(ps, qs);
      LikeParts(ps[|ps| - 1], qs[|qs| - 1]);
      LikeEnds(ps[|ps| - 1].es, qs[|qs| - 1].es);
      LikeMended(ps[..|ps| - 1], qs[..|qs| - 1]);
    }
  }

  lemma {:induction false} DownOne(fs: seq<Frame>, x: Tree, p: nat, last: bool)
    requires x.Node? && p < |x.es| == |x.kids| && x.es[p].node
    ensures fs + Down(x, p, last) == fs + [OpenAt(x, p)] + Down(x.kids[p], FirstOrLast(x.kids[p], last), last)
  {
    hide Down;
    DownStep(x, p, last);
  }

  lemma {:induction false} DownStep(x: Tree, p: nat, last: bool)
    requires x.Node? && p < |x.es| == |x.kids| && x.es[p].node
    ensures Down(x, p, last) == [OpenAt(x, p)] + Down(x.kids[p], FirstOrLast(x.kids[p], last), last)
  {
  }

  lemma {:induction false} DownLeaf(x: Tree, p: nat, last: bool)
    requires x.Node? && p < |x.es| && !x.es[p].node
    ensures Down(x, p, last) == [OpenAt(x, p)]
  {
  }

  // ---- the steps of a removal

  /** The last block of the path is freed, or left with an empty place. */
  lemma {:induction false} MendedStep(fs: seq<Frame>)
    requires fs != [] && fs[|fs| - 1].pos < |fs[|fs| - 1].es| == |fs[|fs| - 1].kids|
    ensures var n := |fs| - 1; var f := fs[n];
            if !f.es[0].end then
              var gs := fs[..n] + [OpenAt(Close(f, Nil), f.pos)];
              Mended(gs) == Mended(fs) && Before(gs) == Before(fs)
            else if |f.es| != 1 then true
            else if n == 0 then Mended(fs) == 0
            else Mended(fs[..n]) == Mended(fs) && Before(fs[..n]) == Before(fs)
  {
    hide Rejoined, Down, Repaired, Taken;
    var n := |fs| - 1;
    var f := fs[n];
    var gs := fs[..n] + [OpenAt(Close(f, Nil), f.pos)];
    assert gs[..|gs| - 1] == fs[..n];
    assert Like(OpenAt(Close(f, Nil), f.pos), f);
    LikeRefl(fs[..n]);
    LikeConcat(fs[..n], fs[..n], [OpenAt(Close(f, Nil), f.pos)], [f]);
    assert fs[..n] + [f] == fs;
    LikeMended(gs, fs);
    LikeBefore(gs, fs);
    if |f.es| == 1 { assert LeftOf(f.kids, f.es, 0) == [] by { LeftOfNone(f.kids, f.es); } }
  }

  /** Before the cursor's place: the blocks above, and what is left of it in its own. */
  lemma {:induction false} BeforeOpen(fs: seq<Frame>, x: Tree, p: nat)
    requires x.Node?
    ensures var path := fs + [OpenAt(x, p)];
            path[..|path| - 1] == fs && path[|path| - 1] == OpenAt(x, p) && |Before(path)| == Lo(fs, x, p)
  {
    hide LeftOf;
    var path := fs + [OpenAt(x, p)];
    assert path[..|path| - 1] == fs;
  }

  /** A gap that is repaired, and what follows. */
  lemma {:induction false} MendedHere(fs: seq<Frame>, z: Tree, p: nat)
    requires z.Node? && 1 < |z.es| == |z.kids| && p < |z.es| && z.kids[p] == Nil && !z.es[0].end
    ensures Repaired(z, p).Node? && Taken(z, p) < |z.es|
    ensures Mended(fs + [OpenAt(z, p)]) == Rejoined(fs + Down(Repaired(z, p), Taken(z, p), z.es[p].end),
        DelVbn(z.es[Taken(z, p)]))
  {
    hide Rejoined, Down;
    var path := fs + [OpenAt(z, p)];
    assert path[..|path| - 1] == fs;
    assert z.kids[p := Nil] == z.kids;
    assert Close(OpenAt(z, p), Nil) == z;
  }

  /** The same after copy-on-write. */
  lemma {:induction false} MendedMoved(fs: seq<Frame>, z: Tree, p: nat, gs: seq<Frame>, y: Tree, low: seq<Frame>)
    requires z.Node? && 1 < |z.es| == |z.kids| && p < |z.es| && z.kids[p] == Nil && !z.es[0].end
    requires SamePath(fs, gs) && Renumbered(Repaired(z, p), y)
    requires low == gs + Down(y, Taken(z, p), z.es[p].end)
    ensures Taken(z, p) < |z.es|
    ensures Mended(fs + [OpenAt(z, p)]) == Rejoined(low, DelVbn(z.es[Taken(z, p)]))
  {
    hide Rejoined, Down, Repaired, Taken, LikeAll, SamePath, Mended;
    MendedHere(fs, z, p);
    SameIsLike(fs, gs);
    LikeSelf(Repaired(z, p), y);
    LikeDown(Repaired(z, p), y, Taken(z, p), z.es[p].end);
    LikeConcat(fs, gs, Down(Repaired(z, p), Taken(z, p), z.es[p].end), Down(y, Taken(z, p), z.es[p].end));
    LikeRejoined(fs + Down(Repaired(z, p), Taken(z, p), z.es[p].end), low, DelVbn(z.es[Taken(z, p)]),
        DelVbn(z.es[Taken(z, p)]));
  }

  lemma {:induction false} LikeSelf(x: Tree, y: Tree)
    requires Renumbered(x, y)
    ensures LikeEntries(x.es, y.es) && x.kids == y.kids
  {
  }

  /** Inserting at the end of the path, as foretold. */
  lemma {:induction false} RejoinedLanded(fs: seq<Frame>, x: Tree, p: nat, e: Entry, h: nat, gs: seq<Frame>, y: Tree,
      q: nat, k: nat, split: bool)
    requires Landed(fs, x, p, e, Nil, h, gs, y, q, k, split) && x.Node? && p < |x.kids| && x.kids[p].Nil?
    ensures Met(Rejoined(fs + [OpenAt(x, p)], e), Rank(gs, y, q), Lo(fs, x, p))
  {
    hide BackRank, Lo, SamePath, Bare;
    BeforeOpen(fs, x, p);
    assert |Flat(Nil)| == 0;
  }

  /** The cursor, left at rank r, is where foretold, or, if that is -1, at rank j or beyond. */
  ghost predicate Ends(foretold: int, r: nat, j: nat) { if foretold >= 0 then r == foretold else j <= r }

  /** Nothing was freed, or everything. */
  lemma {:induction false} RestKept(fs0: seq<Frame>, x0: Tree, p0: nat, fs: seq<Frame>, x: Tree, r: nat)
    requires SamePath(fs0, fs) && Renumbered(Deleted(x0, p0), x) && x0.Node? && |x0.es| == |x0.kids| && p0 < |x0.es| - 1
    requires forall i | 0 <= i < |x0.kids| :: x0.kids[i].Nil? && (x0.es[i].end <==> i == |x0.es| - 1)
    requires if Hollow(x) && 0 < |fs| then Mended(fs) == 0 == r else r == Lo(fs, x, p0)
    ensures Ends(Rest(fs0 + [OpenAt(x0, p0)]), r, Lo(fs0, x0, p0))
  {
    hide Mended, LeftOf, Delete;
    DeletedEntries(x0, p0);
    SameIsLike(fs0, fs);
    BeforeOpen(fs0, x0, p0);
    LikeMended(fs0, fs);
    LikeBefore(fs0, fs);
    LeftDeleted(x0, x, p0);
  }

  lemma {:induction false} DeletedEntries(x: Tree, p: nat)
    requires x.Node? && |x.es| == |x.kids| && p < |x.es| - 1
    requires forall i | 0 <= i < |x.kids| :: x.kids[i].Nil? && (x.es[i].end <==> i == |x.es| - 1)
    ensures var y := Deleted(x, p);
            && y.Node? && |y.es| == |y.kids| == |x.es| - 1 && y.kids[0].Nil? && (y.es[0].end <==> |y.es| == 1)
  {
  }

  lemma {:induction false} LeftDeleted(x: Tree, y: Tree, p: nat)
    requires Renumbered(Deleted(x, p), y) && x.Node? && |x.es| == |x.kids| && p < |x.es|
    ensures LeftOf(y.kids, y.es, p) == LeftOf(x.kids, x.es, p)
  {
    assert y.kids[..p] == x.kids[..p] && y.es[..p] == x.es[..p];
  }

  /** The leaf was freed, and the gap is to be repaired. */
  lemma {:induction false} RestMended(fs0: seq<Frame>, x0: Tree, p0: nat, fs: seq<Frame>, x: Tree)
    requires SamePath(fs0, fs) && Renumbered(Deleted(x0, p0), x) && x0.Node? && |x0.es| == |x0.kids| && p0 < |x0.es| - 1
    requires Hollow(x) && 0 < |fs|
    ensures Rest(fs0 + [OpenAt(x0, p0)]) == Mended(fs) && Lo(fs0, x0, p0) == |Before(fs)|
  {
    hide Mended, LeftOf;
    SameIsLike(fs0, fs);
    BeforeOpen(fs0, x0, p0);
    LikeMended(fs0, fs);
    LikeBefore(fs0, fs);
    LeftOfNone(x0.kids, x0.es);
  }

  lemma {:induction false} LandedPos(fs: seq<Frame>, x: Tree, p: nat, e: Entry, h: nat, gs: seq<Frame>, y: Tree, q: nat,
      k: nat, split: bool)
    requires Landed(fs, x, p, e, Nil, h, gs, y, q, k, split)
    ensures y.Node? && q < |y.es|
  {
  }

  // ---- a root that grew above the path

  lemma {:induction false} RepairedSmall(f: Frame)
    requires SmallEntries(f.es)
    ensures var z := Repaired(Close(f, Nil), f.pos); z.Node? && SmallEntries(z.es)
  {
    var z := Repaired(Close(f, Nil), f.pos);
    forall i | 0 <= i < |z.es| ensures Len(z.es[i]) <= ENTRY_HEAD_SIZE + KEY_MAX_SIZE + VALUE_MAX_SIZE + VBN_SIZE {
      if f.pos < |f.es| {
        var q := Taken(Close(f, Nil), f.pos);
        var us := SetVbn(f.es, f.pos, f.es[q].vbn);
        assert forall j | 0 <= j < |us| :: Len(us[j]) == Len(f.es[j]);
        assert z.es == Delete(us, q) || z.es == Delete(f.es, f.pos);
        DeleteIndex(us, q, i);
        DeleteIndex(f.es, f.pos, i);
      }
    }
  }

  lemma {:induction false} RepairedNode(f: Frame)
    ensures Repaired(Close(f, Nil), f.pos).Node?
  {
  }

  lemma {:induction false} BareRejoined(r: Frame, low: seq<Frame>, e: Entry)
    requires Bare(r) && low != [] && SmallEntries(low[0].es)
    ensures Rejoined([r] + low, e) == Rejoined(low, e)
  {
    hide Bare, SmallEntries, BackRank, Bursts, Before, LeftOf;
    BareBack(r, low);
    BareBefore(r, low);
    assert ([r] + low)[|low|] == low[|low| - 1];
  }

  lemma {:induction false} BareMended(r: Frame, ps: seq<Frame>)
    requires Bare(r) && ps != [] && ps[0].es != [] && !ps[0].es[0].end && SmallEntries(ps[0].es)
    ensures Mended([r] + ps) == Mended(ps)
    decreases |ps|
  {
    hide Bare, SmallEntries, Rejoined, Down, Repaired, DelVbn;
    var n := |ps| - 1;
    var f, qs := ps[n], [r] + ps;
    assert qs[..|qs| - 1] == [r] + ps[..n] && qs[|qs| - 1] == f;
    if f.es != [] && f.pos < |f.es| {
      if f.es[0].end {
        BareMended(r, ps[..n]);
      } else {
        var z, q := Repaired(Close(f, Nil), f.pos), Taken(Close(f, Nil), f.pos);
        if n == 0 { RepairedSmall(f); } else { RepairedNode(f); }
        DownHead(z, q, f.es[f.pos].end);
        var low := ps[..n] + Down(z, q, f.es[f.pos].end);
        assert [r] + ps[..n] + Down(z, q, f.es[f.pos].end) == [r] + low;
        BareRejoined(r, low, DelVbn(f.es[q]));
      }
    }
  }

  lemma {:induction false} DownHead(x: Tree, p: nat, last: bool)
    requires x.Node?
    ensures var d := Down(x, p, last); d != [] && d[0] == OpenAt(x, p) && d[0].es == x.es
  {
  }

  lemma {:induction false} BareRest(r: Frame, ps: seq<Frame>)
    requires Bare(r) && 2 <= |ps| && ps[0].es != [] && !ps[0].es[0].end && SmallEntries(ps[0].es)
    ensures Rest([r] + ps) == Rest(ps)
  {
    hide Bare, SmallEntries, Mended;
    var qs := [r] + ps;
    assert qs[..|qs| - 1] == [r] + ps[..|ps| - 1] && qs[|qs| - 1] == ps[|ps| - 1];
    BareBefore(r, ps);
    BareMended(r, ps[..|ps| - 1]);
  }

  // ---- the successor in place of an inner entry

  /** The path to the successor, once it has taken the entry's place. */
  ghost predicate Replaced(fs: seq<Frame>, x: Tree, p: nat, gs: seq<Frame>, y: Tree) {
    && (SamePath(fs, gs) || (fs == [] && |gs| == 1 && Bare(gs[0])))
    && x.Node? && y.Node? && y.kids == x.kids && LikeEntries(WithSuccessor(x, p).es, y.es)
  }

  lemma {:induction false} ReplacedRest(fs: seq<Frame>, x: Tree, p: nat, gs: seq<Frame>, y: Tree, h: nat, root: bool)
    requires Replaced(fs, x, p, gs, y) && Shape(x, h, root) && 1 < h && p < |x.es| - 1
    ensures Rest(gs + Down(y, p + 1, false)) == RestOf(fs, x, p)
  {
    hide Rest, Down, LikeAll, LikeEntries, SamePath, Bare, Flat;
    InnerEntries(x, h, root, p);
    var z := WithSuccessor(x, p);
    var d, e := Down(z, p + 1, false), Down(y, p + 1, false);
    LikeDown(z, y, p + 1, false);
    if SamePath(fs, gs) {
      SameIsLike(fs, gs);
      LikeConcat(fs, gs, d, e);
      LikeRest(fs + d, gs + e);
    } else {
      LikeRefl(gs);
      LikeConcat(gs, gs, d, e);
      LikeRest(gs + d, gs + e);
      assert gs == [gs[0]] && fs + d == d;
      DownInner(z, p + 1, x.kids[p + 1]);
      BareRest(gs[0], d);
    }
  }

  lemma {:induction false} DownInner(z: Tree, p: nat, y: Tree)
    requires z.Node? && p < |z.es| == |z.kids| && z.es[p].node && y == z.kids[p] && y.Node?
    ensures var d := Down(z, p, false); 2 <= |d| && d[0] == OpenAt(z, p) && d[0].es == z.es
  {
    DownStep(z, p, false);
  }

  lemma {:induction false} InnerEntries(x: Tree, h: nat, root: bool, p: nat)
    requires Shape(x, h, root) && 1 < h && p < |x.es| - 1
    ensures var z := WithSuccessor(x, p);
            && z.Node? && x.Node? && |z.es| == |z.kids| == |x.es| && z.kids == x.kids && x.es[p].node
                && x.kids[p + 1].Node?
            && z.es[p + 1].node && !z.es[0].end && SmallEntries(z.es)
            && Flat(x.kids[p + 1]) != [] && z.es == x.es[p := Entry(Flat(x.kids[p + 1])[0], true, x.es[p].vbn, false)]
  {
    FlatNonEmpty(x.kids[p + 1], h - 1);
    FirstSmall(x.kids[p + 1], h - 1, false);
    var z := WithSuccessor(x, p);
    forall i | 0 <= i < |z.es| ensures Len(z.es[i]) <= ENTRY_HEAD_SIZE + KEY_MAX_SIZE + VALUE_MAX_SIZE + VBN_SIZE {
      assert EntryOk(x.es[i], true);
    }
  }

  /** The first key of a subtree is within the limits of the format. */
  lemma {:induction false} FirstSmall(t: Tree, h: nat, root: bool)
    requires Shape(t, h, root) && 1 <= h && Flat(t) != []
    ensures var a := Flat(t)[0]; |a.key| <= KEY_MAX_SIZE && |a.val| <= VALUE_MAX_SIZE
    decreases h
  {
    WeaveAt(t.kids, t.es, 0);
    assert EntryOk(t.es[0], h > 1);
    assert t.kids[..0] == [] && t.es[..0] == [] && Weave([], []) == [];
    if h > 1 {
      FlatNonEmpty(t.kids[0], h - 1);
      FirstSmall(t.kids[0], h - 1, false);
    } else {
      assert t.kids[0].Nil?;
    }
  }

  /** The successor in order is the first key of the next subtree. */
  lemma {:induction false} SuccessorIs(fs: seq<Frame>, x: Tree, p: nat, h: nat, root: bool)
    requires Shape(x, h, root) && 1 < h && p < |x.es| - 1 && |x.kids| == |x.es|
    ensures Flat(x.kids[p + 1]) != [] && Rank(fs, x, p) + 1 < |ZipFlat(fs, x)|
    ensures ZipFlat(fs, x)[Rank(fs, x, p) + 1] == Flat(x.kids[p + 1])[0]
  {
    hide Weave, Before, After, Flat;
    FlatNonEmpty(x.kids[p + 1], h - 1);
    CursorView(fs, x, p);
    CursorView(fs, x, p + 1);
    StepOver(fs, x, p, h, root);
  }

  lemma {:induction false} StepOver(fs: seq<Frame>, x: Tree, p: nat, h: nat, root: bool)
    requires Shape(x, h, root) && 1 < h && p < |x.es| - 1 && |x.kids| == |x.es|
    ensures Lo(fs, x, p + 1) == Rank(fs, x, p) + 1
  {
    hide Weave, Before;
    WeaveInit(x.kids, x.es, p);
    assert !x.es[p].end;
  }

  /** The successor was put in the place of the entry, without a split. */
  lemma {:induction false} SwapReplaced(fs: seq<Frame>, x: Tree, p: nat, s: Entry, gs: seq<Frame>, y: Tree, h: nat,
                                        hs: seq<Frame>, z: Tree, q: nat, k: nat, split: bool, hx: nat, root: bool)
    requires Shape(x, hx, root) && 1 < hx && p < |x.es| - 1 && |x.kids| == |x.es|
    requires SamePath(fs, gs) && Renumbered(Deleted(x, p), y)
    requires s == AddVbn(s, x.es[p].vbn) && !s.end && Flat(x.kids[p + 1]) != [] && s.kv == Flat(x.kids[p + 1])[0]
    requires Landed(gs, y, p, s, x.kids[p], h, hs, z, q, k, split) && !split
    ensures Replaced(fs, x, p, hs, z) && q == p
  {
    hide Flat, Bare, BackRank, Lo, Hi, Idx, Rank, Before, Splits, SamePath;
    InnerEntries(x, hx, root, p);
    PutBack(x.es, p, s);
    PutBack(x.kids, p, x.kids[p]);
    if SamePath(gs, hs) { SamePathTrans(fs, gs, hs); } else { SamePathNone(fs, gs); }
  }

  lemma {:induction false} SamePathNone(fs: seq<Frame>, gs: seq<Frame>)
    requires SamePath(fs, gs)
    ensures |fs| == |gs|
  {
  }

  lemma {:induction false} PutBack<T>(s: seq<T>, p: nat, a: T)
    requires p < |s|
    ensures Insert(Delete(s, p), p, a) == s[p := a]
  {
  }

  // ---- foretold from the tree

  /** Where the cursor ends after the entry at in-order rank r of the tree was removed. */
  function RestAt(t: Tree, r: nat): int {
    var (fs, x, p) := Locate([], t, 0, r);
    RestOf(fs, x, p)
  }

  lemma {:induction false} FilledLike(fs: seq<Frame>, x: Tree)
    requires forall f | f in fs :: f.pos < |f.kids|
    ensures LikeAll(Filled(fs, x), fs)
    decreases |fs|
  {
    if fs != [] {
      var n := |fs| - 1;
      var f := fs[n];
      FilledLike(fs[..n], Close(f, x));
      assert LikeAll([OpenAt(Close(f, x), f.pos)], [f]);
      LikeConcat(Filled(fs[..n], Close(f, x)), fs[..n], [OpenAt(Close(f, x), f.pos)], [f]);
      assert fs[..n] + [f] == fs;
    }
  }

  /** It is the same wherever the cursor came from. */
  lemma {:induction false} RestOfCursor(w: World, fs: seq<Frame>, x: Tree, h: nat, p: nat)
    requires TreeOk(w, fs, x, h) && p < |x.es| - 1
    ensures RestAt(Plug(fs, x), Rank(fs, x, p)) == RestOf(fs, x, p)
  {
    hide TreeOk, Locate, Filled, LikeAll, Rest, Down, Rank, Plug, CtxShape;
    HomeOfCursor(w, fs, x, h, p);
    TreeCtx(w, fs, x, h);
    CtxOpen(fs, h);
    FilledLike(fs, x);
    LikeRestOf(Filled(fs, x), fs, x, p);
  }

  lemma {:induction false} CtxOpen(fs: seq<Frame>, h: nat)
    requires CtxShape(fs, h)
    ensures forall f | f in fs :: f.pos < |f.kids|
  {
  }

  lemma {:induction false} LikeRestOf(fs: seq<Frame>, gs: seq<Frame>, x: Tree, p: nat)
    requires LikeAll(fs, gs)
    ensures RestOf(fs, x, p) == RestOf(gs, x, p)
  {
    hide LikeAll, Rest, Down, WithSuccessor;
    var d, e := Down(WithSuccessor(x, p), p + 1, false), [OpenAt(x, p)];
    LikeRefl(d);
    LikeRefl(e);
    LikeConcat(fs, gs, d, d);
    LikeConcat(fs, gs, e, e);
    LikeRest(fs + d, gs + d);
    LikeRest(fs + e, gs + e);
  }

  /** Removing the entry at in-order rank r leaves the cursor before that rank. */
  predicate GoesBack(t: Tree, r: nat) { 0 <= RestAt(t, r) < r }

  // ---- in plain words, where nothing is split

  /** The path hangs, through blocks without entries, on END of a block that has some. */
  predicate HangsOnEnd(path: seq<Frame>)
    decreases |path|
  {
    path != [] &&
    var f := path[|path| - 1];
    f.pos < |f.es| && if f.es[0].end then HangsOnEnd(path[..|path| - 1]) else f.es[f.pos].end
  }

  /** The leaf that takes the entry of the first block with entries has room for it. */
  predicate HasRoom(path: seq<Frame>)
    decreases |path|
  {
    path != [] ==>
      var f, up := path[|path| - 1], path[..|path| - 1];
      if f.es == [] || f.pos >= |f.es| then true
      else if f.es[0].end then HasRoom(up)
      else
        var low := up + Down(Repaired(Close(f, Nil), f.pos), Taken(Close(f, Nil), f.pos), f.es[f.pos].end);
        low != [] && !Bursts(low[|low| - 1].es, Len(DelVbn(f.es[Taken(Close(f, Nil), f.pos)])))
  }

  lemma {:induction false} DownFirst(up: seq<Frame>, x: Tree, p: nat)
    requires x.Node?
    ensures Before(up + Down(x, p, false)) == Before(up) + LeftOf(x.kids, x.es, p)
    decreases x
  {
    hide LeftOf, Flat;
    BeforeStep(up, x, p);
    if p < |x.es| && p < |x.kids| && x.es[p].node && x.kids[p].Node? {
      DownFirst(up + [OpenAt(x, p)], x.kids[p], 0);
      LeftOfNone(x.kids[p].kids, x.kids[p].es);
      assert up + [OpenAt(x, p)] + Down(x.kids[p], 0, false) == up + Down(x, p, false);
    } else {
      assert [OpenAt(x, p)] + [] == [OpenAt(x, p)];
    }
  }

  lemma {:induction false} BeforeStep(up: seq<Frame>, x: Tree, p: nat)
    requires x.Node?
    ensures Before(up + [OpenAt(x, p)]) == Before(up) + LeftOf(x.kids, x.es, p)
  {
    hide LeftOf;
    assert (up + [OpenAt(x, p)])[..|up|] == up;
  }

  lemma {:induction false} DownLast(up: seq<Frame>, x: Tree, h: nat, root: bool)
    requires Shape(x, h, root) && 1 <= h
    ensures x.Node? && 0 < |x.es| && Before(up + Down(x, |x.es| - 1, true)) == Before(up) + Flat(x)
    decreases h
  {
    hide LeftOf, Before;
    var p := |x.es| - 1;
    BeforeStep(up, x, p);
    LastKid(x, h, root);
    if 1 < h {
      DownLast(up + [OpenAt(x, p)], x.kids[p], h - 1, false);
      assert up + [OpenAt(x, p)] + Down(x.kids[p], FirstOrLast(x.kids[p], true), true) == up + Down(x, p, true);
      assert Before(up) + LeftOf(x.kids, x.es, p) + Flat(x.kids[p])
          == Before(up) + (LeftOf(x.kids, x.es, p) + Flat(x.kids[p]));
    }
  }

  lemma {:induction false} LastKid(x: Tree, h: nat, root: bool)
    requires Shape(x, h, root) && 1 <= h
    ensures var p := |x.es| - 1;
            && 0 < |x.es| == |x.kids| && (x.es[p].node <==> 1 < h)
                && Flat(x) == LeftOf(x.kids, x.es, p) + Flat(x.kids[p])
            && Shape(x.kids[p], h - 1, false) && (h == 1 ==> Flat(x.kids[p]) == [])
  {
    hide Weave;
    var p := |x.es| - 1;
    WeaveAt(x.kids, x.es, p);
    FlatIs(x);
    assert EntryOk(x.es[p], h > 1);
    assert x.es[p].end;
    assert x.kids[p + 1..] == [] && x.es[p + 1..] == [];
    assert Weave([], []) == [] by { WeaveNone(); }
  }

  /** Where nothing is split, the cursor stays where the freed child was, or, if that hung on END, one entry
      before. */
  lemma {:induction false} MendedPlain(fs: seq<Frame>, h: nat)
    requires CtxShape(fs, h) && fs != [] && HasRoom(fs)
    ensures Mended(fs) == |Before(fs)| - if HangsOnEnd(fs) then 1 else 0
    decreases |fs|
  {
    hide Down, Repaired, Taken, Bursts, Before, LeftOf, Shape, FrameShape, EntryOk;
    var n := |fs| - 1;
    var f, up := fs[n], fs[..n];
    CtxPrefix(fs, h);
    FrameEnds(f, h - n, n == 0);
    BeforeLast(fs);
    if f.es[0].end {
      LeftOfNone(f.kids, f.es);
      if n == 0 { assert Before([]) == [] by { BeforeTop(); } } else { MendedPlain(up, h); }
    } else {
      GapBefore(up, f, h - n, n == 0);
    }
  }

  lemma {:induction false} BeforeLast(fs: seq<Frame>)
    requires fs != []
    ensures var n := |fs| - 1; Before(fs) == Before(fs[..n]) + LeftOf(fs[n].kids, fs[n].es, fs[n].pos)
  {
  }

  lemma {:induction false} CtxPrefix(fs: seq<Frame>, h: nat)
    requires CtxShape(fs, h) && fs != []
    ensures var n := |fs| - 1; CtxShape(fs[..n], h) && FrameShape(fs[n], h - n, n == 0) && n < h
  {
    hide FrameShape;
    var n := |fs| - 1;
    assert ShapeAt(fs, h, n);
    forall i | 0 <= i < n ensures ShapeAt(fs[..n], h, i) {
      assert ShapeAt(fs, h, i);
    }
  }

  lemma {:induction false} FrameEnds(f: Frame, h: nat, root: bool)
    requires FrameShape(f, h, root)
    ensures f.pos < |f.es| == |f.kids| && forall i | 0 <= i < |f.es| :: f.es[i].end <==> i == |f.es| - 1
    ensures f.es[0].end ==> f.pos == 0
  {
  }

  /** The place of insertion: that of the freed child, less the entry taken from before it. */
  lemma {:induction false} GapBefore(up: seq<Frame>, f: Frame, h: nat, root: bool)
    requires FrameShape(f, h, root) && !f.es[0].end
    ensures var p := f.pos; var y, q, last := Repaired(Close(f, Nil), p), Taken(Close(f, Nil), p), f.es[p].end;
            && y.Node?
            && |Before(up + Down(y, q, last))| == |Before(up)| + |LeftOf(f.kids, f.es, p)| - if last then 1 else 0
  {
    hide Down, Before, LeftOf, Repaired, Taken, Flat, Shape;
    var z, p := Close(f, Nil), f.pos;
    FrameEnds(f, h, root);
    GapShape(f, h, root);
    var y, q := Repaired(z, p), Taken(z, p);
    RepairedIs(z, p);
    LeftNil(f);
    if f.es[p].end {
      RepairViewEnd(z, p);
      RepairLast(z, p);
      DownLast(up, y, h, root);
    } else {
      RepairViewMid(z, p);
      DownFirst(up, y, p);
    }
  }

  lemma {:induction false} LeftNil(f: Frame)
    requires f.pos < |f.kids|
    ensures var z := Close(f, Nil); LeftOf(z.kids, z.es, f.pos) == LeftOf(f.kids, f.es, f.pos) && z.kids[f.pos] == Nil
  {
    assert f.kids[f.pos := Nil][..f.pos] == f.kids[..f.pos];
  }

  lemma {:induction false} GapShape(f: Frame, h: nat, root: bool)
    requires FrameShape(f, h, root) && !f.es[0].end
    ensures Shape(Repaired(Close(f, Nil), f.pos), h, root) && 1 <= h && 1 < |f.es|
  {
    hide Shape;
    var z := Close(f, Nil);
    var g := OpenAt(z, f.pos);
    assert FrameShape(g, h, root) by { FrameOpen(f, h, root); }
    RepairShape(z, f.pos, h, root);
  }

  lemma {:induction false} FrameOpen(f: Frame, h: nat, root: bool)
    requires FrameShape(f, h, root)
    ensures FrameShape(OpenAt(Close(f, Nil), f.pos), h, root)
  {
    hide Shape;
    var g := OpenAt(Close(f, Nil), f.pos);
    forall i | 0 <= i < |g.kids| && i != g.pos ensures Shape(g.kids[i], h - 1, false)
        && g.es[i].vbn == RootVbn(g.kids[i]) {
      assert g.kids[i] == f.kids[i];
    }
  }

  lemma {:induction false} RepairLast(z: Tree, p: nat)
    requires z.Node? && 1 < |z.es| && p == |z.es| - 1 && z.es[p].end
    ensures var y := Repaired(z, p); y.Node? && |y.es| == |z.es| - 1 && Taken(z, p) == |y.es| - 1
  {
  }

  /** An entry of a leaf is removed, and nothing is split: the cursor goes back exactly when the entry was alone in a
      leaf that hangs, through blocks without entries, on END of its nearest ancestor with entries. */
  lemma {:induction false} RestPlain(fs: seq<Frame>, x: Tree, p: nat, h: nat)
    requires CtxShape(fs, h) && Shape(x, 1, fs == []) && p < |x.es| - 1 && HasRoom(fs)
    ensures var alone := |x.es| == 2 && fs != [] && HangsOnEnd(fs);
            Rest(fs + [OpenAt(x, p)]) == Lo(fs, x, p) - if alone then 1 else 0
  {
    hide Mended, HangsOnEnd, HasRoom, LeftOf, CtxShape;
    BeforeOpen(fs, x, p);
    if |x.es| == 2 && fs != [] {
      MendedPlain(fs, h);
      LeftOfNone(x.kids, x.es);
    }
  }
}
