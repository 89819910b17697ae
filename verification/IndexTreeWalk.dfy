/** Walking the tree: how the cursor's in-order position changes from entry to entry. */
module IndexTreeWalk {
  import opened IndexTreeShape
  import opened IndexTreeZipper
  import opened IndexTreeSplit
  import opened IndexTreeInsert
  import opened IndexTreeSearch
  import opened IndexTreeRemove

  /** The path (gs, y) leads down from entry p of block x of the path (fs, x). */
  ghost predicate Opened(fs: seq<Frame>, x: Tree, p: nat, gs: seq<Frame>, y: Tree) {
    && |fs| <= |gs| && gs[..|fs|] == fs
    && Plug(gs[|fs|..], y) == x
    && (|fs| < |gs| ==> gs[|fs|].pos == p)
  }

  lemma {:induction false} OpenedHere(fs: seq<Frame>, x: Tree, p: nat)
    ensures Opened(fs, x, p, fs, x)
  {
  }

  lemma {:induction false} OpenedDown(fs: seq<Frame>, x: Tree, p: nat, gs: seq<Frame>, y: Tree, q: nat)
    requires Opened(fs, x, p, gs, y) && y.Node? && q < |y.kids| && (|gs| == |fs| ==> q == p)
    ensures Opened(fs, x, p, gs + [OpenAt(y, q)], y.kids[q])
  {
    var hs := gs + [OpenAt(y, q)];
    var ks := hs[|fs|..];
    assert ks[..|ks| - 1] == gs[|fs|..] && ks[|ks| - 1] == OpenAt(y, q);
    assert y.kids[q := y.kids[q]] == y.kids;
  }

  lemma {:induction false} OpenedUp(fs: seq<Frame>, x: Tree, p: nat, gs: seq<Frame>, y: Tree)
    requires Opened(fs, x, p, gs, y) && |fs| < |gs|
    ensures Opened(fs, x, p, gs[..|gs| - 1], Close(gs[|gs| - 1], y))
    ensures |gs| - 1 == |fs| ==> gs[|gs| - 1].pos == p && Close(gs[|gs| - 1], y) == x
  {
    var ks := gs[|fs|..];
    assert ks[..|ks| - 1] == gs[..|gs| - 1][|fs|..];
  }

  lemma {:induction false} OpenedDepth(fs: seq<Frame>, x: Tree, p: nat, gs: seq<Frame>, y: Tree)
    requires Opened(fs, x, p, gs, y)
    ensures |fs| <= |gs|
    ensures |gs| == |fs| ==> gs == fs && y == x
  {
  }

  /** From END of a block to the entry that names the block. */
  lemma {:induction false} PopEnd(fs: seq<Frame>, y: Tree, p: nat)
    requires fs != [] && y.Node? && |y.kids| == |y.es| && p == |y.es| - 1 && y.es[p].end
    requires var f := fs[|fs| - 1]; f.pos < |f.kids| == |f.es|
    ensures var n := |fs| - 1; Rank(fs[..n], Close(fs[n], y), fs[n].pos) == Rank(fs, y, p)
  {
    hide Weave;
    var n := |fs| - 1;
    var f := fs[n];
    var z := Close(f, y);
    assert z.kids[..f.pos] == f.kids[..f.pos] && z.kids[f.pos] == y;
    WeaveAt(y.kids, y.es, p);
    FlatIs(y);
    assert y.kids[p + 1..] == [] && y.es[p + 1..] == [];
    assert Weave([], []) == [] by { WeaveNone(); }
  }

  /** From BEGIN of a block to the entry that names the block. */
  lemma {:induction false} PopBegin(fs: seq<Frame>, y: Tree)
    requires fs != [] && y.Node?
    requires var f := fs[|fs| - 1]; f.pos < |f.kids| == |f.es|
    ensures var n := |fs| - 1; Lo(fs[..n], Close(fs[n], y), fs[n].pos) == Lo(fs, y, 0)
  {
    hide Weave;
    var n := |fs| - 1;
    var f := fs[n];
    var z := Close(f, y);
    assert z.kids[..f.pos] == f.kids[..f.pos];
    LeftOfNone(y.kids, y.es);
  }

  /** The subtree left of an entry starts right after the entry before it. */
  lemma {:induction false} StepView(fs: seq<Frame>, x: Tree, p: nat)
    requires x.Node? && |x.kids| == |x.es| && p + 1 < |x.es| && !x.es[p].end
    ensures Lo(fs, x, p + 1) == Rank(fs, x, p) + 1
  {
    hide Weave;
    WeaveInit(x.kids, x.es, p);
  }

  lemma {:induction false} RootRank(x: Tree, p: nat)
    requires x.Node? && |x.kids| == |x.es| && p == |x.es| - 1 && x.es[p].end
    ensures Rank([], x, p) == |ZipFlat([], x)| && Lo([], x, 0) == 0
  {
    CursorView([], x, p);
    WeaveEnd(x, p);
    LeftOfNone(x.kids, x.es);
  }

  function Reversed<T>(s: seq<T>): seq<T> {
    if s == [] then [] else Reversed(s[1..]) + [s[0]]
  }

  /** What a walk has seen when it gets to rank r. */
  function Seen<T>(c: seq<T>, r: int, reverse: bool): seq<T> {
    if reverse then if -1 <= r < |c| then Reversed(c[r + 1..]) else []
    else if 0 <= r <= |c| then c[..r] else []
  }

  lemma {:induction false} SeenStep<T>(c: seq<T>, r: nat, reverse: bool)
    requires r < |c|
    ensures Seen(c, r, reverse) + [c[r]] == Seen(c, if reverse then r - 1 else r + 1, reverse)
  {
    if reverse {
      assert c[r..][1..] == c[r + 1..];
    } else {
      assert c[..r + 1] == c[..r] + [c[r]];
    }
  }

  lemma {:induction false} SeenEnds<T>(c: seq<T>, reverse: bool)
    ensures Seen(c, if reverse then |c| - 1 else 0, reverse) == []
    ensures Seen(c, if reverse then -1 else |c|, reverse) == if reverse then Reversed(c) else c
  {
    assert c[0..] == c;
    assert c[|c|..] == [];
  }
}
