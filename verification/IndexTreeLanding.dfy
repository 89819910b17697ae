/** Where an insertion leaves the cursor when blocks have to be split. */
module IndexTreeLanding {
  import opened IndexLayout
  import opened IndexTreeShape
  import opened IndexTreeZipper
  import opened IndexTreeDirty
  import opened IndexTreeSplit

  /** The block would have to be split for an entry of n bytes, even if it were not the root. */
  predicate Bursts(es: seq<Entry>, n: nat) { RealSize(es) + n > BLOCK_CAP }

  /** The length of an entry that carries a block number. */
  function SepLen(e: Entry): nat { Len(AddVbn(e, 0)) }

  /** In-order position of entry k of block f, below the path up. */
  function RankIn(up: seq<Frame>, f: Frame, k: nat): nat {
    |Before(up)| + |LeftOf(f.kids, f.es, k)| + if k < |f.kids| then |Flat(f.kids[k])| else 0
  }

  /** An entry is inserted at the open place of the last block of the path, which has to be split for it.  The
      cursor ends on the middle entry of the topmost block that was split: this is its in-order position,
      if it is before that place, and otherwise -1. */
  function BackRank(path: seq<Frame>): int
    decreases |path|
  {
    if path == [] then -1
    else
      var f, up := path[|path| - 1], path[..|path| - 1];
      var k := Middle(f.es);
      if up != [] && k < |f.es| && Bursts(up[|up| - 1].es, SepLen(f.es[k])) then BackRank(up)
      else if k < f.pos then RankIn(up, f, k)
      else -1
  }

  // ---- what does not matter

  ghost predicate LikeEntries(es: seq<Entry>, us: seq<Entry>) {
    |es| == |us| && forall i | 0 <= i < |es| :: es[i].(vbn := 0) == us[i].(vbn := 0)
  }

  /** Blocks of a path that differ at most in block numbers and in the child on the path. */
  ghost predicate Like(f: Frame, g: Frame) {
    && f.pos == g.pos
    && LikeEntries(f.es, g.es)
    && |f.kids| == |g.kids|
    && forall i | 0 <= i < |f.kids| && i != f.pos :: f.kids[i] == g.kids[i]
  }

  ghost predicate LikeAll(ps: seq<Frame>, qs: seq<Frame>) {
    |ps| == |qs| && forall i | 0 <= i < |ps| :: Like(ps[i], qs[i])
  }

  lemma {:induction false} LikeLen(es: seq<Entry>, us: seq<Entry>)
    requires LikeEntries(es, us)
    ensures SumLen(es) == SumLen(us)
  {
    if es != [] {
      assert es[0].(vbn := 0) == us[0].(vbn := 0);
      LikeLen(es[1..], us[1..]);
    }
  }

  lemma {:induction false} LikeMidFrom(es: seq<Entry>, us: seq<Entry>, i: nat, m: nat)
    requires LikeEntries(es, us)
    ensures MidFrom(es, i, m) == MidFrom(us, i, m)
    decreases |es| - i
  {
    if i < |es| {
      assert es[i].(vbn := 0) == us[i].(vbn := 0);
      if !es[i].end && m > Len(es[i]) { LikeMidFrom(es, us, i + 1, m - Len(es[i])); }
    }
  }

  lemma {:induction false} LikeMiddle(es: seq<Entry>, us: seq<Entry>)
    requires LikeEntries(es, us)
    ensures Middle(es) == Middle(us) && SumLen(es) == SumLen(us) && |es| == |us|
    ensures forall k | 0 <= k < |es| ::
              && SepLen(es[k]) == SepLen(us[k]) && Own(es[k]) == Own(us[k])
              && es[k].end == us[k].end && es[k].node == us[k].node
  {
    LikeLen(es, us);
    LikeMidFrom(es, us, 0, SumLen(es) / 2);
    forall k | 0 <= k < |es| ensures SepLen(es[k]) == SepLen(us[k]) && es[k].end == us[k].end
        && Own(es[k]) == Own(us[k]) && es[k].node == us[k].node {
      assert es[k].(vbn := 0) == us[k].(vbn := 0);
    }
  }

  lemma {:induction false} LikeLeft(f: Frame, g: Frame, k: nat)
    requires Like(f, g) && k <= f.pos
    ensures LeftOf(f.kids, f.es, k) == LeftOf(g.kids, g.es, k)
    ensures k < f.pos ==> forall up :: RankIn(up, f, k) == RankIn(up, g, k)
  {
    hide Middle, Weave;
    LikeMiddle(f.es, g.es);
    if k <= |f.kids| && k <= |f.es| {
      assert f.kids[..k] == g.kids[..k];
      WeaveIgnoresVbn(f.kids[..k], f.es[..k], g.es[..k]);
    }
  }

  lemma {:induction false} LikeInit(ps: seq<Frame>, qs: seq<Frame>)
    requires LikeAll(ps, qs) && ps != []
    ensures LikeAll(ps[..|ps| - 1], qs[..|qs| - 1]) && Like(ps[|ps| - 1], qs[|qs| - 1])
  {
    hide Like;
  }

  lemma {:induction false} LikeBefore(ps: seq<Frame>, qs: seq<Frame>)
    requires LikeAll(ps, qs)
    ensures Before(ps) == Before(qs)
    decreases |ps|
  {
    hide LikeAll, LeftOf;
    LikeSize(ps, qs);
    if ps != [] {
      var n := |ps| - 1;
      LikeInit(ps, qs);
      LikeBefore(ps[..n], qs[..n]);
      LikeLeft(ps[n], qs[n], ps[n].pos);
      LikeParts(ps[n], qs[n]);
    }
  }

  lemma {:induction false} LikeSize(ps: seq<Frame>, qs: seq<Frame>)
    requires LikeAll(ps, qs)
    ensures |ps| == |qs|
  {
  }

  lemma {:induction false} LikeParts(f: Frame, g: Frame)
    requires Like(f, g)
    ensures f.pos == g.pos && LikeEntries(f.es, g.es) && |f.kids| == |g.kids|
  {
  }

  lemma {:induction false} LikeBack(ps: seq<Frame>, qs: seq<Frame>)
    requires LikeAll(ps, qs)
    ensures BackRank(ps) == BackRank(qs)
    decreases |ps|
  {
    hide LikeAll, Like, LeftOf, Middle, LikeEntries, SepLen, RankIn;
    LikeSize(ps, qs);
    if ps != [] {
      var n := |ps| - 1;
      LikeInit(ps, qs);
      LikeBack(ps[..n], qs[..n]);
      LikeBefore(ps[..n], qs[..n]);
      LikeParts(ps[n], qs[n]);
      LikeMiddle(ps[n].es, qs[n].es);
      var k := Middle(ps[n].es);
      if k < ps[n].pos {
        LikeLeft(ps[n], qs[n], k);
        RankBefore(ps[..n], qs[..n], qs[n], k);
      }
      if 0 < n {
        LikeInit(ps[..n], qs[..n]);
        LikeParts(ps[n - 1], qs[n - 1]);
        LikeMiddle(ps[n - 1].es, qs[n - 1].es);
      }
    }
  }

  lemma {:induction false} RankBefore(up: seq<Frame>, vp: seq<Frame>, f: Frame, k: nat)
    requires Before(up) == Before(vp)
    ensures RankIn(up, f, k) == RankIn(vp, f, k)
  {
  }

  /** Copy-on-write changes nothing that matters. */
  lemma {:induction false} SameIsLike(fs: seq<Frame>, gs: seq<Frame>)
    requires SamePath(fs, gs)
    ensures LikeAll(fs, gs)
  {
    hide SetVbn;
    forall i | 0 <= i < |fs| ensures Like(fs[i], gs[i]) {
      assert SameAt(fs, gs, i);
      SetVbnLike(fs[i].es, fs[i].pos, gs[i].es[gs[i].pos].vbn);
    }
  }

  lemma {:induction false} SetVbnLike(es: seq<Entry>, p: nat, v: Vbn)
    ensures LikeEntries(es, SetVbn(es, p, v))
  {
  }

  lemma {:induction false} LikeRefl(ps: seq<Frame>)
    ensures LikeAll(ps, ps)
  {
  }

  lemma {:induction false} LikeSym(ps: seq<Frame>, qs: seq<Frame>)
    requires LikeAll(ps, qs)
    ensures LikeAll(qs, ps)
  {
    forall i | 0 <= i < |ps| ensures Like(qs[i], ps[i]) {
      assert Like(ps[i], qs[i]);
    }
  }

  lemma {:induction false} LikeTrans(ps: seq<Frame>, qs: seq<Frame>, rs: seq<Frame>)
    requires LikeAll(ps, qs) && LikeAll(qs, rs)
    ensures LikeAll(ps, rs)
  {
    forall i | 0 <= i < |ps| ensures Like(ps[i], rs[i]) {
      assert Like(ps[i], qs[i]) && Like(qs[i], rs[i]);
      LikeEntriesTrans(ps[i].es, qs[i].es, rs[i].es);
    }
  }

  lemma {:induction false} LikeEntriesTrans(es: seq<Entry>, us: seq<Entry>, ws: seq<Entry>)
    requires LikeEntries(es, us) && LikeEntries(us, ws)
    ensures LikeEntries(es, ws)
  {
    forall i | 0 <= i < |es| ensures es[i].(vbn := 0) == ws[i].(vbn := 0) {
      assert es[i].(vbn := 0) == us[i].(vbn := 0);
    }
  }

  lemma {:induction false} LikeConcat(ps: seq<Frame>, qs: seq<Frame>, rs: seq<Frame>, ts: seq<Frame>)
    requires LikeAll(ps, qs) && LikeAll(rs, ts)
    ensures LikeAll(ps + rs, qs + ts)
  {
    hide Like;
  }

  // ---- a new root above the path

  /** A root with nothing but END. */
  ghost predicate Bare(f: Frame) {
    |f.es| == 1 && f.es[0].end && f.es[0].kv == KV([], []) && f.es[0].node && f.pos == 0 && |f.kids| == 1
  }

  ghost predicate SmallEntries(es: seq<Entry>) {
    forall i | 0 <= i < |es| :: Len(es[i]) <= ENTRY_HEAD_SIZE + KEY_MAX_SIZE + VALUE_MAX_SIZE + VBN_SIZE
  }

  lemma {:induction false} BareBefore(r: Frame, ps: seq<Frame>)
    requires Bare(r)
    ensures Before([r] + ps) == Before(ps)
    decreases |ps|
  {
    if ps == [] {
      assert [r] + ps == [r];
      assert r.kids[..0] == [];
    } else {
      assert ([r] + ps)[..|ps|] == [r] + ps[..|ps| - 1];
      BareBefore(r, ps[..|ps| - 1]);
    }
  }

  lemma {:induction false} BareRoom(r: Frame, e: Entry)
    requires Bare(r) && Len(e) <= ENTRY_HEAD_SIZE + KEY_MAX_SIZE + VALUE_MAX_SIZE + VBN_SIZE
    ensures !Bursts(r.es, SepLen(e))
  {
    assert r.es == [r.es[0]];
    assert SumLen(r.es) == Len(r.es[0]) + SumLen([]);
  }

  lemma {:induction false} SmallIs(es: seq<Entry>)
    requires SmallEntries(es)
    ensures forall i | 0 <= i < |es| :: Len(es[i]) <= ENTRY_HEAD_SIZE + KEY_MAX_SIZE + VALUE_MAX_SIZE + VBN_SIZE
  {
  }

  /** A root that has just grown above the path never has to be split. */
  lemma {:induction false} BareBack(r: Frame, ps: seq<Frame>)
    requires Bare(r) && ps != [] && SmallEntries(ps[0].es)
    ensures BackRank([r] + ps) == BackRank(ps)
    decreases |ps|
  {
    hide Bare, Bursts, SepLen, RankIn, Middle, Before, LeftOf, SmallEntries;
    SmallIs(ps[0].es);
    var n := |ps| - 1;
    var qs := [r] + ps;
    assert qs[..|qs| - 1] == [r] + ps[..n] && qs[|qs| - 1] == ps[n];
    BareBefore(r, ps[..n]);
    var k := Middle(ps[n].es);
    RankBefore([r] + ps[..n], ps[..n], ps[n], k);
    if n == 0 {
      assert qs[..|qs| - 1] == [r];
      if k < |ps[0].es| { BareRoom(r, ps[0].es[k]); }
    } else {
      BareBack(r, ps[..n]);
    }
  }
}
