/** Splitting an overfull block. */
module IndexTreeSplit {
  import opened IndexLayout
  import opened IndexTreeShape
  import opened IndexTreeZipper
  import opened IndexTreeEdit

  /** The entry get_middle_ie stops at, starting from entry i with m bytes to go. */
  function MidFrom(es: seq<Entry>, i: nat, m: nat): (k: nat)
    ensures i < |es| && es[|es| - 1].end ==> i <= k < |es|
    decreases |es| - i
  {
    if i >= |es| || es[i].end then i
    else if m > Len(es[i]) then MidFrom(es, i + 1, m - Len(es[i]))
    else i
  }

  function Middle(es: seq<Entry>): (k: nat)
    ensures 0 < |es| && es[|es| - 1].end ==> k < |es|
  {
    MidFrom(es, 0, SumLen(es) / 2)
  }

  lemma {:induction false} MidFromBounds(es: seq<Entry>, i: nat, m: nat)
    requires i < |es| && es[|es| - 1].end && 0 < m
    ensures var k := MidFrom(es, i, m);
            && SumLen(es[..k]) < SumLen(es[..i]) + m
            && (es[k].end || SumLen(es[..i]) + m <= SumLen(es[..k + 1]))
    decreases |es| - i
  {
    SumLenAt(es, i);
    if !es[i].end && m > Len(es[i]) {
      MidFromBounds(es, i + 1, m - Len(es[i]));
    }
  }

  /** The middle entry is the one entry (or END) with less than half of the bytes before it and, unless it is END, at
      least half of them up to its end; half of an odd number is rounded down. */
  lemma {:induction false} MiddleOnly(es: seq<Entry>, k: nat)
    requires k < |es| && es[|es| - 1].end && forall i | 0 <= i < |es| - 1 :: !es[i].end
    ensures k == Middle(es) <==>
              && 2 * SumLen(es[..k]) + 1 < SumLen(es)
              && (es[k].end || SumLen(es) <= 2 * SumLen(es[..k + 1]) + 1)
  {
    var n := |es| - 1;
    var m := Middle(es);
    SumLenAt(es, 0);
    assert es[..0] == [];
    MidFromBounds(es, 0, SumLen(es) / 2);
    if k < m { SumLenGrows(es, k + 1, m); }
    if m < k { SumLenGrows(es, m + 1, k); }
  }

  lemma {:induction false} SumLenGrows(es: seq<Entry>, i: nat, j: nat)
    requires i <= j <= |es|
    ensures SumLen(es[..i]) <= SumLen(es[..j])
  {
    assert es[..j] == es[..i] + es[i..j];
    SumLenAppend(es[..i], es[i..j]);
  }

  /** In an overfull block of capacity 4096 the middle entry is neither the first, nor the last,
      nor END, and either half has room for the pending entry. */
  lemma {:induction false} SplitRoom(es: seq<Entry>, node: bool, e: Entry)
    requires EntriesOk(es, node, BLOCK_CAP) && EntryOk(e, node) && !e.end
    requires RealSize(es) + Len(e) > BLOCK_CAP
    ensures var k := Middle(es);
            && 1 <= k < |es| - 2
            && HEAD_SIZE + SumLen(es[..k]) + Len(es[|es| - 1]) + Len(e) <= BLOCK_CAP
            && RealSize(es[k + 1..]) + Len(e) <= BLOCK_CAP
  {
    var m := SumLen(es) / 2;
    var k := Middle(es);
    var n := |es| - 1;
    MidFromBounds(es, 0, m);
    assert es[..0] == [];
    assert EntryOk(es[n], node) && EntryOk(es[0], node);
    SumLenAt(es, n);
    assert es[n + 1..] == [];
    assert SumLen(es) == SumLen(es[..n]) + Len(es[n]);
    SumLenAt(es, k);
    assert EntryOk(es[k], node);
    if k == n { assert false; }
    if k == 0 { assert false; }
    if k == n - 1 { assert false; }
  }

  function LeftHalf(x: Tree, k: nat): Tree {
    if x.Node? && k < |x.es| && k < |x.kids| then
      Node(x.vbn, x.cap, x.es[..k] + [x.es[|x.es| - 1].(vbn := x.es[k].vbn)], x.kids[..k + 1])
    else x
  }

  function RightHalf(x: Tree, k: nat, nv: Vbn): Tree {
    if x.Node? && k < |x.es| && k < |x.kids| then Node(nv, x.cap, x.es[k + 1..], x.kids[k + 1..])
    else x
  }

  /** The left block after the split, holding the pending entry if it goes there. */
  function LeftPart(x: Tree, k: nat, p: nat, e: Entry, l: Tree): Tree {
    if p <= k then Inserted(LeftHalf(x, k), p, e, l) else LeftHalf(x, k)
  }

  function RightPart(x: Tree, k: nat, nv: Vbn, p: nat, e: Entry, l: Tree): Tree {
    if p <= k then RightHalf(x, k, nv) else Inserted(RightHalf(x, k, nv), p - k - 1, e, l)
  }

  lemma {:induction false} LeftHalfShape(x: Tree, h: nat, k: nat)
    requires Shape(x, h, false) && 1 <= h && 1 <= k < |x.es| - 1
    requires HEAD_SIZE + SumLen(x.es[..k]) + Len(x.es[|x.es| - 1]) <= BLOCK_CAP
    ensures Shape(LeftHalf(x, k), h, false)
    ensures RealSize(LeftHalf(x, k).es) == HEAD_SIZE + SumLen(x.es[..k]) + Len(x.es[|x.es| - 1])
  {
    var y := LeftHalf(x, k);
    var last := x.es[|x.es| - 1].(vbn := x.es[k].vbn);
    SumLenAppend(x.es[..k], [last]);
    assert SumLen([last]) == Len(last) + SumLen([]);
    forall i | 0 <= i < |y.es|
      ensures EntryOk(y.es[i], h > 1) && (y.es[i].end <==> i == |y.es| - 1)
      ensures Shape(y.kids[i], h - 1, false) && y.es[i].vbn == RootVbn(y.kids[i])
    {
      assert EntryOk(x.es[i], h > 1) && EntryOk(x.es[|x.es| - 1], h > 1);
      assert y.kids[i] == x.kids[i];
    }
  }

  lemma {:induction false} RightHalfShape(x: Tree, h: nat, k: nat, nv: Vbn)
    requires Shape(x, h, false) && 1 <= h && k < |x.es| - 2 && nv != 0
    requires RealSize(x.es[k + 1..]) <= BLOCK_CAP
    ensures Shape(RightHalf(x, k, nv), h, false)
  {
    var y := RightHalf(x, k, nv);
    forall i | 0 <= i < |y.es|
      ensures EntryOk(y.es[i], h > 1) && (y.es[i].end <==> i == |y.es| - 1)
      ensures Shape(y.kids[i], h - 1, false) && y.es[i].vbn == RootVbn(y.kids[i])
    {
      assert EntryOk(x.es[i + k + 1], h > 1);
      assert y.kids[i] == x.kids[i + k + 1];
    }
  }

  /** Both blocks of a split are well shaped. */
  lemma {:induction false} SplitShape(x: Tree, h: nat, nv: Vbn, p: nat, e: Entry, l: Tree)
    requires Shape(x, h, false) && 1 <= h && p < |x.es| && nv != 0
    requires EntryOk(e, h > 1) && !e.end && Shape(l, h - 1, false) && e.vbn == RootVbn(l)
    requires RealSize(x.es) + Len(e) > BLOCK_CAP
    ensures var k := Middle(x.es);
            && 1 <= k < |x.es| - 2
            && Shape(LeftPart(x, k, p, e, l), h, false)
            && Shape(RightPart(x, k, nv, p, e, l), h, false)
  {
    var k := Middle(x.es);
    SplitRoom(x.es, h > 1, e);
    LeftHalfShape(x, h, k);
    RightHalfShape(x, h, k, nv);
    if p <= k {
      InsertShape(LeftHalf(x, k), p, e, l, h, false);
    } else {
      InsertShape(RightHalf(x, k, nv), p - k - 1, e, l, h, false);
    }
  }

  lemma {:induction false} SplitFoot(x: Tree, k: nat, nv: Vbn, p: nat, e: Entry, l: Tree)
    requires x.Node? && |x.es| == |x.kids| && k < |x.es| && p < |x.es|
    ensures FootAll(LeftPart(x, k, p, e, l).kids) + FootAll(RightPart(x, k, nv, p, e, l).kids)
        == FootAll(x.kids) + Foot(l)
  {
    hide FootAll, Foot;
    FootSplit(x.kids, k + 1);
    if p <= k {
      InsertFoot(x.kids[..k + 1], p, l);
    } else {
      InsertFoot(x.kids[k + 1..], p - k - 1, l);
    }
  }

  lemma {:induction false} LeftHalfFlat(x: Tree, k: nat)
    requires x.Node? && |x.es| == |x.kids| && k < |x.es| && x.es[|x.es| - 1].end
    ensures Flat(LeftHalf(x, k)) == LeftOf(x.kids, x.es, k) + Flat(x.kids[k])
  {
    var last := x.es[|x.es| - 1].(vbn := x.es[k].vbn);
    WeaveAppend(x.kids[..k], x.es[..k], [x.kids[k]], [last]);
    assert x.kids[..k + 1] == x.kids[..k] + [x.kids[k]];
    WeaveOne(x.kids[k], last);
  }

  /** What the cursor's block holds, with the pending entry in place. */
  function Pending(x: Tree, p: nat, e: Entry, l: Tree): seq<KV> {
    if x.Node? && p <= |x.kids| && p <= |x.es| then
      LeftOf(x.kids, x.es, p) + (Flat(l) + [e.kv]) + Weave(x.kids[p..], x.es[p..])
    else []
  }

  lemma {:induction false} WeaveSlices(kids: seq<Tree>, es: seq<Entry>, i: nat, j: nat)
    requires |kids| == |es| && i <= j < |es|
    ensures Weave(kids[i..], es[i..])
         == Weave(kids[i..j], es[i..j]) + (Flat(kids[j]) + Own(es[j]) + Weave(kids[j + 1..], es[j + 1..]))
  {
    assert kids[i..] == kids[i..j] + kids[j..] && es[i..] == es[i..j] + es[j..];
    WeaveAppend(kids[i..j], es[i..j], kids[j..], es[j..]);
    WeaveTail(kids, es, j);
  }

  lemma {:induction false} Slices<T>(s: seq<T>, i: nat, j: nat)
    requires i <= j <= |s|
    ensures s[..j][i..] == s[i..j] && s[i..][..j - i] == s[i..j] && s[i..][j - i..] == s[j..]
        && s[..j] == s[..i] + s[i..j]
  {
  }

  lemma {:induction false} LeftHalfTail(x: Tree, k: nat, p: nat)
    requires x.Node? && |x.es| == |x.kids| && p <= k < |x.es| && x.es[|x.es| - 1].end
    ensures var y := LeftHalf(x, k);
            && Weave(y.kids[p..], y.es[p..]) == Weave(x.kids[p..k], x.es[p..k]) + Flat(x.kids[k])
            && y.kids[..p] == x.kids[..p] && y.es[..p] == x.es[..p]
  {
    var y := LeftHalf(x, k);
    var last := y.es[k];
    assert y.kids[p..] == x.kids[p..k] + [x.kids[k]];
    Slices(x.es, p, k);
    assert y.es[p..] == x.es[p..k] + [last];
    WeaveAppend(x.kids[p..k], x.es[p..k], [x.kids[k]], [last]);
    WeaveOne(x.kids[k], last);
  }

  lemma {:induction false} FirstChild(kids: seq<Tree>, es: seq<Entry>, p: nat, k: nat)
    requires |kids| == |es| && p < k <= |es|
    ensures |Flat(kids[p])| <= |Weave(kids[p..k], es[p..k])|
  {
    assert kids[p..k][0] == kids[p] && es[p..k][0] == es[p];
  }

  /** A split loses nothing: left part, middle entry and right part are the block's contents with
      the pending entry in place; and the pending entry lies with its neighbours on one side. */
  lemma {:induction false} SplitFlatLeft(x: Tree, k: nat, nv: Vbn, p: nat, e: Entry, l: Tree)
    requires x.Node? && |x.es| == |x.kids| && p <= k < |x.es| - 1 && !e.end && !x.es[k].end && x.es[|x.es| - 1].end
    ensures Flat(LeftPart(x, k, p, e, l)) + [x.es[k].kv] + Flat(RightPart(x, k, nv, p, e, l)) == Pending(x, p, e, l)
    ensures |LeftOf(x.kids, x.es, p)| + |Flat(l)| + 1 + |Flat(x.kids[p])| <= |Flat(LeftPart(x, k, p, e, l))|
  {
    hide Flat, Weave;
    var y := LeftHalf(x, k);
    FlatIs(LeftPart(x, k, p, e, l));
    FlatIs(RightPart(x, k, nv, p, e, l));
    InsertWeave(y.kids, y.es, p, e, l);
    LeftHalfTail(x, k, p);
    WeaveSlices(x.kids, x.es, p, k);
    var c, r := Weave(x.kids[p..k], x.es[p..k]), Weave(x.kids[k + 1..], x.es[k + 1..]);
    Join(LeftOf(x.kids, x.es, p), Flat(l) + [e.kv], c, Flat(x.kids[k]), [x.es[k].kv], r);
    if p < k {
      FirstChild(x.kids, x.es, p, k);
    }
  }

  lemma {:induction false} FlatIs(x: Tree)
    requires x.Node?
    ensures Flat(x) == Weave(x.kids, x.es)
  {
  }

  lemma {:induction false} Join(a: seq<KV>, b: seq<KV>, c: seq<KV>, d: seq<KV>, m: seq<KV>, r: seq<KV>)
    ensures (a + b + (c + d)) + m + r == a + b + (c + (d + m + r))
  {
  }

  lemma {:induction false} SplitFlatRight(x: Tree, k: nat, nv: Vbn, p: nat, e: Entry, l: Tree)
    requires x.Node? && |x.es| == |x.kids| && k < p < |x.es| && !e.end && !x.es[k].end && x.es[|x.es| - 1].end
    ensures Flat(LeftPart(x, k, p, e, l)) + [x.es[k].kv] + Flat(RightPart(x, k, nv, p, e, l)) == Pending(x, p, e, l)
    ensures |Flat(LeftPart(x, k, p, e, l))| + 1 <= |LeftOf(x.kids, x.es, p)|
  {
    hide Flat, Weave;
    LeftHalfFlat(x, k);
    var y := RightHalf(x, k, nv);
    var q := p - k - 1;
    FlatIs(RightPart(x, k, nv, p, e, l));
    InsertWeave(y.kids, y.es, q, e, l);
    Slices(x.kids, k + 1, p);
    Slices(x.es, k + 1, p);
    var c, t := Weave(x.kids[k + 1..p], x.es[k + 1..p]), Weave(x.kids[p..], x.es[p..]);
    WeaveAppend(x.kids[..k + 1], x.es[..k + 1], x.kids[k + 1..p], x.es[k + 1..p]);
    WeaveInit(x.kids, x.es, k);
    Join2(LeftOf(x.kids, x.es, k), Flat(x.kids[k]), [x.es[k].kv], c, Flat(l) + [e.kv], t);
  }

  lemma {:induction false} Join2(a: seq<KV>, b: seq<KV>, m: seq<KV>, c: seq<KV>, d: seq<KV>, t: seq<KV>)
    ensures (a + b) + m + (c + d + t) == (a + (b + m) + c) + d + t
  {
  }
}
