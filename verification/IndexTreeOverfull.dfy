/** When the removal of an inner entry goes wrong: never among entries of equal length, and a tree
    where it does. */
module IndexTreeOverfull {
  import opened IndexLayout
  import opened IndexTreeShape
  import opened IndexTreeZipper
  import opened IndexTreeSearch
  import opened IndexTreeSwap
  import opened Collate

  function Size(a: KV): nat { |a.key| + |a.val| }

  /** The block an entry is found in is within its allocated size. */
  lemma {:induction false} HomeOk(t: Tree, h: nat, root: bool, r: nat)
    requires Shape(t, h, root) && r < |Flat(t)|
    ensures var (es, p) := Home(t, r); p < |es| && RealSize(es) <= BLOCK_CAP && es[p].kv == Flat(t)[r]
  {
    hide SumLen, Locate;
    assert t.kids[0..] == t.kids && t.es[0..] == t.es;
    LocateOk([], t, 0, r, h, root);
  }

  lemma {:induction false} LocateOk(fs: seq<Frame>, t: Tree, i: nat, r: nat, h: nat, root: bool)
    requires Shape(t, h, root) && t.Node? && i <= |t.es| && r < |Weave(t.kids[i..], t.es[i..])|
    ensures var (gs, x, p) := Locate(fs, t, i, r);
            x.Node? && p < |x.es| && RealSize(x.es) <= BLOCK_CAP && x.es[p].kv == Weave(t.kids[i..], t.es[i..])[r]
    decreases h, |t.es| - i
  {
    hide SumLen;
    WeaveTail(t.kids, t.es, i);
    var n := |Flat(t.kids[i])|;
    if r < n {
      var y := t.kids[i];
      assert y.kids[0..] == y.kids && y.es[0..] == y.es;
      LocateOk(fs + [OpenAt(t, i)], y, 0, r, h - 1, false);
    } else if r != n || t.es[i].end {
      LocateOk(fs, t, i + 1, r - n - |Own(t.es[i])|, h, root);
    }
  }

  /** Among entries of equal length every key can be removed. */
  lemma {:induction false} EqualLengthsNeverOverfull(t: Tree, h: nat, root: bool, r: nat)
    requires Shape(t, h, root) && r < |Flat(t)|
    requires forall a, b | a in Flat(t) && b in Flat(t) :: Size(a) == Size(b)
    ensures !Overfull(t, Flat(t), r)
  {
    hide Shape, RealSize, Home;
    HomeOk(t, h, root, r);
    var (es, p) := Home(t, r);
    if es[p].node && r + 1 < |Flat(t)| {
      assert Flat(t)[r] in Flat(t) && Flat(t)[r + 1] in Flat(t);
      ShorterNeverSplits(es, p, Flat(t)[r + 1]);
    }
  }

  // ---- a tree that loses the wrong key

  function Long(k: u8): KV { KV([k], seq(1024, i => 0)) }

  function Leaf(k: u8, v: Vbn): Tree {
    Node(v, BLOCK_CAP, [Entry(Long(k), false, 0, false), EndEntry(false, 0)], [Nil, Nil])
  }

  /** A short entry and three long ones in the root, and five leaves with a long entry each. */
  function WideRoot(): Tree {
    Node(1, ROOT_CAP,
         [Entry(KV([2], []), true, 2, false), Entry(Long(4), true, 3, false), Entry(Long(6), true, 4, false),
          Entry(Long(8), true, 5, false), EndEntry(true, 6)],
         [Leaf(1, 2), Leaf(3, 3), Leaf(5, 4), Leaf(7, 5), Leaf(9, 6)])
  }

  function WideStore(): map<Vbn, Block> {
    map[1 := Block(ROOT_CAP, WideRoot().es), 2 := Block(BLOCK_CAP, Leaf(1, 2).es), 3 := Block(BLOCK_CAP, Leaf(3, 3).es),
        4 := Block(BLOCK_CAP, Leaf(5, 4).es), 5 := Block(BLOCK_CAP, Leaf(7, 5).es),
            6 := Block(BLOCK_CAP, Leaf(9, 6).es)]
  }

  function WideWorld(): World { World(WideStore(), {}, WideStore()) }

  lemma {:induction false} LeafOk(k: u8, v: Vbn)
    requires v != 0
    ensures Shape(Leaf(k, v), 1, false) && Flat(Leaf(k, v)) == [Long(k)] && Foot(Leaf(k, v)) == multiset{v}
  {
    var t := Leaf(k, v);
    assert t.es[1..] == [t.es[1]];
    WeaveOne(Nil, t.es[1]);
    assert t.kids[1..] == [Nil];
    FootOne(Nil);
    SumLenAppend([t.es[0]], [t.es[1]]);
    assert t.es == [t.es[0]] + [t.es[1]];
    SumOne(t.es[0]);
    SumOne(t.es[1]);
    assert forall i | 0 <= i < |t.kids| :: Shape(t.kids[i], 0, false);
  }

  lemma {:induction false} SumOne(e: Entry)
    ensures SumLen([e]) == Len(e)
  {
    assert SumLen([e]) == Len(e) + SumLen([]);
  }

  lemma {:induction false} WideParts(i: nat)
    requires i < 5
    ensures var t := WideRoot();
            && |t.es| == |t.kids| == 5
            && Flat(t.kids[i]) == [Long(2 * i + 1)] && Foot(t.kids[i]) == multiset{i + 2}
            && Own(t.es[i]) == (if i == 4 then [] else if i == 0 then [KV([2], [])] else [Long(2 * i + 2)])
            && Len(t.es[i]) == if i == 0 then 18 else if i == 4 then 17 else 1042
  {
    hide Leaf, Flat, Foot, SumLen;
    LeafOk(2 * i + 1, i + 2);
    LongLen();
  }

  lemma {:induction false} WideFlat()
    ensures Flat(WideRoot()) == [Long(1), KV([2], []), Long(3), Long(4), Long(5), Long(6), Long(7), Long(8), Long(9)]
  {
    hide Leaf, Flat, Long, SumLen, Weave, Foot, FootAll;
    var t := WideRoot();
    WideRest(t);
    WideTail(4);
    WideTail(3);
    WideTail(2);
    WideTail(1);
    WideTail(0);
  }

  lemma {:induction false} WideTail(i: nat)
    requires i < 5
    ensures var t := WideRoot();
            Weave(t.kids[i..], t.es[i..]) == [Long(2 * i + 1)] + Own(t.es[i]) + Weave(t.kids[i + 1..], t.es[i + 1..])
    ensures var t := WideRoot();
            Own(t.es[i]) == if i == 4 then [] else if i == 0 then [KV([2], [])] else [Long(2 * i + 2)]
  {
    hide WideRoot, Flat, Foot, FootAll, SumLen, Weave, Long;
    WideVbn();
    WideParts(i);
    WideStep(WideRoot().kids, WideRoot().es, i);
  }

  lemma {:induction false} WideSums()
    ensures var t := WideRoot(); SumLen(t.es) == 3161 && Foot(t) == multiset{1, 2, 3, 4, 5, 6}
  {
    hide WideRoot, Flat, Foot, FootAll, SumLen, Weave, Long, Own, Len;
    var t := WideRoot();
    WideVbn();
    WideRest(t);
    WideSum(4);
    WideSum(3);
    WideSum(2);
    WideSum(1);
    WideSum(0);
  }

  lemma {:induction false} WideSum(i: nat)
    requires i < 5
    ensures var t := WideRoot();
            && SumLen(t.es[i..]) == (if i == 0 then 18 else if i == 4 then 17 else 1042) + SumLen(t.es[i + 1..])
            && FootAll(t.kids[i..]) == multiset{i + 2} + FootAll(t.kids[i + 1..])
  {
    hide WideRoot, Flat, Foot, FootAll, SumLen, Weave, Long, Own, Len;
    WideVbn();
    WideParts(i);
    WideStep(WideRoot().kids, WideRoot().es, i);
  }

  lemma {:induction false} WideVbn()
    ensures var t := WideRoot(); t.Node? && t.vbn == 1 && |t.kids| == |t.es| == 5
  {
  }

  lemma {:induction false} LongLen()
    ensures forall k :: |Long(k).key| == 1 && |Long(k).val| == 1024
  {
  }

  lemma {:induction false} WideRest(t: Tree)
    requires t.Node? && |t.kids| == |t.es| == 5
    ensures Flat(t) == Weave(t.kids[0..], t.es[0..]) && Foot(t) == multiset{t.vbn} + FootAll(t.kids[0..])
    ensures SumLen(t.es) == SumLen(t.es[0..])
    ensures Weave(t.kids[5..], t.es[5..]) == [] && FootAll(t.kids[5..]) == multiset{} && SumLen(t.es[5..]) == 0
  {
    assert t.kids[0..] == t.kids && t.es[0..] == t.es;
  }

  lemma {:induction false} WideStep(kids: seq<Tree>, es: seq<Entry>, i: nat)
    requires |kids| == |es| && i < |es|
    ensures Weave(kids[i..], es[i..]) == Flat(kids[i]) + Own(es[i]) + Weave(kids[i + 1..], es[i + 1..])
    ensures FootAll(kids[i..]) == Foot(kids[i]) + FootAll(kids[i + 1..])
    ensures SumLen(es[i..]) == Len(es[i]) + SumLen(es[i + 1..])
  {
    WeaveTail(kids, es, i);
    FootAt(kids, i);
    SumLenAt(es, i);
  }

  lemma {:induction false} WideOk()
    ensures TreeOk(WideWorld(), [], WideRoot(), 2)
  {
    hide Leaf, Flat, SumLen, Foot, Holds;
    var t := WideRoot();
    WideSums();
    forall i | 0 <= i < |t.kids| ensures Shape(t.kids[i], 1, false) && Holds(WideWorld(), t.kids[i]) && t.kids[i].Node?
        && t.kids[i].vbn == t.es[i].vbn {
      LeafOk(2 * i + 1, i + 2);
      LeafHolds(i);
    }
    LongLen();
    assert Shape(t, 2, true);
    assert Holds(WideWorld(), t) by { RootHolds(); }
    assert ZipFoot([], t) + multiset{} == multiset{1, 2, 3, 4, 5, 6};
  }

  lemma {:induction false} LeafHolds(i: nat)
    requires i < 5
    ensures var t := WideRoot().kids[i];
           t == Leaf(2 * i + 1, i + 2) && t.Node? && t.vbn == i + 2 && Holds(WideWorld(), t)
  {
    hide Long;
    var t := WideRoot().kids[i];
    assert t == Leaf(2 * i + 1, i + 2);
    assert forall j | 0 <= j < |t.kids| :: Holds(WideWorld(), t.kids[j]);
  }

  lemma {:induction false} RootHolds()
    ensures Holds(WideWorld(), WideRoot())
  {
    hide Long, Leaf;
    var t := WideRoot();
    forall i | 0 <= i < |t.kids| ensures Holds(WideWorld(), t.kids[i]) {
      LeafHolds(i);
    }
  }

  /** A well-formed tree and a key whose removal loses another key instead. */
  lemma {:induction false} WideRootLosesKey()
    ensures var t := WideRoot();
            && TreeOk(WideWorld(), [], t, 2) && Sorted(CrBinary, Flat(t))
            && |Flat(t)| == 9 && Flat(t)[1] == KV([2], []) && Overfull(t, Flat(t), 1)
  {
    hide TreeOk, WideWorld, Sorted, Locate, Home, Flat, SwapSplits, Leaf;
    var t := WideRoot();
    WideOk();
    WideFlat();
    WideSorted(Flat(t));
    WideHome(t);
    WideSplits();
  }

  lemma {:induction false} WideSplits()
    ensures SwapSplits(WideRoot().es, 0, Long(3))
  {
    hide SumLen, WideRoot, Long, SwapSplits, Len;
    WideSums();
    WideParts(0);
    LongLen();
    SplitsWhen(WideRoot().es, 0, Long(3));
  }

  lemma {:induction false} SplitsWhen(es: seq<Entry>, p: nat, succ: KV)
    requires p < |es|
    requires HEAD_SIZE + SumLen(es) - Len(es[p]) + ENTRY_HEAD_SIZE + |succ.key| + |succ.val| + VBN_SIZE > BLOCK_CAP
    ensures SwapSplits(es, p, succ)
  {
    SumLenRemove(es, p);
  }

  lemma {:induction false} WideHome(t: Tree)
    requires t == WideRoot()
    ensures Home(t, 1) == (t.es, 0)
  {
    LeafOk(1, 2);
  }

  lemma {:induction false} WideSorted(c: seq<KV>)
    requires |c| == 9 && forall i | 0 <= i < 9 :: c[i].key == [i + 1]
    ensures Sorted(CrBinary, c)
  {
    forall i | 0 <= i < 9 ensures BigEndian(c[i].key) == i + 1 {
      OneByte(i + 1);
    }
  }

  lemma {:induction false} OneByte(k: u8)
    ensures BigEndian([k]) == k
  {
    assert [k][..0] == [] && [k][1..] == [];
  }
}
