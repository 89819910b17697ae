/** The index tree behind a table of free extents. */
module ExtentIndex {
  import opened IndexLayout
  import opened IndexTreeShape
  import opened IndexTreeZipper
  import opened IndexTreeLanding
  import opened IndexTreeInsert
  import opened IndexTreeSearch
  import opened IndexTreeRemove
  import opened IndexTreeSwap
  import opened IndexTreeRest
  import opened Collate
  import opened Extents

  /** A well-formed tree of h levels that holds the extents s, and in which no removal goes wrong. */
  predicate Indexed(t: Tree, h: nat, s: seq<Extent>) {
    && Shape(t, h, true)
    && Flat(t) == ToEntries(s)
    && forall r | 0 <= r < |s| :: !Overfull(t, Flat(t), r)
  }

  /** The extent a search for range q meets: of those that overlap it, the one nearest to the root of the tree, and
      in its block the first. */
  ghost predicate Met(s: seq<Extent>, t: Tree, q: Extent, i: nat) {
    i < |s| && Overlap(s[i], q) && forall j | 0 <= j < |s| && Overlap(s[j], q) :: Sooner(t, i, j)
  }

  // ---- there is such a tree

  predicate Short(c: seq<KV>) { forall i | 0 <= i < |c| :: 1 <= |c[i].key| <= 8 && |c[i].val| <= 8 }

  /** A leaf with one or two entries. */
  function LeafOf(c: seq<KV>): Tree {
    if |c| == 2 then
      Node(1, BLOCK_CAP, [Entry(c[0], false, 0, false), Entry(c[1], false, 0, false), EndEntry(false, 0)],
          [Nil, Nil, Nil])
    else if |c| == 1 then
      Node(1, BLOCK_CAP, [Entry(c[0], false, 0, false), EndEntry(false, 0)], [Nil, Nil])
    else Nil
  }

  /** A tree of h levels, by blocks without entries above t. */
  function Raised(t: Tree, h: nat): Tree {
    if h <= 1 then t else Node(1, BLOCK_CAP, [EndEntry(true, 1)], [Raised(t, h - 1)])
  }

  /** A tree below a root, and its levels: one entry per inner block. */
  function Grown(c: seq<KV>): (Tree, nat)
    decreases |c|
  {
    if |c| <= 2 then (LeafOf(c), 1)
    else
      var (r, h) := Grown(c[2..]);
      (Node(1, BLOCK_CAP, [Entry(c[1], true, 1, false), EndEntry(true, 1)], [Raised(LeafOf(c[..1]), h), r]), h + 1)
  }

  function Top(c: seq<KV>): (Tree, nat) {
    if c == [] then (Node(1, ROOT_CAP, [EndEntry(false, 0)], [Nil]), 1)
    else (Node(1, ROOT_CAP, [EndEntry(true, 1)], [Grown(c).0]), Grown(c).1 + 1)
  }

  /** No block is nearly full. */
  predicate Slim(t: Tree) {
    t.Node? ==> SumLen(t.es) <= 100 && forall i | 0 <= i < |t.kids| :: Slim(t.kids[i])
  }

  lemma {:induction false} Sum3(a: Entry, b: Entry, c: Entry)
    ensures SumLen([a, b, c]) == Len(a) + Len(b) + Len(c) && SumLen([b, c]) == Len(b) + Len(c) && SumLen([c]) == Len(c)
  {
    assert [a, b, c][1..] == [b, c] && [b, c][1..] == [c];
    assert SumLen([c]) == Len(c) + SumLen([]);
  }

  lemma {:induction false} LeafOfOk(c: seq<KV>)
    requires Short(c) && 1 <= |c| <= 2
    ensures var t := LeafOf(c); Shape(t, 1, false) && Flat(t) == c && Slim(t) && t.Node? && t.vbn == 1
  {
    hide LeafOf, Shape, Slim, Flat;
    if |c| == 2 { LeafTwo(c); } else { LeafOne(c); }
  }

  lemma {:induction false} LeafTwo(c: seq<KV>)
    requires Short(c) && |c| == 2
    ensures var t := LeafOf(c); Shape(t, 1, false) && Flat(t) == c && Slim(t) && t.Node? && t.vbn == 1
  {
    hide SumLen, Weave;
    var t := LeafOf(c);
    Sum3(t.es[0], t.es[1], t.es[2]);
    WeaveTwo(t.kids, t.es);
    assert c == [c[0]] + [c[1]];
  }

  lemma {:induction false} LeafOne(c: seq<KV>)
    requires Short(c) && |c| == 1
    ensures var t := LeafOf(c); Shape(t, 1, false) && Flat(t) == c && Slim(t) && t.Node? && t.vbn == 1
  {
    hide SumLen, Weave;
    var t := LeafOf(c);
    Sum3(t.es[0], t.es[0], t.es[1]);
    WeaveLast(t.kids, t.es);
    assert c == [c[0]];
  }

  lemma {:induction false} WeaveLast(kids: seq<Tree>, es: seq<Entry>)
    requires |kids| == |es| == 2
    ensures Weave(kids, es) == Flat(kids[0]) + Own(es[0]) + (Flat(kids[1]) + Own(es[1]))
  {
    assert kids[1..] == [kids[1]] && es[1..] == [es[1]];
    WeaveOne(kids[1], es[1]);
  }

  lemma {:induction false} WeaveTwo(kids: seq<Tree>, es: seq<Entry>)
    requires |kids| == |es| == 3
    ensures Weave(kids, es) == Flat(kids[0]) + Own(es[0]) + (Flat(kids[1]) + Own(es[1]) + (Flat(kids[2]) + Own(es[2])))
  {
    WeaveLast(kids[1..], es[1..]);
  }

  lemma {:induction false} RaisedOk(t: Tree, h: nat)
    requires Shape(t, 1, false) && Slim(t) && t.Node? && t.vbn == 1 && 1 <= h
    ensures var u := Raised(t, h); Shape(u, h, false) && Flat(u) == Flat(t) && Slim(u) && u.Node? && u.vbn == 1
  {
    if 1 < h {
      RaisedOk(t, h - 1);
      var u := Raised(t, h);
      OverOk(Raised(t, h - 1), h - 1, false);
    }
  }

  /** A block with nothing but a child. */
  lemma {:induction false} OverOk(t: Tree, h: nat, root: bool)
    requires Shape(t, h, false) && Slim(t) && t.Node? && t.vbn == 1 && 1 <= h
    ensures var u := Node(1, CapOf(root), [EndEntry(true, 1)], [t]);
        Shape(u, h + 1, root) && Flat(u) == Flat(t) && Slim(u)
  {
    var e := EndEntry(true, 1);
    Sum3(e, e, e);
    WeaveOne(t, e);
  }

  lemma {:induction false} GrownOk(c: seq<KV>)
    requires Short(c) && c != []
    ensures var (t, h) := Grown(c); Shape(t, h, false) && 1 <= h && Flat(t) == c && Slim(t) && t.Node? && t.vbn == 1
    decreases |c|
  {
    hide LeafOf, Raised, Shape, Slim, Flat, Weave, SumLen;
    if |c| <= 2 {
      LeafOfOk(c);
    } else {
      var (r, h) := Grown(c[2..]);
      GrownOk(c[2..]);
      LeafOfOk(c[..1]);
      RaisedOk(LeafOf(c[..1]), h);
      PairOk(Raised(LeafOf(c[..1]), h), r, c[1], h);
      assert c == c[..1] + [c[1]] + c[2..];
    }
  }

  lemma {:induction false} PairOk(l: Tree, r: Tree, a: KV, h: nat)
    requires Shape(l, h, false) && Shape(r, h, false) && Slim(l) && Slim(r) && l.Node? && r.Node? && l.vbn == r.vbn == 1
    requires 1 <= h && 1 <= |a.key| <= 8 && |a.val| <= 8
    ensures var t := Node(1, BLOCK_CAP, [Entry(a, true, 1, false), EndEntry(true, 1)], [l, r]);
            Shape(t, h + 1, false) && Flat(t) == Flat(l) + [a] + Flat(r) && Slim(t)
  {
    var t := Node(1, BLOCK_CAP, [Entry(a, true, 1, false), EndEntry(true, 1)], [l, r]);
    Sum3(t.es[0], t.es[0], t.es[1]);
    WeaveLast(t.kids, t.es);
    assert Flat(r) + [] == Flat(r);
  }

  lemma {:induction false} LocateSlim(fs: seq<Frame>, t: Tree, i: nat, r: int)
    requires Slim(t)
    ensures var (gs, x, p) := Locate(fs, t, i, r); x.Node? ==> SumLen(x.es) <= 100
    decreases t, if t.Node? then |t.kids| - i else 0
  {
    if t.Node? && i < |t.kids| && i < |t.es| {
      if r < |Flat(t.kids[i])| {
        LocateSlim(fs + [OpenAt(t, i)], t.kids[i], 0, r);
      } else if !(r == |Flat(t.kids[i])| && !t.es[i].end) {
        LocateSlim(fs, t, i + 1, r - |Flat(t.kids[i])| - |Own(t.es[i])|);
      }
    }
  }

  lemma {:induction false} SlimNeverOverfull(t: Tree, c: seq<KV>, r: nat)
    requires Slim(t) && Short(c)
    ensures !Overfull(t, c, r)
  {
    hide Locate, Slim, SumLen;
    LocateSlim([], t, 0, r);
    var (es, p) := Home(t, r);
    if p < |es| && r + 1 < |c| {
      SumLenRemove(es, p);
    }
  }

  lemma {:induction false} TopOk(c: seq<KV>)
    requires Short(c)
    ensures var (t, h) := Top(c); Shape(t, h, true) && Flat(t) == c && Slim(t)
  {
    hide Grown, Slim, Shape, Flat, Weave, SumLen;
    if c == [] {
      RootEmpty();
    } else {
      GrownOk(c);
      OverOk(Grown(c).0, Grown(c).1, true);
    }
  }

  lemma {:induction false} RootEmpty()
    ensures var t := Node(1, ROOT_CAP, [EndEntry(false, 0)], [Nil]); Shape(t, 1, true) && Flat(t) == [] && Slim(t)
  {
    hide Weave, SumLen;
    var e := EndEntry(false, 0);
    Sum3(e, e, e);
    WeaveOne(Nil, e);
  }

  lemma {:induction false} LocateShallow(fs: seq<Frame>, t: Tree, i: nat, r: int, h: nat, root: bool)
    requires Shape(t, h, root) && h <= 2
    ensures var (gs, x, p) := Locate(fs, t, i, r); x.Node? && p < |x.es| && x.es[p].node ==> x == t && h == 2
    decreases h, if t.Node? then |t.kids| - i else 0
  {
    if t.Node? && i < |t.kids| && i < |t.es| {
      assert EntryOk(t.es[i], h > 1);
      if r < |Flat(t.kids[i])| {
        LocateShallow(fs + [OpenAt(t, i)], t.kids[i], 0, r, h - 1, false);
      } else if !(r == |Flat(t.kids[i])| && !t.es[i].end) {
        LocateShallow(fs, t, i + 1, r - |Flat(t.kids[i])| - |Own(t.es[i])|, h, root);
      }
    }
  }

  /** In a tree of at most two levels no removal of an extent goes wrong. */
  lemma {:induction false} ShallowNeverOverfull(t: Tree, h: nat, s: seq<Extent>, r: nat)
    requires Shape(t, h, true) && h <= 2 && Proper(s) && Flat(t) == ToEntries(s)
    ensures !Overfull(t, Flat(t), r)
  {
    hide Locate, SumLen, ToEntries, Proper, Flat;
    EntriesShort(s);
    LocateShallow([], t, 0, r, h, true);
    var (es, p) := Home(t, r);
    if p < |es| && es[p].node && r + 1 < |Flat(t)| {
      SumLenRemove(es, p);
    }
  }

  /** Every proper table has such a tree. */
  lemma {:induction false} IndexExists(s: seq<Extent>) returns (t: Tree, h: nat)
    requires Proper(s)
    ensures Indexed(t, h, s)
  {
    hide Proper, Slim, Overfull, Shape, Flat, Top, Short;
    var c := ToEntries(s);
    EntriesShort(s);
    TopOk(c);
    t, h := Top(c).0, Top(c).1;
    forall r | 0 <= r < |s| ensures !Overfull(t, Flat(t), r) {
      SlimNeverOverfull(t, c, r);
    }
  }

  lemma {:induction false} EntriesShort(s: seq<Extent>)
    requires Proper(s)
    ensures Short(ToEntries(s)) && |ToEntries(s)| == |s|
  {
    hide Encode, LittleEndian;
    forall i | 0 <= i < |s| ensures var a := ToEntry(s[i]); 1 <= |a.key| <= 8 && |a.val| <= 8 {
      EntryExtent(s[i]);
    }
  }

  // ---- a tree in which the left neighbour is missed

  function LeafAt(v: Vbn, a: KV): Tree {
    Node(v, BLOCK_CAP, [Entry(a, false, 0, false), EndEntry(false, 0)], [Nil, Nil])
  }

  /** Two leaves, and between them the extent that ends where the one in the second leaf starts, but for one block. */
  function MissTree(): Tree {
    Node(1, ROOT_CAP, [Entry(ToEntry(Extent(3, 2)), true, 2, false), EndEntry(true, 3)],
         [LeafAt(2, ToEntry(Extent(1, 1))), LeafAt(3, ToEntry(Extent(6, 1)))])
  }

  function MissTable(): seq<Extent> { [Extent(1, 1), Extent(3, 2), Extent(6, 1)] }

  lemma {:induction false} LeafAtOk(v: Vbn, a: KV)
    requires v != 0 && 1 <= |a.key| <= 8 && |a.val| <= 8
    ensures var t := LeafAt(v, a); Shape(t, 1, false) && Flat(t) == [a] && Slim(t)
  {
    hide Shape, Flat, Slim;
    LeafOne([a]);
    ShapeVbn(LeafOf([a]), v, 1, false);
    LeafSame(v, a);
  }

  lemma {:induction false} LeafSame(v: Vbn, a: KV)
    ensures var t, u := LeafAt(v, a), LeafOf([a]);
            u.Node? && t == u.(vbn := v) && Flat(t) == Flat(u) && Slim(t) == Slim(u)
  {
  }

  lemma {:induction false} MissParts()
    ensures Short(ToEntries(MissTable())) && Proper(MissTable())
    ensures ToEntries(MissTable()) == [ToEntry(Extent(1, 1)), ToEntry(Extent(3, 2)), ToEntry(Extent(6, 1))]
    ensures forall e | e in MissTable() :: 1 <= |ToEntry(e).key| <= 8 && |ToEntry(e).val| <= 8
  {
    hide ToEntry;
    assert Proper(MissTable());
    EntriesShort(MissTable());
    forall e | e in MissTable() ensures 1 <= |ToEntry(e).key| <= 8 && |ToEntry(e).val| <= 8 {
      var i :| 0 <= i < 3 && MissTable()[i] == e;
      assert ToEntries(MissTable())[i] == ToEntry(e);
    }
  }

  lemma {:induction false} MissShape()
    ensures Shape(MissTree(), 2, true) && Flat(MissTree()) == ToEntries(MissTable()) && Slim(MissTree())
    ensures |Flat(MissTree().kids[0])| == |Flat(MissTree().kids[1])| == 1
  {
    hide ToEntry, LeafAt, Flat, Weave, SumLen, ToEntries, Slim;
    var t := MissTree();
    MissParts();
    assert Extent(1, 1) in MissTable() && Extent(3, 2) in MissTable() && Extent(6, 1) in MissTable();
    LeafAtOk(2, ToEntry(Extent(1, 1)));
    LeafAtOk(3, ToEntry(Extent(6, 1)));
    LeafVbn(2, ToEntry(Extent(1, 1)));
    LeafVbn(3, ToEntry(Extent(6, 1)));
    Sum3(t.es[0], t.es[0], t.es[1]);
    WeaveLast(t.kids, t.es);
    TwoFlat(t);
    SlimTwo(t);
  }

  lemma {:induction false} LeafVbn(v: Vbn, a: KV)
    ensures LeafAt(v, a).Node? && LeafAt(v, a).vbn == v
  {
  }

  lemma {:induction false} TwoFlat(t: Tree)
    requires t.Node?
    ensures Flat(t) == Weave(t.kids, t.es)
  {
  }

  lemma {:induction false} SlimTwo(t: Tree)
    requires t.Node? && SumLen(t.es) <= 100 && |t.kids| == 2 && Slim(t.kids[0]) && Slim(t.kids[1])
    ensures Slim(t)
  {
    hide SumLen;
    forall i | 0 <= i < |t.kids| ensures Slim(t.kids[i]) {
      assert i == 0 || i == 1;
    }
  }

  lemma {:induction false} MissLocate()
    ensures var t := MissTree(); Locate([], t, 0, 2) == ([OpenAt(t, 1)], t.kids[1], 0)
  {
    hide ToEntry, LeafAt, Flat;
    var t := MissTree();
    MissShape();
    assert Locate([], t, 0, 2) == Locate([], t, 1, 0);
    assert [] + [OpenAt(t, 1)] == [OpenAt(t, 1)];
    LocateLeaf([OpenAt(t, 1)], 3, ToEntry(Extent(6, 1)));
  }

  lemma {:induction false} LocateLeaf(fs: seq<Frame>, v: Vbn, a: KV)
    ensures Locate(fs, LeafAt(v, a), 0, 0) == (fs, LeafAt(v, a), 0)
  {
  }

  /** Removing the last extent takes the one between the leaves down to the end of the first leaf, and that is
      where the cursor stays. */
  lemma {:induction false} MissRest()
    ensures RestAt(MissTree(), 2) == 1
  {
    hide ToEntry, Flat, Locate, Bursts;
    var t := MissTree();
    MissLocate();
    MissParts();
    assert Extent(3, 2) in MissTable();
    var f, l := OpenAt(t, 1), t.kids[0];
    var z := Repaired(Close(f, Nil), 1);
    assert z == Node(1, ROOT_CAP, [EndEntry(true, 2)], [l]);
    assert Down(l, 1, true) == [OpenAt(l, 1)];
    var low := [OpenAt(z, 0)] + [OpenAt(l, 1)];
    assert Down(z, 0, true) == low;
    MissRejoined(low, ToEntry(Extent(3, 2)));
    assert [f] + [OpenAt(t.kids[1], 0)] == [f, OpenAt(t.kids[1], 0)];
    assert [f, OpenAt(t.kids[1], 0)][..1] == [f];
    assert [f][..0] == [] && [] + low == low;
  }

  lemma {:induction false} MissRejoined(low: seq<Frame>, a: KV)
    requires var l := LeafAt(2, ToEntry(Extent(1, 1))); |low| == 2 && low[0].pos == 0 && low[1] == OpenAt(l, 1)
    requires 1 <= |a.key| <= 8 && |a.val| <= 8
    ensures Rejoined(low, Entry(a, false, 0, false)) == 1
  {
    hide ToEntry, SumLen, BackRank, Weave;
    var l := LeafAt(2, ToEntry(Extent(1, 1)));
    MissParts();
    assert Extent(1, 1) in MissTable();
    Sum3(l.es[0], l.es[0], l.es[1]);
    assert !Bursts(low[1].es, Len(Entry(a, false, 0, false)));
    LeftOfNone(low[0].kids, low[0].es);
    assert l.kids[..1] == [Nil] && l.es[..1] == [l.es[0]];
    WeaveOne(Nil, l.es[0]);
    assert |LeftOf(l.kids, l.es, 1)| == 1;
    assert low[..1][..0] == [] && Before(low[..1]) == Before([]) + [];
  }

  /** A well-formed index of three extents; when the last is removed, the cursor is left on the one before. */
  lemma {:induction false} MissIndexed()
    ensures Indexed(MissTree(), 2, MissTable()) && GoesBack(MissTree(), 2)
  {
    hide Overfull, Shape, Flat, Slim, MissTree, MissTable, RestAt, Short;
    MissShape();
    MissParts();
    MissRest();
    forall r | 0 <= r < |MissTable()| ensures !Overfull(MissTree(), Flat(MissTree()), r) {
      SlimNeverOverfull(MissTree(), ToEntries(MissTable()), r);
    }
  }

  /** A search for the three blocks from 1 on meets the second extent, which is in the root, and not the first, although
      block 1 is in that. */
  lemma {:induction false} MissMet()
    ensures Met(MissTable(), MissTree(), Extent(1, 3), 1) && Spans(MissTable()[0], 1)
  {
    hide Flat, LeafAt, ToEntry;
    var t := MissTree();
    MissShape();
    LocateLeaf([OpenAt(t, 0)], 2, ToEntry(Extent(1, 1)));
    assert Locate([], t, 0, 0) == Locate([] + [OpenAt(t, 0)], t.kids[0], 0, 0);
    assert [] + [OpenAt(t, 0)] == [OpenAt(t, 0)];
    assert Locate([], t, 0, 1) == ([], t, 0);
  }
}
