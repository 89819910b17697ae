/** Searching, inserting and removing: what happens to the order of the nodes and to the heights. */
module AvlEdit {
  import opened AvlShape
  import opened AvlRotate

  ghost predicate Ordered(s: seq<Node>) {
    forall i, j | 0 <= i < j < |s| :: s[i].key < s[j].key
  }

  ghost predicate Below(s: seq<Node>, key: int) { forall i | 0 <= i < |s| :: s[i].key < key }

  ghost predicate Above(s: seq<Node>, key: int) { forall i | 0 <= i < |s| :: s[i].key > key }

  lemma {:induction false} PathView(fs: seq<Step>)
    requires fs != []
    ensures Before(fs) == Before(Init(fs)) + if Last(fs).d == 0 then [] else Inorder(Last(fs).other) + [Last(fs).n]
    ensures After(fs) == (if Last(fs).d == 0 then [Last(fs).n] + Inorder(Last(fs).other) else []) + After(Init(fs))
  {
  }

  /** Going down on side d of x: the order stays, and nodes on the other side move to Before or After. */
  lemma {:induction false} DownView(fs: seq<Step>, x: Tree, d: nat)
    requires x.Bin? && d <= 1
    ensures var gs := fs + [Step(x.n, d, Side(x, 1 - d), Balance(x))];
            && Before(gs) == Before(fs) + (if d == 0 then [] else Inorder(x.l) + [x.n])
            && After(gs) == (if d == 0 then [x.n] + Inorder(x.r) else []) + After(fs)
            && Before(gs) + Inorder(Side(x, d)) + After(gs) == Before(fs) + Inorder(x) + After(fs)
            && UpNode(gs) == x.n && UpIndex(gs) == d && TopNode(gs, Root(Side(x, d))) == TopNode(fs, x.n)
  {
    hide Inorder, Before, After, Balance;
    var gs := fs + [Step(x.n, d, Side(x, 1 - d), Balance(x))];
    assert Init(gs) == fs && Last(gs) == Step(x.n, d, Side(x, 1 - d), Balance(x));
    PathView(gs);
    MakeInorder(x.n, 0, x.l, x.r);
    DownGroup(Before(fs), Inorder(x.l), x.n, Inorder(x.r), After(fs));
  }

  lemma {:induction false} DownGroup(b: seq<Node>, l: seq<Node>, n: Node, r: seq<Node>, a: seq<Node>)
    ensures (b + []) + l + (([n] + r) + a) == b + (l + [n] + r) + a
    ensures (b + (l + [n])) + r + ([] + a) == b + (l + [n] + r) + a
  {
  }

  /** One step of a search that goes right if the key is greater, and left if it is smaller. */
  lemma {:induction false} SearchStep(fs: seq<Step>, x: Tree, d: nat, key: int)
    requires x.Bin? && d <= 1 && Below(Before(fs), key) && Above(After(fs), key)
    requires Ordered(Before(fs) + Inorder(x) + After(fs)) && if d == 0 then key < x.n.key else x.n.key < key
    ensures var gs := fs + [Step(x.n, d, Side(x, 1 - d), Balance(x))]; Below(Before(gs), key) && Above(After(gs), key)
  {
    hide Inorder;
    DownView(fs, x, d);
    MakeInorder(x.n, 0, x.l, x.r);
    SearchOrder(Before(fs), Inorder(x.l), x.n, Inorder(x.r), After(fs), key);
  }

  lemma {:induction false} SearchOrder(b: seq<Node>, l: seq<Node>, n: Node, r: seq<Node>, a: seq<Node>, key: int)
    requires Ordered(b + (l + [n] + r) + a)
    ensures n.key < key ==> Below(l + [n], key)
    ensures n.key > key ==> Above([n] + r, key)
  {
    var s := b + (l + [n] + r) + a;
    var k := |b| + |l|;
    assert s[k] == n;
    forall i | 0 <= i < |l| ensures l[i].key < n.key { assert s[|b| + i] == l[i]; }
    forall i | 0 <= i < |r| ensures r[i].key > n.key { assert s[k + 1 + i] == r[i]; }
  }

  /** A key strictly between what is before and what is after is not there yet. */
  lemma {:induction false} Absent(b: seq<Node>, a: seq<Node>, key: int)
    requires Below(b, key) && Above(a, key)
    ensures forall n | n in b + a :: n.key != key
  {
  }

  lemma {:induction false} OrderedInsert(b: seq<Node>, n: Node, a: seq<Node>)
    requires Ordered(b + a) && Below(b, n.key) && Above(a, n.key)
    ensures Ordered(b + [n] + a)
  {
    var s, t := b + [n] + a, b + a;
    forall i, j | 0 <= i < j < |s| ensures s[i].key < s[j].key {
      if i != |b| && j != |b| {
        assert s[i] == t[if i < |b| then i else i - 1] && s[j] == t[if j < |b| then j else j - 1];
      } else if i == |b| {
        assert s[j] == a[j - |b| - 1];
      } else {
        assert s[i] == b[i];
      }
    }
  }

  lemma {:induction false} InorderFoot(t: Tree)
    ensures multiset(Inorder(t)) == Foot(t)
  {
    if t.Bin? {
      InorderFoot(t.l);
      InorderFoot(t.r);
    }
  }

  // ---- insertion

  /** The state of avl_insert: the subtree x below has grown by one level, to height k + 1. */
  ghost predicate Grown(h: Heap, fs: seq<Step>, x: Tree, k: nat) {
    ZipOk(h, fs, x) && Avl(x) && Height(x) == k + 1 && Balanced(fs, k) && (k == 0 || Balance(x) != 0)
  }

  /** Insertion arrives at a node that leans the other way: in balance now, and no higher. */
  lemma {:induction false} GrownEven(h: Heap, fs: seq<Step>, x: Tree, k: nat)
    requires Grown(h, fs, x, k) && fs != [] && Last(fs).bal + Heavy(Last(fs).d) == 0
    ensures var s := Last(fs); var y := Make(s.n, s.d, x, s.other);
            && s.n in h && ZipOk(SetBalance(h, s.n, 0), Init(fs), y) && Avl(y) && Balanced(Init(fs), Height(y))
  {
    hide ZipOk, Height, Avl;
    var s := Last(fs);
    ZipAtStart(h, fs, x);
    ZipAtDone(h, Init(fs), s.n, s.d, x, s.other);
    MakeAvl(s.n, s.d, x, s.other);
    PlugStep(fs, x);
  }

  /** At a node in balance: it leans now, and is one level higher. */
  lemma {:induction false} GrownUp(h: Heap, fs: seq<Step>, x: Tree, k: nat)
    requires Grown(h, fs, x, k) && fs != [] && Last(fs).bal == 0
    ensures var s := Last(fs); var y := Make(s.n, s.d, x, s.other);
            s.n in h && Grown(SetBalance(h, s.n, Heavy(s.d)), Init(fs), y, k + 1)
  {
    hide ZipOk, Height, Avl, Balanced, Make, Side, SetBalance, Balance, Plug;
    var s := Last(fs);
    ZipAtStart(h, fs, x);
    ZipAtDone(h, Init(fs), s.n, s.d, x, s.other);
    MakeAvl(s.n, s.d, x, s.other);
    PlugStep(fs, x);
    MakeSides(s.n, s.d, x, s.other);
    Opened(Make(s.n, s.d, x, s.other), s.d);
  }

  lemma {:induction false} MakeSides(n: Node, d: nat, a: Tree, b: Tree)
    requires d <= 1
    ensures var y := Make(n, d, a, b); y.Bin? && y.n == n && Side(y, d) == a && Side(y, 1 - d) == b
  {
  }

  /** At a node that leans this way already: a rotation is due, and it makes the subtree as high as it
      was before the insertion. */
  lemma {:induction false} GrownTilted(h: Heap, fs: seq<Step>, x: Tree, k: nat)
    requires Grown(h, fs, x, k) && fs != [] && Last(fs).bal != 0 && Last(fs).bal + Heavy(Last(fs).d) != 0
    ensures var s := Last(fs); var y := Rotated(s.n, s.d, x, s.other);
            && s.d <= 1 && ZipAt(h, Init(fs), s.n, s.d, x, s.other) && Tilted(x, s.other) && Last(fs).bal == Heavy(s.d)
            && Balanced(Init(fs), Height(y)) && Inorder(y) == Inorder(Make(s.n, s.d, x, s.other))
  {
    hide ZipOk, Height, Avl, ZipAt, Rotated;
    var s := Last(fs);
    ZipAtStart(h, fs, x);
    PlugStep(fs, x);
    RotatedOk(s.n, s.d, x, s.other);
  }

  /** The rest of the path and the order, once node s.n is part of the subtree. */
  lemma {:induction false} UpView(fs: seq<Step>, x: Tree)
    requires fs != []
    ensures var s := Last(fs);
            Before(Init(fs)) + Inorder(Make(s.n, s.d, x, s.other)) + After(Init(fs))
                == Before(fs) + Inorder(x) + After(fs)
    ensures var s := Last(fs); TopNode(Init(fs), s.n) == TopNode(fs, Root(x))
  {
    hide Inorder;
    var s := Last(fs);
    PathView(fs);
    MakeInorder(s.n, s.d, x, s.other);
    PlugGroup(Before(Init(fs)), Inorder(x), s.n, Inorder(s.other), After(Init(fs)));
  }

  // ---- a new node in an empty place

  lemma {:induction false} NewLeaf(h: Heap, fs: seq<Step>, n: Node)
    requires ZipOk(h, fs, Leaf) && Balanced(fs, 0) && n !in h
    ensures var h1 := h[n := Cell(Pair(null, null), UpNode(fs), UpIndex(fs), 0)];
            (UpNode(fs) != null ==> UpNode(fs) in h) && Grown(SetKid(h1, UpNode(fs), UpIndex(fs), n), fs,
                Bin(Leaf, n, Leaf), 0)
  {
    hide Linked, PathLinked, Foot, PathFoot, NoDup, Balanced;
    var x := Bin(Leaf, n, Leaf);
    var h1 := h[n := Cell(Pair(null, null), UpNode(fs), UpIndex(fs), 0)];
    var h' := SetKid(h1, UpNode(fs), UpIndex(fs), n);
    UpIn(h, fs, null);
    LinkedLeaf(h', Leaf, n, 0);
    LinkedLeaf(h', Leaf, n, 1);
    LinkedParts(h', x, UpNode(fs), UpIndex(fs));
    FootParts(x);
    FootParts(Leaf);
    NewApart(h, fs, n);
    PathSides(h, fs, null, n);
    PathRepoint(h, h', fs, null, n);
    assert Linked(h', x, UpNode(fs), UpIndex(fs));
    assert PathLinked(h', fs, n);
    assert NoDup(PathFoot(fs) + Foot(x));
    assert Avl(x) && Height(x) == 1;
  }

  lemma {:induction false} NewApart(h: Heap, fs: seq<Step>, n: Node)
    requires PathLinked(h, fs, null) && NoDup(PathFoot(fs) + multiset{}) && n !in h
    ensures n !in PathFoot(fs) && NoDup(PathFoot(fs)) && NoDup(PathFoot(fs) + (multiset{n} + multiset{} + multiset{}))
  {
    if n in PathFoot(fs) { PathIn(h, fs, null, n); }
    assert PathFoot(fs) + multiset{} == PathFoot(fs);
    var m := PathFoot(fs) + (multiset{n} + multiset{} + multiset{});
    forall v | v in m ensures m[v] <= 1 {
      if v in PathFoot(fs) { assert PathFoot(fs)[v] <= 1; }
    }
  }

  // ---- facts for the operations

  lemma {:induction false} FindStart(h: Heap, t: Tree, key: int)
    requires ZipOk(h, [], t)
    ensures Before([]) == After([]) == [] && Balanced([], Height(t)) && Plug([], t) == t
        && TopNode([], Root(t)) == Root(t)
    ensures Before([]) + Inorder(t) + After([]) == Inorder(t)
    ensures Below(Before([]), key) && Above(After([]), key)
  {
  }

  lemma {:induction false} FindHere(h: Heap, fs: seq<Step>, x: Tree)
    requires ZipOk(h, fs, x) && x.Bin?
    ensures x.n in h && h[x.n] == Cell(Pair(Root(x.l), Root(x.r)), UpNode(fs), UpIndex(fs), Balance(x))
    ensures x.n in Foot(Plug(fs, x)) && 1 <= Height(x)
  {
    PlugView(fs, x);
  }

  lemma {:induction false} FindDown(h: Heap, fs: seq<Step>, x: Tree, d: nat, key: int)
    requires ZipOk(h, fs, x) && x.Bin? && d <= 1 && Avl(x) && Balanced(fs, Height(x))
    requires Below(Before(fs), key) && Above(After(fs), key)
    requires Ordered(Before(fs) + Inorder(x) + After(fs)) && if d == 0 then key < x.n.key else x.n.key < key
    ensures var gs, y := fs + [Step(x.n, d, Side(x, 1 - d), Balance(x))], Side(x, d);
            && ZipOk(h, gs, y) && Avl(y) && Balanced(gs, Height(y)) && Plug(gs, y) == Plug(fs, x)
            && Below(Before(gs), key) && Above(After(gs), key)
            && Before(gs) + Inorder(y) + After(gs) == Before(fs) + Inorder(x) + After(fs)
            && UpNode(gs) == x.n && UpIndex(gs) == d && TopNode(gs, Root(y)) == TopNode(fs, x.n)
            && Height(y) < Height(x)
  {
    hide ZipOk, Balanced, Plug, Before, After, Inorder, Below, Above, Ordered;
    StepDown(h, fs, x, d);
    SearchStep(fs, x, d, key);
    DownView(fs, x, d);
  }

  lemma {:induction false} FindMiss(h: Heap, fs: seq<Step>, x: Tree, t: Tree, key: int)
    requires x.Leaf? && Before(fs) + Inorder(x) + After(fs) == Inorder(t) && Below(Before(fs), key)
        && Above(After(fs), key)
    ensures Inorder(t) == Before(fs) + After(fs) && Height(x) == 0
    ensures forall n | n in Foot(t) :: n.key != key
  {
    hide Before, After;
    InorderFoot(t);
    Absent(Before(fs), After(fs), key);
    assert Before(fs) + [] == Before(fs);
    forall n | n in Foot(t) ensures n.key != key {
      assert n in multiset(Inorder(t));
      assert n in Before(fs) + After(fs);
    }
  }

  lemma {:induction false} SlotView(fs: seq<Step>, t: Tree)
    requires Plug(fs, Leaf) == t
    ensures Inorder(t) == Before(fs) + After(fs) && Foot(t) == PathFoot(fs)
  {
    PlugView(fs, Leaf);
    assert Before(fs) + [] == Before(fs);
  }

  lemma {:induction false} InsertedFoot(t: Tree, fs: seq<Step>, n: Node, u: Tree)
    requires Plug(fs, Leaf) == t && Inorder(u) == Before(fs) + [n] + After(fs)
    ensures |Inorder(u)| == |Inorder(t)| + 1 && Foot(u) == Foot(t) + multiset{n}
  {
    SlotView(fs, t);
    InorderFoot(t);
    InorderFoot(u);
  }

  lemma {:induction false} GrownTop(h: Heap, fs: seq<Step>, x: Tree, k: nat)
    requires Grown(h, fs, x, k) && UpNode(fs) == null
    ensures ZipOk(h, fs, x) && Avl(x) && Balanced(fs, Height(x))
  {
  }

  lemma {:induction false} GrownAt(h: Heap, fs: seq<Step>, x: Tree, k: nat)
    requires Grown(h, fs, x, k) && UpNode(fs) != null
    ensures fs != [] && Last(fs).n == UpNode(fs) && Last(fs).n in h && h[Last(fs).n].balance == Last(fs).bal
        && UpIndex(fs) == Last(fs).d <= 1
    ensures -1 <= Last(fs).bal <= 1
  {
    hide ZipOk;
    ZipAtStart(h, fs, x);
  }

  lemma {:induction false} GrownLinks(h: Heap, fs: seq<Step>, x: Tree, k: nat)
    requires Grown(h, fs, x, k)
    ensures x.Bin? && x.n in h && h[x.n].parent == UpNode(fs) && h[x.n].index == UpIndex(fs)
  {
  }

  /** The nodes the tree consists of. */
  ghost predicate Owns(s: set<Node>, t: Tree) {
    (forall n | n in s :: n in Foot(t)) && (forall n | n in Foot(t) :: n in s)
  }

  lemma {:induction false} OwnsMore(s: set<Node>, t: Tree, n: Node, u: Tree)
    requires Owns(s, t) && Foot(u) == Foot(t) + multiset{n}
    ensures Owns(s + {n}, u)
  {
  }

  lemma {:induction false} OwnsLess(s: set<Node>, t: Tree, n: Node, u: Tree)
    requires Owns(s, t) && Foot(u) + multiset{n} == Foot(t) && NoDup(Foot(t))
    ensures n in s && Owns(s - {n}, u)
  {
    assert n in Foot(t) && Foot(t)[n] <= 1;
    forall v | v in s - {n} ensures v in Foot(u) { assert v in Foot(t); }
    forall v | v in Foot(u) ensures v in s - {n} { assert v in Foot(t); }
  }
}
