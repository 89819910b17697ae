/** Neighbours in order, and the post-order in which a tree is destroyed. */
module AvlWalk {
  import opened AvlShape
  import opened AvlRotate
  import opened AvlEdit
  import opened AvlRemove

  /** In-order position of the root of subtree x. */
  function Index(fs: seq<Step>, x: Tree): nat {
    |Before(fs)| + if x.Leaf? then 0 else |Inorder(x.l)|
  }

  lemma {:induction false} IndexView(fs: seq<Step>, x: Tree)
    requires x.Bin?
    ensures var c := Inorder(Plug(fs, x)); Index(fs, x) < |c| && c[Index(fs, x)] == x.n
    ensures Inorder(Plug(fs, x)) == Before(fs) + (Inorder(x.l) + [x.n] + Inorder(x.r)) + After(fs)
  {
    hide Inorder, Plug, Before, After;
    PlugView(fs, x);
    MakeInorder(x.n, 0, x.l, x.r);
  }

  lemma {:induction false} Twice(c: seq<Node>, i: nat, j: nat)
    requires i < j < |c| && c[i] == c[j]
    ensures multiset(c)[c[i]] >= 2
  {
    assert c == c[..i] + [c[i]] + c[i + 1..j] + [c[j]] + c[j + 1..];
  }

  lemma {:induction false} SameIndex(c: seq<Node>, i: nat, j: nat)
    requires NoDup(multiset(c)) && i < |c| && j < |c| && c[i] == c[j]
    ensures i == j
  {
    if i < j { Twice(c, i, j); }
    if j < i { Twice(c, j, i); }
  }

  lemma {:induction false} TreeNoDup(h: Heap, t: Tree)
    requires ZipOk(h, [], t)
    ensures NoDup(multiset(Inorder(t))) && NoDup(Foot(t))
  {
    TopFoot(h, t);
    InorderFoot(t);
  }

  /** The neighbour of position i on side d, if there is one. */
  function Neighbour(c: seq<Node>, i: nat, d: nat): Node? {
    if i >= |c| then null
    else if d == 0 then if i == 0 then null else c[i - 1]
    else if i + 1 < |c| then c[i + 1] else null
  }

  /** With a subtree on that side, the neighbour is the last node of the subtree towards us. */
  lemma {:induction false} NeighbourBelow(fs: seq<Step>, x: Tree, d: nat)
    requires x.Bin? && d <= 1 && Side(x, d).Bin?
    ensures var e := End(Side(x, d), 1 - d); e.Bin? && Neighbour(Inorder(Plug(fs, x)), Index(fs, x), d) == e.n
  {
    hide Inorder, Plug, Before, After;
    IndexView(fs, x);
    StandOrder(Side(x, d), 1 - d, x.n);
    var e, u := End(Side(x, d), 1 - d), Side(x, d);
    var p, l, r, q := Before(fs), Inorder(x.l), Inorder(x.r), After(fs);
    var c := p + (l + [x.n] + r) + q;
    if d == 0 {
      assert l[|l| - 1] == e.n;
      assert c[|p| + |l| - 1] == e.n;
    } else {
      assert r[0] == e.n;
      assert c[|p| + |l| + 1] == e.n;
    }
  }

  /** Nothing on that side below: position i is at that end of subtree x. */
  predicate AtEdge(fs: seq<Step>, x: Tree, d: nat, i: nat) {
    if d == 0 then i == |Before(fs)| else i + 1 == |Before(fs)| + |Inorder(x)|
  }

  lemma {:induction false} EdgeStart(fs: seq<Step>, x: Tree, d: nat)
    requires x.Bin? && d <= 1 && Side(x, d).Leaf?
    ensures AtEdge(fs, x, d, Index(fs, x))
  {
  }

  lemma {:induction false} EdgeTop(x: Tree, d: nat, i: nat)
    requires d <= 1 && AtEdge([], x, d, i) && i < |Inorder(Plug([], x))|
    ensures Neighbour(Inorder(Plug([], x)), i, d) == null
  {
  }

  /** One level up: either the node there is the neighbour, or the search goes on. */
  lemma {:induction false} EdgeUp(fs: seq<Step>, x: Tree, d: nat, i: nat)
    requires d <= 1 && fs != [] && Last(fs).d <= 1 && AtEdge(fs, x, d, i) && i < |Inorder(Plug(fs, x))| && x.Bin?
    ensures var s := Last(fs); var y := Make(s.n, s.d, x, s.other);
            if s.d == 1 - d then Neighbour(Inorder(Plug(fs, x)), i, d) == s.n else AtEdge(Init(fs), y, d, i)
    ensures var s := Last(fs); var y := Make(s.n, s.d, x, s.other);
            Plug(fs, x) == Plug(Init(fs), y) && y.n == s.n && y.Bin?
  {
    hide Inorder, Plug, Before, After;
    var s := Last(fs);
    PlugStep(fs, x);
    PlugView(fs, x);
    PathView(fs);
    MakeInorder(s.n, s.d, x, s.other);
    InorderSome(x);
    var b, a := Before(Init(fs)), After(Init(fs));
    if s.d == 1 - d {
      EdgeSeq(b, Inorder(x), s.n, Inorder(s.other), a, s.d);
    }
  }

  lemma {:induction false} InorderSome(x: Tree)
    ensures x.Bin? ==> |Inorder(x)| > 0
  {
  }

  lemma {:induction false} EdgeSeq(b: seq<Node>, x: seq<Node>, n: Node, o: seq<Node>, a: seq<Node>, d: nat)
    requires |x| > 0
    ensures d == 1 ==> ((b + (o + [n])) + x + ([] + a))[|b + (o + [n])| - 1] == n
    ensures d == 0 ==> ((b + []) + x + (([n] + o) + a))[|b + []| + |x|] == n
  {
  }

  // ---- where a new node goes

  lemma {:induction false} SlotNeighbour(fs: seq<Step>, d: nat)
    requires fs != [] && d <= 1 && Last(fs).d <= 1
    ensures var s := Last(fs); var c := Inorder(Plug(fs, Leaf)); var y := Make(s.n, s.d, Leaf, s.other);
            && y.Bin? && y.n == s.n && Plug(Init(fs), y) == Plug(fs, Leaf)
            && c == Before(fs) + After(fs)
            && (s.d == 0 ==> Index(Init(fs), y) == |Before(fs)|)
            && (s.d == 1 ==> Index(Init(fs), y) + 1 == |Before(fs)|)
  {
    hide Inorder, Plug, Before, After;
    var s := Last(fs);
    PlugStep(fs, Leaf);
    PlugView(fs, Leaf);
    PathView(fs);
    InorderLeaf();
    assert Before(fs) + [] == Before(fs);
  }

  // ---- post-order

  function PostOrder(t: Tree): seq<Node> {
    if t.Leaf? then [] else PostOrder(t.l) + PostOrder(t.r) + [t.n]
  }

  lemma {:induction false} PostFoot(t: Tree)
    ensures multiset(PostOrder(t)) == Foot(t)
  {
    if t.Bin? {
      PostFoot(t.l);
      PostFoot(t.r);
    }
  }

  /** Node v comes before node n in p. */
  ghost predicate Earlier(p: seq<Node>, v: Node, n: Node) {
    exists j :: 0 <= j < |p| && p[j] == n && v in p[..j]
  }

  /** Children come before their parents. */
  lemma {:induction false} PostParents(t: Tree, n: Node, v: Node)
    requires NoDup(Foot(t)) && Ancestor(t, n, v)
    ensures Earlier(PostOrder(t), v, n)
  {
    hide PostOrder, Foot;
    PostParts(t);
    var l, r := PostOrder(t.l), PostOrder(t.r);
    NoDupParts(t);
    if t.n == n && v in Foot(t.l) + Foot(t.r) {
      PostFoot(t.l);
      PostFoot(t.r);
      assert v in multiset(l) || v in multiset(r);
      EarlierThere(l + r, n, v);
    } else if Ancestor(t.l, n, v) {
      PostParents(t.l, n, v);
      EarlierLater([], l, r + [t.n], v, n);
      assert [] + l + (r + [t.n]) == l + r + [t.n];
    } else {
      PostParents(t.r, n, v);
      EarlierLater(l, r, [t.n], v, n);
    }
  }

  lemma {:induction false} EarlierThere(p: seq<Node>, n: Node, v: Node)
    requires v in p
    ensures Earlier(p + [n], v, n)
  {
    var q := p + [n];
    assert q[|p|] == n && q[..|p|] == p;
  }

  lemma {:induction false} EarlierLater(a: seq<Node>, p: seq<Node>, b: seq<Node>, v: Node, n: Node)
    requires Earlier(p, v, n)
    ensures Earlier(a + p + b, v, n)
  {
    var j :| 0 <= j < |p| && p[j] == n && v in p[..j];
    var q := a + p + b;
    assert q[|a| + j] == n && q[..|a| + j] == a + p[..j];
  }

  lemma {:induction false} PostParts(t: Tree)
    requires t.Bin?
    ensures PostOrder(t) == PostOrder(t.l) + PostOrder(t.r) + [t.n] && Foot(t) == multiset{t.n} + Foot(t.l) + Foot(t.r)
  {
  }

  lemma {:induction false} NoDupParts(t: Tree)
    requires t.Bin? && NoDup(Foot(t))
    ensures NoDup(Foot(t.l)) && NoDup(Foot(t.r))
  {
    Parts(t.n, Foot(t.l), Foot(t.r));
  }

  /** Node n is above node v in the tree. */
  predicate Ancestor(t: Tree, n: Node, v: Node) {
    t.Bin? && ((t.n == n && v in Foot(t.l) + Foot(t.r)) || Ancestor(t.l, n, v) || Ancestor(t.r, n, v))
  }

  /** What is still to be returned once the subtree at the end of the path has been. */
  function Rest(fs: seq<Step>): seq<Node>
    decreases |fs|
  {
    if fs == [] then []
    else (if Last(fs).d == 0 then PostOrder(Last(fs).other) else []) + [Last(fs).n] + Rest(Init(fs))
  }

  /** To the left of the path everything is gone, to the right nothing. */
  predicate Spent(fs: seq<Step>) {
    forall s | s in fs :: s.d <= 1 && (s.d == 1 ==> s.other == Leaf) && Avl(s.other)
  }

  lemma {:induction false} RestStep(fs: seq<Step>, s: Step)
    ensures Rest(fs + [s]) == (if s.d == 0 then PostOrder(s.other) else []) + [s.n] + Rest(fs)
    ensures Spent(fs) && s.d <= 1 && (s.d == 1 ==> s.other == Leaf) && Avl(s.other) ==> Spent(fs + [s])
  {
    assert Init(fs + [s]) == fs;
  }

  // ---- facts for the operations

  lemma {:induction false} TopLinked(h: Heap, t: Tree)
    requires ZipOk(h, [], t)
    ensures Linked(h, t, null, 0) && (Root(t) == null <==> t.Leaf?)
  {
  }

  lemma {:induction false} WalkStart(h: Heap, t: Tree, v: Node, i: nat) returns (fs: seq<Step>, x: Tree)
    requires ZipOk(h, [], t) && Avl(t) && i < |Inorder(t)| && Inorder(t)[i] == v
    ensures ZipOk(h, fs, x) && Avl(x) && Balanced(fs, Height(x)) && x.Bin? && x.n == v && v in h && Plug(fs, x) == t
        && Index(fs, x) == i
    ensures TopNode(fs, Root(x)) == Root(t) && PathLinked(h, fs, v)
  {
    hide Inorder, Avl, Height, Linked, PathLinked, Foot;
    InorderFoot(t);
    TreeNoDup(h, t);
    assert v in multiset(Inorder(t));
    assert Balanced([], Height(t)) && Plug([], t) == t && TopNode([], Root(t)) == Root(t);
    fs, x := Locate(h, [], t, v);
    IndexView(fs, x);
    SameIndex(Inorder(t), i, Index(fs, x));
    RemoveHere(h, fs, x);
  }

  lemma {:induction false} SideLinked(h: Heap, fs: seq<Step>, x: Tree, d: nat)
    requires ZipOk(h, fs, x) && x.Bin? && d <= 1
    ensures Linked(h, Side(x, d), x.n, d) && (Root(Side(x, d)) == null <==> Side(x, d).Leaf?)
  {
  }

  lemma {:induction false} UpHere(h: Heap, fs: seq<Step>, c: Node?)
    requires PathLinked(h, fs, c) && UpNode(fs) != null
    ensures fs != [] && Last(fs).n == UpNode(fs) && Last(fs).n in h && Last(fs).d == UpIndex(fs) <= 1
    ensures h[Last(fs).n].parent == UpNode(Init(fs)) && h[Last(fs).n].index == UpIndex(Init(fs))
        && PathLinked(h, Init(fs), Last(fs).n)
  {
  }

  lemma {:induction false} SlotLinked(h: Heap, fs: seq<Step>)
    requires ZipOk(h, fs, Leaf)
    ensures PathLinked(h, fs, null)
  {
  }

  lemma {:induction false} NoPath(fs: seq<Step>)
    requires UpNode(fs) == null
    ensures fs == [] && Before(fs) == [] && After(fs) == []
  {
  }

  /** The node above an empty place is the one just before or just after it. */
  lemma {:induction false} SlotEnds(fs: seq<Step>)
    requires fs != [] && Last(fs).d <= 1
    ensures Last(fs).d == 1 ==> Before(fs) != [] && Before(fs)[|Before(fs)| - 1] == Last(fs).n
    ensures Last(fs).d == 0 ==> After(fs) != [] && After(fs)[0] == Last(fs).n
  {
    hide Inorder;
    PathView(fs);
  }

  lemma {:induction false} Descend(h: Heap, fs: seq<Step>, x: Tree, d: nat) returns (gs: seq<Step>, y: Tree)
    requires ZipOk(h, fs, x) && x.Bin? && d <= 1 && Avl(x) && Balanced(fs, Height(x))
    ensures gs == fs + [Step(x.n, d, Side(x, 1 - d), Balance(x))] && y == Side(x, d)
    ensures ZipOk(h, gs, y) && Avl(y) && Balanced(gs, Height(y)) && Plug(gs, y) == Plug(fs, x)
    ensures UpNode(gs) == x.n && UpIndex(gs) == d && TopNode(gs, Root(y)) == TopNode(fs, x.n)
    ensures Before(gs) == Before(fs) + (if d == 0 then [] else Inorder(x.l) + [x.n])
    ensures |Inorder(x)| == |Inorder(x.l)| + 1 + |Inorder(x.r)|
    ensures (y.Leaf? <==> Root(y) == null) && (y.Leaf? ==> Height(y) == 0 && Inorder(y) == [])
  {
    hide ZipOk, Avl, Balanced, Plug, Before, After;
    gs, y := fs + [Step(x.n, d, Side(x, 1 - d), Balance(x))], Side(x, d);
    StepDown(h, fs, x, d);
    DownView(fs, x, d);
  }

  lemma {:induction false} InsertedAt(fs: seq<Step>, n: Node, k: nat)
    requires |Before(fs)| == k
    ensures var c := Before(fs) + After(fs); Before(fs) + [n] + After(fs) == c[..k] + [n] + c[k..]
  {
    hide Before, After;
    var c := Before(fs) + After(fs);
    assert c[..k] == Before(fs) && c[k..] == After(fs);
  }

  // ---- walking all nodes

  function Kept(c: seq<Node>, doomed: set<Node>): seq<Node> {
    if c == [] then [] else (if c[0] in doomed then [] else [c[0]]) + Kept(c[1..], doomed)
  }

  lemma {:induction false} KeptAppend(a: seq<Node>, b: seq<Node>, doomed: set<Node>)
    ensures Kept(a + b, doomed) == Kept(a, doomed) + Kept(b, doomed)
    ensures forall n | n in Kept(a, doomed) :: n in a
  {
    if a == [] {
      assert a + b == b;
    } else {
      assert (a + b)[1..] == a[1..] + b;
      KeptAppend(a[1..], b, doomed);
    }
  }

  lemma {:induction false} KeptStart(c: seq<Node>, doomed: set<Node>)
    ensures c[..0] == [] && Kept([], doomed) == [] && c[0..] == c && [] + c == c
    ensures c == [] ==> Kept(c, doomed) == []
    ensures c[..|c|] == c && Kept(c, doomed) + [] == Kept(c, doomed) && c[|c|..] == []
  {
  }

  /** The node at position i, what comes after it, and what is left when it goes. */
  lemma {:induction false} WalkOne(c: seq<Node>, i: nat, doomed: set<Node>)
    requires NoDup(multiset(c)) && i < |c|
    ensures var k := Kept(c[..i], doomed); var o := k + c[i..];
            && |k| < |o| && o[|k|] == c[i]
            && Neighbour(o, |k|, 1) == (if i + 1 < |c| then c[i + 1] else null)
            && (if c[i] in doomed then Without(o, c[i]) else o) == Kept(c[..i + 1], doomed) + c[i + 1..]
    ensures c[..i + 1] == c[..i] + [c[i]]
  {
    hide Kept, Without, NoDup;
    var l, n, r := c[..i], c[i], c[i + 1..];
    Cut(c, i);
    KeptAppend(l, [n], doomed);
    KeptOne(n, doomed);
    KeptOnce(l, n, r);
    WithoutOne(Kept(l, doomed), n, r);
    WalkSeq(Kept(l, doomed), n, r);
  }

  lemma {:induction false} Cut(c: seq<Node>, i: nat)
    requires i < |c|
    ensures c[..i + 1] == c[..i] + [c[i]] && c[i..] == [c[i]] + c[i + 1..] && c == c[..i] + [c[i]] + c[i + 1..]
  {
  }

  lemma {:induction false} KeptOne(n: Node, doomed: set<Node>)
    ensures Kept([n], doomed) == if n in doomed then [] else [n]
  {
    assert [n][1..] == [];
  }

  lemma {:induction false} KeptOnce(l: seq<Node>, n: Node, r: seq<Node>)
    requires NoDup(multiset(l + [n] + r))
    ensures n !in l && n !in r
  {
    var m := multiset(l + [n] + r);
    assert m == multiset(l) + multiset{n} + multiset(r);
    assert m[n] <= 1;
  }

  lemma {:induction false} WalkSeq(k: seq<Node>, n: Node, r: seq<Node>)
    ensures k + ([n] + r) == k + [n] + r
    ensures Neighbour(k + [n] + r, |k|, 1) == if r == [] then null else r[0]
  {
  }

  lemma {:induction false} Owned(t: Tree, s: set<Node>, n: Node)
    requires Owns(s, t)
    ensures n in Inorder(t) <==> n in s
  {
    InorderFoot(t);
    assert n in Inorder(t) <==> n in multiset(Inorder(t));
  }

  // ---- destroying a tree

  ghost predicate Same(s: set<Node>, m: multiset<Node>) {
    (forall n | n in s :: n in m) && (forall n | n in m :: n in s)
  }

  lemma {:induction false} RestNone()
    ensures Rest([]) == []
  {
  }

  lemma {:induction false} BelowHere(h: Heap, fs: seq<Step>, x: Tree)
    requires ZipOk(h, fs, x) && x.Bin?
    ensures x.n in h && h[x.n] == Cell(Pair(Root(x.l), Root(x.r)), UpNode(fs), UpIndex(fs), Balance(x))
    ensures (x.l.Leaf? <==> Root(x.l) == null) && (x.r.Leaf? <==> Root(x.r) == null)
    ensures PathLinked(h, fs, x.n)
  {
  }

  lemma {:induction false} DestroyStart(h: Heap, t: Tree, s: set<Node>)
    requires ZipOk(h, [], t) && Owns(s, t)
    ensures Spent([]) && Same(s, PathFoot([]) + Foot(t)) && Rest([]) == [] && PostOrder(t) + [] == PostOrder(t)
    ensures t.Leaf? ==> PostOrder(t) == [] && |Inorder(t)| == 0
    ensures Root(t) == null <==> t.Leaf?
    ensures |PostOrder(t)| == |Inorder(t)|
  {
    PostFoot(t);
    InorderFoot(t);
    assert PathFoot([]) + Foot(t) == Foot(t);
    assert |multiset(PostOrder(t))| == |multiset(Inorder(t))|;
  }

  /** One level down to the left. */
  lemma {:induction false} DiveLeft(h: Heap, fs: seq<Step>, u: Tree, s: set<Node>)
    requires ZipOk(h, fs, u) && u.Bin? && u.l.Bin? && Spent(fs) && Avl(u) && Same(s, PathFoot(fs) + Foot(u))
    ensures var gs := fs + [Step(u.n, 0, u.r, Balance(u))];
            && ZipOk(h, gs, u.l) && TopNode(gs, Root(u.l)) == TopNode(fs, u.n) && Spent(gs) && Avl(u.l)
                && Same(s, PathFoot(gs) + Foot(u.l))
            && PostOrder(u) + Rest(fs) == PostOrder(u.l) + Rest(gs)
  {
    hide ZipOk, Rest, Spent, Height, Foot, PathFoot, Balance;
    var st := Step(u.n, 0, u.r, Balance(u));
    StepDown(h, fs, u, 0);
    DownView(fs, u, 0);
    RestStep(fs, st);
    AvlHeight(u);
    FootDown(fs, st, u);
    assert PostOrder(u.l) + PostOrder(u.r) + [u.n] + Rest(fs) == PostOrder(u.l) + (PostOrder(u.r) + [u.n] + Rest(fs));
  }

  lemma {:induction false} FootDown(fs: seq<Step>, st: Step, u: Tree)
    requires u.Bin? && st.n == u.n && st.other == u.r
    ensures PathFoot(fs + [st]) + Foot(u.l) == PathFoot(fs) + Foot(u)
  {
    assert Init(fs + [st]) == fs;
  }

  /** At the leftmost node: it is the first one, or its right child is, which is a leaf. */
  lemma {:induction false} DiveEnd(h: Heap, fs: seq<Step>, u: Tree, s: set<Node>)
    requires ZipOk(h, fs, u) && u.Bin? && u.l.Leaf? && Spent(fs) && Avl(u) && Same(s, PathFoot(fs) + Foot(u))
    ensures u.r.Bin? ==>
              var gs := fs + [Step(u.n, 1, Leaf, Balance(u))];
              && Balance(u) == 1 && u.r.n in h && h[u.r.n] == Cell(Pair(null, null), u.n, 1, 0)
              && UpNode(gs) == u.n && UpIndex(gs) == 1
              && PathLinked(h - {u.r.n}, gs, u.r.n) && TopNode(gs, u.r.n) == TopNode(fs, u.n) && Spent(gs)
              && NoDup(PathFoot(gs)) && Same(s - {u.r.n}, PathFoot(gs)) && u.r.n in s
              && PostOrder(u) + Rest(fs) == [u.r.n] + Rest(gs)
    ensures u.r.Leaf? ==>
              && Balance(u) == 0 && PathLinked(h - {u.n}, fs, u.n) && NoDup(PathFoot(fs))
                  && Same(s - {u.n}, PathFoot(fs)) && u.n in s
              && PostOrder(u) + Rest(fs) == [u.n] + Rest(fs)
  {
    hide Rest, Spent, PathLinked, PathFoot, NoDup, Linked;
    assert u.r.Bin? ==> Height(u.r) == 1 && u.r.l == Leaf && u.r.r == Leaf;
    LinkedParts(h, u, UpNode(fs), UpIndex(fs));
    if u.r.Leaf? {
      assert Foot(u) == multiset{u.n};
      HangOne(h, fs, u.n, s);
    } else {
      var st := Step(u.n, 1, Leaf, Balance(u));
      var gs := fs + [st];
      assert Init(gs) == fs && Last(gs) == st;
      RestStep(fs, st);
      LinkedParts(h, u.r, u.n, 1);
      PathParts(h, gs, u.r.n);
      assert Foot(u) == multiset{u.n} + multiset{u.r.n};
      assert PathFoot(gs) + multiset{u.r.n} == PathFoot(fs) + Foot(u);
      LinkedLeaf(h, Leaf, u.n, 0);
      HangOne(h, gs, u.r.n, s);
      assert PostOrder(u) == [u.r.n] + [u.n];
    }
  }

  lemma {:induction false} HangOne(h: Heap, fs: seq<Step>, n: Node, s: set<Node>)
    requires PathLinked(h, fs, n) && NoDup(PathFoot(fs) + multiset{n}) && Same(s, PathFoot(fs) + multiset{n})
    ensures PathLinked(h - {n}, fs, n) && NoDup(PathFoot(fs)) && Same(s - {n}, PathFoot(fs)) && n in s
  {
    hide PathLinked, PathFoot;
    var m := PathFoot(fs) + multiset{n};
    assert m[n] <= 1;
    forall v | v in PathFoot(fs) ensures PathFoot(fs)[v] <= 1 { assert m[v] <= 1; }
    PathFrame(h, h - {n}, fs, n);
  }

  /** A parent to return to. */
  lemma {:induction false} MoreStart(h: Heap, fs: seq<Step>, c: Node?, s: set<Node>)
    requires PathLinked(h, fs, c) && fs != [] && Same(s, PathFoot(fs))
    ensures Last(fs).n in h && Last(fs).n in s
    ensures h[Last(fs).n].child == Sides(Last(fs).d, c, Root(Last(fs).other)) && Last(fs).d <= 1
    ensures h[Last(fs).n].parent == UpNode(Init(fs)) && h[Last(fs).n].index == UpIndex(Init(fs))
  {
  }

  /** The child just returned is forgotten: the parent is next, or its right subtree. */
  lemma {:induction false} MoreCut(h: Heap, fs: seq<Step>, c: Node?, s: set<Node>)
    requires PathLinked(h, fs, c) && fs != [] && NoDup(PathFoot(fs)) && Spent(fs) && Same(s, PathFoot(fs))
    ensures var st := Last(fs); var h' := SetKid(h, st.n, st.d, null);
            && h'.Keys == h.Keys && st.n in h'
            && h'[st.n] == h[st.n].(child := Sides(st.d, null, Root(st.other)))
            && Spent(Init(fs)) && TopNode(Init(fs), st.n) == TopNode(fs, c)
            && (st.other.Leaf? || st.d == 1 ==>
                  && PathLinked(h' - {st.n}, Init(fs), st.n) && NoDup(PathFoot(Init(fs)))
                      && Same(s - {st.n}, PathFoot(Init(fs)))
                  && Rest(fs) == [st.n] + Rest(Init(fs)))
            && (st.other.Bin? && st.d == 0 ==>
                  var gs := Init(fs) + [Step(st.n, 1, Leaf, st.bal)];
                  && ZipOk(h', gs, st.other) && Spent(gs) && Avl(st.other) && Same(s, PathFoot(gs) + Foot(st.other))
                  && TopNode(gs, Root(st.other)) == TopNode(fs, c)
                  && Rest(fs) == PostOrder(st.other) + Rest(gs))
  {
    hide Foot, PathFoot, Linked, PathLinked, PostOrder, Rest, Spent, NoDup, Same, ZipOk;
    var st := Last(fs);
    var h' := SetKid(h, st.n, st.d, null);
    PathParts(h, fs, c);
    PathApart(fs);
    SpentLast(fs);
    PathFrame(h, h', Init(fs), st.n);
    LinkedFrame(h, h', st.other, st.n, 1 - st.d);
    RestParts(fs);
    LeafFoot();
    if st.other.Leaf? || st.d == 1 {
      assert PathFoot(fs) == PathFoot(Init(fs)) + multiset{st.n};
      HangOne(h', Init(fs), st.n, s);
    } else {
      MoreRight(h', Init(fs), st, s, PathFoot(fs));
    }
  }

  lemma {:induction false} MoreRight(h': Heap, fs: seq<Step>, st: Step, s: set<Node>, m: multiset<Node>)
    requires PathLinked(h', fs, st.n) && st.other.Bin? && st.n in h'
        && h'[st.n] == Cell(Pair(null, Root(st.other)), UpNode(fs), UpIndex(fs), st.bal)
    requires Linked(h', st.other, st.n, 1) && NoDup(m) && m == PathFoot(fs) + (multiset{st.n} + Foot(st.other))
        && Spent(fs) && Same(s, m)
    ensures var gs := fs + [Step(st.n, 1, Leaf, st.bal)];
            && ZipOk(h', gs, st.other) && Spent(gs) && Same(s, PathFoot(gs) + Foot(st.other))
            && TopNode(gs, Root(st.other)) == TopNode(fs, st.n)
            && Rest(gs) == [st.n] + Rest(fs)
  {
    hide Foot, PathFoot, Linked, PathLinked, Rest, Spent, NoDup, Same;
    var gs := fs + [Step(st.n, 1, Leaf, st.bal)];
    assert Init(gs) == fs && Last(gs) == Step(st.n, 1, Leaf, st.bal);
    LeafFoot();
    PathParts(h', gs, Root(st.other));
    LinkedLeaf(h', Leaf, st.n, 0);
    RestStep(fs, Step(st.n, 1, Leaf, st.bal));
    assert PathFoot(gs) + Foot(st.other) == m;
    assert ([] + [st.n]) + Rest(fs) == [st.n] + Rest(fs);
  }

  lemma {:induction false} RestParts(fs: seq<Step>)
    requires fs != []
    ensures Rest(fs) == (if Last(fs).d == 0 then PostOrder(Last(fs).other) else []) + [Last(fs).n] + Rest(Init(fs))
  {
  }

  lemma {:induction false} SpentLast(fs: seq<Step>)
    requires Spent(fs) && fs != []
    ensures Spent(Init(fs)) && Avl(Last(fs).other) && (Last(fs).d == 1 ==> Last(fs).other == Leaf)
  {
    assert Last(fs) in fs;
    forall s | s in Init(fs) ensures s in fs { }
  }

  lemma {:induction false} LeafFoot()
    ensures Foot(Leaf) == multiset{} && PostOrder(Leaf) == []
  {
  }
}
