/** AVL trees: nodes in memory, the trees they form, and trees opened along a path. */
module AvlShape {
  /** What a node records: its children, its parent, which child of it it is, and its balance. */
  datatype Cell = Cell(child: Pair, parent: Node?, index: nat, balance: int)

  /** The two children: avl_child[0] and avl_child[1]. */
  datatype Pair = Pair(left: Node?, right: Node?) {
    function At(d: nat): Node? { if d == 0 then left else right }

    function With(d: nat, c: Node?): Pair { if d == 0 then Pair(c, right) else Pair(left, c) }
  }

  class Node {
    const key: int
    var child: Pair
    var parent: Node?
    // which child of its parent the node is
    var index: nat
    // height of the right subtree minus height of the left one
    var balance: int

    constructor (key: int)
      ensures this.key == key
    {
      this.key := key;
      child, parent, index, balance := Pair(null, null), null, 0, 0;
    }

    function TheCell(): Cell
      reads this
    {
      Cell(child, parent, index, balance)
    }
  }

  datatype Tree = Leaf | Bin(l: Tree, n: Node, r: Tree)

  function Root(t: Tree): Node? { if t.Leaf? then null else t.n }

  function Max(a: int, b: int): int { if a < b then b else a }

  function Height(t: Tree): nat { if t.Leaf? then 0 else 1 + Max(Height(t.l), Height(t.r)) }

  function Balance(t: Tree): int { if t.Leaf? then 0 else Height(t.r) - Height(t.l) }

  predicate Avl(t: Tree) {
    t.Bin? ==> -1 <= Balance(t) <= 1 && Avl(t.l) && Avl(t.r)
  }

  function Inorder(t: Tree): seq<Node> {
    if t.Leaf? then [] else Inorder(t.l) + [t.n] + Inorder(t.r)
  }

  function Foot(t: Tree): multiset<Node> {
    if t.Leaf? then multiset{} else multiset{t.n} + Foot(t.l) + Foot(t.r)
  }

  ghost predicate NoDup(m: multiset<Node>) { forall v | v in m :: m[v] <= 1 }

  // ---- left and right, in either orientation

  /** The two things a and b, with a on side d. */
  function Sides(d: nat, a: Node?, b: Node?): Pair { if d == 0 then Pair(a, b) else Pair(b, a) }

  /** A node with subtree a on side d and b on the other. */
  function Make(n: Node, d: nat, a: Tree, b: Tree): Tree { if d == 0 then Bin(a, n, b) else Bin(b, n, a) }

  function Side(t: Tree, d: nat): Tree { if t.Leaf? then Leaf else if d == 0 then t.l else t.r }

  function Lean(d: nat, a: int, b: int): int { if d == 0 then b - a else a - b }

  // ---- nodes in memory

  /** The nodes of t are linked as t says; node p is the parent of its root, which is child ix. */
  ghost predicate Linked(h: map<Node, Cell>, t: Tree, p: Node?, ix: nat) {
    t.Bin? ==>
      && t.n in h
      && h[t.n] == Cell(Pair(Root(t.l), Root(t.r)), p, ix, Balance(t))
      && Linked(h, t.l, t.n, 0)
      && Linked(h, t.r, t.n, 1)
  }

  ghost predicate Agree(h: map<Node, Cell>, h': map<Node, Cell>, m: multiset<Node>) {
    forall v | v in m && v in h :: v in h' && h'[v] == h[v]
  }

  lemma {:induction false} LinkedParts(h: map<Node, Cell>, t: Tree, p: Node?, ix: nat)
    requires t.Bin?
    ensures Linked(h, t, p, ix) <==>
            && t.n in h && h[t.n] == Cell(Pair(Root(t.l), Root(t.r)), p, ix, Balance(t))
            && Linked(h, t.l, t.n, 0) && Linked(h, t.r, t.n, 1)
  {
  }

  lemma {:induction false} FootParts(t: Tree)
    ensures if t.Leaf? then Foot(t) == multiset{} else Foot(t) == multiset{t.n} + Foot(t.l) + Foot(t.r)
  {
  }

  lemma {:induction false} LinkedFrame(h: map<Node, Cell>, h': map<Node, Cell>, t: Tree, p: Node?, ix: nat)
    requires Linked(h, t, p, ix) && Agree(h, h', Foot(t))
    ensures Linked(h', t, p, ix)
  {
    hide Linked, Foot, Balance;
    FootParts(t);
    if t.Leaf? {
      LinkedLeaf(h', t, p, ix);
    } else {
      LinkedParts(h, t, p, ix);
      LinkedFrame(h, h', t.l, t.n, 0);
      LinkedFrame(h, h', t.r, t.n, 1);
      LinkedParts(h', t, p, ix);
    }
  }

  lemma {:induction false} LinkedLeaf(h: map<Node, Cell>, t: Tree, p: Node?, ix: nat)
    requires t.Leaf?
    ensures Linked(h, t, p, ix)
  {
  }

  /** Everything but node r agrees. */
  ghost predicate AgreeBut(h: map<Node, Cell>, h': map<Node, Cell>, m: multiset<Node>, r: Node?) {
    forall v | v in m && v in h && v != r :: v in h' && h'[v] == h[v]
  }

  /** Giving a subtree another parent. */
  lemma {:induction false} LinkedMoved(h: map<Node, Cell>, h': map<Node, Cell>, t: Tree, p: Node?, ix: nat, q: Node?,
      iy: nat)
    requires Linked(h, t, p, ix) && NoDup(Foot(t)) && AgreeBut(h, h', Foot(t), Root(t))
    requires t.Bin? && t.n in h ==> t.n in h' && h'[t.n] == h[t.n].(parent := q, index := iy)
    ensures Linked(h', t, q, iy)
  {
    hide Linked, Foot, Balance;
    FootParts(t);
    if t.Leaf? {
      LinkedLeaf(h', t, q, iy);
    } else {
      assert Foot(t)[t.n] <= 1;
      LinkedParts(h, t, p, ix);
      LinkedFrame(h, h', t.l, t.n, 0);
      LinkedFrame(h, h', t.r, t.n, 1);
      LinkedParts(h', t, q, iy);
    }
  }

  lemma {:induction false} LinkedIn(h: map<Node, Cell>, t: Tree, p: Node?, ix: nat, v: Node)
    requires Linked(h, t, p, ix) && v in Foot(t)
    ensures v in h
  {
    if v != t.n {
      if v in Foot(t.l) { LinkedIn(h, t.l, t.n, 0, v); } else { LinkedIn(h, t.r, t.n, 1, v); }
    }
  }

  // ---- the path to a subtree

  /** A node above: the path goes to its child d, `other` is its other subtree, and bal is the balance
      it records. */
  datatype Step = Step(n: Node, d: nat, other: Tree, bal: int)

  function UpNode(fs: seq<Step>): Node? { if fs == [] then null else fs[|fs| - 1].n }

  function UpIndex(fs: seq<Step>): nat { if fs == [] then 0 else fs[|fs| - 1].d }

  function Init(fs: seq<Step>): seq<Step> { if fs == [] then [] else fs[..|fs| - 1] }

  function Last(fs: seq<Step>): Step
    requires fs != []
  {
    fs[|fs| - 1]
  }

  ghost predicate StepLinked(h: map<Node, Cell>, s: Step, c: Node?, p: Node?, ix: nat) {
    s.d <= 1 && s.n in h && h[s.n] == Cell(Sides(s.d, c, Root(s.other)), p, ix, s.bal)
        && Linked(h, s.other, s.n, 1 - s.d)
  }

  /** The nodes above are linked; node c is where the path ends. */
  ghost predicate PathLinked(h: map<Node, Cell>, fs: seq<Step>, c: Node?)
    decreases |fs|
  {
    fs != [] ==>
      StepLinked(h, Last(fs), c, UpNode(Init(fs)), UpIndex(Init(fs))) && PathLinked(h, Init(fs), Last(fs).n)
  }

  function StepFoot(s: Step): multiset<Node> { multiset{s.n} + Foot(s.other) }

  function PathFoot(fs: seq<Step>): multiset<Node>
    decreases |fs|
  {
    if fs == [] then multiset{} else PathFoot(Init(fs)) + StepFoot(Last(fs))
  }

  function Plug(fs: seq<Step>, x: Tree): Tree
    decreases |fs|
  {
    if fs == [] then x else Plug(Init(fs), Make(Last(fs).n, Last(fs).d, x, Last(fs).other))
  }

  function Before(fs: seq<Step>): seq<Node>
    decreases |fs|
  {
    if fs == [] then []
    else Before(Init(fs)) + if Last(fs).d == 0 then [] else Inorder(Last(fs).other) + [Last(fs).n]
  }

  function After(fs: seq<Step>): seq<Node>
    decreases |fs|
  {
    if fs == [] then []
    else (if Last(fs).d == 0 then [Last(fs).n] + Inorder(Last(fs).other) else []) + After(Init(fs))
  }

  predicate StepBalanced(s: Step, k: nat) {
    s.d <= 1 && s.bal == Lean(s.d, k, Height(s.other)) && -1 <= s.bal <= 1 && Avl(s.other)
  }

  /** The recorded balances above are right for a subtree of height k at the end of the path. */
  predicate Balanced(fs: seq<Step>, k: nat)
    decreases |fs|
  {
    fs != [] ==>
      && StepBalanced(Last(fs), k)
      && Balanced(Init(fs), 1 + Max(k, Height(Last(fs).other)))
  }

  /** A tree opened down to subtree x. */
  ghost predicate ZipOk(h: map<Node, Cell>, fs: seq<Step>, x: Tree) {
    && Linked(h, x, UpNode(fs), UpIndex(fs))
    && PathLinked(h, fs, Root(x))
    && NoDup(PathFoot(fs) + Foot(x))
  }

  function TopNode(fs: seq<Step>, c: Node?): Node? { if fs == [] then c else fs[0].n }

  lemma {:induction false} MakeFoot(n: Node, d: nat, a: Tree, b: Tree)
    ensures Foot(Make(n, d, a, b)) == multiset{n} + Foot(a) + Foot(b)
  {
  }

  lemma {:induction false} MakeInorder(n: Node, d: nat, a: Tree, b: Tree)
    ensures Inorder(Make(n, d, a, b)) == if d == 0 then Inorder(a) + [n] + Inorder(b) else Inorder(b) + [n] + Inorder(a)
  {
  }

  lemma {:induction false} PathFrame(h: map<Node, Cell>, h': map<Node, Cell>, fs: seq<Step>, c: Node?)
    requires PathLinked(h, fs, c) && Agree(h, h', PathFoot(fs))
    ensures PathLinked(h', fs, c)
    decreases |fs|
  {
    if fs != [] {
      var s := Last(fs);
      assert s.n in StepFoot(s);
      LinkedFrame(h, h', s.other, s.n, 1 - s.d);
      PathFrame(h, h', Init(fs), s.n);
    }
  }

  lemma {:induction false} PathIn(h: map<Node, Cell>, fs: seq<Step>, c: Node?, v: Node)
    requires PathLinked(h, fs, c) && v in PathFoot(fs)
    ensures v in h
    decreases |fs|
  {
    var s := Last(fs);
    if v in Foot(s.other) { LinkedIn(h, s.other, s.n, 1 - s.d, v); }
    else if v != s.n { PathIn(h, Init(fs), s.n, v); }
  }

  lemma {:induction false} PathParts(h: map<Node, Cell>, fs: seq<Step>, c: Node?)
    requires fs != []
    ensures PathLinked(h, fs, c) <==>
            StepLinked(h, Last(fs), c, UpNode(Init(fs)), UpIndex(Init(fs))) && PathLinked(h, Init(fs), Last(fs).n)
    ensures PathFoot(fs) == PathFoot(Init(fs)) + (multiset{Last(fs).n} + Foot(Last(fs).other))
  {
  }

  lemma {:induction false} PathNone(h: map<Node, Cell>, fs: seq<Step>, c: Node?)
    ensures fs == [] ==> PathLinked(h, fs, c) && PathFoot(fs) == multiset{}
  {
  }

  /** Pointing the last node above at another node. */
  lemma {:induction false} PathRepoint(h: map<Node, Cell>, h': map<Node, Cell>, fs: seq<Step>, c: Node?, c': Node?)
    requires PathLinked(h, fs, c) && NoDup(PathFoot(fs)) && AgreeBut(h, h', PathFoot(fs), UpNode(fs))
    requires fs != [] && Last(fs).n in h ==>
               Last(fs).n in h' && h'[Last(fs).n] == h[Last(fs).n].(child := Sides(Last(fs).d, c',
                   Root(Last(fs).other)))
    ensures PathLinked(h', fs, c')
  {
    hide PathLinked, Linked, PathFoot, Foot, NoDup;
    PathNone(h', fs, c');
    if fs != [] {
      var s := Last(fs);
      PathParts(h, fs, c);
      PathParts(h', fs, c');
      PathApart(fs);
      PathFrame(h, h', Init(fs), s.n);
      StepRepoint(h, h', s, c, c', UpNode(Init(fs)), UpIndex(Init(fs)));
    }
  }

  lemma {:induction false} PathApart(fs: seq<Step>)
    requires fs != [] && NoDup(PathFoot(fs))
    ensures var s := Last(fs); s.n !in PathFoot(Init(fs)) && s.n !in Foot(s.other)
  {
    assert PathFoot(fs)[Last(fs).n] <= 1;
  }

  lemma {:induction false} StepRepoint(h: map<Node, Cell>, h': map<Node, Cell>, s: Step, c: Node?, c': Node?, p: Node?,
      ix: nat)
    requires StepLinked(h, s, c, p, ix) && Agree(h, h', Foot(s.other))
    requires s.n in h' && s.n in h && h'[s.n] == h[s.n].(child := Sides(s.d, c', Root(s.other)))
    ensures StepLinked(h', s, c', p, ix)
  {
    hide Linked, Foot;
    LinkedFrame(h, h', s.other, s.n, 1 - s.d);
  }

  // ---- up and down

  lemma {:induction false} LinkedMake(h: map<Node, Cell>, n: Node, d: nat, a: Tree, b: Tree, p: Node?, ix: nat)
    requires d <= 1
    ensures Linked(h, Make(n, d, a, b), p, ix) <==>
            && n in h && h[n] == Cell(Sides(d, Root(a), Root(b)), p, ix, Lean(d, Height(a), Height(b)))
            && Linked(h, a, n, d) && Linked(h, b, n, 1 - d)
  {
    hide Linked;
    LinkedParts(h, Make(n, d, a, b), p, ix);
  }

  lemma {:induction false} StepUp(h: map<Node, Cell>, fs: seq<Step>, x: Tree)
    requires ZipOk(h, fs, x) && fs != [] && Last(fs).bal == Lean(Last(fs).d, Height(x), Height(Last(fs).other))
    ensures var s := Last(fs); ZipOk(h, Init(fs), Make(s.n, s.d, x, s.other))
  {
    hide Linked, PathLinked, Foot, PathFoot, Height;
    var s := Last(fs);
    PathParts(h, fs, Root(x));
    LinkedMake(h, s.n, s.d, x, s.other, UpNode(Init(fs)), UpIndex(Init(fs)));
    MakeFoot(s.n, s.d, x, s.other);
    assert PathFoot(Init(fs)) + Foot(Make(s.n, s.d, x, s.other)) == PathFoot(fs) + Foot(x);
  }

  lemma {:induction false} StepDown(h: map<Node, Cell>, fs: seq<Step>, x: Tree, d: nat)
    requires ZipOk(h, fs, x) && x.Bin? && d <= 1
    ensures var s := Step(x.n, d, Side(x, 1 - d), Balance(x));
            && ZipOk(h, fs + [s], Side(x, d))
            && Plug(fs + [s], Side(x, d)) == Plug(fs, x)
            && (Avl(x) && Balanced(fs, Height(x)) ==> Balanced(fs + [s], Height(Side(x, d))) && Avl(Side(x, d)))
  {
    hide Linked, PathLinked, Foot, PathFoot, Plug, Balanced;
    var s := Step(x.n, d, Side(x, 1 - d), Balance(x));
    var gs, y := fs + [s], Side(x, d);
    assert Init(gs) == fs && Last(gs) == s;
    assert Make(s.n, d, y, s.other) == x;
    LinkedMake(h, s.n, d, y, s.other, UpNode(fs), UpIndex(fs));
    PathParts(h, gs, Root(y));
    MakeFoot(s.n, d, y, s.other);
    assert PathFoot(gs) + Foot(y) == PathFoot(fs) + Foot(x);
    PlugStep(gs, y);
  }

  lemma {:induction false} PlugStep(fs: seq<Step>, x: Tree)
    requires fs != []
    ensures Plug(fs, x) == Plug(Init(fs), Make(Last(fs).n, Last(fs).d, x, Last(fs).other))
    ensures forall k: nat ::
              Balanced(fs, k) <==> StepBalanced(Last(fs), k) && Balanced(Init(fs), 1 + Max(k, Height(Last(fs).other)))
  {
  }

  lemma {:induction false} PlugView(fs: seq<Step>, x: Tree)
    ensures Inorder(Plug(fs, x)) == Before(fs) + Inorder(x) + After(fs)
    ensures Foot(Plug(fs, x)) == PathFoot(fs) + Foot(x)
    ensures Root(Plug(fs, x)) == TopNode(fs, Root(x))
    decreases |fs|
  {
    if fs != [] {
      var s := Last(fs);
      MakeFoot(s.n, s.d, x, s.other);
      MakeInorder(s.n, s.d, x, s.other);
      PlugView(Init(fs), Make(s.n, s.d, x, s.other));
      PlugGroup(Before(Init(fs)), Inorder(x), s.n, Inorder(s.other), After(Init(fs)));
    }
  }

  lemma {:induction false} PlugGroup(b: seq<Node>, x: seq<Node>, n: Node, o: seq<Node>, a: seq<Node>)
    ensures b + (x + [n] + o) + a == (b + []) + x + (([n] + o) + a)
    ensures b + (o + [n] + x) + a == (b + (o + [n])) + x + ([] + a)
  {
  }

  /** Once the heights above are right again, the whole tree is linked and balanced. */
  lemma {:induction false} PlugOk(h: map<Node, Cell>, fs: seq<Step>, x: Tree)
    requires ZipOk(h, fs, x) && Avl(x) && Balanced(fs, Height(x))
    ensures ZipOk(h, [], Plug(fs, x)) && Avl(Plug(fs, x))
    decreases |fs|
  {
    hide Linked, PathLinked, Foot, PathFoot;
    if fs != [] {
      var s := Last(fs);
      StepUp(h, fs, x);
      PlugOk(h, Init(fs), Make(s.n, s.d, x, s.other));
    }
  }

  // ---- height and size

  function Fib(n: nat): nat { if n < 2 then n else Fib(n - 1) + Fib(n - 2) }

  lemma {:induction false} FibMono(m: nat, n: nat)
    requires m <= n
    ensures Fib(m) <= Fib(n)
    decreases n
  {
    if m < n { FibMono(m, n - 1); }
  }

  /** A balanced tree of height k has at least Fib(k + 2) - 1 nodes. */
  lemma {:induction false} MinimalSize(t: Tree)
    requires Avl(t)
    ensures |Inorder(t)| >= Fib(Height(t) + 2) - 1
  {
    hide Fib, Inorder, Height, Avl;
    TreeSides(t);
    if t.Bin? {
      MinimalSize(t.l);
      MinimalSize(t.r);
      var k := Height(t);
      FibMono(k, Height(t.l) + 2);
      FibMono(k, Height(t.r) + 2);
      FibStep(k);
    } else {
      FibSmall();
    }
  }

  lemma {:induction false} TreeSides(t: Tree)
    requires Avl(t)
    ensures t.Leaf? ==> Height(t) == 0
    ensures t.Bin? ==>
              && Avl(t.l) && Avl(t.r) && |Inorder(t)| == |Inorder(t.l)| + 1 + |Inorder(t.r)|
              && Height(t) <= Height(t.l) + 2 && Height(t) <= Height(t.r) + 2
              && (Height(t) == Height(t.l) + 1 || Height(t) == Height(t.r) + 1)
  {
  }

  lemma {:induction false} FibStep(k: nat)
    ensures Fib(k + 2) == Fib(k + 1) + Fib(k)
  {
  }

  lemma {:induction false} FibSmall()
    ensures Fib(2) == 1
  {
  }
}
