/** Removing a node from an AVL tree, as a recursion on the tree: what avl_remove does in place, along the links. */
module AvlDelete {
  import opened AvlShape
  import opened AvlRotate
  import opened AvlEdit
  import opened AvlRemove

  /** Node n over subtree x, on side d, that may have got lower, and subtree o: rotated if o is now two levels
      higher. */
  function Rejoin(n: Node, d: nat, x: Tree, o: Tree): Tree
    requires d <= 1
  {
    if Height(o) == Height(x) + 2 then Rotated(n, 1 - d, o, x) else Make(n, d, x, o)
  }

  /** The tree without its last node along side d. */
  function LessEnd(t: Tree, d: nat): Tree
    requires d <= 1
  {
    if t.Leaf? then t
    else if Side(t, d).Leaf? then Side(t, 1 - d)
    else Rejoin(t.n, d, LessEnd(Side(t, d), d), Side(t, 1 - d))
  }

  /** The side from which a node with two children gets its replacement: the right one only if it is higher. */
  function TallSide(t: Tree): (d: nat)
    ensures d <= 1
  {
    if t.Bin? && Height(t.r) > Height(t.l) then 1 else 0
  }

  /** What a node records tells the higher side. */
  lemma {:induction false} TallBalance(t: Tree)
    requires t.Bin? && Avl(t)
    ensures TallSide(t) == if Balance(t) == 1 then 1 else 0
  {
  }

  /** The tree without node v. */
  function Less(t: Tree, v: Node): Tree {
    if t.Leaf? then t
    else if t.n == v then
      if t.l.Leaf? then t.r
      else if t.r.Leaf? then t.l
      else
        var d := TallSide(t);
        var e := End(Side(t, d), 1 - d);
        Rejoin(if e.Bin? then e.n else t.n, d, LessEnd(Side(t, d), 1 - d), Side(t, 1 - d))
    else if v in Foot(t.l) then Rejoin(t.n, 0, Less(t.l, v), t.r)
    else Rejoin(t.n, 1, Less(t.r, v), t.l)
  }

  /** The tree above subtree x, put together again from below. */
  function Climb(fs: seq<Step>, x: Tree): Tree
    requires forall s | s in fs :: s.d <= 1
    decreases |fs|
  {
    if fs == [] then x
    else
      var s := Last(fs);
      assert s in fs;
      assert forall r | r in Init(fs) :: r in fs;
      Climb(Init(fs), Rejoin(s.n, s.d, x, s.other))
  }

  lemma {:induction false} ClimbStep(fs: seq<Step>, x: Tree)
    requires fs != [] && forall s | s in fs :: s.d <= 1
    ensures Last(fs).d <= 1 && (forall s | s in Init(fs) :: s.d <= 1)
    ensures Climb(fs, x) == Climb(Init(fs), Rejoin(Last(fs).n, Last(fs).d, x, Last(fs).other))
  {
    assert Last(fs) in fs;
    assert forall r | r in Init(fs) :: r in fs;
  }

  lemma {:induction false} BalancedSides(fs: seq<Step>, k: nat)
    requires Balanced(fs, k)
    ensures forall s | s in fs :: s.d <= 1
    decreases |fs|
  {
    if fs != [] {
      BalancedSides(Init(fs), 1 + Max(k, Height(Last(fs).other)));
      assert fs == Init(fs) + [Last(fs)];
    }
  }

  /** Above a subtree of the height it had nothing changes. */
  lemma {:induction false} ClimbStill(fs: seq<Step>, x: Tree)
    requires Balanced(fs, Height(x))
    ensures (forall s | s in fs :: s.d <= 1) && Climb(fs, x) == Plug(fs, x)
    decreases |fs|
  {
    hide Height;
    BalancedSides(fs, Height(x));
    if fs != [] {
      var s := Last(fs);
      ClimbStep(fs, x);
      MakeHeight(s.n, s.d, x, s.other);
      ClimbStill(Init(fs), Make(s.n, s.d, x, s.other));
    }
  }

  /** One step up, by what the node above recorded when the subtree was k high. */
  lemma {:induction false} ClimbShrunk(fs: seq<Step>, x: Tree, k: nat)
    requires fs != [] && Balanced(fs, k) && Height(x) + 1 == k
    ensures forall s | s in fs :: s.d <= 1
    ensures var s := Last(fs);
            && s.d <= 1 && (forall r | r in Init(fs) :: r.d <= 1)
            && Climb(fs, x) == Climb(Init(fs), if s.bal == -Heavy(s.d) then Rotated(s.n, 1 - s.d, s.other, x)
                                               else Make(s.n, s.d, x, s.other))
  {
    hide Height, Climb;
    BalancedSides(fs, k);
    ClimbStep(fs, x);
  }

  lemma {:induction false} LessMake(n: Node, d: nat, a: Tree, b: Tree, v: Node)
    requires d <= 1 && v != n && v in Foot(a) && v !in Foot(b)
    ensures Less(Make(n, d, a, b), v) == Rejoin(n, d, Less(a, v), b)
  {
    hide Foot, Height;
  }

  /** Removing a node below is removing it from its subtree, and putting the tree above together again. */
  lemma {:induction false} LessPlug(fs: seq<Step>, x: Tree, v: Node)
    requires v in Foot(x) && NoDup(Foot(Plug(fs, x))) && forall s | s in fs :: s.d <= 1
    ensures Less(Plug(fs, x), v) == Climb(fs, Less(x, v))
    decreases |fs|
  {
    hide Foot, Less, Height;
    if fs != [] {
      var s := Last(fs);
      var y := Make(s.n, s.d, x, s.other);
      ClimbStep(fs, Less(x, v));
      PlugStep(fs, x);
      PlugView(Init(fs), y);
      MakeFoot(s.n, s.d, x, s.other);
      assert v in Foot(y);
      ApartBelow(PathFoot(Init(fs)), s.n, Foot(x), Foot(s.other), v);
      LessPlug(Init(fs), y, v);
      LessMake(s.n, s.d, x, s.other, v);
    }
  }

  lemma {:induction false} ApartBelow(c: multiset<Node>, n: Node, a: multiset<Node>, b: multiset<Node>, v: Node)
    requires NoDup(c + (multiset{n} + a + b)) && v in a
    ensures v != n && v !in b
  {
    var m := c + (multiset{n} + a + b);
    assert m[v] <= 1;
  }

  /** A node with one child at most. */
  lemma {:induction false} LessHere(y: Tree, side: nat)
    requires y.Bin? && side <= 1 && Side(y, 1 - side).Leaf?
    ensures Less(y, y.n) == Side(y, side)
  {
    hide Foot, Height;
  }

  /** Removing the placeholder removes the last node along that side. */
  lemma {:induction false} LessStand(a: Tree, d: nat, n: Node)
    requires d <= 1 && a.Bin? && n !in Foot(a) && NoDup(Foot(a))
    ensures Less(Stand(a, d, n), n) == LessEnd(a, d)
    decreases a
  {
    hide Foot, Height, NoDup, Make, Rejoin;
    var u, o := Side(a, d), Side(a, 1 - d);
    MakeSelf(a, d);
    MakeFoot(a.n, d, u, o);
    if u.Leaf? {
      StandLeaf(a, d, n);
      MakeSides(n, d, Leaf, o);
      LessHere(Make(n, d, Leaf, o), 1 - d);
    } else {
      NoDupPart(a.n, Foot(u), Foot(o));
      LessStand(u, d, n);
      StandView(u, d, n);
      FootLeaf();
      assert n in Foot(Stand(u, d, n)) by {
        assert n in Foot(Stand(u, d, n)) + multiset{End(u, d).n};
        assert End(u, d).n in Foot(u);
      }
      LessMake(a.n, d, Stand(u, d, n), o, n);
    }
  }

  lemma {:induction false} StandLeaf(a: Tree, d: nat, n: Node)
    requires d <= 1 && a.Bin? && Side(a, d).Leaf?
    ensures Stand(a, d, n) == Make(n, d, Leaf, Side(a, 1 - d)) && LessEnd(a, d) == Side(a, 1 - d)
  {
  }

  lemma {:induction false} MakeSides(n: Node, d: nat, a: Tree, b: Tree)
    requires d <= 1
    ensures var t := Make(n, d, a, b); t.Bin? && t.n == n && Side(t, d) == a && Side(t, 1 - d) == b
  {
  }

  lemma {:induction false} FootLeaf()
    ensures Foot(Leaf) == multiset{}
  {
  }

  lemma {:induction false} NoDupPart(n: Node, a: multiset<Node>, b: multiset<Node>)
    requires NoDup(multiset{n} + a + b)
    ensures NoDup(a) && NoDup(b) && n !in a && n !in b && forall v | v in a :: v !in b
  {
    var m := multiset{n} + a + b;
    assert m[n] <= 1;
    forall v | v in a ensures a[v] <= 1 && v !in b { assert m[v] <= 1; }
    forall v | v in b ensures b[v] <= 1 { assert m[v] <= 1; }
  }

  /** A node with two children: its replacement in its place, and the placeholder out. */
  lemma {:induction false} LessInner(x: Tree, tmp: Node)
    requires x.Bin? && x.l.Bin? && x.r.Bin? && NoDup(Foot(x)) && tmp !in Foot(x)
    ensures var d := TallSide(x); var a, b := Side(x, d), Side(x, 1 - d); var e := End(a, 1 - d);
            && e.Bin? && Less(Make(e.n, d, Stand(a, 1 - d, tmp), b), tmp) == Less(x, x.n)
  {
    hide Foot, Height, NoDup, Make, Rejoin, TallSide, LessEnd, Stand, End;
    var d := TallSide(x);
    var a, b := Side(x, d), Side(x, 1 - d);
    MakeSelf(x, d);
    MakeFoot(x.n, d, a, b);
    NoDupPart(x.n, Foot(a), Foot(b));
    StandView(a, 1 - d, tmp);
    var e := End(a, 1 - d);
    LessStand(a, 1 - d, tmp);
    assert tmp in Foot(Stand(a, 1 - d, tmp)) by {
      assert tmp in Foot(Stand(a, 1 - d, tmp)) + multiset{e.n};
    }
    LessMake(e.n, d, Stand(a, 1 - d, tmp), b, tmp);
  }

  lemma {:induction false} RejoinHeight(n: Node, d: nat, x: Tree, o: Tree)
    requires d <= 1 && Avl(x) && Avl(o) && -1 <= Height(o) - Height(x) <= 2
    ensures var t := Rejoin(n, d, x, o);
            Avl(t) && Max(Height(x), Height(o)) <= Height(t) <= 1 + Max(Height(x), Height(o))
    ensures Height(o) <= Height(x) + 1 ==>
              Rejoin(n, d, x, o) == Make(n, d, x, o) && Height(Rejoin(n, d, x, o)) == 1 + Max(Height(x), Height(o))
  {
    hide Height, Avl, Rotated;
    MakeAvl(n, d, x, o);
    if Height(o) == Height(x) + 2 { RotatedOk(n, 1 - d, o, x); }
  }

  /** Taking a node out makes a balanced tree at most one level lower, and keeps it balanced. */
  lemma {:induction false} LessEndHeight(t: Tree, d: nat)
    requires d <= 1 && t.Bin? && Avl(t)
    ensures Avl(LessEnd(t, d)) && Height(t) - 1 <= Height(LessEnd(t, d)) <= Height(t)
  {
    hide Height, Rejoin, Avl;
    var u, o := Side(t, d), Side(t, 1 - d);
    MakeSelf(t, d);
    MakeAvl(t.n, d, u, o);
    LeafHeight();
    if u.Bin? {
      LessEndHeight(u, d);
      RejoinHeight(t.n, d, LessEnd(u, d), o);
    }
  }

  lemma {:induction false} LeafHeight()
    ensures Height(Leaf) == 0 && Avl(Leaf)
  {
  }

  /** A node with two children is replaced by its neighbour in order on the higher side (the one before, if they are of
      equal height), and that is where the neighbour stays: no rotation is due there. */
  lemma {:induction false} Replacement(t: Tree)
    requires Avl(t) && t.Bin? && t.l.Bin? && t.r.Bin?
    ensures |Inorder(t.l)| > 0 && |Inorder(t.r)| > 0
    ensures Root(Less(t, t.n)) == if Height(t.r) > Height(t.l) then Inorder(t.r)[0]
                                  else Inorder(t.l)[|Inorder(t.l)| - 1]
    ensures if Height(t.r) > Height(t.l) then Side(Less(t, t.n), 0) == t.l else Side(Less(t, t.n), 1) == t.r
  {
    hide Height, Avl, Rejoin, LessEnd, Inorder;
    var d := TallSide(t);
    var a, b := Side(t, d), Side(t, 1 - d);
    MakeSelf(t, d);
    MakeAvl(t.n, d, a, b);
    LessEndHeight(a, 1 - d);
    StandOrder(a, 1 - d, t.n);
    StandOrder(b, d, t.n);
    RejoinHeight(End(a, 1 - d).n, d, LessEnd(a, 1 - d), b);
    MakeSides(End(a, 1 - d).n, d, LessEnd(a, 1 - d), b);
  }

  // ---- what avl_remove knows on its way up

  lemma {:induction false} ShrunkSides(h: Heap, fs: seq<Step>, x: Tree, k: nat)
    requires Shrunk(h, fs, x, k)
    ensures forall s | s in fs :: s.d <= 1
  {
    hide ZipOk;
    BalancedSides(fs, k);
  }

  lemma {:induction false} ShrunkClimb(h: Heap, fs: seq<Step>, x: Tree, k: nat)
    requires Shrunk(h, fs, x, k) && UpNode(fs) != null
    ensures fs != [] && forall s | s in fs :: s.d <= 1
    ensures var s := Last(fs);
            && s.d <= 1 && (forall r | r in Init(fs) :: r.d <= 1)
            && Climb(fs, x) == Climb(Init(fs), if s.bal == -Heavy(s.d) then Rotated(s.n, 1 - s.d, s.other, x)
                                               else Make(s.n, s.d, x, s.other))
  {
    hide ZipOk, Climb, Height;
    ClimbShrunk(fs, x, k);
  }

  lemma {:induction false} FootRoot(y: Tree)
    ensures y.Bin? ==> y.n in Foot(y)
  {
  }

  /** The tree with the placeholder, without the placeholder. */
  lemma {:induction false} InnerLess(fs: seq<Step>, x: Tree, left: nat, tmp: Node, s: set<Node>)
    requires x.Bin? && x.l.Bin? && x.r.Bin? && left == TallSide(x) && NoDup(Foot(Plug(fs, x)))
    requires Owns(s, Plug(fs, x)) && tmp !in s && Balanced(fs, Height(x))
    ensures var a := Side(x, left);
            && End(a, 1 - left).Bin?
            && var z := Make(End(a, 1 - left).n, left, Stand(a, 1 - left, tmp), Side(x, 1 - left));
               NoDup(Foot(Plug(fs, z))) && Less(Plug(fs, z), tmp) == Less(Plug(fs, x), x.n)
  {
    hide Plug, Foot, Less, Make, Stand, End, Side, Height, Climb, TallSide, NoDup, Balanced;
    var a, b := Side(x, left), Side(x, 1 - left);
    BalancedSides(fs, Height(x));
    InnerStart(fs, x, left);
    PlugView(fs, x);
    OwnsFoot(s, Plug(fs, x), tmp);
    BelowPath(PathFoot(fs), Foot(x));
    LessInner(x, tmp);
    FootRoot(x);
    LessPlug(fs, x, x.n);
    StandView(a, 1 - left, tmp);
    var z := Make(End(a, 1 - left).n, left, Stand(a, 1 - left, tmp), b);
    PlugView(fs, z);
    MakeFoot(x.n, left, a, b);
    MakeFoot(End(a, 1 - left).n, left, Stand(a, 1 - left, tmp), b);
    StandNoDup(PathFoot(fs), x.n, Foot(a), Foot(b), End(a, 1 - left).n, Foot(Stand(a, 1 - left, tmp)), tmp);
    LessPlug(fs, z, tmp);
  }

  lemma {:induction false} BelowPath(c: multiset<Node>, m: multiset<Node>)
    requires NoDup(c + m)
    ensures NoDup(m)
  {
    forall v | v in m ensures m[v] <= 1 { assert (c + m)[v] <= 1; }
  }

  lemma {:induction false} OwnsFoot(s: set<Node>, t: Tree, n: Node)
    requires Owns(s, t) && n !in s
    ensures n !in Foot(t)
  {
    InorderFoot(t);
  }

  lemma {:induction false} StandNoDup(c: multiset<Node>, n: Node, a: multiset<Node>, b: multiset<Node>, e: Node,
      a': multiset<Node>, tmp: Node)
    requires NoDup(c + (multiset{n} + a + b)) && tmp !in c + (multiset{n} + a + b)
    requires a' + multiset{e} == a + multiset{tmp} && e in a
    ensures NoDup(c + (multiset{e} + a' + b)) && tmp in multiset{e} + a' + b
  {
    var m, m' := c + (multiset{n} + a + b), c + (multiset{e} + a' + b);
    assert m' + multiset{n} == m + multiset{tmp} by {
      assert multiset{e} + a' == a + multiset{tmp};
    }
    forall v | v in m' ensures m'[v] <= 1 {
      assert (m' + multiset{n})[v] == (m + multiset{tmp})[v];
      if v in m { assert m[v] <= 1; }
    }
    assert tmp in a + multiset{tmp};
    assert tmp in a' + multiset{e};
  }
}
