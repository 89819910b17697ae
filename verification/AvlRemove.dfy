/** Removing a node: the placeholder that stands in for a node with two children, the detached node,
    and the way back up. */
module AvlRemove {
  import opened AvlShape
  import opened AvlRotate
  import opened AvlEdit

  /** Any node of the tree is where some path ends. */
  lemma {:induction false} Locate(h: Heap, fs0: seq<Step>, x0: Tree, v: Node) returns (fs: seq<Step>, x: Tree)
    requires ZipOk(h, fs0, x0) && Avl(x0) && Balanced(fs0, Height(x0)) && v in Foot(x0)
    ensures ZipOk(h, fs, x) && Avl(x) && Balanced(fs, Height(x)) && x.Bin? && x.n == v
    ensures Plug(fs, x) == Plug(fs0, x0) && TopNode(fs, Root(x)) == TopNode(fs0, Root(x0))
    decreases x0
  {
    hide ZipOk, Avl, Balanced, Height, Plug;
    if x0.n == v {
      return fs0, x0;
    }
    var d := if v in Foot(x0.l) then 0 else 1;
    StepDown(h, fs0, x0, d);
    DownView(fs0, x0, d);
    AvlHeight(x0);
    fs, x := Locate(h, fs0 + [Step(x0.n, d, Side(x0, 1 - d), Balance(x0))], Side(x0, d), v);
  }

  lemma {:induction false} AvlHeight(x: Tree)
    ensures Avl(x) && x.Bin? ==> Avl(x.l) && Avl(x.r)
  {
  }

  // ---- taking out a node that has at most one child

  function Detached(h: Heap, c: Node?, p: Node?, ix: nat): Heap { SetKid(SetUp(h, c, p, ix), p, ix, c) }

  /** The only child of node d, or nothing, takes its place. */
  lemma {:induction false} DetachOk(h: Heap, fs: seq<Step>, y: Tree, side: nat)
    requires ZipOk(h, fs, y) && y.Bin? && side <= 1 && Side(y, 1 - side).Leaf?
    ensures var c := Side(y, side);
            && y.n in h && h[y.n].parent == UpNode(fs) && h[y.n].index == UpIndex(fs)
            && h[y.n].child.At(side) == Root(c) && h[y.n].child.At(1 - side) == null
            && (Root(c) != null ==> Root(c) in h) && (UpNode(fs) != null ==> UpNode(fs) in h)
            && ZipOk(Detached(h, Root(c), UpNode(fs), UpIndex(fs)), fs, c)
            && y.n !in PathFoot(fs) + Foot(c)
  {
    hide Linked, PathLinked, Foot, PathFoot, NoDup, Height, Make;
    var c := Side(y, side);
    var p, ix := UpNode(fs), UpIndex(fs);
    var h' := Detached(h, Root(c), p, ix);
    assert y == Make(y.n, side, c, Leaf) by { MakeSelf(y, side); }
    LinkedMake(h, y.n, side, c, Leaf, p, ix);
    MakeFoot(y.n, side, c, Leaf);
    UpIn(h, fs, y.n);
    Roots(h, c, y.n, side);
    DetachApart(PathFoot(fs), y.n, Foot(c), Foot(Leaf));
    HungOne(h, h', c, p, ix, PathFoot(fs));
    LinkedHung(h, h', c, y.n, side, p, ix);
    PathSides(h, fs, y.n, Root(c));
    PointedOne(h, h', fs, Root(c), Foot(c));
    PathPointed(h, h', fs, y.n, Root(c));
  }

  lemma {:induction false} MakeSelf(y: Tree, side: nat)
    requires y.Bin? && side <= 1
    ensures y == Make(y.n, side, Side(y, side), Side(y, 1 - side))
  {
  }

  lemma {:induction false} Roots(h: Heap, t: Tree, p: Node?, ix: nat)
    requires Linked(h, t, p, ix)
    ensures Root(t) != null ==> Root(t) in h && Root(t) in Foot(t)
  {
  }

  lemma {:induction false} DetachApart(c: multiset<Node>, n: Node, a: multiset<Node>, b: multiset<Node>)
    requires NoDup(c + (multiset{n} + a + b))
    ensures n !in c + a && NoDup(a) && NoDup(c) && NoDup(c + a) && forall v | v in c :: v !in a
  {
    var m := c + (multiset{n} + a + b);
    assert m[n] <= 1;
    forall v | v in c ensures v !in a && c[v] <= 1 { assert m[v] <= 1; }
    forall v | v in a ensures a[v] <= 1 { assert m[v] <= 1; }
    forall v | v in c + a ensures (c + a)[v] <= 1 { assert m[v] <= 1; }
  }

  lemma {:induction false} HungOne(h: Heap, h': Heap, c: Tree, p: Node?, ix: nat, path: multiset<Node>)
    requires h' == Detached(h, Root(c), p, ix) && (p != null ==> p in path) && forall v | v in path :: v !in Foot(c)
    requires Root(c) != null ==> Root(c) in h && Root(c) in Foot(c)
    ensures Hung(h, h', c, p, ix)
  {
    hide Foot;
  }

  lemma {:induction false} PointedOne(h: Heap, h': Heap, fs: seq<Step>, c: Node?, foot: multiset<Node>)
    requires h' == Detached(h, c, UpNode(fs), UpIndex(fs)) && (c != null ==> c in foot)
        && forall v | v in PathFoot(fs) :: v !in foot
    requires fs != [] ==> Last(fs).n in PathFoot(fs) && Last(fs).n in h
    requires fs != [] ==> h[Last(fs).n].child.With(Last(fs).d, c) == Sides(Last(fs).d, c, Root(Last(fs).other))
    ensures Pointed(h, h', fs, c)
  {
    hide PathFoot;
  }

  // ---- the placeholder

  /** The last subtree along side d: its root has no child there. */
  function End(t: Tree, d: nat): Tree {
    if t.Leaf? || Side(t, d).Leaf? then t else End(Side(t, d), d)
  }

  /** The tree with node n in place of the last node along side d. */
  function Stand(t: Tree, d: nat, n: Node): Tree
    requires d <= 1
  {
    if t.Leaf? then t
    else if Side(t, d).Leaf? then Make(n, d, Leaf, Side(t, 1 - d))
    else Make(t.n, d, Stand(Side(t, d), d, n), Side(t, 1 - d))
  }

  lemma {:induction false} StandView(t: Tree, d: nat, n: Node)
    requires d <= 1 && t.Bin?
    ensures var s, e := Stand(t, d, n), End(t, d);
            && s.Bin? && e.Bin? && Side(e, d).Leaf?
            && Height(s) == Height(t) && (Avl(t) ==> Avl(s))
            && Foot(s) + multiset{e.n} == Foot(t) + multiset{n} && e.n in Foot(t)
            && (if Side(t, d).Leaf? then Root(s) == n && e == t else Root(s) == t.n)
  {
    hide Height, Avl, Foot, Make;
    var u, o := Side(t, d), Side(t, 1 - d);
    MakeSelf(t, d);
    MakeAvl(t.n, d, u, o);
    MakeFoot(t.n, d, u, o);
    if u.Leaf? {
      MakeAvl(n, d, Leaf, o);
      MakeFoot(n, d, Leaf, o);
      MakeHeight(n, d, Leaf, o);
    } else {
      StandView(u, d, n);
      MakeAvl(t.n, d, Stand(u, d, n), o);
      MakeFoot(t.n, d, Stand(u, d, n), o);
      MakeHeight(t.n, d, Stand(u, d, n), o);
      assert multiset{t.n} + Foot(Stand(u, d, n)) + Foot(o) + multiset{End(t, d).n}
          == multiset{t.n} + (Foot(Stand(u, d, n)) + multiset{End(t, d).n}) + Foot(o);
    }
  }

  /** The nodes in order, but for the last one along side d. */
  function ButEnd(t: Tree, d: nat): seq<Node> {
    if t.Leaf? then []
    else if d == 1 then Inorder(t.l) + if t.r.Leaf? then [] else [t.n] + ButEnd(t.r, d)
    else (if t.l.Leaf? then [] else ButEnd(t.l, d) + [t.n]) + Inorder(t.r)
  }

  function WithEnd(i: seq<Node>, d: nat, n: Node): seq<Node> { if d == 1 then i + [n] else [n] + i }

  lemma {:induction false} StandOrder(t: Tree, d: nat, n: Node)
    requires d <= 1 && t.Bin?
    ensures End(t, d).Bin? && Inorder(t) == WithEnd(ButEnd(t, d), d, End(t, d).n)
    ensures Inorder(Stand(t, d, n)) == WithEnd(ButEnd(t, d), d, n)
  {
    hide Inorder;
    var u, o := Side(t, d), Side(t, 1 - d);
    MakeSelf(t, d);
    MakeInorder(t.n, d, u, o);
    InorderLeaf();
    if u.Leaf? {
      MakeInorder(n, d, Leaf, o);
    } else {
      StandOrder(u, d, n);
      MakeInorder(t.n, d, Stand(u, d, n), o);
      StandGroup(Inorder(o), t.n, ButEnd(u, d), End(u, d).n);
      StandGroup(Inorder(o), t.n, ButEnd(u, d), n);
    }
  }

  lemma {:induction false} InorderLeaf()
    ensures Inorder(Leaf) == []
  {
  }

  lemma {:induction false} StandGroup(o: seq<Node>, m: Node, i: seq<Node>, n: Node)
    ensures o + [m] + (i + [n]) == (o + ([m] + i)) + [n]
    ensures ([n] + i) + [m] + o == [n] + ((i + [m]) + o)
  {
  }

  // ---- putting the placeholder in

  /** avl_remove: node takes the place of d, with the placeholder below it if node was d's child. */
  function Placed1(h: Heap, d: Node, node: Node, tmp: Node, left: nat): Heap
    requires d in h && node in h
  {
    var h2 := h[tmp := h[node]][node := h[d]];
    var h3 := if h2[node].child.At(left) == node then SetKid(h2, node, left, tmp) else h2;
    SetKid(h3, h[d].parent, h[d].index, node)
  }

  /** The children of d get node for a parent. */
  function Placed2(h: Heap, node: Node, left: nat): Heap
    requires left <= 1 && node in h
  {
    var h5 := SetParent(h, h[node].child.At(left), node);
    SetParent(h5, if node in h5 then h5[node].child.At(1 - left) else null, node)
  }

  /** The placeholder takes the place of node. */
  function Placed3(h: Heap, tmp: Node): Heap
    requires tmp in h
  {
    var h7 := SetKid(h, h[tmp].parent, h[tmp].index, tmp);
    if tmp !in h7 then h7
    else SetParent(h7, h7[tmp].child.At(if h7[tmp].child.right != null then 1 else 0), tmp)
  }

  function Placed(h: Heap, d: Node, node: Node, tmp: Node, left: nat): Heap
    requires left <= 1 && d in h && node in h
  {
    var h4 := Placed1(h, d, node, tmp, left);
    if node in h4 && tmp in h4 then
      var h6 := Placed2(h4, node, left);
      if tmp in h6 then Placed3(h6, tmp) else h6
    else h4
  }

  /** What the updates start from: `first` is the child of d on side left, `other` its other child, `up`
      the parent of node, and `kid` the child node has, if any. */
  predicate Placing(h: Heap, d: Node, node: Node, tmp: Node, left: nat, first: Node, other: Node, up: Node,
      kid: Node?) {
    var p := if d in h then h[d].parent else null;
    && left <= 1 && d in h && node in h && tmp !in h && first in h && other in h && up in h
        && (kid != null ==> kid in h) && (p != null ==> p in h)
    && h[d].child == Sides(left, first, other) && h[d].index <= 1
    && h[node].child == Sides(left, kid, null) && h[node].parent == up && h[node].index <= 1
    && d != node && d != first && d != other && d != kid && d != p
    && node != other && node != up && node != kid && node != p
    && first != other && first != kid && first != p
    && other != up && other != kid && other != p
    && up != kid && up != p && (kid != null ==> kid != p)
    && (first == node <==> up == d) && (up == d ==> h[node].index == left)
  }

  lemma {:induction false} Placed1Cells(h: Heap, d: Node, node: Node, tmp: Node, left: nat, first: Node, other: Node,
      up: Node, kid: Node?)
    requires Placing(h, d, node, tmp, left, first, other, up, kid)
    ensures var h' := Placed1(h, d, node, tmp, left); var p := h[d].parent;
            && h'.Keys == h.Keys + {tmp}
            && h'[tmp] == h[node]
            && h'[node] == h[d].(child := Sides(left, if up == d then tmp else first, other))
            && (p != null ==> h'[p] == h[p].(child := h[p].child.With(h[d].index, node)))
            && forall v | v in h && v != node && v != p :: h'[v] == h[v]
  {
  }

  lemma {:induction false} Placed2Cells(h: Heap, node: Node, left: nat, a: Node, b: Node)
    requires left <= 1 && node in h && a in h && b in h && a != b && node != a && node != b
        && h[node].child == Sides(left, a, b)
    ensures var h' := Placed2(h, node, left);
            && h'.Keys == h.Keys
            && h'[a] == h[a].(parent := node) && h'[b] == h[b].(parent := node)
            && forall v | v in h && v != a && v != b :: h'[v] == h[v]
  {
  }

  lemma {:induction false} Placed3Cells(h: Heap, tmp: Node, left: nat, up: Node, kid: Node?)
    requires left <= 1 && tmp in h && up in h && up != tmp && (kid != null ==> kid in h && kid != up && kid != tmp)
    requires h[tmp].parent == up && h[tmp].child == Sides(left, kid, null)
    ensures var h' := Placed3(h, tmp);
            && h'.Keys == h.Keys
            && h'[up] == h[up].(child := h[up].child.With(h[tmp].index, tmp))
            && (kid != null ==> h'[kid] == h[kid].(parent := tmp))
            && forall v | v in h && v != up && v != kid :: h'[v] == h[v]
  {
  }

  /** Node was a child of d. */
  lemma {:induction false} PlacedNear(h: Heap, d: Node, node: Node, tmp: Node, left: nat, other: Node, kid: Node?)
    requires Placing(h, d, node, tmp, left, node, other, d, kid)
    ensures var h' := Placed(h, d, node, tmp, left); var p := h[d].parent;
            && h'.Keys == h.Keys + {tmp}
            && h'[tmp] == h[node].(parent := node)
            && h'[node] == h[d].(child := Sides(left, tmp, other))
            && h'[other] == h[other].(parent := node)
            && (kid != null ==> h'[kid] == h[kid].(parent := tmp))
            && (p != null ==> h'[p] == h[p].(child := h[p].child.With(h[d].index, node)))
            && forall v | v in h && v != node && v != other && v != kid && v != p :: h'[v] == h[v]
  {
    hide Placed1, Placed2, Placed3;
    Placed1Cells(h, d, node, tmp, left, node, other, d, kid);
    var h4 := Placed1(h, d, node, tmp, left);
    Placed2Cells(h4, node, left, tmp, other);
    var h6 := Placed2(h4, node, left);
    Placed3Cells(h6, tmp, left, node, kid);
  }

  /** Node was further down. */
  lemma {:induction false} PlacedFar(h: Heap, d: Node, node: Node, tmp: Node, left: nat, first: Node, other: Node,
      up: Node, kid: Node?)
    requires Placing(h, d, node, tmp, left, first, other, up, kid) && up != d
    ensures var h' := Placed(h, d, node, tmp, left); var p := h[d].parent;
            && h'.Keys == h.Keys + {tmp}
            && h'[tmp] == h[node]
            && h'[node] == h[d]
            && h'[other] == h[other].(parent := node)
            && h'[first] == (if first == up
                             then h[first].(child := h[up].child.With(h[node].index, tmp))
                             else h[first]).(parent := node)
            && (up != first ==> h'[up] == h[up].(child := h[up].child.With(h[node].index, tmp)))
            && (kid != null ==> h'[kid] == h[kid].(parent := tmp))
            && (p != null ==> h'[p] == h[p].(child := h[p].child.With(h[d].index, node)))
            && forall v | v in h && v != node && v != first && v != other && v != up && v != kid
                && v != p :: h'[v] == h[v]
  {
    hide Placed1, Placed2, Placed3;
    Placed1Cells(h, d, node, tmp, left, first, other, up, kid);
    var h4 := Placed1(h, d, node, tmp, left);
    Placed2Cells(h4, node, left, first, other);
    var h6 := Placed2(h4, node, left);
    Placed3Cells(h6, tmp, left, up, kid);
  }

  /** The last node along side d, as it is linked. */
  lemma {:induction false} EndLinked(h: Heap, t: Tree, d: nat, p: Node?, ix: nat)
    requires Linked(h, t, p, ix) && t.Bin? && d <= 1 && NoDup(Foot(t))
    ensures var e := End(t, d); var k := Root(Side(e, 1 - d));
            && e.Bin? && e.n in h && e.n in Foot(t) && Side(e, d).Leaf?
            && h[e.n].child == Sides(1 - d, k, null)
            && (k != null ==> k in h && k in Foot(t) && k != e.n && k != t.n)
            && (if Side(t, d).Leaf? then e == t && h[e.n].parent == p && h[e.n].index == ix
                else h[e.n].index == d && h[e.n].parent != null && h[e.n].parent in Foot(t) && h[e.n].parent in h
                     && h[e.n].parent != e.n && h[e.n].parent != k && e.n != t.n)
  {
    hide Linked, Foot, NoDup, Balance, Make;
    var u, o := Side(t, d), Side(t, 1 - d);
    MakeSelf(t, d);
    LinkedMake(h, t.n, d, u, o, p, ix);
    MakeFoot(t.n, d, u, o);
    Parts(t.n, Foot(u), Foot(o));
    Roots(h, o, t.n, 1 - d);
    if u.Bin? {
      EndLinked(h, u, d, t.n, d);
    }
  }

  lemma {:induction false} Parts(n: Node, a: multiset<Node>, b: multiset<Node>)
    requires NoDup(multiset{n} + a + b)
    ensures n !in a && n !in b && NoDup(a) && NoDup(b) && forall v | v in a :: v !in b
  {
    var m := multiset{n} + a + b;
    assert m[n] <= 1;
    forall v | v in a ensures a[v] <= 1 && v !in b { assert m[v] <= 1; }
    forall v | v in b ensures b[v] <= 1 { assert m[v] <= 1; }
  }

  /** What the placeholder changes inside a subtree whose root keeps its parent. */
  ghost predicate Stood(h: Heap, h': Heap, t: Tree, d: nat, tmp: Node, p: Node?) {
    d <= 1 &&
    var e := End(t, d);
    var k := if e.Bin? then Root(Side(e, 1 - d)) else null;
    e.Bin? && e.n in h && tmp in h' && h'[tmp] == h[e.n].(parent := if Side(t, d).Leaf? then p else h[e.n].parent)
    && (k != null && k in h ==> k in h' && h'[k] == h[k].(parent := tmp))
    && (!Side(t, d).Leaf? && h[e.n].parent != null && h[e.n].parent in h ==>
          h[e.n].parent in h' && h'[h[e.n].parent] == h[h[e.n].parent].(child := h[h[e.n].parent].child.With(d, tmp)))
    && forall v | v in Foot(t) && v in h && v != e.n && v != k && (Side(t, d).Leaf? || v != h[e.n].parent) :: v in h'
        && h'[v] == h[v]
  }

  lemma {:induction false} StoodLinked(h: Heap, h': Heap, t: Tree, d: nat, tmp: Node, p: Node?, ix: nat, p': Node?)
    requires Linked(h, t, p, ix) && t.Bin? && NoDup(Foot(t)) && Stood(h, h', t, d, tmp, p')
        && (Side(t, d).Bin? ==> p' == p)
    ensures Linked(h', Stand(t, d, tmp), p', ix)
  {
    hide Linked, Foot, NoDup, Height, Make;
    var u, o := Side(t, d), Side(t, 1 - d);
    EndLinked(h, t, d, p, ix);
    MakeSelf(t, d);
    LinkedMake(h, t.n, d, u, o, p, ix);
    MakeFoot(t.n, d, u, o);
    Parts(t.n, Foot(u), Foot(o));
    if u.Leaf? {
      LinkedMake(h', tmp, d, Leaf, o, p', ix);
      LinkedLeaf(h', Leaf, tmp, d);
      if o.Bin? { LinkedParts(h, o, t.n, 1 - d); }
      LinkedMoved(h, h', o, t.n, 1 - d, tmp, 1 - d);
    } else {
      StoodBelow(h, h', t, d, tmp, p, ix);
      StandView(u, d, tmp);
      StoodLinked(h, h', u, d, tmp, t.n, d, t.n);
      LinkedFrame(h, h', o, t.n, 1 - d);
      LinkedMake(h', t.n, d, Stand(u, d, tmp), o, p, ix);
    }
  }

  lemma {:induction false} StoodBelow(h: Heap, h': Heap, t: Tree, d: nat, tmp: Node, p: Node?, ix: nat)
    requires Linked(h, t, p, ix) && t.Bin? && NoDup(Foot(t)) && Stood(h, h', t, d, tmp, p) && Side(t, d).Bin?
    ensures var u, o := Side(t, d), Side(t, 1 - d);
            && t.n in h && t.n in h' && h'[t.n] == h[t.n].(child := h[t.n].child.With(d, Root(Stand(u, d, tmp))))
            && Agree(h, h', Foot(o)) && Stood(h, h', u, d, tmp, t.n)
  {
    hide Linked, Foot, NoDup, Height, Make;
    var u, o := Side(t, d), Side(t, 1 - d);
    EndLinked(h, t, d, p, ix);
    MakeSelf(t, d);
    LinkedMake(h, t.n, d, u, o, p, ix);
    MakeFoot(t.n, d, u, o);
    Parts(t.n, Foot(u), Foot(o));
    EndLinked(h, u, d, t.n, d);
    StandView(u, d, tmp);
    assert h[t.n].child.With(d, u.n) == h[t.n].child;
  }

  // ---- the tree with the placeholder in it

  /** Where avl_remove goes from a node d with subtrees a and b: to the end of a on the side towards d. */
  lemma {:induction false} PlacingOk(h: Heap, fs: seq<Step>, d: Node, left: nat, a: Tree, b: Tree, tmp: Node)
    requires ZipOk(h, fs, Make(d, left, a, b)) && left <= 1 && a.Bin? && b.Bin? && tmp !in h
    ensures var e := End(a, 1 - left);
            && e.Bin? && e.n in h && h[e.n].parent != null && d in h && h[d].parent == UpNode(fs)
                && h[d].index == UpIndex(fs) <= 1
            && Placing(h, d, e.n, tmp, left, a.n, b.n, h[e.n].parent, Root(Side(e, left)))
            && (Side(a, 1 - left).Leaf? <==> h[e.n].parent == d)
            && (Side(a, 1 - left).Leaf? ==> e == a)
  {
    hide Linked, PathLinked, Foot, PathFoot, NoDup, Height, Make;
    LinkedMake(h, d, left, a, b, UpNode(fs), UpIndex(fs));
    MakeFoot(d, left, a, b);
    TwoApart(PathFoot(fs), d, Foot(a), Foot(b));
    UpIn(h, fs, Root(Make(d, left, a, b)));
    Roots(h, a, d, left);
    Roots(h, b, d, 1 - left);
    EndLinked(h, a, 1 - left, d, left);
  }

  lemma {:induction false} TwoApart(c: multiset<Node>, n: Node, a: multiset<Node>, b: multiset<Node>)
    requires NoDup(c + (multiset{n} + a + b))
    ensures n !in c && n !in a && n !in b && NoDup(a) && NoDup(b) && NoDup(c)
    ensures (forall v | v in c :: v !in a && v !in b) && (forall v | v in a :: v !in b)
  {
    var m := c + (multiset{n} + a + b);
    assert m[n] <= 1;
    forall v | v in c ensures v !in a && v !in b && c[v] <= 1 { assert m[v] <= 1; }
    forall v | v in a ensures a[v] <= 1 && v !in b { assert m[v] <= 1; }
    forall v | v in b ensures b[v] <= 1 { assert m[v] <= 1; }
  }

  /** What changed where, once the placeholder is in: around d, */
  lemma {:induction false} PlacedAround(h: Heap, fs: seq<Step>, d: Node, left: nat, a: Tree, b: Tree, tmp: Node)
    requires ZipOk(h, fs, Make(d, left, a, b)) && left <= 1 && a.Bin? && b.Bin? && tmp !in h
    ensures var e := End(a, 1 - left);
            && e.Bin? && d in h && e.n in h
            && var h' := Placed(h, d, e.n, tmp, left);
            && h'.Keys == h.Keys + {tmp}
            && h'[e.n] == h[d].(child := Sides(left, Root(Stand(a, 1 - left, tmp)), b.n))
            && Hung(h, h', b, e.n, 1 - left) && Pointed(h, h', fs, e.n)
  {
    hide Linked, PathLinked, Foot, PathFoot, NoDup, Height, Make, Placed, Stand;
    PlacingOk(h, fs, d, left, a, b, tmp);
    LinkedMake(h, d, left, a, b, UpNode(fs), UpIndex(fs));
    MakeFoot(d, left, a, b);
    TwoApart(PathFoot(fs), d, Foot(a), Foot(b));
    MakeHeight(d, left, a, b);
    UpIn(h, fs, d);
    PathSides(h, fs, d, End(a, 1 - left).n);
    Roots(h, b, d, 1 - left);
    Roots(h, a, d, left);
    LinkedParts(h, b, d, 1 - left);
    EndLinked(h, a, 1 - left, d, left);
    StandView(a, 1 - left, tmp);
    var e := End(a, 1 - left);
    if Side(a, 1 - left).Leaf? {
      PlacedNear(h, d, e.n, tmp, left, b.n, Root(Side(e, left)));
    } else {
      PlacedFar(h, d, e.n, tmp, left, a.n, b.n, h[e.n].parent, Root(Side(e, left)));
    }
  }

  /** in the subtree a, when the node was its root, */
  lemma {:induction false} PlacedAtRoot(h: Heap, fs: seq<Step>, d: Node, left: nat, a: Tree, b: Tree, tmp: Node)
    requires ZipOk(h, fs, Make(d, left, a, b)) && left <= 1 && a.Bin? && b.Bin? && tmp !in h && Side(a, 1 - left).Leaf?
    ensures var e := End(a, 1 - left);
            && e.Bin? && d in h && e.n in h
            && Stood(h, Placed(h, d, e.n, tmp, left), a, 1 - left, tmp, e.n)
  {
    hide Linked, PathLinked, Foot, PathFoot, NoDup, Height, Make, Placed;
    PlacingOk(h, fs, d, left, a, b, tmp);
    LinkedMake(h, d, left, a, b, UpNode(fs), UpIndex(fs));
    MakeFoot(d, left, a, b);
    TwoApart(PathFoot(fs), d, Foot(a), Foot(b));
    MakeHeight(d, left, a, b);
    UpIn(h, fs, d);
    Roots(h, b, d, 1 - left);
    EndLinked(h, a, 1 - left, d, left);
    PlacedNear(h, d, a.n, tmp, left, b.n, Root(Side(a, left)));
  }

  /** What there is to know when it was further down: how the nodes concerned lie apart. */
  lemma {:induction false} FarApart(h: Heap, fs: seq<Step>, d: Node, left: nat, a: Tree, b: Tree, tmp: Node)
    requires ZipOk(h, fs, Make(d, left, a, b)) && left <= 1 && a.Bin? && b.Bin? && tmp !in h && Side(a, 1 - left).Bin?
    ensures var right := 1 - left; var e, u, o := End(a, right), Side(a, right), Side(a, left);
            && e.Bin? && e.n in h && h[e.n].parent != null && e == End(u, right) && e.n in Foot(u)
            && Placing(h, d, e.n, tmp, left, a.n, b.n, h[e.n].parent, Root(Side(e, left))) && h[e.n].parent != d
            && (Root(Side(e, left)) != null ==> Root(Side(e, left)) in Foot(u))
            && (if Side(u, right).Leaf? then h[e.n].parent == a.n else h[e.n].parent in Foot(u) && h[e.n].parent != a.n)
            && h[e.n].index == right
            && h[a.n].child.At(right) == u.n
            && (forall v | v in Foot(u) :: v != d && v != a.n && v != b.n && v != h[d].parent)
            && (forall v | v in Foot(o) :: v != d && v != a.n && v != b.n && v != h[d].parent)
            && (forall v | v in Foot(u) :: v !in Foot(o))
  {
    hide Linked, PathLinked, Foot, PathFoot, NoDup, Height, Make;
    var right := 1 - left;
    var u, o := Side(a, right), Side(a, left);
    PlacingOk(h, fs, d, left, a, b, tmp);
    LinkedMake(h, d, left, a, b, UpNode(fs), UpIndex(fs));
    MakeFoot(d, left, a, b);
    TwoApart(PathFoot(fs), d, Foot(a), Foot(b));
    MakeHeight(d, left, a, b);
    UpIn(h, fs, d);
    Roots(h, b, d, right);
    MakeSelf(a, right);
    LinkedMake(h, a.n, right, u, o, d, left);
    MakeFoot(a.n, right, u, o);
    Parts(a.n, Foot(u), Foot(o));
    EndLinked(h, u, right, a.n, right);
  }

  /** and when it was further down. */
  lemma {:induction false} PlacedBelow(h: Heap, fs: seq<Step>, d: Node, left: nat, a: Tree, b: Tree, tmp: Node)
    requires ZipOk(h, fs, Make(d, left, a, b)) && left <= 1 && a.Bin? && b.Bin? && tmp !in h && Side(a, 1 - left).Bin?
    ensures var e, u := End(a, 1 - left), Side(a, 1 - left);
            && e.Bin? && d in h && e.n in h && a.n in h
            && var h' := Placed(h, d, e.n, tmp, left);
            && a.n in h' && h'[a.n] == h[a.n].(parent := e.n,
                child := h[a.n].child.With(1 - left, Root(Stand(u, 1 - left, tmp))))
            && Agree(h, h', Foot(Side(a, left))) && Stood(h, h', u, 1 - left, tmp, a.n)
  {
    hide ZipOk, Foot, Make, Placed;
    FarApart(h, fs, d, left, a, b, tmp);
    var right := 1 - left;
    var u := Side(a, right);
    var e := End(a, right);
    PlacedFar(h, d, e.n, tmp, left, a.n, b.n, h[e.n].parent, Root(Side(e, left)));
    StandView(u, right, tmp);
    assert h[a.n].child.With(right, u.n) == h[a.n].child;
  }

  lemma {:induction false} StandLinked(h: Heap, fs: seq<Step>, d: Node, left: nat, a: Tree, b: Tree, tmp: Node)
    requires ZipOk(h, fs, Make(d, left, a, b)) && left <= 1 && a.Bin? && b.Bin? && tmp !in h
    ensures var e := End(a, 1 - left);
            e.Bin? && d in h && e.n in h && Linked(Placed(h, d, e.n, tmp, left), Stand(a, 1 - left, tmp), e.n, left)
  {
    hide Linked, Foot, NoDup, PathLinked, PathFoot, Height, Make, Placed, Stood;
    var right := 1 - left;
    var e, u, o := End(a, right), Side(a, right), Side(a, left);
    PlacingOk(h, fs, d, left, a, b, tmp);
    var h' := Placed(h, d, e.n, tmp, left);
    LinkedMake(h, d, left, a, b, UpNode(fs), UpIndex(fs));
    MakeFoot(d, left, a, b);
    TwoApart(PathFoot(fs), d, Foot(a), Foot(b));
    if u.Leaf? {
      PlacedAtRoot(h, fs, d, left, a, b, tmp);
      StoodLinked(h, h', a, right, tmp, d, left, e.n);
    } else {
      PlacedBelow(h, fs, d, left, a, b, tmp);
      MakeSelf(a, right);
      MakeFoot(a.n, right, u, o);
      Parts(a.n, Foot(u), Foot(o));
      LinkedMake(h, a.n, right, u, o, d, left);
      StoodLinked(h, h', u, right, tmp, a.n, right, a.n);
      LinkedFrame(h, h', o, a.n, left);
      StandView(u, right, tmp);
      LinkedMake(h', a.n, right, Stand(u, right, tmp), o, e.n, left);
    }
  }

  /** The tree with the placeholder is linked. */
  lemma {:induction false} PlacedOk(h: Heap, fs: seq<Step>, d: Node, left: nat, a: Tree, b: Tree, tmp: Node)
    requires ZipOk(h, fs, Make(d, left, a, b)) && left <= 1 && a.Bin? && b.Bin? && tmp !in h
    ensures var e := End(a, 1 - left);
            && e.Bin? && d in h && e.n in h && d in Placed(h, d, e.n, tmp, left)
            && Placed(h, d, e.n, tmp, left).Keys == h.Keys + {tmp}
            && ZipOk(Placed(h, d, e.n, tmp, left) - {d}, fs, Make(e.n, left, Stand(a, 1 - left, tmp), b))
  {
    hide Linked, Foot, NoDup, PathLinked, PathFoot, Height, Make, Placed, Hung, Pointed;
    var e, s := End(a, 1 - left), Stand(a, 1 - left, tmp);
    PlacedAround(h, fs, d, left, a, b, tmp);
    var h' := Placed(h, d, e.n, tmp, left);
    LinkedMake(h, d, left, a, b, UpNode(fs), UpIndex(fs));
    MakeFoot(d, left, a, b);
    MakeHeight(d, left, a, b);
    TwoApart(PathFoot(fs), d, Foot(a), Foot(b));
    StandLinked(h, fs, d, left, a, b, tmp);
    StandView(a, 1 - left, tmp);
    LinkedHung(h, h', b, d, 1 - left, e.n, 1 - left);
    LinkedMake(h', e.n, left, s, b, UpNode(fs), UpIndex(fs));
    MakeHeight(e.n, left, s, b);
    PathPointed(h, h', fs, d, e.n);
    MakeFoot(e.n, left, s, b);
    PlacedFoot(h, fs, d, left, a, b, tmp);
    ZipDrop(h', fs, Make(e.n, left, s, b), d);
  }

  lemma {:induction false} PlacedFoot(h: Heap, fs: seq<Step>, d: Node, left: nat, a: Tree, b: Tree, tmp: Node)
    requires ZipOk(h, fs, Make(d, left, a, b)) && left <= 1 && a.Bin? && b.Bin? && tmp !in h
    ensures var e, s := End(a, 1 - left), Stand(a, 1 - left, tmp);
            && e.Bin? && NoDup(PathFoot(fs) + (multiset{e.n} + Foot(s) + Foot(b)))
            && d !in PathFoot(fs) + (multiset{e.n} + Foot(s) + Foot(b))
            && tmp !in PathFoot(fs) + (multiset{d} + Foot(a) + Foot(b)) && tmp != d
  {
    hide Linked, Foot, PathLinked, PathFoot, Height, Make;
    var e, s := End(a, 1 - left), Stand(a, 1 - left, tmp);
    StandView(a, 1 - left, tmp);
    MakeFoot(d, left, a, b);
    LinkedMake(h, d, left, a, b, UpNode(fs), UpIndex(fs));
    if tmp in Foot(a) { LinkedIn(h, a, d, left, tmp); }
    if tmp in Foot(b) { LinkedIn(h, b, d, 1 - left, tmp); }
    if tmp in PathFoot(fs) { PathIn(h, fs, Root(Make(d, left, a, b)), tmp); }
    PlacedCount(PathFoot(fs), d, Foot(a), Foot(b), tmp, e.n, Foot(s));
  }

  lemma {:induction false} PlacedCount(c: multiset<Node>, d: Node, a: multiset<Node>, b: multiset<Node>, tmp: Node,
      e: Node, s: multiset<Node>)
    requires NoDup(c + (multiset{d} + a + b)) && tmp !in c && tmp != d && tmp !in a && tmp !in b
        && s + multiset{e} == a + multiset{tmp}
    ensures NoDup(c + (multiset{e} + s + b)) && d !in c + (multiset{e} + s + b)
  {
    var m, m' := c + (multiset{d} + a + b), c + (multiset{e} + s + b);
    assert m' == c + (s + multiset{e}) + b;
    assert m[d] <= 1;
    forall v | v in m' ensures m'[v] <= 1 {
      if v != tmp { assert m[v] <= 1; }
    }
  }

  lemma {:induction false} ZipDrop(h: Heap, fs: seq<Step>, x: Tree, v: Node)
    requires ZipOk(h, fs, x) && v !in PathFoot(fs) + Foot(x)
    ensures ZipOk(h - {v}, fs, x)
  {
    hide Linked, Foot, PathLinked, PathFoot;
    LinkedFrame(h, h - {v}, x, UpNode(fs), UpIndex(fs));
    PathFrame(h, h - {v}, fs, Root(x));
  }

  // ---- the order of the nodes

  /** The sequence without node v. */
  function Without(s: seq<Node>, v: Node): seq<Node> {
    if s == [] then [] else if s[0] == v then Without(s[1..], v) else [s[0]] + Without(s[1..], v)
  }

  lemma {:induction false} WithoutAppend(a: seq<Node>, b: seq<Node>, v: Node)
    ensures Without(a + b, v) == Without(a, v) + Without(b, v)
  {
    if a == [] {
      assert a + b == b;
    } else {
      assert (a + b)[1..] == a[1..] + b;
      WithoutAppend(a[1..], b, v);
    }
  }

  lemma {:induction false} WithoutNone(a: seq<Node>, v: Node)
    requires v !in a
    ensures Without(a, v) == a
  {
    if a != [] { WithoutNone(a[1..], v); }
  }

  lemma {:induction false} WithoutOne(a: seq<Node>, v: Node, b: seq<Node>)
    requires v !in a && v !in b
    ensures Without(a + [v] + b, v) == a + b
  {
    WithoutAppend(a + [v], b, v);
    WithoutAppend(a, [v], v);
    WithoutNone(a, v);
    WithoutNone(b, v);
    assert Without([v], v) == [];
  }

  /** Removal keeps the nodes in order. */
  lemma {:induction false} WithoutOrdered(s: seq<Node>, v: Node)
    requires Ordered(s)
    ensures Ordered(Without(s, v))
    ensures forall n | n in Without(s, v) :: n in s && n != v
    ensures forall n | n in s && n != v :: n in Without(s, v)
    decreases |s|
  {
    if s != [] {
      var t := s[1..];
      assert Ordered(t);
      WithoutOrdered(t, v);
      forall n | n in t ensures s[0].key < n.key { var i :| 0 <= i < |t| && t[i] == n; assert s[i + 1] == n; }
      var w := Without(s, v);
      if s[0] != v {
        forall i, j | 0 <= i < j < |w| ensures w[i].key < w[j].key {
          assert w[j] == Without(t, v)[j - 1];
          if i > 0 { assert w[i] == Without(t, v)[i - 1]; } else { assert w[j] in t; }
        }
      }
    }
  }

  lemma {:induction false} WithoutInner(p: seq<Node>, x: seq<Node>, q: seq<Node>, v: Node)
    requires v !in p && v !in q
    ensures Without(p + x + q, v) == p + Without(x, v) + q
  {
    hide Without;
    WithoutAppend(p + x, q, v);
    WithoutAppend(p, x, v);
    WithoutNone(p, v);
    WithoutNone(q, v);
  }

  /** The placeholder stands where the neighbour of d was, and the neighbour where d was. */
  lemma {:induction false} PlacedOrder(fs: seq<Step>, d: Node, left: nat, a: Tree, b: Tree, tmp: Node)
    requires left <= 1 && a.Bin? && NoDup(Foot(Plug(fs, Make(d, left, a, b))))
        && tmp !in Foot(Plug(fs, Make(d, left, a, b)))
    ensures var e, s := End(a, 1 - left), Stand(a, 1 - left, tmp);
            e.Bin? && Without(Inorder(Plug(fs, Make(e.n, left, s, b))), tmp)
                == Without(Inorder(Plug(fs, Make(d, left, a, b))), d)
  {
    hide Inorder, Plug, Make, Before, After, Foot, NoDup, Without;
    StandOrder(a, 1 - left, tmp);
    var e, s := End(a, 1 - left), Stand(a, 1 - left, tmp);
    var x, y := Make(d, left, a, b), Make(e.n, left, s, b);
    PlugView(fs, x);
    PlugView(fs, y);
    InorderFoot(Plug(fs, x));
    OnceOnly(Before(fs), Inorder(x), After(fs), d, tmp);
    PlacedInner(d, left, a, b, tmp);
    WithoutInner(Before(fs), Inorder(x), After(fs), d);
    WithoutInner(Before(fs), Inorder(y), After(fs), tmp);
  }

  lemma {:induction false} OnceOnly(p: seq<Node>, x: seq<Node>, q: seq<Node>, d: Node, tmp: Node)
    requires NoDup(multiset(p + x + q)) && tmp !in multiset(p + x + q)
    ensures d in x ==> d !in p && d !in q
    ensures tmp !in p && tmp !in x && tmp !in q && NoDup(multiset(x))
  {
    var m := multiset(p + x + q);
    assert m == multiset(p) + multiset(x) + multiset(q);
    assert d in m ==> m[d] <= 1;
    forall v | v in multiset(x) ensures multiset(x)[v] <= 1 { assert m[v] <= 1; }
  }

  lemma {:induction false} PlacedInner(d: Node, left: nat, a: Tree, b: Tree, tmp: Node)
    requires left <= 1 && a.Bin?
    requires var x := Inorder(Make(d, left, a, b)); NoDup(multiset(x)) && tmp !in x
    ensures var e, s := End(a, 1 - left), Stand(a, 1 - left, tmp);
            e.Bin? && Without(Inorder(Make(e.n, left, s, b)), tmp) == Without(Inorder(Make(d, left, a, b)), d)
    ensures d in Inorder(Make(d, left, a, b))
  {
    hide Inorder, Make, Without, NoDup, ButEnd, End, Stand;
    if left == 0 {
      StandOrder(a, 1, tmp);
      MakeInorder(d, 0, a, b);
      MakeInorder(End(a, 1).n, 0, Stand(a, 1, tmp), b);
      PlacedLeft(ButEnd(a, 1), End(a, 1).n, d, tmp, Inorder(b));
    } else {
      StandOrder(a, 0, tmp);
      MakeInorder(d, 1, a, b);
      MakeInorder(End(a, 0).n, 1, Stand(a, 0, tmp), b);
      PlacedRight(ButEnd(a, 0), End(a, 0).n, d, tmp, Inorder(b));
    }
  }

  lemma {:induction false} PlacedLeft(i: seq<Node>, e: Node, d: Node, tmp: Node, j: seq<Node>)
    requires var x := (i + [e]) + [d] + j; NoDup(multiset(x)) && tmp !in x
    ensures Without((i + [tmp]) + [e] + j, tmp) == Without((i + [e]) + [d] + j, d)
    ensures d in (i + [e]) + [d] + j
  {
    hide Without;
    var x := (i + [e]) + [d] + j;
    assert multiset(x) == multiset(i + [e]) + multiset{d} + multiset(j);
    assert multiset(x)[d] <= 1;
    WithoutOne(i + [e], d, j);
    WithoutOne(i, tmp, [e] + j);
    assert (i + [tmp]) + [e] + j == i + [tmp] + ([e] + j);
    assert forall v | v in i || v in j :: v in x;
    assert e in x by { assert x[|i|] == e; }
  }

  lemma {:induction false} PlacedRight(i: seq<Node>, e: Node, d: Node, tmp: Node, j: seq<Node>)
    requires var x := j + [d] + ([e] + i); NoDup(multiset(x)) && tmp !in x
    ensures Without(j + [e] + ([tmp] + i), tmp) == Without(j + [d] + ([e] + i), d)
    ensures d in j + [d] + ([e] + i)
  {
    hide Without;
    var x := j + [d] + ([e] + i);
    assert multiset(x) == multiset(j) + multiset{d} + multiset([e] + i);
    assert multiset(x)[d] <= 1;
    WithoutOne(j, d, [e] + i);
    WithoutOne(j + [e], tmp, i);
    assert j + [e] + ([tmp] + i) == (j + [e]) + [tmp] + i;
    assert j + ([e] + i) == (j + [e]) + i;
    assert forall v | v in i || v in j :: v in x;
    assert e in x by { assert x[|j| + 1] == e; }
  }

  lemma {:induction false} DetachedOrder(fs: seq<Step>, y: Tree, side: nat)
    requires y.Bin? && side <= 1 && Side(y, 1 - side).Leaf? && NoDup(Foot(Plug(fs, y)))
    ensures Before(fs) + Inorder(Side(y, side)) + After(fs) == Without(Inorder(Plug(fs, y)), y.n)
  {
    hide Plug, Make, Before, After, Foot, NoDup, Without, Inorder;
    PlugView(fs, y);
    InorderFoot(Plug(fs, y));
    InorderLeaf();
    MakeSelf(y, side);
    MakeInorder(y.n, side, Side(y, side), Leaf);
    var i, p, q := Inorder(Side(y, side)), Before(fs), After(fs);
    if side == 0 {
      assert p + (i + [y.n] + []) + q == (p + i) + [y.n] + q;
      DetachedSeq(p + i, y.n, q);
    } else {
      assert p + ([] + [y.n] + i) + q == p + [y.n] + (i + q);
      DetachedSeq(p, y.n, i + q);
      assert p + i + q == p + (i + q);
    }
  }

  lemma {:induction false} DetachedSeq(a: seq<Node>, n: Node, b: seq<Node>)
    requires NoDup(multiset(a + [n] + b))
    ensures Without(a + [n] + b, n) == a + b
  {
    assert multiset(a + [n] + b)[n] <= 1;
    WithoutOne(a, n, b);
  }

  // ---- the way back up

  /** The state of the loop of avl_remove: the subtree x below has lost a level; it had k. */
  ghost predicate Shrunk(h: Heap, fs: seq<Step>, x: Tree, k: nat) {
    ZipOk(h, fs, x) && Avl(x) && Height(x) + 1 == k && Balanced(fs, k)
  }

  /** A node in balance leans now, and is as high as before. */
  lemma {:induction false} ShrunkStop(h: Heap, fs: seq<Step>, x: Tree, k: nat)
    requires Shrunk(h, fs, x, k) && fs != [] && Last(fs).bal == 0
    ensures var s := Last(fs); var y := Make(s.n, s.d, x, s.other);
            && s.n in h && ZipOk(SetBalance(h, s.n, -Heavy(s.d)), Init(fs), y) && Avl(y)
                && Balanced(Init(fs), Height(y))
  {
    hide ZipOk, Height, Avl;
    var s := Last(fs);
    ZipAtStart(h, fs, x);
    ZipAtDone(h, Init(fs), s.n, s.d, x, s.other);
    MakeAvl(s.n, s.d, x, s.other);
    PlugStep(fs, x);
  }

  /** A node that leant this way is in balance now, and one level lower. */
  lemma {:induction false} ShrunkEven(h: Heap, fs: seq<Step>, x: Tree, k: nat)
    requires Shrunk(h, fs, x, k) && fs != [] && Last(fs).bal == Heavy(Last(fs).d)
    ensures var s := Last(fs); var y := Make(s.n, s.d, x, s.other);
            s.n in h && Shrunk(SetBalance(h, s.n, 0), Init(fs), y, k + 1)
  {
    hide ZipOk, Height, Avl;
    var s := Last(fs);
    ZipAtStart(h, fs, x);
    ZipAtDone(h, Init(fs), s.n, s.d, x, s.other);
    MakeAvl(s.n, s.d, x, s.other);
    PlugStep(fs, x);
  }

  /** A node that leant the other way needs a rotation; afterwards the subtree is one level lower, or as
      high as before. */
  lemma {:induction false} ShrunkTilted(h: Heap, fs: seq<Step>, x: Tree, k: nat)
    requires Shrunk(h, fs, x, k) && fs != [] && Last(fs).bal == -Heavy(Last(fs).d)
    ensures var s := Last(fs); var y := Rotated(s.n, 1 - s.d, s.other, x);
            && s.d <= 1 && ZipAt(h, Init(fs), s.n, 1 - s.d, s.other, x) && Tilted(s.other, x)
            && Inorder(y) == Inorder(Make(s.n, s.d, x, s.other))
            && (if Balance(s.other) != 0
                then Height(y) == Height(s.other) && Balanced(Init(fs), Height(y) + 1)
                else Balanced(Init(fs), Height(y)))
  {
    hide ZipOk, Height, Avl, ZipAt, Rotated;
    var s := Last(fs);
    ZipAtStart(h, fs, x);
    ZipAtFlip(h, Init(fs), s.n, s.d, x, s.other);
    PlugStep(fs, x);
    RotatedOk(s.n, 1 - s.d, s.other, x);
  }

  // ---- facts for the operation

  lemma {:induction false} ShrunkAt(h: Heap, fs: seq<Step>, x: Tree, k: nat)
    requires Shrunk(h, fs, x, k) && UpNode(fs) != null
    ensures fs != [] && Last(fs).n == UpNode(fs) && Last(fs).n in h && h[Last(fs).n].balance == Last(fs).bal
        && UpIndex(fs) == Last(fs).d <= 1
    ensures -1 <= Last(fs).bal <= 1 && h[Last(fs).n].parent == UpNode(Init(fs))
        && h[Last(fs).n].index == UpIndex(Init(fs))
  {
    hide ZipOk;
    ZipAtStart(h, fs, x);
  }

  lemma {:induction false} ShrunkTop(h: Heap, fs: seq<Step>, x: Tree, k: nat)
    requires Shrunk(h, fs, x, k) && UpNode(fs) == null
    ensures ZipOk(h, fs, x) && Avl(x) && Balanced(fs, Height(x))
  {
  }

  lemma {:induction false} ShrunkAgain(h: Heap, fs: seq<Step>, x: Tree)
    requires ZipOk(h, fs, x) && Avl(x) && Balanced(fs, Height(x) + 1)
    ensures Shrunk(h, fs, x, Height(x) + 1)
  {
  }

  lemma {:induction false} ShrunkStart(h: Heap, fs: seq<Step>, x: Tree, k: nat)
    requires ZipOk(h, fs, x) && Avl(x) && Balanced(fs, k) && Height(x) + 1 == k
    ensures Shrunk(h, fs, x, k)
  {
  }

  lemma {:induction false} DetachedHeight(h: Heap, fs: seq<Step>, y: Tree, side: nat)
    requires y.Bin? && Avl(y) && side <= 1 && Side(y, 1 - side).Leaf?
    ensures Avl(Side(y, side)) && Height(Side(y, side)) + 1 == Height(y)
  {
  }

  lemma {:induction false} RemoveStart(h: Heap, t: Tree, s: set<Node>, data: Node)
    requires ZipOk(h, [], t) && Owns(s, t) && data in s
    ensures data in Foot(t) && NoDup(Foot(t)) && Balanced([], Height(t)) && Plug([], t) == t
        && TopNode([], Root(t)) == Root(t)
    ensures |Inorder(t)| > 0
  {
    InorderFoot(t);
    assert PathFoot([]) + Foot(t) == Foot(t);
    assert data in multiset(Inorder(t));
  }

  lemma {:induction false} RemoveHere(h: Heap, fs: seq<Step>, x: Tree)
    requires ZipOk(h, fs, x) && x.Bin?
    ensures x.n in h && h[x.n] == Cell(Pair(Root(x.l), Root(x.r)), UpNode(fs), UpIndex(fs), Balance(x))
    ensures Side(x, 0) == x.l && Side(x, 1) == x.r && (Root(x.l) == null <==> x.l.Leaf?)
        && (Root(x.r) == null <==> x.r.Leaf?)
  {
  }

  lemma {:induction false} RemovedOwns(s: set<Node>, t: Tree, n: Node, u: Tree)
    requires Owns(s, t) && n in s && NoDup(Foot(t)) && Inorder(u) == Without(Inorder(t), n)
    ensures Owns(s - {n}, u) && |Inorder(u)| == |Inorder(t)| - 1
  {
    hide Inorder;
    InorderFoot(t);
    InorderFoot(u);
    WithoutCount(Inorder(t), n);
    OwnsLess(s, t, n, u);
  }

  lemma {:induction false} WithoutCount(s: seq<Node>, n: Node)
    requires NoDup(multiset(s)) && n in s
    ensures multiset(Without(s, n)) + multiset{n} == multiset(s) && |Without(s, n)| == |s| - 1
  {
    hide Without;
    var i :| 0 <= i < |s| && s[i] == n;
    assert s == s[..i] + [n] + s[i + 1..];
    assert multiset(s) == multiset(s[..i]) + multiset{n} + multiset(s[i + 1..]);
    assert multiset(s)[n] <= 1;
    WithoutOne(s[..i], n, s[i + 1..]);
    assert multiset(s[..i] + s[i + 1..]) == multiset(s[..i]) + multiset(s[i + 1..]);
  }

  lemma {:induction false} InnerStart(fs: seq<Step>, x: Tree, left: nat)
    requires x.Bin? && left <= 1
    ensures x == Make(x.n, left, Side(x, left), Side(x, 1 - left))
    ensures x.l.Bin? && x.r.Bin? ==> Side(x, left).Bin? && Side(x, 1 - left).Bin?
  {
  }

  /** The tree with the placeholder: its heights are the same. */
  lemma {:induction false} InnerPlaced(fs: seq<Step>, x: Tree, left: nat, tmp: Node, s: set<Node>)
    requires left <= 1 && x.Bin? && x.l.Bin? && x.r.Bin? && Avl(x) && Balanced(fs, Height(x)) && Owns(s, Plug(fs, x))
        && tmp !in s && NoDup(Foot(Plug(fs, x)))
    ensures var a, b := Side(x, left), Side(x, 1 - left);
            && End(a, 1 - left).Bin?
            && var z := Make(End(a, 1 - left).n, left, Stand(a, 1 - left, tmp), b);
            && Avl(z) && Balanced(fs, Height(z)) && Height(z) == Height(x)
            && Without(Inorder(Plug(fs, z)), tmp) == Without(Inorder(Plug(fs, x)), x.n)
            && tmp in Foot(Plug(fs, z))
  {
    hide Avl, Height, Balanced, Owns, Plug, Foot, Inorder, Make, Without;
    var a, b := Side(x, left), Side(x, 1 - left);
    InnerStart(fs, x, left);
    StandView(a, 1 - left, tmp);
    var e, t := End(a, 1 - left), Stand(a, 1 - left, tmp);
    MakeAvl(x.n, left, a, b);
    MakeAvl(e.n, left, t, b);
    NotOwned(s, Plug(fs, x), tmp);
    PlacedOrder(fs, x.n, left, a, b, tmp);
    PlugView(fs, Make(e.n, left, t, b));
    MakeFoot(e.n, left, t, b);
    StandIn(a, 1 - left, tmp);
  }

  lemma {:induction false} NotOwned(s: set<Node>, t: Tree, n: Node)
    requires Owns(s, t) && n !in s
    ensures n !in Foot(t)
  {
  }

  lemma {:induction false} StandIn(t: Tree, d: nat, n: Node)
    requires d <= 1 && t.Bin?
    ensures n in Foot(Stand(t, d, n))
  {
    if Side(t, d).Bin? {
      StandIn(Side(t, d), d, n);
      MakeFoot(t.n, d, Stand(Side(t, d), d, n), Side(t, 1 - d));
    } else {
      MakeFoot(n, d, Leaf, Side(t, 1 - d));
    }
  }

  lemma {:induction false} InnerTree(h: Heap, fs: seq<Step>, z: Tree)
    requires ZipOk(h, fs, z) && Avl(z) && Balanced(fs, Height(z))
    ensures var t := Plug(fs, z);
            && ZipOk(h, [], t) && Avl(t) && Balanced([], Height(t)) && NoDup(Foot(t)) && Root(t) == TopNode(fs, Root(z))
                && Plug([], t) == t
            && TopNode([], Root(t)) == Root(t)
  {
    hide ZipOk, Avl;
    PlugOk(h, fs, z);
    PlugView(fs, z);
    TopFoot(h, Plug(fs, z));
  }

  lemma {:induction false} TopFoot(h: Heap, t: Tree)
    requires ZipOk(h, [], t)
    ensures NoDup(Foot(t))
  {
    assert PathFoot([]) + Foot(t) == Foot(t);
  }

  /** The placeholder has no child on the side it came from. */
  lemma {:induction false} InnerEnd(h: Heap, fs: seq<Step>, x: Tree, left: nat, tmp: Node, gs: seq<Step>, y: Tree)
    requires left <= 1 && x.Bin? && x.l.Bin? && x.r.Bin? && y.Bin? && y.n == tmp && ZipOk(h, gs, y)
    requires End(Side(x, left), 1 - left).Bin?
    requires ZipOk(h, fs, Make(End(Side(x, left), 1 - left).n, left, Stand(Side(x, left), 1 - left, tmp),
        Side(x, 1 - left)))
    ensures Side(y, 1 - left).Leaf?
  {
    hide ZipOk, Make;
    var a, b := Side(x, left), Side(x, 1 - left);
    StandCell(h, fs, End(a, 1 - left).n, left, a, b, tmp);
    RemoveHere(h, gs, y);
  }

  lemma {:induction false} StandCell(h: Heap, fs: seq<Step>, n: Node, left: nat, a: Tree, b: Tree, tmp: Node)
    requires left <= 1 && a.Bin? && ZipOk(h, fs, Make(n, left, Stand(a, 1 - left, tmp), b))
    ensures tmp in h && h[tmp].child.At(1 - left) == null
  {
    hide Linked;
    LinkedMake(h, n, left, Stand(a, 1 - left, tmp), b, UpNode(fs), UpIndex(fs));
    StandChild(h, a, 1 - left, tmp, n, left);
  }

  lemma {:induction false} StandChild(h: Heap, t: Tree, d: nat, tmp: Node, p: Node?, ix: nat)
    requires d <= 1 && t.Bin? && Linked(h, Stand(t, d, tmp), p, ix)
    ensures tmp in h && h[tmp].child.At(d) == null
    decreases t
  {
    hide Linked;
    var u, o := Side(t, d), Side(t, 1 - d);
    if u.Bin? {
      LinkedMake(h, t.n, d, Stand(u, d, tmp), o, p, ix);
      StandChild(h, u, d, tmp, t.n, d);
    } else {
      LinkedMake(h, tmp, d, Leaf, o, p, ix);
    }
  }
}
