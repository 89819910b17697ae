/** Rotations: the pointer updates, and the trees they leave. */
module AvlRotate {
  import opened AvlShape

  type Heap = map<Node, Cell>

  // ---- single updates

  function SetParent(h: Heap, c: Node?, p: Node?): Heap {
    if c == null || c !in h then h else h[c := h[c].(parent := p)]
  }

  function SetIndex(h: Heap, c: Node?, ix: nat): Heap {
    if c == null || c !in h then h else h[c := h[c].(index := ix)]
  }

  function SetUp(h: Heap, c: Node?, p: Node?, ix: nat): Heap { SetIndex(SetParent(h, c, p), c, ix) }

  function SetKid(h: Heap, n: Node?, d: nat, c: Node?): Heap {
    if n == null || n !in h then h else h[n := h[n].(child := h[n].child.With(d, c))]
  }

  function SetBalance(h: Heap, n: Node?, b: int): Heap {
    if n == null || n !in h then h else h[n := h[n].(balance := b)]
  }

  /** The balance value for a subtree that is taller on side d. */
  function Heavy(d: nat): int { if d == 0 then -1 else 1 }

  // ---- a node whose subtrees are linked, whatever balance it records

  ghost predicate NodeLinked(h: Heap, n: Node, p: Node?, ix: nat, d: nat, a: Tree, b: Tree) {
    && d <= 1 && n in h
    && h[n].child == Sides(d, Root(a), Root(b)) && h[n].parent == p && h[n].index == ix
    && Linked(h, a, n, d) && Linked(h, b, n, 1 - d)
  }

  /** A tree opened at node n, with subtree a on side d and b on the other. */
  ghost predicate ZipAt(h: Heap, fs: seq<Step>, n: Node, d: nat, a: Tree, b: Tree) {
    && NodeLinked(h, n, UpNode(fs), UpIndex(fs), d, a, b)
    && PathLinked(h, fs, n)
    && NoDup(PathFoot(fs) + (multiset{n} + Foot(a) + Foot(b)))
  }

  lemma {:induction false} ZipAtStart(h: Heap, fs: seq<Step>, x: Tree)
    requires ZipOk(h, fs, x) && fs != []
    ensures var s := Last(fs); ZipAt(h, Init(fs), s.n, s.d, x, s.other) && h[s.n].balance == s.bal
  {
    hide Linked, PathLinked, Foot, PathFoot, Height;
    var s := Last(fs);
    PathParts(h, fs, Root(x));
    assert PathFoot(Init(fs)) + (multiset{s.n} + Foot(x) + Foot(s.other)) == PathFoot(fs) + Foot(x);
  }

  lemma {:induction false} ZipAtFlip(h: Heap, fs: seq<Step>, n: Node, d: nat, a: Tree, b: Tree)
    requires ZipAt(h, fs, n, d, a, b)
    ensures ZipAt(h, fs, n, 1 - d, b, a) && Make(n, d, a, b) == Make(n, 1 - d, b, a)
  {
    hide Linked, PathLinked, Foot, PathFoot, Height;
    assert multiset{n} + Foot(a) + Foot(b) == multiset{n} + Foot(b) + Foot(a);
  }

  /** Recording the right balance makes it a well-linked tree. */
  lemma {:induction false} ZipAtDone(h: Heap, fs: seq<Step>, n: Node, d: nat, a: Tree, b: Tree)
    requires ZipAt(h, fs, n, d, a, b)
    ensures var h' := SetBalance(h, n, Lean(d, Height(a), Height(b))); ZipOk(h', fs, Make(n, d, a, b))
  {
    hide Linked, PathLinked, Foot, PathFoot, Height;
    var v := Lean(d, Height(a), Height(b));
    var h' := SetBalance(h, n, v);
    MakeFoot(n, d, a, b);
    NodeApart(PathFoot(fs), n, Foot(a), Foot(b));
    LinkedFrame(h, h', a, n, d);
    LinkedFrame(h, h', b, n, 1 - d);
    PathFrame(h, h', fs, n);
    LinkedMake(h', n, d, a, b, UpNode(fs), UpIndex(fs));
  }

  lemma {:induction false} NodeApart(c: multiset<Node>, n: Node, a: multiset<Node>, b: multiset<Node>)
    requires NoDup(c + (multiset{n} + a + b))
    ensures n !in c && n !in a && n !in b
  {
    assert (c + (multiset{n} + a + b))[n] <= 1;
  }

  // ---- the first kind of rotation

  function Rotated1(h: Heap, p: Node?, wc: nat, n: Node, child: Node, left: nat, bal: int): Heap
    requires left <= 1
  {
    var right := 1 - left;
    var cright := if child in h then h[child].child.At(right) else null;
    var h1 := SetUp(SetKid(h, n, left, cright), cright, n, left);
    var h2 := SetParent(SetIndex(SetBalance(SetKid(h1, child, right, n), n, -bal), n, right), n, child);
    SetKid(SetUp(SetBalance(h2, child, bal), child, p, wc), p, wc, child)
  }

  /** What the updates amount to, cell by cell. */
  lemma {:induction false} Rotated1Cells(h: Heap, p: Node?, wc: nat, n: Node, child: Node, left: nat, bal: int)
    requires left <= 1 && wc <= 1 && n in h && child in h && n != child && p != n && p != child
    requires var cright := h[child].child.At(1 - left); cright != null ==> cright != n && cright != child && cright != p
    requires p != null ==> p in h
    ensures var h' := Rotated1(h, p, wc, n, child, left, bal); var cright := h[child].child.At(1 - left);
            && h'.Keys == h.Keys
            && h'[n] == Cell(h[n].child.With(left, cright), child, 1 - left, -bal)
            && h'[child] == Cell(h[child].child.With(1 - left, n), p, wc, bal)
            && (cright != null && cright in h ==> h'[cright] == h[cright].(parent := n, index := left))
            && (p != null ==> h'[p] == h[p].(child := h[p].child.With(wc, child)))
            && forall v | v in h && v != n && v != child && v != cright && v != p :: h'[v] == h[v]
  {
  }

  // ---- the second kind

  /** The grandchild's subtrees go to node and child. */
  function Handed(h: Heap, n: Node, child: Node, gleft: Node?, gright: Node?, left: nat): Heap
    requires left <= 1
  {
    var h1 := SetUp(SetKid(h, n, left, gright), gright, n, left);
    SetUp(SetKid(h1, child, 1 - left, gleft), gleft, child, 1 - left)
  }

  /** The grandchild takes child and node below it, and their place. */
  function Raised(h: Heap, p: Node?, wc: nat, n: Node, child: Node, g: Node, left: nat, bal: int): Heap
    requires left <= 1
  {
    var right := 1 - left;
    var h3 := SetUp(SetBalance(SetKid(h, g, left, child), child, if bal == Heavy(right) then Heavy(left) else 0), child,
        g, left);
    var h4 := SetUp(SetBalance(SetKid(h3, g, right, n), n, if bal == Heavy(left) then Heavy(right) else 0), n, g,
        right);
    SetKid(SetUp(SetBalance(h4, g, 0), g, p, wc), p, wc, g)
  }

  lemma {:induction false} HandedCells(h: Heap, n: Node, child: Node, gl: Node?, gr: Node?, left: nat)
    requires left <= 1 && n in h && child in h && n != child
    requires gl != null ==> gl != n && gl != child && gl != gr
    requires gr != null ==> gr != n && gr != child
    ensures var h' := Handed(h, n, child, gl, gr, left);
            && h'.Keys == h.Keys
            && h'[n] == h[n].(child := h[n].child.With(left, gr))
            && h'[child] == h[child].(child := h[child].child.With(1 - left, gl))
            && (gl != null && gl in h ==> h'[gl] == h[gl].(parent := child, index := 1 - left))
            && (gr != null && gr in h ==> h'[gr] == h[gr].(parent := n, index := left))
            && forall v | v in h && v != n && v != child && v != gl && v != gr :: h'[v] == h[v]
  {
  }

  lemma {:induction false} RaisedCells(h: Heap, p: Node?, wc: nat, n: Node, child: Node, g: Node, left: nat, bal: int)
    requires left <= 1 && wc <= 1 && n in h && child in h && g in h && n != child && p != n && p != child && g != n
        && g != child && g != p
    requires p != null ==> p in h
    ensures var h' := Raised(h, p, wc, n, child, g, left, bal);
            && h'.Keys == h.Keys
            && h'[n] == Cell(h[n].child, g, 1 - left, if bal == Heavy(left) then Heavy(1 - left) else 0)
            && h'[child] == Cell(h[child].child, g, left, if bal == Heavy(1 - left) then Heavy(left) else 0)
            && h'[g] == Cell(Sides(left, child, n), p, wc, 0)
            && (p != null ==> h'[p] == h[p].(child := h[p].child.With(wc, g)))
            && forall v | v in h && v != n && v != child && v != g && v != p :: h'[v] == h[v]
  {
    hide SetUp, SetBalance;
    var right := 1 - left;
    var b1, b2 := if bal == Heavy(right) then Heavy(left) else 0, if bal == Heavy(left) then Heavy(right) else 0;
    var k1 := SetKid(h, g, left, child);
    PlaceIs(k1, child, b1, g, left);
    var h3 := SetUp(SetBalance(k1, child, b1), child, g, left);
    var k2 := SetKid(h3, g, right, n);
    PlaceIs(k2, n, b2, g, right);
    var h4 := SetUp(SetBalance(k2, n, b2), n, g, right);
    PlaceIs(h4, g, 0, p, wc);
  }

  lemma {:induction false} PlaceIs(h: Heap, c: Node, b: int, p: Node?, ix: nat)
    requires c in h
    ensures SetUp(SetBalance(h, c, b), c, p, ix) == h[c := Cell(h[c].child, p, ix, b)]
  {
  }

  // ---- what the rotations do to the tree

  lemma {:induction false} Spread(c: multiset<Node>, n: Node, child: Node, a: multiset<Node>, b: multiset<Node>,
      r: multiset<Node>)
    requires NoDup(c + (multiset{n} + (multiset{child} + a + b) + r))
    ensures n != child && n !in c && n !in a && n !in b && n !in r && child !in c && child !in a && child !in b
        && child !in r
    ensures forall v | v in b :: v !in c && v !in a && v !in r
    ensures NoDup(a) && NoDup(b) && NoDup(r) && NoDup(c)
    ensures NoDup(c + (multiset{child} + a + (multiset{n} + b + r)))
  {
    var m := c + (multiset{n} + (multiset{child} + a + b) + r);
    assert m[n] <= 1 && m[child] <= 1;
    forall v | v in b ensures v !in c && v !in a && v !in r { assert m[v] <= 1; }
    forall v | v in a ensures a[v] <= 1 { assert m[v] <= 1; }
    forall v | v in b ensures b[v] <= 1 { assert m[v] <= 1; }
    forall v | v in r ensures r[v] <= 1 { assert m[v] <= 1; }
    forall v | v in c ensures c[v] <= 1 { assert m[v] <= 1; }
    assert c + (multiset{child} + a + (multiset{n} + b + r)) == m;
  }

  lemma {:induction false} RootIn(t: Tree)
    ensures Root(t) != null ==> Root(t) in Foot(t)
  {
  }

  /** A subtree was given parent p, as child ix; nothing else changed in it. */
  ghost predicate Hung(h: Heap, h': Heap, t: Tree, p: Node?, ix: nat) {
    && AgreeBut(h, h', Foot(t), Root(t))
    && (t.Bin? && t.n in h ==> t.n in h' && h'[t.n] == h[t.n].(parent := p, index := ix))
  }

  /** The place a path ends at was given node c. */
  ghost predicate Pointed(h: Heap, h': Heap, fs: seq<Step>, c: Node?) {
    && AgreeBut(h, h', PathFoot(fs), UpNode(fs))
    && (fs != [] && Last(fs).n in h ==>
          Last(fs).n in h' && h'[Last(fs).n] == h[Last(fs).n].(child := Sides(Last(fs).d, c, Root(Last(fs).other))))
  }

  /** Single rotation: what changed where. */
  lemma {:induction false} Rotate1Changes(h: Heap, fs: seq<Step>, n: Node, left: nat, child: Node, a: Tree, b: Tree,
      r: Tree, bal: int)
    requires ZipAt(h, fs, n, left, Make(child, left, a, b), r)
    ensures var h' := Rotated1(h, UpNode(fs), UpIndex(fs), n, child, left, bal);
            && h'.Keys == h.Keys && n in h' && child in h'
            && h'[n] == Cell(Sides(left, Root(b), Root(r)), child, 1 - left, -bal)
            && h'[child] == Cell(Sides(left, Root(a), n), UpNode(fs), UpIndex(fs), bal)
            && Agree(h, h', Foot(a)) && Agree(h, h', Foot(r)) && Hung(h, h', b, n, left) && Pointed(h, h', fs, child)
  {
    hide Linked, PathLinked, Foot, PathFoot, Height, NoDup, Rotated1, Agree, AgreeBut, ZipAt, SameBut, Make;
    var p, wc := UpNode(fs), UpIndex(fs);
    Rotate1Apart(h, fs, n, left, child, a, b, r);
    var h' := Rotated1(h, p, wc, n, child, left, bal);
    Rotated1Cells(h, p, wc, n, child, left, bal);
    assert SameBut(h, h', {n, child, Root(b), p}) by { SameAll(h, h', {n, child, Root(b), p}); }
    AgreeFrom(h, h', {n, child, Root(b), p}, Foot(a), null);
    AgreeFrom(h, h', {n, child, Root(b), p}, Foot(r), null);
    AgreeFrom(h, h', {n, child, Root(b), p}, Foot(b), Root(b));
    AgreeFrom(h, h', {n, child, Root(b), p}, PathFoot(fs), p);
  }

  /** Which nodes of a single rotation are different, and what they record. */
  lemma {:induction false} Rotate1Apart(h: Heap, fs: seq<Step>, n: Node, left: nat, child: Node, a: Tree, b: Tree,
      r: Tree)
    requires ZipAt(h, fs, n, left, Make(child, left, a, b), r)
    ensures var p, wc := UpNode(fs), UpIndex(fs);
            && left <= 1 && wc <= 1 && n in h && child in h && n != child && p != n && p != child
            && (p != null ==> p in h && p in PathFoot(fs) && p !in Foot(a) && p !in Foot(b) && p !in Foot(r))
            && h[n].child == Sides(left, child, Root(r)) && h[child].child == Sides(left, Root(a), Root(b))
            && (fs != [] ==> h[Last(fs).n].child.With(wc, child) == Sides(wc, child, Root(Last(fs).other)))
            && n !in PathFoot(fs) && n !in Foot(a) && n !in Foot(b) && n !in Foot(r)
            && child !in PathFoot(fs) && child !in Foot(a) && child !in Foot(b) && child !in Foot(r)
    ensures Root(b) != null ==>
              Root(b) in Foot(b) && Root(b) !in PathFoot(fs) && Root(b) !in Foot(a) && Root(b) !in Foot(r)
  {
    hide Linked, PathLinked, Foot, PathFoot, Height, NoDup;
    LinkedMake(h, child, left, a, b, n, left);
    MakeFoot(child, left, a, b);
    MakeHeight(child, left, a, b);
    Spread(PathFoot(fs), n, child, Foot(a), Foot(b), Foot(r));
    RootIn(b);
    UpIn(h, fs, n);
    UpApart(fs, Foot(a), Foot(b), Foot(r), n, child);
    PathSides(h, fs, n, child);
  }

  lemma {:induction false} SameAll(h: Heap, h': Heap, s: set<Node?>)
    requires forall v | v in h && v !in s :: v in h' && h'[v] == h[v]
    ensures SameBut(h, h', s)
  {
  }

  ghost predicate SameBut(h: Heap, h': Heap, s: set<Node?>) {
    forall v | v in h && v !in s :: v in h' && h'[v] == h[v]
  }

  lemma {:induction false} AgreeFrom(h: Heap, h': Heap, s: set<Node?>, m: multiset<Node>, c: Node?)
    requires SameBut(h, h', s) && forall v | v in s && v != null && v in m :: v == c
    ensures AgreeBut(h, h', m, c) && (c == null ==> Agree(h, h', m))
  {
  }

  /** Single rotation: links and ownership. */
  lemma {:induction false} Rotate1Linked(h: Heap, fs: seq<Step>, n: Node, left: nat, child: Node, a: Tree, b: Tree,
      r: Tree, bal: int)
    requires ZipAt(h, fs, n, left, Make(child, left, a, b), r)
    requires bal == Lean(left, Height(a), 1 + Max(Height(b), Height(r))) && -bal == Lean(left, Height(b), Height(r))
    ensures var h' := Rotated1(h, UpNode(fs), UpIndex(fs), n, child, left, bal);
            h'.Keys == h.Keys && ZipOk(h', fs, Make(child, left, a, Make(n, 1 - left, r, b)))
  {
    hide Linked, PathLinked, Foot, PathFoot, Height, NoDup, Rotated1, Agree, Hung, Pointed, AgreeBut;
    var right := 1 - left;
    var p, wc := UpNode(fs), UpIndex(fs);
    var h' := Rotated1(h, p, wc, n, child, left, bal);
    Rotate1Changes(h, fs, n, left, child, a, b, r, bal);
    var m := Make(n, right, r, b);
    LinkedMake(h, child, left, a, b, n, left);
    MakeFoot(child, left, a, b);
    Spread(PathFoot(fs), n, child, Foot(a), Foot(b), Foot(r));
    LinkedFrame(h, h', a, child, left);
    LinkedFrame(h, h', r, n, right);
    LinkedHung(h, h', b, child, right, n, left);
    LinkedMake(h', n, right, r, b, child, right);
    MakeHeight(n, right, r, b);
    LinkedMake(h', child, left, a, m, p, wc);
    PathPointed(h, h', fs, n, child);
    Rotate1Foot(PathFoot(fs), child, left, a, n, right, r, b);
  }

  lemma {:induction false} Rotate1Foot(c: multiset<Node>, child: Node, left: nat, a: Tree, n: Node, right: nat, r: Tree,
      b: Tree)
    ensures c + Foot(Make(child, left, a, Make(n, right, r, b)))
        == c + (multiset{child} + Foot(a) + (multiset{n} + Foot(b) + Foot(r)))
  {
    hide Foot;
    MakeFoot(n, right, r, b);
    MakeFoot(child, left, a, Make(n, right, r, b));
  }

  lemma {:induction false} LinkedHung(h: Heap, h': Heap, t: Tree, p: Node?, ix: nat, q: Node?, iy: nat)
    requires Linked(h, t, p, ix) && NoDup(Foot(t)) && Hung(h, h', t, q, iy)
    ensures Linked(h', t, q, iy)
  {
    hide Linked, Foot;
    LinkedMoved(h, h', t, p, ix, q, iy);
  }

  lemma {:induction false} PathPointed(h: Heap, h': Heap, fs: seq<Step>, c: Node?, c': Node?)
    requires PathLinked(h, fs, c) && NoDup(PathFoot(fs)) && Pointed(h, h', fs, c')
    ensures PathLinked(h', fs, c')
  {
    hide PathLinked, PathFoot;
    PathRepoint(h, h', fs, c, c');
  }

  lemma {:induction false} MakeHeight(n: Node, d: nat, a: Tree, b: Tree)
    ensures Height(Make(n, d, a, b)) == 1 + Max(Height(a), Height(b)) && Root(Make(n, d, a, b)) == n
  {
  }

  lemma {:induction false} UpIn(h: Heap, fs: seq<Step>, c: Node?)
    requires PathLinked(h, fs, c)
    ensures UpNode(fs) != null ==> UpNode(fs) in PathFoot(fs) && UpNode(fs) in h
    ensures UpIndex(fs) <= 1
  {
  }

  /** The node above is in none of the subtrees below. */
  lemma {:induction false} UpApart(fs: seq<Step>, a: multiset<Node>, b: multiset<Node>, r: multiset<Node>, n: Node,
      child: Node)
    requires NoDup(PathFoot(fs) + (multiset{n} + (multiset{child} + a + b) + r))
    ensures forall v | v in PathFoot(fs) :: v !in a && v !in b && v !in r && v != n && v != child
  {
    var m := PathFoot(fs) + (multiset{n} + (multiset{child} + a + b) + r);
    forall v | v in PathFoot(fs) ensures v !in a && v !in b && v !in r && v != n && v != child { assert m[v] <= 1; }
  }

  lemma {:induction false} PathSides(h: Heap, fs: seq<Step>, c: Node?, c': Node?)
    requires PathLinked(h, fs, c)
    ensures fs != [] ==>
              Last(fs).n in h && h[Last(fs).n].child.With(Last(fs).d, c') == Sides(Last(fs).d, c', Root(Last(fs).other))
  {
  }

  // ---- the double rotation

  function Rotated2(h: Heap, p: Node?, wc: nat, n: Node, child: Node, g: Node, gl: Node?, gr: Node?, left: nat,
      bal: int): Heap
    requires left <= 1
  {
    Raised(Handed(h, n, child, gl, gr, left), p, wc, n, child, g, left, bal)
  }

  /** Which nodes of a double rotation are different, and what they record. */
  ghost predicate Apart2(h: Heap, fs: seq<Step>, n: Node, left: nat, child: Node, g: Node, a: Tree, g1: Tree, g2: Tree,
      r: Tree) {
    var p, wc := UpNode(fs), UpIndex(fs);
    && left <= 1 && wc <= 1 && n in h && child in h && g in h
    && n != child && p != n && p != child && g != n && g != child && g != p
    && (p != null ==> p in h && p in PathFoot(fs))
    && h[n].child == Sides(left, child, Root(r)) && h[child].child == Sides(left, Root(a), g)
        && h[g].child == Sides(left, Root(g1), Root(g2))
    && (fs != [] ==> h[Last(fs).n].child.With(wc, g) == Sides(wc, g, Root(Last(fs).other)))
    && Sundered({n, child, g}, PathFoot(fs), Foot(a), Foot(g1), Foot(g2), Foot(r))
    && (Root(g1) != null ==> Root(g1) in Foot(g1))
    && (Root(g2) != null ==> Root(g2) in Foot(g2))
  }

  /** No node of s is in any of the five, and these have nothing in common. */
  ghost predicate Sundered(s: set<Node>, c: multiset<Node>, a: multiset<Node>, b: multiset<Node>, d: multiset<Node>,
      r: multiset<Node>) {
    && (forall v | v in s :: v !in c && v !in a && v !in b && v !in d && v !in r)
    && (forall v | v in c :: v !in a && v !in b && v !in d && v !in r)
    && (forall v | v in a :: v !in b && v !in d && v !in r)
    && (forall v | v in b :: v !in d && v !in r)
    && (forall v | v in d :: v !in r)
  }

  lemma {:induction false} Spread2(c: multiset<Node>, n: Node, child: Node, g: Node, a: multiset<Node>,
      b: multiset<Node>, d: multiset<Node>, r: multiset<Node>)
    requires NoDup(c + (multiset{n} + (multiset{child} + a + (multiset{g} + b + d)) + r))
    ensures n != child && g != n && g != child
    ensures Sundered({n, child, g}, c, a, b, d, r)
    ensures NoDup(b) && NoDup(d) && NoDup(c)
    ensures NoDup(c + (multiset{g} + (multiset{child} + a + b) + (multiset{n} + r + d)))
  {
    var m := c + (multiset{n} + (multiset{child} + a + (multiset{g} + b + d)) + r);
    assert m[n] <= 1 && m[child] <= 1 && m[g] <= 1;
    forall v | v in c ensures v !in a && v !in b && v !in d && v !in r && c[v] <= 1 { assert m[v] <= 1; }
    forall v | v in a ensures v !in b && v !in d && v !in r { assert m[v] <= 1; }
    forall v | v in b ensures v !in d && v !in r && b[v] <= 1 { assert m[v] <= 1; }
    forall v | v in d ensures v !in r && d[v] <= 1 { assert m[v] <= 1; }
    assert c + (multiset{g} + (multiset{child} + a + b) + (multiset{n} + r + d)) == m;
  }

  lemma {:induction false} Rotate2Apart(h: Heap, fs: seq<Step>, n: Node, left: nat, child: Node, g: Node, a: Tree,
      g1: Tree, g2: Tree, r: Tree)
    requires ZipAt(h, fs, n, left, Make(child, left, a, Make(g, left, g1, g2)), r)
    ensures Apart2(h, fs, n, left, child, g, a, g1, g2, r) && left <= 1
    ensures NoDup(Foot(g1)) && NoDup(Foot(g2)) && NoDup(PathFoot(fs))
    ensures NoDup(PathFoot(fs) + (multiset{g} + (multiset{child} + Foot(a) + Foot(g1))
        + (multiset{n} + Foot(r) + Foot(g2))))
    ensures Linked(h, a, child, left) && Linked(h, g1, g, left) && Linked(h, g2, g, 1 - left)
        && Linked(h, r, n, 1 - left) && PathLinked(h, fs, n)
    ensures h[g].balance == Lean(left, Height(g1), Height(g2))
  {
    hide Linked, PathLinked, Foot, PathFoot, Height, NoDup, Sundered;
    var b := Make(g, left, g1, g2);
    LinkedMake(h, child, left, a, b, n, left);
    LinkedMake(h, g, left, g1, g2, child, 1 - left);
    MakeFoot(child, left, a, b);
    MakeFoot(g, left, g1, g2);
    MakeHeight(child, left, a, b);
    MakeHeight(g, left, g1, g2);
    Spread2(PathFoot(fs), n, child, g, Foot(a), Foot(g1), Foot(g2), Foot(r));
    RootIn(g1);
    RootIn(g2);
    UpIn(h, fs, n);
    PathSides(h, fs, n, g);
    PathMiss(fs, {n, child, g}, Foot(a), Foot(g1), Foot(g2), Foot(r));
  }

  lemma {:induction false} PathMiss(fs: seq<Step>, s: set<Node>, a: multiset<Node>, b: multiset<Node>,
      d: multiset<Node>, r: multiset<Node>)
    requires Sundered(s, PathFoot(fs), a, b, d, r)
    ensures UpNode(fs) != null && UpNode(fs) in PathFoot(fs) ==> UpNode(fs) !in s
  {
  }

  lemma {:induction false} Rotate2Cells(h: Heap, fs: seq<Step>, n: Node, left: nat, child: Node, g: Node, a: Tree,
      g1: Tree, g2: Tree, r: Tree, bal: int)
    requires Apart2(h, fs, n, left, child, g, a, g1, g2, r)
    ensures var h' := Rotated2(h, UpNode(fs), UpIndex(fs), n, child, g, Root(g1), Root(g2), left, bal);
        var p, wc := UpNode(fs), UpIndex(fs);
            && h'.Keys == h.Keys && n in h' && child in h' && g in h'
            && h'[n] == Cell(Sides(left, Root(g2), Root(r)), g, 1 - left,
                             if bal == Heavy(left) then Heavy(1 - left) else 0)
            && h'[child] == Cell(Sides(left, Root(a), Root(g1)), g, left,
                                 if bal == Heavy(1 - left) then Heavy(left) else 0)
            && h'[g] == Cell(Sides(left, child, n), p, wc, 0)
            && (g1.Bin? && g1.n in h ==> h'[g1.n] == h[g1.n].(parent := child, index := 1 - left))
            && (g2.Bin? && g2.n in h ==> h'[g2.n] == h[g2.n].(parent := n, index := left))
            && (p != null ==> h'[p] == h[p].(child := h[p].child.With(wc, g)))
            && SameBut(h, h', {n, child, g, Root(g1), Root(g2), p})
  {
    hide Foot, PathFoot, Handed, Raised, SameBut;
    var h1 := Handed(h, n, child, Root(g1), Root(g2), left);
    HandedCells(h, n, child, Root(g1), Root(g2), left);
    RaisedCells(h1, UpNode(fs), UpIndex(fs), n, child, g, left, bal);
    SameAll(h, Raised(h1, UpNode(fs), UpIndex(fs), n, child, g, left, bal),
        {n, child, g, Root(g1), Root(g2), UpNode(fs)});
  }

  lemma {:induction false} Rotate2Changes(h: Heap, fs: seq<Step>, n: Node, left: nat, child: Node, g: Node, a: Tree,
      g1: Tree, g2: Tree, r: Tree, bal: int)
    requires Apart2(h, fs, n, left, child, g, a, g1, g2, r)
    ensures var h' := Rotated2(h, UpNode(fs), UpIndex(fs), n, child, g, Root(g1), Root(g2), left, bal);
            && Agree(h, h', Foot(a)) && Agree(h, h', Foot(r)) && Hung(h, h', g1, child, 1 - left)
                && Hung(h, h', g2, n, left) && Pointed(h, h', fs, g)
  {
    hide Foot, PathFoot, Rotated2, SameBut, Agree, AgreeBut, Sundered;
    var h' := Rotated2(h, UpNode(fs), UpIndex(fs), n, child, g, Root(g1), Root(g2), left, bal);
    Rotate2Cells(h, fs, n, left, child, g, a, g1, g2, r, bal);
    AgreeAll(h, h', n, child, g, Root(g1), Root(g2), UpNode(fs), PathFoot(fs), Foot(a), Foot(g1), Foot(g2), Foot(r));
  }

  lemma {:induction false} AgreeAll(h: Heap, h': Heap, n: Node, child: Node, g: Node, x: Node?, y: Node?, p: Node?,
                                    c: multiset<Node>, a: multiset<Node>, b: multiset<Node>, d: multiset<Node>,
                                        r: multiset<Node>)
    requires Sundered({n, child, g}, c, a, b, d, r) && SameBut(h, h', {n, child, g, x, y, p})
    requires (x == null || x in b) && (y == null || y in d) && (p == null || p in c)
    ensures Agree(h, h', a) && Agree(h, h', r) && AgreeBut(h, h', b, x) && AgreeBut(h, h', d, y)
        && AgreeBut(h, h', c, p)
  {
    assert n in {n, child, g} && child in {n, child, g} && g in {n, child, g};
  }

  /** Double rotation: links and ownership. */
  lemma {:induction false} Rotate2Linked(h: Heap, fs: seq<Step>, n: Node, left: nat, child: Node, g: Node, a: Tree,
      g1: Tree, g2: Tree, r: Tree, bal: int)
    requires ZipAt(h, fs, n, left, Make(child, left, a, Make(g, left, g1, g2)), r)
    requires (if bal == Heavy(left) then Heavy(1 - left) else 0) == Lean(left, Height(g2), Height(r))
    requires (if bal == Heavy(1 - left) then Heavy(left) else 0) == Lean(left, Height(a), Height(g1))
    requires 1 + Max(Height(a), Height(g1)) == 1 + Max(Height(r), Height(g2))
    ensures var h' := Rotated2(h, UpNode(fs), UpIndex(fs), n, child, g, Root(g1), Root(g2), left, bal);
            && h'.Keys == h.Keys
            && ZipOk(h', fs, Make(g, left, Make(child, left, a, g1), Make(n, 1 - left, r, g2)))
  {
    hide Linked, PathLinked, Foot, PathFoot, Height, NoDup, Rotated2, Agree, Hung, Pointed, AgreeBut, Apart2, ZipAt,
      SameBut, Make;
    var right := 1 - left;
    var p, wc := UpNode(fs), UpIndex(fs);
    Rotate2Apart(h, fs, n, left, child, g, a, g1, g2, r);
    var h' := Rotated2(h, p, wc, n, child, g, Root(g1), Root(g2), left, bal);
    Rotate2Cells(h, fs, n, left, child, g, a, g1, g2, r, bal);
    Rotate2Changes(h, fs, n, left, child, g, a, g1, g2, r, bal);
    var c, m := Make(child, left, a, g1), Make(n, right, r, g2);
    MakeHeight(child, left, a, g1);
    MakeHeight(n, right, r, g2);
    LinkedFrame(h, h', a, child, left);
    LinkedFrame(h, h', r, n, right);
    LinkedHung(h, h', g1, g, left, child, right);
    LinkedHung(h, h', g2, g, right, n, left);
    LinkedMake(h', child, left, a, g1, g, left);
    LinkedMake(h', n, right, r, g2, g, right);
    LinkedMake(h', g, left, c, m, p, wc);
    MakeHeight(g, left, c, m);
    PathPointed(h, h', fs, n, g);
    MakeFoot(child, left, a, g1);
    MakeFoot(n, right, r, g2);
    MakeFoot(g, left, c, m);
  }

  // ---- heights

  /** Whether the tree can be rotated: balanced subtrees, two levels apart. */
  predicate Tilted(l: Tree, r: Tree) { Avl(l) && Avl(r) && Height(l) == Height(r) + 2 }

  /** The tree after a rotation to repair a node whose subtree l on side left is too tall. */
  function Rotated(n: Node, left: nat, l: Tree, r: Tree): Tree {
    if left > 1 || l.Leaf? then Make(n, left, l, r)
    else if Balance(l) != -Heavy(left) then
      Make(l.n, left, Side(l, left), Make(n, 1 - left, r, Side(l, 1 - left)))
    else
      var b := Side(l, 1 - left);
      if b.Leaf? then Make(n, left, l, r)
      else Make(b.n, left, Make(l.n, left, Side(l, left), Side(b, left)), Make(n, 1 - left, r, Side(b, 1 - left)))
  }

  /** A rotation keeps the order of the nodes and restores the balance; the subtree gets lower unless
      the child was in balance. */
  lemma {:induction false} RotatedOk(n: Node, left: nat, l: Tree, r: Tree)
    requires left <= 1 && Tilted(l, r)
    ensures var y := Rotated(n, left, l, r);
            && Inorder(y) == Inorder(Make(n, left, l, r))
            && Avl(y)
            && Height(y) == (if Balance(l) == 0 then Height(l) + 1 else Height(l))
  {
    hide Inorder, Avl, Height, Rotated, Make;
    RotatedOrder(n, left, l, r);
    RotatedHeights(n, left, l, r);
  }

  lemma {:induction false} Opened(l: Tree, d: nat)
    requires d <= 1 && l.Bin?
    ensures var a, b := Side(l, d), Side(l, 1 - d);
            && l == Make(l.n, d, a, b) && Balance(l) == Lean(d, Height(a), Height(b))
                && Height(l) == 1 + Max(Height(a), Height(b))
            && (Avl(l) <==> Avl(a) && Avl(b) && -1 <= Balance(l) <= 1)
  {
  }

  lemma {:induction false} MakeAvl(n: Node, d: nat, a: Tree, b: Tree)
    requires d <= 1
    ensures Height(Make(n, d, a, b)) == 1 + Max(Height(a), Height(b))
    ensures Avl(Make(n, d, a, b)) <==> Avl(a) && Avl(b) && -1 <= Lean(d, Height(a), Height(b)) <= 1
  {
  }

  lemma {:induction false} RotatedHeights(n: Node, left: nat, l: Tree, r: Tree)
    requires left <= 1 && Tilted(l, r)
    ensures l.Bin? && (Balance(l) == -Heavy(left) ==> Side(l, 1 - left).Bin?)
    ensures var y := Rotated(n, left, l, r); 
            Avl(y) && Height(y) == (if Balance(l) == 0 then Height(l) + 1 else Height(l))
  {
    hide Avl, Make, Height, Balance, Side;
    HeightZero(l);
    Opened(l, left);
    var a, b := Side(l, left), Side(l, 1 - left);
    if Balance(l) != -Heavy(left) {
      MakeAvl(n, 1 - left, r, b);
      MakeAvl(l.n, left, a, Make(n, 1 - left, r, b));
    } else {
      HeightZero(b);
      Opened(b, left);
      var g1, g2 := Side(b, left), Side(b, 1 - left);
      MakeAvl(l.n, left, a, g1);
      MakeAvl(n, 1 - left, r, g2);
      MakeAvl(b.n, left, Make(l.n, left, a, g1), Make(n, 1 - left, r, g2));
    }
  }

  lemma {:induction false} HeightZero(t: Tree)
    ensures Height(t) == 0 <==> t.Leaf?
  {
  }

  lemma {:induction false} RotatedOrder(n: Node, left: nat, l: Tree, r: Tree)
    requires left <= 1
    ensures Inorder(Rotated(n, left, l, r)) == Inorder(Make(n, left, l, r))
  {
    hide Inorder, Avl, Height, Make, Side, Balance;
    if l.Bin? {
      var a, b := Side(l, left), Side(l, 1 - left);
      Opened(l, left);
      MakeInorder(n, left, l, r);
      MakeInorder(l.n, left, a, b);
      if Balance(l) != -Heavy(left) {
        MakeInorder(n, 1 - left, r, b);
        MakeInorder(l.n, left, a, Make(n, 1 - left, r, b));
        Regroup5(Inorder(a), l.n, Inorder(b), n, Inorder(r));
        Regroup5(Inorder(r), n, Inorder(b), l.n, Inorder(a));
      } else if b.Bin? {
        var g1, g2 := Side(b, left), Side(b, 1 - left);
        Opened(b, left);
        MakeInorder(b.n, left, g1, g2);
        MakeInorder(l.n, left, a, g1);
        MakeInorder(n, 1 - left, r, g2);
        MakeInorder(b.n, left, Make(l.n, left, a, g1), Make(n, 1 - left, r, g2));
        Regroup7(Inorder(a), l.n, Inorder(g1), b.n, Inorder(g2), n, Inorder(r));
        Regroup7(Inorder(r), n, Inorder(g2), b.n, Inorder(g1), l.n, Inorder(a));
      }
    }
  }

  lemma {:induction false} Regroup5(a: seq<Node>, x: Node, b: seq<Node>, y: Node, c: seq<Node>)
    ensures (a + [x] + b) + [y] + c == a + [x] + (b + [y] + c)
  {
  }

  lemma {:induction false} Regroup7(a: seq<Node>, x: Node, b: seq<Node>, y: Node, c: seq<Node>, z: Node, d: seq<Node>)
    ensures a + [x] + (b + [y] + c) + [z] + d == (a + [x] + b) + [y] + (c + [z] + d)
  {
  }
}
