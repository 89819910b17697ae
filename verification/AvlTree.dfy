/** The AVL tree: nodes linked in memory, searched, inserted and removed in place. */
module AvlTree {
  import opened AvlShape
  import opened AvlRotate
  import opened AvlEdit
  import opened AvlRemove
  import opened AvlDelete
  import opened AvlWalk

  class AvlTree {
    var root: Node?
    var numNodes: nat

    ghost var nodes: set<Node>
    ghost var tree: Tree
    // how many rotations there were
    ghost var turns: nat

    ghost function Mem(): Heap
      reads this`nodes, nodes
    {
      map n | n in nodes :: n.TheCell()
    }

    // ---- single assignments

    method AssignParent(c: Node, p: Node?)
      requires c in nodes
      modifies nodes
      ensures Mem() == SetParent(old(Mem()), c, p)
    {
      c.parent := p;
    }

    method AssignIndex(c: Node, ix: nat)
      requires c in nodes
      modifies nodes
      ensures Mem() == SetIndex(old(Mem()), c, ix)
    {
      c.index := ix;
    }

    method AssignBalance(c: Node, b: int)
      requires c in nodes
      modifies nodes
      ensures Mem() == SetBalance(old(Mem()), c, b)
    {
      c.balance := b;
    }

    method AssignChild(n: Node, d: nat, c: Node?)
      requires n in nodes
      modifies nodes
      ensures Mem() == SetKid(old(Mem()), n, d, c)
    {
      n.child := n.child.With(d, c);
    }

    /** AVL_SETPARENT and AVL_SETCHILD. */
    method Hang(c: Node?, p: Node?, ix: nat)
      requires c != null ==> c in nodes
      modifies nodes
      ensures Mem() == SetUp(old(Mem()), c, p, ix)
    {
      hide SetParent, SetIndex;
      if c != null {
        AssignParent(c, p);
        AssignIndex(c, ix);
      } else {
        NullUp(Mem(), p, ix);
      }
    }

    /** The pointer to a subtree, in its parent or in the tree. */
    method Point(p: Node?, ix: nat, c: Node?)
      requires p != null ==> p in nodes
      modifies nodes, this`root
      ensures Mem() == SetKid(old(Mem()), p, ix, c)
      ensures root == if p == null then c else old(root)
    {
      if p != null {
        AssignChild(p, ix, c);
      } else {
        root := c;
      }
    }

    // ---- rotations

    /** avl_rotation, case 1. */
    method RotateSingle(node: Node, child: Node, left: nat, bal: int, parent: Node?, which: nat)
      requires left <= 1 && node in nodes && child in nodes && (parent != null ==> parent in nodes)
      requires child.child.At(1 - left) != null ==> child.child.At(1 - left) in nodes
      modifies nodes, this`root
      ensures Mem() == Rotated1(old(Mem()), parent, which, node, child, left, bal)
      ensures root == if parent == null then child else old(root)
    {
      hide SetUp, SetKid, SetBalance, SetIndex, SetParent;
      var right := 1 - left;
      var cright := child.child.At(right);
      assert Mem()[child] == child.TheCell();
      AssignChild(node, left, cright);
      Hang(cright, node, left);
      AssignChild(child, right, node);
      AssignBalance(node, -bal);
      AssignIndex(node, right);
      AssignParent(node, child);
      AssignBalance(child, bal);
      Hang(child, parent, which);
      Point(parent, which, child);
    }

    /** avl_rotation, case 2: the grandchild's subtrees go to node and child. */
    method HandOver(node: Node, child: Node, gleft: Node?, gright: Node?, left: nat)
      requires left <= 1 && node in nodes && child in nodes
      requires (gleft != null ==> gleft in nodes) && (gright != null ==> gright in nodes)
      modifies nodes
      ensures Mem() == Handed(old(Mem()), node, child, gleft, gright, left)
    {
      hide SetUp, SetKid, SetBalance, SetIndex, SetParent;
      AssignChild(node, left, gright);
      Hang(gright, node, left);
      AssignChild(child, 1 - left, gleft);
      Hang(gleft, child, 1 - left);
    }

    /** avl_rotation, case 2: the grandchild goes up, with child and node below it. */
    method Raise(node: Node, child: Node, gchild: Node, left: nat, parent: Node?, which: nat)
      requires left <= 1 && node in nodes && child in nodes && gchild in nodes && (parent != null ==> parent in nodes)
      modifies nodes, this`root
      ensures Mem() == Raised(old(Mem()), parent, which, node, child, gchild, left, old(gchild.balance))
      ensures root == if parent == null then gchild else old(root)
    {
      hide SetUp, SetKid, SetBalance, SetIndex, SetParent;
      var right := 1 - left;
      var balance := gchild.balance;
      AssignChild(gchild, left, child);
      AssignBalance(child, if balance == Heavy(right) then Heavy(left) else 0);
      Hang(child, gchild, left);
      AssignChild(gchild, right, node);
      AssignBalance(node, if balance == Heavy(left) then Heavy(right) else 0);
      Hang(node, gchild, right);
      AssignBalance(gchild, 0);
      Hang(gchild, parent, which);
      Point(parent, which, gchild);
    }

    method RotateDouble(node: Node, child: Node, gchild: Node, left: nat, parent: Node?, which: nat)
      requires left <= 1 && node in nodes && child in nodes && gchild in nodes && (parent != null ==> parent in nodes)
      requires gchild.child.left != null ==> gchild.child.left in nodes
      requires gchild.child.right != null ==> gchild.child.right in nodes
      requires gchild != node && gchild != child && gchild.child.At(left) != gchild
          && gchild.child.At(1 - left) != gchild
      modifies nodes, this`root
      ensures Mem() == Rotated2(old(Mem()), parent, which, node, child, gchild, old(gchild.child.At(left)),
          old(gchild.child.At(1 - left)),
                                left, old(gchild.balance))
      ensures root == if parent == null then gchild else old(root)
    {
      hide Handed, Raised;
      var gleft := gchild.child.At(left);
      var gright := gchild.child.At(1 - left);
      ghost var h := Mem();
      assert Mem()[gchild] == gchild.TheCell();
      HandedKeeps(h, node, child, gleft, gright, left, gchild);
      HandOver(node, child, gleft, gright, left);
      assert Mem()[gchild] == gchild.TheCell();
      Raise(node, child, gchild, left, parent, which);
    }

    /** The tree is opened at node, whose subtrees are l on side left, and r. */
    ghost predicate AtNode(fs: seq<Step>, node: Node, left: nat, l: Tree, r: Tree)
      reads this`nodes, this`root, nodes
    {
      ZipAt(Mem(), fs, node, left, l, r) && root == TopNode(fs, node)
    }

    /** The tree is opened at subtree x. */
    ghost predicate AtTree(fs: seq<Step>, x: Tree)
      reads this`nodes, this`root, nodes
    {
      ZipOk(Mem(), fs, x) && root == TopNode(fs, Root(x))
    }

    /** avl_rotation: true when the subtree got lower. */
    method Rotation(node: Node, balance: int, ghost fs: seq<Step>, ghost l: Tree, ghost r: Tree) returns (lower: bool)
      requires balance == -2 || balance == 2
      requires AtNode(fs, node, if balance < 0 then 0 else 1, l, r) && Tilted(l, r)
      modifies nodes, this`root, this`turns
      ensures var y := Rotated(node, if balance < 0 then 0 else 1, l, r); AtTree(fs, y) && Avl(y)
      ensures lower == (Balance(l) != 0) && turns == old(turns) + 1
    {
      hide ZipAt, ZipOk, Rotated1, Rotated2, Tilted, Balance, Side, Avl, Height, Make, Rotated;
      turns := turns + 1;
      var left := if balance < 0 then 0 else 1;
      var right := 1 - left;
      RotatedOk(node, left, l, r);
      RotationStart(Mem(), fs, node, left, l, r);
      assert Mem()[node] == node.TheCell();
      var parent := node.parent;
      var child := node.child.At(left);
      var which := node.index;
      assert Mem()[child] == child.TheCell();
      var childBal := child.balance;
      if childBal != Heavy(right) {
        childBal := childBal + Heavy(right);
        RotationSingle(Mem(), fs, node, left, l, r);
        RotateSingle(node, child, left, childBal, parent, which);
        return childBal == 0;
      }
      var gchild := child.child.At(right);
      assert Mem()[gchild] == gchild.TheCell();
      RotationDouble(Mem(), fs, node, left, l, r);
      RotateDouble(node, child, gchild, left, parent, which);
      return true;
    }

    // ---- the tree as a whole

    /** Links, balances, ownership and the number of nodes are right. */
    ghost predicate Ok()
      reads this, nodes
    {
      AtTree([], tree) && Avl(tree) && numNodes == |Inorder(tree)| && Owns(nodes, tree)
    }

    /** The nodes in order. */
    ghost function Order(): seq<Node>
      reads this
    {
      Inorder(tree)
    }

    /** The place for a new node, as child ix of p (avl_index_t). */
    ghost predicate Slot(fs: seq<Step>, p: Node?, ix: nat)
      reads this, nodes
    {
      AtTree(fs, Leaf) && Balanced(fs, 0) && Plug(fs, Leaf) == tree && p == UpNode(fs) && ix == UpIndex(fs)
    }

    /** avl_create */
    constructor ()
      ensures Ok() && Order() == [] && nodes == {}
    {
      root, numNodes := null, 0;
      nodes, tree, turns := {}, Leaf, 0;
    }

    /** avl_find: the node with this key, or the place where it would have to go; never more steps than
        the tree is high. */
    method Find(key: int) returns (found: Node?, whereNode: Node?, whereChild: nat, ghost fs: seq<Step>,
        ghost steps: nat)
      requires Ok() && Ordered(Order())
      ensures found != null ==> found in nodes && found.key == key
      ensures found == null ==>
                && Slot(fs, whereNode, whereChild) && Order() == Before(fs) + After(fs)
                && Below(Before(fs), key) && Above(After(fs), key)
      ensures found != null <==> exists n :: n in nodes && n.key == key
      ensures steps <= Height(tree)
    {
      hide ZipOk, Avl, Height, Inorder, Ordered, Below, Above, Before, After, Plug, Foot, Balanced;
      FindStart(Mem(), tree, key);
      ghost var x := tree;
      fs := [];
      steps := 0;
      var node := root;
      whereNode, whereChild := null, 0;
      while node != null
        invariant AtTree(fs, x) && node == Root(x) && Avl(x) && Balanced(fs, Height(x)) && Plug(fs, x) == tree
        invariant Before(fs) + Inorder(x) + After(fs) == Order()
        invariant Below(Before(fs), key) && Above(After(fs), key)
        invariant whereNode == UpNode(fs) && whereChild == UpIndex(fs)
        invariant steps + Height(x) <= Height(tree)
        decreases x
      {
        FindHere(Mem(), fs, x);
        assert Mem()[node] == node.TheCell();
        if node.key == key {
          steps := steps + 1;
          return node, null, 0, fs, steps;
        }
        var child := if key < node.key then 0 else 1;
        FindDown(Mem(), fs, x, child, key);
        fs := fs + [Step(x.n, child, Side(x, 1 - child), Balance(x))];
        x := Side(x, child);
        whereNode, whereChild := node, child;
        node := node.child.At(child);
        steps := steps + 1;
      }
      FindMiss(Mem(), fs, x, tree, key);
      found := null;
    }

    /** avl_insert: the node goes to the place found for it. */
    method Insert(newNode: Node, whereNode: Node?, whereChild: nat, ghost fs: seq<Step>)
      requires Ok() && newNode !in nodes && Slot(fs, whereNode, whereChild)
      modifies this, nodes, newNode
      ensures Ok() && nodes == old(nodes) + {newNode}
      ensures old(Order()) == Before(fs) + After(fs) && Order() == Before(fs) + [newNode] + After(fs)
      ensures turns <= old(turns) + 1
    {
      hide ZipOk, Avl, Height, Inorder, Before, After, Plug, Foot, Balanced, Grown, Owns;
      SlotView(fs, tree);
      ghost var t := tree;
      numNodes := numNodes + 1;
      AttachLeaf(newNode, whereNode, whereChild, fs);
      LeafView(newNode);
      ghost var gs, y;
      gs, y := InsertLoop(whereNode, whereChild, fs, Bin(Leaf, newNode, Leaf), Before(fs) + [newNode] + After(fs));
      Settle(gs, y);
      InsertedFoot(t, fs, newNode, tree);
      OwnsMore(nodes - {newNode}, t, newNode, tree);
      assert nodes == nodes - {newNode} + {newNode} && old(nodes) == nodes - {newNode};
    }

    /** The tree is what the path and the subtree make together. */
    ghost method Settle(fs: seq<Step>, x: Tree)
      requires AtTree(fs, x) && Avl(x) && Balanced(fs, Height(x))
      modifies this`tree
      ensures AtTree([], tree) && Avl(tree) && Inorder(tree) == Before(fs) + Inorder(x) + After(fs)
      ensures Foot(tree) == PathFoot(fs) + Foot(x) && tree == Plug(fs, x)
    {
      hide ZipOk, Avl, Height, Inorder, Before, After, Foot, Balanced, PathFoot, Plug;
      PlugOk(Mem(), fs, x);
      PlugView(fs, x);
      tree := Plug(fs, x);
    }

    /** avl_insert, up to its loop. */
    method AttachLeaf(newNode: Node, whereNode: Node?, whereChild: nat, ghost fs: seq<Step>)
      requires newNode !in nodes && AtTree(fs, Leaf) && Balanced(fs, 0) && whereNode == UpNode(fs)
          && whereChild == UpIndex(fs)
      modifies this`nodes, this`root, nodes, newNode
      ensures nodes == old(nodes) + {newNode}
      ensures Grown(Mem(), fs, Bin(Leaf, newNode, Leaf), 0) && root == TopNode(fs, newNode)
    {
      hide ZipOk, Avl, Height, Foot, Balanced, Grown, SetBalance, SetKid;
      ghost var h := Mem();
      newNode.child := Pair(null, null);
      newNode.index := whereChild;
      newNode.balance := 0;
      newNode.parent := whereNode;
      nodes := nodes + {newNode};
      assert Mem() == h[newNode := Cell(Pair(null, null), whereNode, whereChild, 0)];
      NewLeaf(h, fs, newNode);
      Point(whereNode, whereChild, newNode);
    }

    /** The loop of avl_insert, from the new node upwards. */
    method InsertLoop(whereNode: Node?, whereChild: nat, ghost fs: seq<Step>, ghost x0: Tree, ghost c: seq<Node>)
      returns (ghost gs: seq<Step>, ghost x: Tree)
      requires Grown(Mem(), fs, x0, 0) && root == TopNode(fs, Root(x0)) && whereNode == UpNode(fs)
          && whereChild == UpIndex(fs)
      requires Before(fs) + Inorder(x0) + After(fs) == c
      modifies nodes, this`root, this`turns
      ensures AtTree(gs, x) && Avl(x) && Balanced(gs, Height(x))
      ensures Before(gs) + Inorder(x) + After(gs) == c && turns <= old(turns) + 1
    {
      hide ZipOk, Avl, Height, Inorder, Before, After, Plug, Foot, Balanced, Grown, Make, ZipAt, Rotated, Tilted,
        SetBalance, Balance;
      ghost var k := 0;
      gs, x := fs, x0;
      var parent, which := whereNode, whereChild;
      while true
        invariant Grown(Mem(), gs, x, k) && root == TopNode(gs, Root(x))
        invariant parent == UpNode(gs) && which == UpIndex(gs)
        invariant Before(gs) + Inorder(x) + After(gs) == c && turns == old(turns)
        decreases |gs|
      {
        var node := parent;
        if node == null {
          GrownTop(Mem(), gs, x, k);
          return;
        }
        GrownAt(Mem(), gs, x, k);
        assert Mem()[node] == node.TheCell();
        UpView(gs, x);
        ghost var s := Last(gs);
        RootMake(s.n, s.d, x, s.other);
        var oldBalance := node.balance;
        var newBalance := oldBalance + Heavy(which);
        if newBalance == 0 {
          GrownEven(Mem(), gs, x, k);
          AssignBalance(node, 0);
          gs, x := Init(gs), Make(s.n, s.d, x, s.other);
          return;
        }
        if oldBalance != 0 {
          GrownTilted(Mem(), gs, x, k);
          var lower := Rotation(node, newBalance, Init(gs), x, s.other);
          gs, x := Init(gs), Rotated(s.n, s.d, x, s.other);
          return;
        }
        GrownUp(Mem(), gs, x, k);
        AssignBalance(node, newBalance);
        assert Mem()[node] == node.TheCell();
        parent := node.parent;
        which := node.index;
        gs, x, k := Init(gs), Make(s.n, s.d, x, s.other), k + 1;
        GrownLinks(Mem(), gs, x, k);
      }
    }

    // ---- removing

    /** From the child of a node towards it, as far as possible. */
    method EndNode(start: Node, d: nat, ghost t: Tree, ghost p: Node?, ghost ix: nat) returns (node: Node)
      requires d <= 1 && t.Bin? && start == t.n && Linked(Mem(), t, p, ix)
      ensures End(t, d).Bin? && node == End(t, d).n
    {
      hide Linked, Balance;
      node := start;
      ghost var u, q, iy := t, p, ix;
      EndHere(Mem(), u, d, q, iy);
      assert Mem()[node] == node.TheCell();
      while node.child.At(d) != null
        invariant u.Bin? && node == u.n && Linked(Mem(), u, q, iy) && End(u, d) == End(t, d)
        invariant node in nodes && node.child.At(d) == Root(Side(u, d))
            && (Side(u, d).Bin? ==> Linked(Mem(), Side(u, d), u.n, d))
        decreases u
      {
        node := node.child.At(d);
        q, iy, u := u.n, d, Side(u, d);
        EndHere(Mem(), u, d, q, iy);
        assert Mem()[node] == node.TheCell();
      }
    }

    /** avl_remove: node moves to the place of d, with the placeholder below it if it was a child of d. */
    method PlaceNode(d: Node, node: Node, tmp: Node, left: nat)
      requires left <= 1 && d in nodes && node in nodes && tmp !in nodes && d != node
      requires d.parent != null ==> d.parent in nodes && d.parent != node
      modifies this`nodes, this`root, nodes, tmp
      ensures nodes == old(nodes) + {tmp}
      ensures Mem() == Placed1(old(Mem()), d, node, tmp, left)
      ensures root == if old(d.parent) == null then node else old(root)
    {
      hide SetKid;
      ghost var h := Mem();
      assert h[node] == node.TheCell() && h[d] == d.TheCell();
      // tmp = *node
      tmp.child, tmp.parent, tmp.index, tmp.balance := node.child, node.parent, node.index, node.balance;
      nodes := nodes + {tmp};
      ghost var h1: Heap := h[tmp := h[node]];
      assert Mem() == h1;
      // *node = *delete
      node.child, node.parent, node.index, node.balance := d.child, d.parent, d.index, d.balance;
      assert Mem() == h1[node := h[d]];
      ghost var h2 := Mem();
      assert h2[node] == node.TheCell();
      if node.child.At(left) == node {
        AssignChild(node, left, tmp);
        KidKeeps(h2, node, left, tmp);
        assert Mem()[node] == node.TheCell();
      }
      Point(node.parent, node.index, node);
    }

    method AdoptChildren(node: Node, left: nat)
      requires left <= 1 && node in nodes && node.child.left != null && node.child.right != null
      requires node.child.left in nodes && node.child.right in nodes
      modifies nodes
      ensures Mem() == Placed2(old(Mem()), node, left)
    {
      hide SetParent;
      ghost var h := Mem();
      assert h[node] == node.TheCell();
      var first := node.child.At(left);
      AssignParent(first, node);
      ParentKeeps(h, first, node);
      assert Mem()[node] == node.TheCell();
      AssignParent(node.child.At(1 - left), node);
    }

    method PlaceTmp(tmp: Node)
      requires tmp in nodes && tmp.parent != null && tmp.parent in nodes && tmp.parent != tmp
      requires (tmp.child.left != null ==> tmp.child.left in nodes)
          && (tmp.child.right != null ==> tmp.child.right in nodes)
      modifies nodes
      ensures Mem() == Placed3(old(Mem()), tmp)
    {
      hide SetParent, SetKid;
      ghost var h := Mem();
      assert h[tmp] == tmp.TheCell();
      var parent, index := tmp.parent, tmp.index;
      AssignChild(parent, index, tmp);
      KidOther(h, parent, index, tmp, tmp);
      assert Mem()[tmp] == tmp.TheCell();
      var which := if tmp.child.right != null then 1 else 0;
      if tmp.child.At(which) != null {
        AssignParent(tmp.child.At(which), tmp);
      } else {
        NullParent(Mem(), tmp);
      }
    }

    /** All the assignments that put the placeholder in. */
    method PlaceAll(d: Node, node: Node, tmp: Node, left: nat)
      requires d in nodes && node in nodes && tmp !in nodes && Placeable(Mem(), d, node, tmp, left)
      modifies this`nodes, this`root, nodes, tmp
      ensures nodes == old(nodes) + {tmp}
      ensures Mem() == Placed(old(Mem()), d, node, tmp, left)
      ensures root == if old(d.parent) == null then node else old(root)
    {
      hide Placed1, Placed2, Placed3;
      assert Mem()[d] == d.TheCell();
      PlaceNode(d, node, tmp, left);
      assert Mem()[node] == node.TheCell();
      AdoptChildren(node, left);
      assert Mem()[tmp] == tmp.TheCell();
      PlaceTmp(tmp);
    }

    /** avl_remove of a node with two children, up to the removal proper: the neighbour on the taller side
        takes its place, and a placeholder that of the neighbour. */
    method SwapIn(d: Node, ghost fs: seq<Step>, left: nat, ghost a: Tree, ghost b: Tree) returns (tmp: Node,
        ghost node: Node)
      requires d in nodes && left <= 1 && a.Bin? && b.Bin? && AtTree(fs, Make(d, left, a, b))
      modifies this`nodes, this`root, nodes
      ensures fresh(tmp) && End(a, 1 - left).Bin? && node == End(a, 1 - left).n
      ensures tmp !in old(nodes) && nodes == old(nodes) + {tmp} - {d} && tmp in nodes
      ensures AtTree(fs, Make(node, left, Stand(a, 1 - left, tmp), b))
    {
      hide ZipOk, Make, Linked, Placed, Placing, Placeable, Stand, Height, End;
      ghost var h := Mem();
      tmp := new Node(0);
      assert Mem() == h;
      SwapStart(h, fs, d, left, a, b, tmp);
      assert h[d] == d.TheCell();
      var neighbour := EndNode(d.child.At(left), 1 - left, a, d, left);
      node := neighbour;
      PlaceAll(d, neighbour, tmp, left);
      PlacedOk(h, fs, d, left, a, b, tmp);
      nodes := nodes - {d};
      assert Mem() == Placed(h, d, node, tmp, left) - {d};
      RootMake(d, left, a, b);
      RootMake(node, left, Stand(a, 1 - left, tmp), b);
    }

    /** avl_remove: a node with at most one child is left out. */
    method Detach(d: Node, ghost fs: seq<Step>, ghost y: Tree, ghost side: nat) returns (parent: Node?, which: nat)
      requires AtTree(fs, y) && y.Bin? && y.n == d && d in nodes && side <= 1 && Side(y, 1 - side).Leaf?
      modifies this`nodes, this`root, nodes
      ensures nodes == old(nodes) - {d} && AtTree(fs, Side(y, side)) && parent == UpNode(fs) && which == UpIndex(fs)
    {
      hide ZipOk, SetUp, SetKid, Foot, PathFoot;
      ghost var h := Mem();
      DetachOk(h, fs, y, side);
      assert h[d] == d.TheCell();
      parent := d.parent;
      which := d.index;
      var node := if d.child.left != null then d.child.left else d.child.right;
      assert node == Root(Side(y, side));
      Hang(node, parent, which);
      Point(parent, which, node);
      ZipDrop(Mem(), fs, Side(y, side), d);
      nodes := nodes - {d};
      assert Mem() == Detached(h, Root(Side(y, side)), UpNode(fs), UpIndex(fs)) - {d};
    }

    /** The loop of avl_remove, from the parent of the removed node upwards. */
    method RemoveLoop(p: Node?, ix: nat, ghost fs: seq<Step>, ghost x0: Tree, ghost k0: nat, ghost c: seq<Node>)
      returns (ghost gs: seq<Step>, ghost x: Tree)
      requires Shrunk(Mem(), fs, x0, k0) && root == TopNode(fs, Root(x0)) && p == UpNode(fs) && ix == UpIndex(fs)
      requires Before(fs) + Inorder(x0) + After(fs) == c
      modifies nodes, this`root, this`turns
      ensures AtTree(gs, x) && Avl(x) && Balanced(gs, Height(x))
      ensures Before(gs) + Inorder(x) + After(gs) == c
      ensures (forall s | s in fs :: s.d <= 1) && Plug(gs, x) == Climb(fs, x0)
    {
      hide ZipOk, Avl, Height, Inorder, Before, After, Plug, Foot, Balanced, Shrunk, Make, ZipAt, Rotated, Tilted,
        SetBalance, Balance, Climb;
      ghost var k: nat := k0;
      ShrunkSides(Mem(), fs, x0, k0);
      gs, x := fs, x0;
      var parent, which := p, ix;
      while parent != null
        invariant Shrunk(Mem(), gs, x, k) && root == TopNode(gs, Root(x))
        invariant parent == UpNode(gs) && which == UpIndex(gs)
        invariant Before(gs) + Inorder(x) + After(gs) == c
        invariant (forall s | s in gs :: s.d <= 1) && Climb(gs, x) == Climb(fs, x0)
        decreases |gs|
      {
        ShrunkClimb(Mem(), gs, x, k);
        var node := parent;
        ShrunkAt(Mem(), gs, x, k);
        assert Mem()[node] == node.TheCell();
        UpView(gs, x);
        ghost var s := Last(gs);
        RootMake(s.n, s.d, x, s.other);
        var oldBalance := node.balance;
        var newBalance := oldBalance - Heavy(which);
        parent := node.parent;
        which := node.index;
        if oldBalance == 0 {
          ShrunkStop(Mem(), gs, x, k);
          AssignBalance(node, newBalance);
          gs, x := Init(gs), Make(s.n, s.d, x, s.other);
          ClimbStill(gs, x);
          return;
        }
        if newBalance == 0 {
          ShrunkEven(Mem(), gs, x, k);
          AssignBalance(node, newBalance);
          gs, x, k := Init(gs), Make(s.n, s.d, x, s.other), k + 1;
        } else {
          ShrunkTilted(Mem(), gs, x, k);
          var lower := Rotation(node, newBalance, Init(gs), s.other, x);
          gs, x := Init(gs), Rotated(s.n, 1 - s.d, s.other, x);
          if !lower {
            ClimbStill(gs, x);
            return;
          }
          ShrunkAgain(Mem(), gs, x);
          k := Height(x) + 1;
        }
      }
      ShrunkTop(Mem(), gs, x, k);
      ClimbStill(gs, x);
    }

    /** avl_remove of a node with at most one child. */
    method RemoveOuter(d: Node, ghost fs: seq<Step>, ghost y: Tree, ghost side: nat)
      requires AtTree(fs, y) && Avl(y) && Balanced(fs, Height(y)) && Plug(fs, y) == tree && NoDup(Foot(tree))
      requires y.Bin? && y.n == d && d in nodes && side <= 1 && Side(y, 1 - side).Leaf?
      modifies this`nodes, this`root, this`tree, this`turns, nodes
      ensures AtTree([], tree) && Avl(tree)
      ensures nodes == old(nodes) - {d} && Inorder(tree) == Without(old(Inorder(tree)), d)
      ensures tree == Less(old(tree), d)
    {
      hide ZipOk, Avl, Height, Inorder, Before, After, Plug, Foot, Balanced, Shrunk, NoDup, Side, Less, Climb;
      BalancedSides(fs, Height(y));
      FootRoot(y);
      LessPlug(fs, y, d);
      LessHere(y, side);
      DetachedOrder(fs, y, side);
      DetachedHeight(Mem(), fs, y, side);
      ghost var c := Without(Inorder(tree), d);
      var parent, which := Detach(d, fs, y, side);
      ShrunkStart(Mem(), fs, Side(y, side), Height(y));
      ghost var gs, x := RemoveLoop(parent, which, fs, Side(y, side), Height(y), c);
      Settle(gs, x);
    }

    /** avl_remove: exactly this node goes, and the links in memory are those of the tree that Less computes. */
    method Remove(data: Node)
      requires Ok() && data in nodes
      modifies this, nodes
      ensures Ok() && nodes == old(nodes) - {data} && Order() == Without(old(Order()), data)
      ensures old(Ordered(Order())) ==> Ordered(Order())
      ensures tree == Less(old(tree), data)
    {
      hide ZipOk, Avl, Height, Inorder, Before, After, Plug, Foot, Balanced, NoDup, Make, Owns, Stand, Side, Ordered,
        Without, Less;
      ghost var t := tree;
      RemoveStart(Mem(), t, nodes, data);
      ghost var fs, x := Locate(Mem(), [], tree, data);
      RemoveHere(Mem(), fs, x);
      assert Mem()[data] == data.TheCell();
      numNodes := numNodes - 1;
      if data.child.left != null && data.child.right != null {
        RemoveInner(data, fs, x);
      } else {
        RemoveOuter(data, fs, x, if data.child.left != null then 0 else 1);
      }
      RemovedOwns(old(nodes), t, data, tree);
      if Ordered(old(Order())) { WithoutOrdered(old(Order()), data); }
    }

    /** avl_remove of a node with two children. */
    method RemoveInner(data: Node, ghost fs: seq<Step>, ghost x: Tree)
      requires AtTree([], tree) && AtTree(fs, x) && Avl(x) && Balanced(fs, Height(x)) && Plug(fs, x) == tree
          && NoDup(Foot(tree))
      requires x.Bin? && x.n == data && x.l.Bin? && x.r.Bin? && Owns(nodes, tree) && Mem().Keys == nodes
      modifies this`nodes, this`root, this`tree, this`turns, nodes
      ensures AtTree([], tree) && Avl(tree)
      ensures nodes == old(nodes) - {data} && Inorder(tree) == Without(old(Inorder(tree)), data)
      ensures tree == Less(old(tree), data)
    {
      hide ZipOk, Avl, Height, Inorder, Before, After, Plug, Foot, Balanced, NoDup, Make, Owns, Stand, End, Side, Less,
        Climb, TallSide, Balance;
      ghost var t, s := tree, nodes;
      RemoveHere(Mem(), fs, x);
      assert Mem()[data] == data.TheCell();
      // towards the taller side
      var left := if data.balance == 1 then 1 else 0;
      ghost var a, b := Side(x, left), Side(x, 1 - left);
      InnerStart(fs, x, left);
      var tmp;
      ghost var node;
      tmp, node := SwapIn(data, fs, left, a, b);
      ghost var z := Make(node, left, Stand(a, 1 - left, tmp), b);
      TallBalance(x);
      InnerLess(fs, x, left, tmp, s);
      InnerPlaced(fs, x, left, tmp, s);
      tree := Plug(fs, z);
      InnerTree(Mem(), fs, z);
      ghost var gs, y := Locate(Mem(), [], tree, tmp);
      InnerEnd(Mem(), fs, x, left, tmp, gs, y);
      RemoveOuter(tmp, gs, y, left);
    }

    // ---- neighbours

    /** avl_first (d == 0) and avl_last (d == 1). */
    method Extreme(d: nat) returns (node: Node?)
      requires Ok() && d <= 1
      ensures node == if Order() == [] then null else Order()[if d == 0 then 0 else |Order()| - 1]
    {
      hide ZipOk, Avl, End, ButEnd;
      InorderSome(tree);
      if root == null {
        return null;
      }
      TopLinked(Mem(), tree);
      node := EndNode(root, d, tree, null, 0);
      ghost var s := Stand(tree, d, node);
      StandOrder(tree, d, node);
    }

    /** avl_walk: the neighbour on side d (AVL_BEFORE, AVL_AFTER) of the node at position i. */
    method Walk(start: Node, d: nat, ghost i: nat) returns (node: Node?)
      requires Ok() && d <= 1 && i < |Order()| && Order()[i] == start
      ensures node == Neighbour(Order(), i, d)
    {
      hide ZipOk, Avl, End, Height, Inorder, Plug, Before, After, Balanced, Foot, NoDup, Owns, Make, Side;
      ghost var fs, x := WalkStart(Mem(), tree, start, i);
      RemoveHere(Mem(), fs, x);
      assert Mem()[start] == start.TheCell();
      if start.child.At(d) != null {
        NeighbourBelow(fs, x, d);
        SideLinked(Mem(), fs, x, d);
        node := EndNode(start.child.At(d), 1 - d, Side(x, d), start, d);
        return;
      }
      EdgeStart(fs, x, d);
      node := start;
      while true
        invariant x.Bin? && node == x.n && node in nodes && PathLinked(Mem(), fs, node) && Plug(fs, x) == tree
        invariant node.index == UpIndex(fs) && node.parent == UpNode(fs)
        invariant AtEdge(fs, x, d, i)
        decreases |fs|
      {
        var wasChild := node.index;
        node := node.parent;
        if node == null {
          EdgeTop(x, d, i);
          return;
        }
        UpHere(Mem(), fs, x.n);
        EdgeUp(fs, x, d, i);
        if wasChild == 1 - d {
          return;
        }
        assert Mem()[node] == node.TheCell();
        ghost var s := Last(fs);
        fs, x := Init(fs), Make(s.n, s.d, x, s.other);
      }
    }

    /** avl_nearest: the node before or after an empty place. */
    method Nearest(whereNode: Node?, whereChild: nat, d: nat, ghost fs: seq<Step>) returns (node: Node?)
      requires Ok() && d <= 1 && Slot(fs, whereNode, whereChild)
      ensures node == if d == 0 then (if Before(fs) == [] then null else Before(fs)[|Before(fs)| - 1])
                      else if After(fs) == [] then null else After(fs)[0]
    {
      hide ZipOk, Avl, Height, Inorder, Plug, Before, After, Balanced, Foot, NoDup, Owns, Make, Side;
      if whereNode == null {
        NoPath(fs);
        return null;
      }
      SlotLinked(Mem(), fs);
      UpHere(Mem(), fs, null);
      SlotNeighbour(fs, d);
      SlotEnds(fs);
      ghost var s := Last(fs);
      ghost var y := Make(s.n, s.d, Leaf, s.other);
      IndexView(Init(fs), y);
      if whereChild != d {
        return whereNode;
      }
      node := Walk(whereNode, d, Index(Init(fs), y));
    }

    /** avl_insert_here: next to a node of the tree. */
    method InsertHere(newNode: Node, here: Node, d: nat, ghost i: nat)
      requires Ok() && newNode !in nodes && d <= 1 && i < |Order()| && Order()[i] == here
      modifies this, nodes, newNode
      ensures Ok() && nodes == old(nodes) + {newNode}
      ensures Order() == old(Order())[..i + d] + [newNode] + old(Order())[i + d..]
    {
      hide ZipOk, Avl, Height, Inorder, Plug, Before, After, Balanced, Foot, NoDup, Owns;
      ghost var fs, x := WalkStart(Mem(), tree, here, i);
      RemoveHere(Mem(), fs, x);
      assert Mem()[here] == here.TheCell();
      var node, child := here, d;
      if node.child.At(child) != null {
        fs, x := Descend(Mem(), fs, x, d);
        node := node.child.At(child);
        child := 1 - child;
        RemoveHere(Mem(), fs, x);
        assert Mem()[node] == node.TheCell();
        while node.child.At(child) != null
          invariant AtTree(fs, x) && Avl(x) && Balanced(fs, Height(x)) && Plug(fs, x) == tree
          invariant x.Bin? && node == x.n && node in nodes && node.child.At(child) == Root(Side(x, child))
          invariant if d == 0 then |Before(fs)| + |Inorder(x)| == i else |Before(fs)| == i + 1
          modifies {}
          decreases x
        {
          node := node.child.At(child);
          fs, x := Descend(Mem(), fs, x, child);
          RemoveHere(Mem(), fs, x);
          assert Mem()[node] == node.TheCell();
        }
      }
      fs, x := Descend(Mem(), fs, x, child);
      Insert(newNode, node, child, fs);
      InsertedAt(fs, newNode, i + d);
    }

    /** avl_add: a node with a new key. */
    method Add(newNode: Node)
      requires Ok() && Ordered(Order()) && newNode !in nodes && forall n | n in nodes :: n.key != newNode.key
      modifies this, nodes, newNode
      ensures Ok() && Ordered(Order()) && nodes == old(nodes) + {newNode}
      ensures multiset(Order()) == multiset(old(Order())) + multiset{newNode}
    {
      hide ZipOk, Avl, Height, Inorder, Plug, Before, After, Balanced, Foot, NoDup, Owns, Ordered, Below, Above;
      var found, whereNode, whereChild;
      ghost var fs, steps;
      found, whereNode, whereChild, fs, steps := Find(newNode.key);
      Insert(newNode, whereNode, whereChild, fs);
      OrderedInsert(Before(fs), newNode, After(fs));
    }

    // ---- all nodes

    /** avl_walk_all, with a call-back that removes some of the nodes it is shown. */
    method WalkAll(doomed: set<Node>) returns (seen: seq<Node>)
      requires Ok()
      modifies this, nodes
      ensures Ok() && seen == old(Order()) && Order() == Kept(old(Order()), doomed)
    {
      hide ZipOk, Avl, Height, Inorder, Foot, NoDup, Owns, Neighbour, Kept, Without;
      ghost var c := Order();
      TreeNoDup(Mem(), tree);
      seen := [];
      KeptStart(c, doomed);
      if numNodes == 0 {
        return;
      }
      var node := Extreme(0);
      ghost var s := nodes;
      ghost var i := 0;
      while node != null
        invariant Ok() && nodes <= s && i <= |c| && node == (if i < |c| then c[i] else null)
        invariant seen == c[..i] && Order() == Kept(c[..i], doomed) + c[i..]
        modifies this, s
        decreases |c| - i
      {
        Cut(c, i);
        seen := seen + [node];
        node := Visit(node, doomed, c, i);
        i := i + 1;
      }
    }

    /** One round of avl_walk_all: the next node is looked up before the call-back is called. */
    method Visit(node: Node, doomed: set<Node>, ghost c: seq<Node>, ghost i: nat) returns (next: Node?)
      requires Ok() && NoDup(multiset(c)) && i < |c| && node == c[i] && Order() == Kept(c[..i], doomed) + c[i..]
      modifies this, nodes
      ensures Ok() && nodes <= old(nodes) && Order() == Kept(c[..i + 1], doomed) + c[i + 1..]
      ensures next == if i + 1 < |c| then c[i + 1] else null
    {
      hide ZipOk, Avl, Height, Inorder, Foot, NoDup, Owns, Neighbour, Kept, Without;
      WalkOne(c, i, doomed);
      Owned(tree, nodes, node);
      next := Walk(node, 1, |Kept(c[..i], doomed)|);
      if node in doomed {
        Remove(node);
      }
    }

    // ---- destroying the tree

    /** Between two calls of avl_destroy_nodes: `last` was returned last (null before the first call), and
        `rest` is still to come. */
    ghost predicate Destroying(cookie: Cookie, fs: seq<Step>, last: Node?, rest: seq<Node>)
      reads this, nodes
    {
      if cookie.Start? then Ok() && rest == PostOrder(tree)
      else
        && root != null && Hanging(fs, last) && numNodes == |rest| + 1 && rest == Rest(fs)
        && cookie == CookieFor(fs)
    }

    /** Node n hangs below the path: it is linked from above, but no longer part of the tree. */
    ghost predicate Hanging(fs: seq<Step>, n: Node?)
      reads this`nodes, this`root, nodes
    {
      n != null && root == TopNode(fs, n) && PathLinked(Mem(), fs, n) && Spent(fs) && NoDup(PathFoot(fs))
          && Same(nodes, PathFoot(fs))
    }

    /** A subtree hangs below the path. */
    ghost predicate Attached(fs: seq<Step>, t: Tree)
      reads this`nodes, this`root, nodes
    {
      ZipOk(Mem(), fs, t) && root == TopNode(fs, Root(t)) && Spent(fs) && Avl(t) && Same(nodes, PathFoot(fs) + Foot(t))
    }

    /** The first node in post-order of the subtree at start: leftwards as far as possible, and then to
        the right child, if there is one. */
    method Dive(start: Node, ghost fs: seq<Step>, ghost t: Tree) returns (node: Node, ghost gs: seq<Step>)
      requires Attached(fs, t) && t.Bin? && t.n == start
      modifies this`nodes
      ensures Hanging(gs, node) && node !in nodes && nodes == old(nodes) - {node} && node in old(nodes)
      ensures PostOrder(t) + Rest(fs) == [node] + Rest(gs)
      ensures node.parent == UpNode(gs) && node.index == UpIndex(gs)
    {
      hide ZipOk, Avl, Height, Foot, PathFoot, NoDup, Same, PathLinked, Linked, Rest, Spent, PostOrder, Balance, Side;
      ghost var u := t;
      gs := fs;
      node := start;
      BelowHere(Mem(), gs, u);
      assert Mem()[node] == node.TheCell();
      while node.child.left != null
        invariant Attached(gs, u) && u.Bin? && u.n == node && node in nodes && node.TheCell() == Mem()[node]
        invariant Root(u.l) == node.child.left && (u.l.Leaf? <==> Root(u.l) == null)
        invariant PostOrder(u) + Rest(gs) == PostOrder(t) + Rest(fs)
        modifies {}
        decreases u
      {
        DiveLeft(Mem(), gs, u, nodes);
        node := node.child.left;
        gs, u := gs + [Step(u.n, 0, u.r, Balance(u))], u.l;
        BelowHere(Mem(), gs, u);
        assert Mem()[node] == node.TheCell();
      }
      DiveEnd(Mem(), gs, u, nodes);
      BelowHere(Mem(), gs, u);
      if node.child.right != null {
        assert node.balance == 1;
        ghost var up := node;
        node := node.child.right;
        assert Mem()[node] == node.TheCell();
        assert node.child.left == null && node.child.right == null;
        gs := gs + [Step(up, 1, Leaf, Balance(u))];
      } else {
        assert node.balance <= 0;
      }
      nodes := nodes - {node};
      assert Mem() == old(Mem()) - {node};
    }

    /** avl_destroy_nodes, with a parent to return to. */
    method DestroyMore(parent: Node, child: nat, ghost fs: seq<Step>, ghost last: Node?, ghost rest: seq<Node>)
      returns (node: Node, next: Cookie, ghost gs: seq<Step>)
      requires Destroying(Parent(parent, child), fs, last, rest)
      modifies this`root, this`numNodes, this`nodes, nodes
      ensures rest != [] && node == rest[0] && node !in nodes && nodes == old(nodes) - {node}
          && Destroying(next, gs, node, rest[1..])
    {
      hide ZipOk, Avl, Height, Foot, PathFoot, NoDup, Same, PathLinked, Linked, Rest, PostOrder, Balance, SetKid, Spent;
      MoreStart(Mem(), fs, last, nodes);
      ghost var h := Mem();
      ghost var s := Last(fs);
      assert h[parent] == parent.TheCell();
      AssignChild(parent, child, null);
      MoreCut(h, fs, last, nodes);
      assert Mem()[parent] == parent.TheCell();
      numNodes := numNodes - 1;
      if child == 1 || parent.child.right == null {
        node := parent;
        var up := parent.parent;
        gs := Init(fs);
        nodes := nodes - {node};
        assert Mem() == SetKid(h, parent, child, null) - {node};
        next := if up == null then Done else Parent(up, node.index);
      } else {
        ghost var ks := Init(fs) + [Step(s.n, 1, Leaf, s.bal)];
        node, gs := Dive(parent.child.right, ks, s.other);
        next := if node.parent == null then Done else Parent(node.parent, node.index);
      }
    }

    /** avl_destroy_nodes: the next node to be freed; it is not looked at again. */
    method DestroyNodes(cookie: Cookie, ghost fs: seq<Step>, ghost last: Node?, ghost rest: seq<Node>)
      returns (node: Node?, next: Cookie, ghost gs: seq<Step>)
      requires Destroying(cookie, fs, last, rest)
      modifies this`root, this`numNodes, this`nodes, nodes
      ensures rest == [] ==> node == null && root == null && numNodes == 0
      ensures rest != [] ==>
                && node != null
                && node == rest[0]
                && node !in nodes
                && nodes == old(nodes) - {node}
                && Destroying(next, gs, node, rest[1..])
    {
      hide ZipOk, Avl, Height, Foot, PathFoot, NoDup, Owns, Same, PathLinked, Linked, Rest, Spent, PostOrder, Balance;
      match cookie
      case Start =>
        DestroyStart(Mem(), tree, nodes);
        if root == null {
          return null, Done, [];
        }
        node, gs := Dive(root, [], tree);
        next := if node.parent == null then Done else Parent(node.parent, node.index);
      case Done =>
        NoPath(fs);
        RestNone();
        root := null;
        numNodes := 0;
        return null, Done, [];
      case Parent(parent, child) =>
        node, next, gs := DestroyMore(parent, child, fs, last, rest);
    }

    /** Freeing a whole tree with avl_destroy_nodes: every node exactly once, children before parents. */
    method DestroyAll() returns (seen: seq<Node>)
      requires Ok()
      modifies this, nodes
      ensures seen == PostOrder(old(tree)) && root == null && numNodes == 0
    {
      hide ZipOk, Avl, Height, Inorder, Foot, PathFoot, NoDup, Owns, Same, PathLinked, Linked, Rest, Spent, PostOrder,
        CookieFor, TopNode;
      ghost var order, fs, last := PostOrder(tree), [], null;
      ghost var i := 0;
      ghost var s := nodes;
      seen := [];
      var cookie := Start;
      assert order[0..] == order;
      while true
        invariant i <= |order| && seen == order[..i] && Destroying(cookie, fs, last, order[i..]) && nodes <= s
        modifies this, s
        decreases |order| - i
      {
        var node;
        ghost var rest := order[i..];
        node, cookie, fs := DestroyNodes(cookie, fs, last, rest);
        if node == null {
          assert rest == [];
          return;
        }
        assert order[..i + 1] == order[..i] + [order[i]] && rest[1..] == order[i + 1..];
        seen := seen + [node];
        last := node;
        i := i + 1;
      }
    }
  }

  /** The cookie of avl_destroy_nodes: nothing yet, the parent to return to and which child of it was
      returned last, or no parent. */
  datatype Cookie = Start | Parent(parent: Node, child: nat) | Done

  function CookieFor(fs: seq<Step>): Cookie {
    if fs == [] then Done else Parent(Last(fs).n, Last(fs).d)
  }

  /** What the assignments of PlaceAll rely on. */
  predicate Placeable(h: Heap, d: Node, node: Node, tmp: Node, left: nat) {
    && left <= 1 && d in h && node in h && node != d && (h[d].parent != null
        ==> h[d].parent in h && h[d].parent != node)
    && var h1 := Placed1(h, d, node, tmp, left);
    && node in h1 && tmp in h1
    && h1[node].child.left != null && h1[node].child.right != null && h1[node].child.left in h1
        && h1[node].child.right in h1
    && var h2 := Placed2(h1, node, left);
    && tmp in h2
    && h2[tmp].parent != null && h2[tmp].parent in h2 && h2[tmp].parent != tmp
    && (h2[tmp].child.left != null ==> h2[tmp].child.left in h2)
        && (h2[tmp].child.right != null ==> h2[tmp].child.right in h2)
  }

  lemma {:induction false} NullUp(h: Heap, p: Node?, ix: nat)
    ensures SetUp(h, null, p, ix) == h
  {
  }

  lemma {:induction false} HandedKeeps(h: Heap, n: Node, child: Node, gl: Node?, gr: Node?, left: nat, g: Node)
    requires left <= 1 && g in h && g != n && g != child && g != gl && g != gr
    ensures g in Handed(h, n, child, gl, gr, left) && Handed(h, n, child, gl, gr, left)[g] == h[g]
  {
  }

  /** What avl_rotation reads. */
  lemma {:induction false} RotationStart(h: Heap, fs: seq<Step>, n: Node, left: nat, l: Tree, r: Tree)
    requires ZipAt(h, fs, n, left, l, r) && left <= 1 && Tilted(l, r)
    ensures n in h && h[n].parent == UpNode(fs) && h[n].index == UpIndex(fs) && h[n].child.At(left) == Root(l)
    ensures UpNode(fs) != null ==> UpNode(fs) in h
    ensures l.Bin? && l.n in h && -1 <= Balance(l) <= 1 && h[l.n].balance == Balance(l)
        && l == Make(l.n, left, Side(l, left), Side(l, 1 - left))
    ensures h[l.n].child.At(1 - left) == Root(Side(l, 1 - left))
    ensures Root(Side(l, 1 - left)) != null ==> Root(Side(l, 1 - left)) in h
    ensures Balance(l) == -Heavy(left) ==> Side(l, 1 - left).Bin?
  {
    hide Linked, PathLinked, Foot, PathFoot, Height;
    RotatedHeights(n, left, l, r);
    var a, b := Side(l, left), Side(l, 1 - left);
    Opened(l, left);
    LinkedMake(h, l.n, left, a, b, n, left);
    if b.Bin? { LinkedParts(h, b, l.n, 1 - left); }
    UpIn(h, fs, n);
  }

  lemma {:induction false} RotationSingle(h: Heap, fs: seq<Step>, n: Node, left: nat, l: Tree, r: Tree)
    requires ZipAt(h, fs, n, left, l, r) && left <= 1 && Tilted(l, r) && l.Bin? && Balance(l) != -Heavy(left)
    ensures var h' := Rotated1(h, UpNode(fs), UpIndex(fs), n, l.n, left, Balance(l) - Heavy(left));
            h'.Keys == h.Keys && ZipOk(h', fs, Rotated(n, left, l, r)) && Root(Rotated(n, left, l, r)) == l.n
  {
    hide ZipAt, ZipOk, Height, Avl, Rotated1;
    var a, b := Side(l, left), Side(l, 1 - left);
    Opened(l, left);
    Rotate1Linked(h, fs, n, left, l.n, a, b, r, Balance(l) - Heavy(left));
  }

  lemma {:induction false} RotationDouble(h: Heap, fs: seq<Step>, n: Node, left: nat, l: Tree, r: Tree)
    requires ZipAt(h, fs, n, left, l, r) && left <= 1 && Tilted(l, r) && l.Bin? && Balance(l) == -Heavy(left)
    ensures var b := Side(l, 1 - left);
            && b.Bin? && b.n in h && b.n != n && b.n != l.n
            && h[b.n].child.At(left) == Root(Side(b, left)) && h[b.n].child.At(1 - left) == Root(Side(b, 1 - left))
            && (h[b.n].child.left != null ==> h[b.n].child.left in h && h[b.n].child.left != b.n)
            && (h[b.n].child.right != null ==> h[b.n].child.right in h && h[b.n].child.right != b.n)
            && var h' := Rotated2(h, UpNode(fs), UpIndex(fs), n, l.n, b.n, h[b.n].child.At(left),
                h[b.n].child.At(1 - left), left, h[b.n].balance);
               h'.Keys == h.Keys && ZipOk(h', fs, Rotated(n, left, l, r)) && Root(Rotated(n, left, l, r)) == b.n
  {
    hide ZipAt, ZipOk, Height, Avl, Rotated2, Linked, PathLinked, Foot, PathFoot, NoDup;
    var a, b := Side(l, left), Side(l, 1 - left);
    RotatedHeights(n, left, l, r);
    Opened(l, left);
    Opened(b, left);
    var g1, g2 := Side(b, left), Side(b, 1 - left);
    Rotate2Apart(h, fs, n, left, l.n, b.n, a, g1, g2, r);
    Roots(h, g1, b.n, left);
    Roots(h, g2, b.n, 1 - left);
    Rotate2Linked(h, fs, n, left, l.n, b.n, a, g1, g2, r, h[b.n].balance);
  }

  lemma {:induction false} RootMake(n: Node, d: nat, a: Tree, b: Tree)
    ensures Root(Make(n, d, a, b)) == n
  {
  }

  lemma {:induction false} LeafView(n: Node)
    ensures Inorder(Bin(Leaf, n, Leaf)) == [n]
  {
  }

  lemma {:induction false} EndHere(h: Heap, u: Tree, d: nat, q: Node?, iy: nat)
    requires Linked(h, u, q, iy) && u.Bin? && d <= 1
    ensures u.n in h && h[u.n].child.At(d) == Root(Side(u, d)) && Linked(h, Side(u, d), u.n, d)
    ensures End(u, d) == if Side(u, d).Leaf? then u else End(Side(u, d), d)
    ensures Side(u, d).Leaf? <==> Root(Side(u, d)) == null
  {
  }

  lemma {:induction false} KidKeeps(h: Heap, n: Node, d: nat, c: Node?)
    requires n in h
    ensures n in SetKid(h, n, d, c) && SetKid(h, n, d, c)[n] == h[n].(child := h[n].child.With(d, c))
  {
  }

  lemma {:induction false} KidOther(h: Heap, n: Node?, d: nat, c: Node?, v: Node)
    requires v in h && v != n
    ensures v in SetKid(h, n, d, c) && SetKid(h, n, d, c)[v] == h[v]
  {
  }

  lemma {:induction false} ParentKeeps(h: Heap, c: Node?, v: Node)
    requires v in h
    ensures v in SetParent(h, c, v) && SetParent(h, c, v)[v].child == h[v].child
  {
  }

  lemma {:induction false} NullParent(h: Heap, p: Node?)
    ensures SetParent(h, null, p) == h
  {
  }

  /** What avl_remove reads while it puts the placeholder in. */
  lemma {:induction false} SwapStart(h: Heap, fs: seq<Step>, d: Node, left: nat, a: Tree, b: Tree, tmp: Node)
    requires ZipOk(h, fs, Make(d, left, a, b)) && left <= 1 && a.Bin? && b.Bin? && tmp !in h
    ensures d in h && h[d].child.At(left) == a.n && Linked(h, a, d, left) && h[d].parent == UpNode(fs)
    ensures var node := End(a, 1 - left); node.Bin? && node.n in h && Placeable(h, d, node.n, tmp, left)
  {
    hide ZipOk, Make, Linked, Placed1, Placed2, Placed3, Height;
    PlacingOk(h, fs, d, left, a, b, tmp);
    SwapLinked(h, fs, d, left, a, b);
    var e := End(a, 1 - left);
    var up, kid := h[e.n].parent, Root(Side(e, left));
    Placed1Cells(h, d, e.n, tmp, left, a.n, b.n, up, kid);
    var h1 := Placed1(h, d, e.n, tmp, left);
    Placed2Cells(h1, e.n, left, if up == d then tmp else a.n, b.n);
  }

  lemma {:induction false} SwapLinked(h: Heap, fs: seq<Step>, d: Node, left: nat, a: Tree, b: Tree)
    requires ZipOk(h, fs, Make(d, left, a, b)) && left <= 1
    ensures d in h && Linked(h, a, d, left) && h[d].parent == UpNode(fs) && h[d].child == Sides(left, Root(a), Root(b))
  {
    hide Linked;
    LinkedMake(h, d, left, a, b, UpNode(fs), UpIndex(fs));
  }
}
