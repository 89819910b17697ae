/** Index trees as values: shape, in-order contents and the blocks they own. */
module IndexTreeShape {
  import opened IndexLayout

  /** A (sub)tree.  A leaf block has a Nil child beside every entry, so leaves and inner blocks
      are handled alike. */
  datatype Tree = Nil | Node(vbn: Vbn, cap: nat, es: seq<Entry>, kids: seq<Tree>)

  function RootVbn(t: Tree): Vbn { if t.Nil? then 0 else t.vbn }

  function Own(e: Entry): seq<KV> { if e.end then [] else [e.kv] }

  // ---- in-order contents

  function Flat(t: Tree): seq<KV> {
    match t
    case Nil => []
    case Node(_, _, es, kids) => Weave(kids, es)
  }

  function Weave(kids: seq<Tree>, es: seq<Entry>): seq<KV> {
    if kids == [] || es == [] then [] else Flat(kids[0]) + Own(es[0]) + Weave(kids[1..], es[1..])
  }

  lemma {:induction false} WeaveAppend(k1: seq<Tree>, e1: seq<Entry>, k2: seq<Tree>, e2: seq<Entry>)
    requires |k1| == |e1|
    ensures Weave(k1 + k2, e1 + e2) == Weave(k1, e1) + Weave(k2, e2)
  {
    if k1 == [] {
      assert k1 + k2 == k2 && e1 + e2 == e2;
    } else {
      assert (k1 + k2)[1..] == k1[1..] + k2 && (e1 + e2)[1..] == e1[1..] + e2;
      WeaveAppend(k1[1..], e1[1..], k2, e2);
    }
  }

  lemma {:induction false} WeaveNone()
    ensures Weave([], []) == []
  {
  }

  lemma {:induction false} WeaveOne(k: Tree, e: Entry)
    ensures Weave([k], [e]) == Flat(k) + Own(e)
  {
    assert Weave([k][1..], [e][1..]) == [];
  }

  lemma {:induction false} WeaveSplit(kids: seq<Tree>, es: seq<Entry>, i: nat)
    requires |kids| == |es| && i <= |es|
    ensures Weave(kids, es) == Weave(kids[..i], es[..i]) + Weave(kids[i..], es[i..])
  {
    assert kids == kids[..i] + kids[i..] && es == es[..i] + es[i..];
    WeaveAppend(kids[..i], es[..i], kids[i..], es[i..]);
  }

  lemma {:induction false} WeaveTail(kids: seq<Tree>, es: seq<Entry>, i: nat)
    requires |kids| == |es| && i < |es|
    ensures Weave(kids[i..], es[i..]) == Flat(kids[i]) + Own(es[i]) + Weave(kids[i + 1..], es[i + 1..])
  {
    assert kids[i..][1..] == kids[i + 1..] && es[i..][1..] == es[i + 1..];
  }

  lemma {:induction false} WeaveInit(kids: seq<Tree>, es: seq<Entry>, i: nat)
    requires |kids| == |es| && i < |es|
    ensures Weave(kids[..i + 1], es[..i + 1]) == Weave(kids[..i], es[..i]) + (Flat(kids[i]) + Own(es[i]))
  {
    assert kids[..i + 1] == kids[..i] + [kids[i]] && es[..i + 1] == es[..i] + [es[i]];
    WeaveAppend(kids[..i], es[..i], [kids[i]], [es[i]]);
    WeaveOne(kids[i], es[i]);
  }

  lemma {:induction false} WeaveAt(kids: seq<Tree>, es: seq<Entry>, i: nat)
    requires |kids| == |es| && i < |es|
    ensures Weave(kids, es)
         == Weave(kids[..i], es[..i]) + (Flat(kids[i]) + Own(es[i]) + Weave(kids[i + 1..], es[i + 1..]))
  {
    WeaveSplit(kids, es, i);
    WeaveTail(kids, es, i);
  }

  /** Block numbers do not show in the contents. */
  lemma {:induction false} WeaveIgnoresVbn(kids: seq<Tree>, es: seq<Entry>, us: seq<Entry>)
    requires |kids| == |es| == |us|
    requires forall i | 0 <= i < |es| :: Own(es[i]) == Own(us[i])
    ensures Weave(kids, es) == Weave(kids, us)
  {
    if kids != [] {
      assert Own(es[0]) == Own(us[0]);
      WeaveIgnoresVbn(kids[1..], es[1..], us[1..]);
    }
  }

  // ---- owned blocks

  function Foot(t: Tree): multiset<Vbn> {
    match t
    case Nil => multiset{}
    case Node(v, _, _, kids) => multiset{v} + FootAll(kids)
  }

  function FootAll(kids: seq<Tree>): multiset<Vbn> {
    if kids == [] then multiset{} else Foot(kids[0]) + FootAll(kids[1..])
  }

  ghost predicate NoDup(m: multiset<Vbn>) { forall v :: m[v] <= 1 }

  lemma {:induction false} FootAppend(a: seq<Tree>, b: seq<Tree>)
    ensures FootAll(a + b) == FootAll(a) + FootAll(b)
  {
    if a == [] {
      assert a + b == b;
    } else {
      assert (a + b)[1..] == a[1..] + b;
      FootAppend(a[1..], b);
    }
  }

  lemma {:induction false} FootOne(t: Tree)
    ensures FootAll([t]) == Foot(t)
  {
    assert FootAll([t][1..]) == multiset{};
  }

  lemma {:induction false} FootSplit(kids: seq<Tree>, i: nat)
    requires i <= |kids|
    ensures FootAll(kids) == FootAll(kids[..i]) + FootAll(kids[i..])
  {
    assert kids == kids[..i] + kids[i..];
    FootAppend(kids[..i], kids[i..]);
  }

  lemma {:induction false} FootAt(kids: seq<Tree>, i: nat)
    requires i < |kids|
    ensures FootAll(kids) == FootAll(kids[..i]) + Foot(kids[i]) + FootAll(kids[i + 1..])
    ensures FootAll(kids[i..]) == Foot(kids[i]) + FootAll(kids[i + 1..])
    ensures FootAll(kids[..i + 1]) == FootAll(kids[..i]) + Foot(kids[i])
  {
    FootSplit(kids, i);
    assert kids[i..][1..] == kids[i + 1..];
    assert kids[..i + 1] == kids[..i] + [kids[i]];
    FootAppend(kids[..i], [kids[i]]);
    FootOne(kids[i]);
  }

  lemma {:induction false} FootMember(kids: seq<Tree>, i: nat, v: Vbn)
    requires i < |kids| && v in Foot(kids[i])
    ensures v in FootAll(kids)
  {
    FootAt(kids, i);
  }

  // ---- shape

  /** A stored entry whose sizes are within the limits of the format. */
  predicate EntryOk(e: Entry, node: bool) {
    && e.node == node
    && (!node ==> e.vbn == 0)
    && if e.end then e.kv == KV([], []) else 1 <= |e.kv.key| <= KEY_MAX_SIZE && |e.kv.val| <= VALUE_MAX_SIZE
  }

  /** A block's entries: all of one kind, exactly the last one END, within the allocated size. */
  predicate EntriesOk(es: seq<Entry>, node: bool, cap: nat) {
    && 0 < |es|
    && RealSize(es) <= cap
    && forall i | 0 <= i < |es| :: EntryOk(es[i], node) && (es[i].end <==> i == |es| - 1)
  }

  function CapOf(root: bool): nat { if root then ROOT_CAP else BLOCK_CAP }

  /** A tree of exactly h levels.  Every leaf but a root leaf holds a key; an inner block may hold
      nothing but its END child. */
  predicate Shape(t: Tree, h: nat, root: bool)
    decreases h
  {
    if h == 0 then t.Nil? && !root
    else
      && t.Node?
      && t.vbn != 0
      && t.cap == CapOf(root)
      && EntriesOk(t.es, h > 1, t.cap)
      && |t.kids| == |t.es|
      && (h == 1 && !root ==> 1 < |t.es|)
      && (forall i | 0 <= i < |t.kids| :: Shape(t.kids[i], h - 1, false))
      && (forall i | 0 <= i < |t.kids| :: t.es[i].vbn == RootVbn(t.kids[i]))
  }

  lemma {:induction false} FlatNonEmpty(t: Tree, h: nat)
    requires Shape(t, h, false) && 1 <= h
    ensures 1 <= |Flat(t)|
    decreases h
  {
    WeaveAt(t.kids, t.es, 0);
    if h > 1 {
      FlatNonEmpty(t.kids[0], h - 1);
    } else {
      assert Own(t.es[0]) == [t.es[0].kv];
    }
  }

  lemma {:induction false} FootNonZero(t: Tree, h: nat, root: bool, v: Vbn)
    requires Shape(t, h, root) && v in Foot(t)
    ensures v != 0
    decreases h, 0, 0
  {
    if v != t.vbn {
      FootAllNonZero(t.kids, h - 1, v);
    }
  }

  lemma {:induction false} FootAllNonZero(kids: seq<Tree>, h: nat, v: Vbn)
    requires forall i | 0 <= i < |kids| :: Shape(kids[i], h, false)
    requires v in FootAll(kids)
    ensures v != 0
    decreases h, 1, |kids|
  {
    if v in Foot(kids[0]) {
      FootNonZero(kids[0], h, false, v);
    } else {
      FootAllNonZero(kids[1..], h, v);
    }
  }

  // ---- how a tree sits in the block store

  /** Cached blocks, which of them are dirty, and the blocks on disk. */
  datatype World = World(store: map<Vbn, Block>, dirty: set<Vbn>, disk: map<Vbn, Block>)

  ghost predicate Held(w: World, v: Vbn, cap: nat, es: seq<Entry>) {
    v in w.store && w.store[v] == Block(cap, es)
  }

  ghost predicate Synced(w: World, v: Vbn) {
    v !in w.dirty ==> v in w.store && v in w.disk && w.disk[v] == w.store[v]
  }

  /** Every block is stored under its number; a clean block equals its disk copy; a dirty block's
      parent is dirty. */
  ghost predicate Holds(w: World, t: Tree) {
    match t
    case Nil => true
    case Node(v, cap, es, kids) =>
      && Held(w, v, cap, es)
      && Synced(w, v)
      && (forall i | 0 <= i < |kids| :: Holds(w, kids[i]))
      && (forall i | 0 <= i < |kids| :: RootVbn(kids[i]) in w.dirty ==> v in w.dirty)
  }

  ghost predicate Same(w: World, u: World, v: Vbn) {
    && (v in w.store <==> v in u.store)
    && (v in w.store ==> w.store[v] == u.store[v])
    && (v in w.dirty <==> v in u.dirty)
    && w.disk == u.disk
  }

  /** A tree is untouched by changes to blocks it does not own. */
  lemma {:induction false} HoldsFrame(w: World, u: World, t: Tree)
    requires Holds(w, t)
    requires forall v | v in Foot(t) :: Same(w, u, v)
    requires 0 !in w.dirty && 0 !in u.dirty
    ensures Holds(u, t)
  {
    match t
    case Nil =>
    case Node(v, cap, es, kids) =>
      assert Same(w, u, v);
      forall i | 0 <= i < |kids|
        ensures Holds(u, kids[i]) && (RootVbn(kids[i]) in u.dirty ==> v in u.dirty)
      {
        forall x | x in Foot(kids[i]) ensures Same(w, u, x) {
          FootMember(kids, i, x);
        }
        HoldsFrame(w, u, kids[i]);
        if kids[i].Node? {
          assert RootVbn(kids[i]) in Foot(kids[i]);
        }
      }
  }

  lemma {:induction false} FootInStore(w: World, t: Tree, v: Vbn)
    requires Holds(w, t) && v in Foot(t)
    ensures v in w.store
  {
    if v != t.vbn {
      FootAllInStore(w, t.kids, v);
    }
  }

  lemma {:induction false} FootAllInStore(w: World, kids: seq<Tree>, v: Vbn)
    requires forall i | 0 <= i < |kids| :: Holds(w, kids[i])
    requires v in FootAll(kids)
    ensures v in w.store
  {
    if v in Foot(kids[0]) {
      FootInStore(w, kids[0], v);
    } else {
      FootAllInStore(w, kids[1..], v);
    }
  }
}
