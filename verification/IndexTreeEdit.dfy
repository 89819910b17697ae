/** Editing the block under the cursor. */
module IndexTreeEdit {
  import opened IndexLayout
  import opened IndexTreeShape
  import opened IndexTreeZipper
  import opened IndexTreeDirty

  function Insert<T>(s: seq<T>, p: nat, a: T): seq<T> {
    if p <= |s| then s[..p] + [a] + s[p..] else s
  }

  function Delete<T>(s: seq<T>, p: nat): seq<T> {
    if p < |s| then s[..p] + s[p + 1..] else s
  }

  lemma {:induction false} DeleteIndex<T>(s: seq<T>, p: nat, i: nat)
    requires p < |s|
    ensures |Delete(s, p)| == |s| - 1
    ensures i < |s| - 1 ==> Delete(s, p)[i] == s[if i < p then i else i + 1]
  {
  }

  /** The store after block v was rewritten in place. */
  function Rewritten(w: World, v: Vbn, b: Block): World {
    w.(store := w.store[v := b])
  }

  // ---- between well-formed trees and paths

  lemma {:induction false} ZipToPath(w: World, fs: seq<Frame>, x: Tree, h: nat, m: multiset<Vbn>)
    requires ZipOk(w, fs, x, h) && NoDup(ZipFoot(fs, x) + m) && Apart(w, m)
    ensures PathOk(w, fs, x, h, |fs|, 0, m)
  {
  }

  /** A dirty, well-shaped last block makes the path a well-formed tree. */
  lemma {:induction false} PathToZip(w: World, fs: seq<Frame>, x: Tree, h: nat, d: int, m: multiset<Vbn>)
    requires PathOk(w, fs, x, h, d, 0, m) && (d == -1 || d == |fs|)
    requires Shape(x, h - |fs|, |fs| == 0) && x.vbn in w.dirty
    ensures ZipOk(w, fs, x, h) && NoDup(ZipFoot(fs, x) + m) && Apart(w, m)
  {
  }

  lemma {:induction false} PathDirty(w: World, fs: seq<Frame>, x: Tree, h: nat, m: multiset<Vbn>)
    requires PathOk(w, fs, x, h, -1, 0, m)
    ensures x.Node? && x.vbn in w.dirty
    ensures fs != [] ==> fs[|fs| - 1].vbn in w.dirty
  {
    assert VbnAt(fs, x.vbn, |fs|) in w.dirty;
    if fs != [] {
      assert VbnAt(fs, x.vbn, |fs| - 1) in w.dirty;
    }
  }

  /** Rewriting the cursor's block; the children it gains come out of m, those it loses go there. */
  lemma {:induction false} Rewrite(w: World, fs: seq<Frame>, x: Tree, h: nat, d: int, m: multiset<Vbn>,
                                   es: seq<Entry>, kids: seq<Tree>, m': multiset<Vbn>)
    requires PathOk(w, fs, x, h, d, 0, m) && (d == |fs| || d == -1)
    requires forall k | 0 <= k < |kids| :: Holds(w, kids[k])
    requires FootAll(kids) + m' == FootAll(x.kids) + m
    ensures var u := Rewritten(w, x.vbn, Block(x.cap, es));
            PathOk(u, fs, Node(x.vbn, x.cap, es, kids), h, d, 0, m') && Kept(w, u, m')
  {
    var u := Rewritten(w, x.vbn, Block(x.cap, es));
    var y := Node(x.vbn, x.cap, es, kids);
    RewriteFoot(CtxFoot(fs), x, y, m, m');
    PathApart(fs, x, m, |fs|);
    PathApart(fs, y, m', |fs|);
    OthersHold(w, u, fs, x, h, |fs|, x.vbn, m);
    forall k | 0 <= k < |kids| ensures Holds(u, kids[k]) {
      KidHolds(w, u, kids[k], x.vbn, x.vbn);
    }
    forall i | 0 <= i < |fs| ensures HoldsAt(u, fs, i) {
    }
    forall v | v in m' ensures v in u.store && Same(w, u, v) {
      assert v in FootAll(x.kids) + m;
      if v in FootAll(x.kids) { FootAllInStore(w, x.kids, v); }
    }
    forall i | 0 <= i < |fs| && i != d ensures DirtyAt(u, fs, x.vbn, i) {
      assert DirtyAt(w, fs, x.vbn, i);
    }
  }

  lemma {:induction false} RewriteFoot(c: multiset<Vbn>, x: Tree, y: Tree, m: multiset<Vbn>, m': multiset<Vbn>)
    requires x.Node? && y.Node? && x.vbn == y.vbn && NoDup(c + Foot(x) + m)
    requires FootAll(y.kids) + m' == FootAll(x.kids) + m
    ensures NoDup(c + Foot(y) + m')
  {
    assert c + Foot(x) + m == c + multiset{x.vbn} + (FootAll(x.kids) + m);
    assert c + Foot(y) + m' == c + multiset{x.vbn} + (FootAll(y.kids) + m');
  }

  // ---- inserting an entry with the subtree to its left

  lemma {:induction false} InsertFoot(kids: seq<Tree>, p: nat, l: Tree)
    requires p <= |kids|
    ensures FootAll(Insert(kids, p, l)) == FootAll(kids) + Foot(l)
  {
    FootAppend(kids[..p] + [l], kids[p..]);
    FootAppend(kids[..p], [l]);
    FootOne(l);
    FootSplit(kids, p);
  }

  lemma {:induction false} InsertWeave(kids: seq<Tree>, es: seq<Entry>, p: nat, e: Entry, l: Tree)
    requires |kids| == |es| && p <= |es| && !e.end
    ensures Weave(Insert(kids, p, l), Insert(es, p, e))
         == Weave(kids[..p], es[..p]) + (Flat(l) + [e.kv]) + Weave(kids[p..], es[p..])
  {
    WeaveAppend(kids[..p] + [l], es[..p] + [e], kids[p..], es[p..]);
    WeaveAppend(kids[..p], es[..p], [l], [e]);
    WeaveOne(l, e);
  }

  lemma {:induction false} InsertEntries(es: seq<Entry>, p: nat, e: Entry, node: bool, cap: nat)
    requires EntriesOk(es, node, cap) && p < |es| && EntryOk(e, node) && !e.end
    requires RealSize(es) + Len(e) <= cap
    ensures EntriesOk(Insert(es, p, e), node, cap)
  {
    SumLenInsert(es, p, e);
    var us := Insert(es, p, e);
    forall i | 0 <= i < |us|
      ensures EntryOk(us[i], node) && (us[i].end <==> i == |us| - 1)
    {
      if i < p { assert us[i] == es[i]; }
      else if i > p { assert us[i] == es[i - 1]; }
    }
  }

  /** Inserting entry e with left child l before position p of block x. */
  function Inserted(x: Tree, p: nat, e: Entry, l: Tree): Tree {
    if x.Node? then Node(x.vbn, x.cap, Insert(x.es, p, e), Insert(x.kids, p, l)) else x
  }

  lemma {:induction false} InsertShape(x: Tree, p: nat, e: Entry, l: Tree, h: nat, root: bool)
    requires Shape(x, h, root) && 1 <= h && p < |x.es| && EntryOk(e, h > 1) && !e.end
    requires Shape(l, h - 1, false) && e.vbn == RootVbn(l)
    requires RealSize(x.es) + Len(e) <= x.cap
    ensures Shape(Inserted(x, p, e, l), h, root)
  {
    InsertEntries(x.es, p, e, h > 1, x.cap);
    var y := Inserted(x, p, e, l);
    forall i | 0 <= i < |y.kids|
      ensures Shape(y.kids[i], h - 1, false) && y.es[i].vbn == RootVbn(y.kids[i])
    {
      if i < p { assert y.kids[i] == x.kids[i] && y.es[i] == x.es[i]; }
      else if i > p { assert y.kids[i] == x.kids[i - 1] && y.es[i] == x.es[i - 1]; }
    }
  }

  // ---- deleting an entry together with the subtree to its left

  lemma {:induction false} DeleteFoot(kids: seq<Tree>, p: nat)
    requires p < |kids|
    ensures FootAll(Delete(kids, p)) + Foot(kids[p]) == FootAll(kids)
  {
    FootAppend(kids[..p], kids[p + 1..]);
    FootAt(kids, p);
  }

  lemma {:induction false} DeleteWeave(kids: seq<Tree>, es: seq<Entry>, p: nat)
    requires |kids| == |es| && p < |es|
    ensures Weave(Delete(kids, p), Delete(es, p)) == Weave(kids[..p], es[..p]) + Weave(kids[p + 1..], es[p + 1..])
  {
    WeaveAppend(kids[..p], es[..p], kids[p + 1..], es[p + 1..]);
  }

  lemma {:induction false} DeleteEntries(es: seq<Entry>, p: nat, node: bool, cap: nat)
    requires EntriesOk(es, node, cap) && p < |es| - 1
    ensures EntriesOk(Delete(es, p), node, cap)
  {
    SumLenRemove(es, p);
    var us := Delete(es, p);
    forall i | 0 <= i < |us|
      ensures EntryOk(us[i], node) && (us[i].end <==> i == |us| - 1)
    {
      if i < p { assert us[i] == es[i]; } else { assert us[i] == es[i + 1]; }
    }
  }

  function Deleted(x: Tree, p: nat): Tree {
    if x.Node? then Node(x.vbn, x.cap, Delete(x.es, p), Delete(x.kids, p)) else x
  }

  lemma {:induction false} DeleteShape(x: Tree, p: nat, h: nat, root: bool)
    requires Shape(x, h, root) && 1 <= h && p < |x.es| - 1
    requires h == 1 && !root ==> 2 < |x.es|
    ensures Shape(Deleted(x, p), h, root)
  {
    DeleteEntries(x.es, p, h > 1, x.cap);
    var y := Deleted(x, p);
    forall i | 0 <= i < |y.kids|
      ensures Shape(y.kids[i], h - 1, false) && y.es[i].vbn == RootVbn(y.kids[i])
    {
      if i < p { assert y.kids[i] == x.kids[i] && y.es[i] == x.es[i]; }
      else { assert y.kids[i] == x.kids[i + 1] && y.es[i] == x.es[i + 1]; }
    }
  }
}
