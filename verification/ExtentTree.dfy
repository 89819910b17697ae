/** What the table of free extents asks of its index, done by the index tree. */
module ExtentTree {
  import opened IndexLayout
  import opened IndexTreeEdit
  import opened IndexTreeSearch
  import opened IndexTreeSwap
  import opened IndexTreeRest
  import opened IndexTree
  import opened Collate
  import opened Extents
  import opened ExtentIndex

  /** The index tree holds the extents s, and its cursor is on an entry or on END. */
  ghost predicate OnTree(ix: IndexTree, s: seq<Extent>)
    reads ix
  {
    ix.Ok() && ix.cr == CrExtent && Proper(s) && ix.Contents() == ToEntries(s) && ix.pos < |ix.focus.es|
  }

  lemma {:induction false} TableSorted(s: seq<Extent>)
    requires Proper(s)
    ensures Sorted(CrExtent, ToEntries(s)) && |ToEntries(s)| == |s|
  {
    hide Sorted;
    ProperIsSorted(s);
  }

  /** How entries compare with a range. */
  lemma {:induction false} TableSigns(s: seq<Extent>, q: Extent)
    requires Proper(s) && 0 < q.len && End(q) < TWO_64
    ensures KeyOk(CrExtent, ToEntry(q)) && QueryOk(CrExtent, ToEntry(q).key, ToEntry(q).val)
    ensures forall i | 0 <= i < |s| ::
              var sign := CollateSign(CrExtent, ToEntries(s)[i], ToEntry(q).key, ToEntry(q).val);
              (sign == 0 <==> Overlap(s[i], q)) && (sign < 0 <==> End(s[i]) <= q.addr)
  {
    hide CollateSign, ToEntry;
    QueryFits(q);
    forall i | 0 <= i < |s|
      ensures var sign := CollateSign(CrExtent, ToEntries(s)[i], ToEntry(q).key, ToEntry(q).val);
              (sign == 0 <==> Overlap(s[i], q)) && (sign < 0 <==> End(s[i]) <= q.addr)
    {
      EqualIsOverlap(s[i], q);
      assert ToEntries(s)[i] == ToEntry(s[i]);
    }
  }

  lemma {:induction false} QueryFits(q: Extent)
    requires 0 < q.len && End(q) < TWO_64
    ensures var e := ToEntry(q); KeyOk(CrExtent, e) && QueryOk(CrExtent, e.key, e.val) && |e.key| <= 8 && |e.val| <= 8
  {
    hide Encode, LittleEndian;
    EntryExtent(q);
    KeyIsQuery(CrExtent, ToEntry(q).key, ToEntry(q).val);
  }

  /** index_search_key_nolock */
  method SearchExtent(ix: IndexTree, ghost s: seq<Extent>, q: Extent) returns (found: bool)
    requires OnTree(ix, s) && 0 < q.len && End(q) < TWO_64
    modifies ix`depth, ix`cacheStack, ix`posStack, ix`pos, ix`frames, ix`focus
    ensures OnTree(ix, s) && ix.CursorRank() <= |s|
    ensures found <==> exists e :: e in s && Overlap(e, q)
    ensures found ==> ix.CursorRank() < |s| && Met(s, old(ix.TheTree()), q, ix.CursorRank())
    ensures !found ==> Place(s, ix.CursorRank(), q)
  {
    hide Sooner, CollateSign, Sorted, QueryOk, KeyOk, ToEntry, Encode, LittleEndian, Proper, ToEntries, Place, Overlap;
    TableSorted(s);
    TableQuery(s, q);
    found := ix.SearchKey(ToEntry(q).key, ToEntry(q).val);
    SearchMeans(s, q, ix.CursorRank(), found);
    TableSigns(s, q);
  }

  lemma {:induction false} TableQuery(s: seq<Extent>, q: Extent)
    requires Proper(s) && 0 < q.len && End(q) < TWO_64
    ensures QueryOk(CrExtent, ToEntry(q).key, ToEntry(q).val) && |ToEntries(s)| == |s|
  {
    hide QueryOk, KeyOk, CollateSign, ToEntry;
    TableSigns(s, q);
  }

  /** What a search among the entries says about the extents. */
  lemma {:induction false} SearchMeans(s: seq<Extent>, q: Extent, r: nat, found: bool)
    requires Proper(s) && 0 < q.len && End(q) < TWO_64 && r <= |s| == |ToEntries(s)|
    requires var c, k, v := ToEntries(s), ToEntry(q).key, ToEntry(q).val;
             && (found <==> exists a :: a in c && CollateSign(CrExtent, a, k, v) == 0)
             && (found ==> r < |c| && CollateSign(CrExtent, c[r], k, v) == 0)
             && (!found ==> forall i | 0 <= i < r :: CollateSign(CrExtent, c[i], k, v) < 0)
             && (!found ==> forall i | r <= i < |c| :: CollateSign(CrExtent, c[i], k, v) > 0)
    ensures found <==> exists e :: e in s && Overlap(e, q)
    ensures found ==> r < |s| && Overlap(s[r], q)
    ensures !found ==> Place(s, r, q)
  {
    hide CollateSign, ToEntry, KeyOk, QueryOk, ToEntries;
    var c, k, v := ToEntries(s), ToEntry(q).key, ToEntry(q).val;
    TableSigns(s, q);
    if found {
      assert s[r] in s;
    } else {
      forall e | e in s ensures !Overlap(e, q) {
        var i :| 0 <= i < |s| && s[i] == e;
        assert c[i] in c;
      }
      forall i | 0 <= i < |s| ensures if i < r then End(s[i]) <= q.addr else End(q) <= s[i].addr {
        assert s[i] in s;
      }
    }
  }

  /** tree_remove_ie on the extent under the cursor: exactly that extent goes, if and only if its block would not be
      overfull with its successor in its place; otherwise extent j is lost, and the successor is there twice. */
  method RemoveExtent(ix: IndexTree, ghost s: seq<Extent>) returns (ghost j: nat)
    requires OnTree(ix, s) && ix.pos < |ix.focus.es| - 1 && ix.height + 1 < TREE_MAX_DEPTH
    modifies ix`root, ix`store, ix`dirty, ix`reused, ix`freed, ix`depth, ix`cacheStack, ix`posStack, ix`pos, ix`frames,
      ix`focus, ix`height
    ensures ix.Ok() && old(ix.CursorRank()) < |s|
    ensures var t, i := old(ix.TheTree()), old(ix.CursorRank());
            && (ix.Contents() == ToEntries(Delete(s, i)) <==> !Overfull(t, ToEntries(s), i))
            && (!Overfull(t, ToEntries(s), i) ==>
                  && OnTree(ix, Delete(s, i))
                  && if GoesBack(t, i) then ix.CursorRank() == RestAt(t, i) else i <= ix.CursorRank())
            && (Overfull(t, ToEntries(s), i) ==>
                  && i + 1 < |s| && j < |s| && (j < i || i + 1 < j)
                  && ix.Contents() == CopiedDropped(ToEntries(s), i, j))
  {
    hide Overfull, RestAt, Proper, ToEntries, CopiedDropped, Sorted;
    ghost var t, i := ix.TheTree(), ix.CursorRank();
    TableSize(s);
    TableSorted(s);
    var removed;
    removed, j := ix.TreeRemoveIe();
    DeleteExtent(s, i);
    EntriesDelete(s, i);
    if Overfull(t, ToEntries(s), i) { SwapWrong(CrExtent, ToEntries(s), i, j); }
  }

  lemma {:induction false} TableSize(s: seq<Extent>)
    ensures |ToEntries(s)| == |s|
  {
  }

  lemma {:induction false} EntriesDelete(s: seq<Extent>, i: nat)
    requires i < |s|
    ensures ToEntries(Delete(s, i)) == DeleteAt(ToEntries(s), i)
  {
    hide ToEntry, Delete;
    var t := Delete(s, i);
    DeleteIndex(s, i, 0);
    DeleteIndex(ToEntries(s), i, 0);
    forall j | 0 <= j < |t| ensures ToEntries(t)[j] == Delete(ToEntries(s), i)[j] {
      DeleteIndex(s, i, j);
      DeleteIndex(ToEntries(s), i, j);
    }
  }

  /** walk_tree(INDEX_GET_PREV) */
  method PrevExtent(ix: IndexTree, ghost s: seq<Extent>) returns (found: bool)
    requires OnTree(ix, s)
    modifies ix`depth, ix`cacheStack, ix`posStack, ix`pos, ix`frames, ix`focus
    ensures OnTree(ix, s) && (found <==> 0 < old(ix.CursorRank()))
    ensures found ==> ix.CursorRank() == old(ix.CursorRank()) - 1 < |s| && ix.pos < |ix.focus.es| - 1
                      && ix.focus.es[ix.pos].kv == ToEntry(s[ix.CursorRank()])
  {
    hide Proper, ToEntry;
    TableSize(s);
    found := ix.WalkPrev();
  }

  /** index_insert_key_nolock, of an extent that overlaps no other. */
  method InsertExtent(ix: IndexTree, ghost s: seq<Extent>, q: Extent) returns (ghost p: nat)
    requires OnTree(ix, s) && 0 < q.len && End(q) < TWO_64 && ix.height < TREE_MAX_DEPTH
    requires forall e | e in s :: !Overlap(e, q)
    modifies ix`root, ix`store, ix`dirty, ix`reused, ix`freed, ix`depth, ix`cacheStack, ix`posStack, ix`pos, ix`frames,
      ix`focus, ix`height
    ensures p <= |s| && Place(s, p, q) && ix.Ok() && ix.Contents() == ToEntries(Insert(s, p, q))
  {
    hide CollateSign, Sorted, QueryOk, KeyOk, ToEntry, Encode, LittleEndian, Proper;
    TableSorted(s);
    TableSigns(s, q);
    QueryFits(q);
    TableSize(s);
    forall a | a in ToEntries(s) ensures CollateSign(CrExtent, a, ToEntry(q).key, ToEntry(q).val) != 0 {
      var i :| 0 <= i < |s| && ToEntries(s)[i] == a;
      assert s[i] in s;
    }
    var done;
    done, p := ix.InsertKey(ToEntry(q).key, ToEntry(q).val);
    EntriesInsert(s, p, q);
    PlaceOf(s, p, q);
  }

  lemma {:induction false} EntriesInsert(s: seq<Extent>, p: nat, q: Extent)
    requires p <= |s|
    ensures ToEntries(Insert(s, p, q)) == InsertAt(ToEntries(s), p, ToEntry(q))
  {
    hide ToEntry;
    var t := Insert(s, p, q);
    forall j | 0 <= j < |t| ensures ToEntries(t)[j] == Insert(ToEntries(s), p, ToEntry(q))[j] {
      InsertedIs(s, p, q, j);
    }
  }

  lemma {:induction false} PlaceOf(s: seq<Extent>, p: nat, q: Extent)
    requires Proper(s) && p <= |s| && 0 < q.len && End(q) < TWO_64 && Sorted(CrExtent, ToEntries(Insert(s, p, q)))
    ensures Place(s, p, q)
  {
    hide Sorted, ToEntries, Insert;
    var t := Insert(s, p, q);
    InsertedIs(s, p, q, p);
    forall i | 0 <= i < |t| ensures t[i].addr < TWO_64 && t[i].len < TWO_64 {
      InsertedIs(s, p, q, i);
    }
    ProperIsSorted(t);
    forall i | 0 <= i < p ensures End(s[i]) <= q.addr {
      InsertedIs(s, p, q, i);
    }
    forall i | p <= i < |s| ensures End(q) <= s[i].addr {
      InsertedIs(s, p, q, i + 1);
    }
  }
}
