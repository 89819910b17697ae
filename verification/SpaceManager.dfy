/** The allocator: free extents in a table, and two levels of it. */
module SpaceManager {
  import opened IndexTreeShape
  import opened IndexTreeEdit
  import opened IndexTreeSwap
  import opened IndexTreeRest
  import opened Collate
  import opened Extents
  import opened ExtentIndex

  const TWO_31: nat := 0x8000_0000
  const TWO_32: nat := 0x1_0000_0000

  // Blocks set aside for the tree of the space manager: refill below the one, up to the other.
  const MIN_BLK_NUM: nat := 3
  const MAX_BLK_NUM: nat := 10

  /** The index of free extents, with its cursor; |exts| is END.  It keeps them in some well-formed tree.
      Searching, walking, inserting and removing keep to what the index tree guarantees under the extent rule
      when no removal goes wrong. */
  class ExtentTable {
    var exts: seq<Extent>
    var cur: nat
    var tree: Tree
    var height: nat

    ghost predicate Ok()
      reads this
    {
      Proper(exts) && cur <= |exts| && Indexed(tree, height, exts)
    }

    constructor ()
      ensures Ok() && exts == []
    {
      exts, cur := [], 0;
      ghost var g, k := IndexExists([]);
      var t, h :| Indexed(t, h, []);
      tree, height := t, h;
    }

    /** A table with given extents, in a given tree. */
    constructor Holding(exts: seq<Extent>, tree: Tree, height: nat)
      requires Proper(exts) && Indexed(tree, height, exts)
      ensures Ok() && this.exts == exts && this.tree == tree
    {
      this.exts, this.cur, this.tree, this.height := exts, 0, tree, height;
    }

    /** The extents have changed; how the tree now holds them is up to the index. */
    method Reindex()
      requires Proper(exts)
      modifies this`tree, this`height
      ensures Indexed(tree, height, exts)
    {
      hide Indexed;
      ghost var g, k := IndexExists(exts);
      var t, h :| Indexed(t, h, exts);
      tree, height := t, h;
    }

    /** index_search_key_nolock: to the extent that overlaps and is nearest to the root, or to the least one after. */
    method Search(addr: nat, len: nat) returns (found: bool)
      requires Ok() && 0 < len && addr + len < TWO_64
      modifies this`cur
      ensures Ok()
      ensures found <==> exists e :: e in exts && Overlap(e, Extent(addr, len))
      ensures found ==> cur < |exts| && Met(exts, tree, Extent(addr, len), cur)
      ensures !found ==> Place(exts, cur, Extent(addr, len))
    {
      hide Indexed, DepthAt;
      var q := Extent(addr, len);
      found := false;
      for i := 0 to |exts|
        invariant !found ==> forall j | 0 <= j < i :: !Overlap(exts[j], q)
        invariant found ==> cur < i && Overlap(exts[cur], q)
        invariant found ==> forall j | 0 <= j < i && Overlap(exts[j], q) :: Sooner(tree, cur, j)
        modifies this`cur
      {
        if Overlap(exts[i], q) && (!found || DepthAt(tree, i) < DepthAt(tree, cur)) {
          found := true;
          cur := i;
        }
      }
      if found {
        assert exts[cur] in exts;
        return;
      }
      forall e | e in exts ensures !Overlap(e, q) {
        var i :| 0 <= i < |exts| && exts[i] == e;
      }
      ghost var p := PlaceExists(exts, q);
      cur := 0;
      while cur < |exts| && End(exts[cur]) <= addr
        invariant cur <= p
        modifies this`cur
      {
        cur := cur + 1;
      }
      return false;
    }

    /** tree_remove_ie: the extent under the cursor goes.  The cursor ends where the tree foretells, if that is
        before the extent's place, and otherwise at that place or beyond. */
    method Remove()
      requires Ok() && cur < |exts|
      modifies this
      ensures Ok() && exts == Delete(old(exts), old(cur))
      ensures if GoesBack(old(tree), old(cur)) then cur == RestAt(old(tree), old(cur)) else old(cur) <= cur
      ensures forall b :: Free(exts, b) <==> Free(old(exts), b) && !Spans(old(exts)[old(cur)], b)
      ensures Total(exts) + old(exts)[old(cur)].len == Total(old(exts))
      ensures Coalesced(old(exts)) ==> Coalesced(exts)
    {
      hide Proper, Free, Coalesced, Indexed, RestAt;
      DeleteExtent(exts, cur);
      TotalDelete(exts, cur);
      DeleteIndex(exts, cur, 0);
      exts := Delete(exts, cur);
      if GoesBack(tree, cur) {
        cur := RestAt(tree, cur);
      } else {
        var c :| cur <= c <= |exts|;
        cur := c;
      }
      Reindex();
    }

    /** walk_tree(INDEX_GET_PREV) */
    method WalkPrev() returns (found: bool)
      requires Ok()
      modifies this`cur
      ensures Ok() && (found <==> 0 < old(cur)) && cur == if found then old(cur) - 1 else 0
    {
      if cur == 0 {
        return false;
      }
      cur := cur - 1;
      return true;
    }

    /** index_insert_key_nolock with length zero: an entry without blocks, which the index is not meant for. */
    method InsertEmpty(addr: nat) returns (ghost p: nat)
      requires Ok()
      modifies this
      ensures p <= |old(exts)| && exts == Insert(old(exts), p, Extent(addr, 0)) && Total(exts) == Total(old(exts))
    {
      var i := 0;
      while i < |exts| && End(exts[i]) <= addr
        invariant i <= |exts|
      {
        i := i + 1;
      }
      p := i;
      TotalInsert(exts, i, Extent(addr, 0));
      exts := Insert(exts, i, Extent(addr, 0));
      cur := i;
    }

    /** index_insert_key_nolock: an extent that overlaps no other. */
    method InsertKey(addr: nat, len: nat) returns (ghost p: nat)
      requires Ok() && 0 < len && addr + len < TWO_64
      requires forall e | e in exts :: !Overlap(e, Extent(addr, len))
      modifies this
      ensures Ok() && Place(old(exts), p, Extent(addr, len)) && exts == Insert(old(exts), p, Extent(addr, len))
      ensures forall b :: Free(exts, b) <==> Free(old(exts), b) || Spans(Extent(addr, len), b)
      ensures Total(exts) == Total(old(exts)) + len
      ensures Coalesced(old(exts)) && NoneTouches(old(exts), addr, addr + len) ==> Coalesced(exts)
    {
      hide Proper, Free, Coalesced, Indexed;
      var found := Search(addr, len);
      assert !found;
      p := cur;
      if Coalesced(exts) { InsertCoalesced(exts, cur, Extent(addr, len)); }
      InsertExtent(exts, cur, Extent(addr, len));
      TotalInsert(exts, cur, Extent(addr, len));
      exts := Insert(exts, cur, Extent(addr, len));
      var c :| 0 <= c <= |exts|;
      cur := c;
      Reindex();
    }
  }

  /** No extent ends at lo or begins at hi. */
  ghost predicate NoneTouches(s: seq<Extent>, lo: nat, hi: nat) { forall f | f in s :: End(f) != lo && f.addr != hi }

  /** alloc_space and free_space keep lengths in 32 bits; the number of blocks is returned as int32_t. */
  function Low32(n: int): nat { n % TWO_32 }

  function Int32(n: nat): int { if Low32(n) < TWO_31 then Low32(n) else Low32(n) - TWO_32 }

  /** alloc_space takes the extent met by a search for the range asked for, if one overlaps, and otherwise the next
      one, or the first if there is none. */
  ghost predicate Chosen(s: seq<Extent>, t: Tree, q: Extent, i: nat) {
    && i < |s|
    && if exists e :: e in s && Overlap(e, q) then Met(s, t, q, i) else Place(s, i, q) || (i == 0 && Place(s, |s|, q))
  }

  ghost predicate AllFree(s: seq<Extent>, q: Extent) { forall b: nat | Spans(q, b) :: Free(s, b) }

  /** Exactly n blocks from start on have left the set of free blocks, all of them free before. */
  ghost predicate Taken(s: seq<Extent>, t: seq<Extent>, start: nat, n: nat) {
    && (forall b :: Free(t, b) <==> Free(s, b) && !Spans(Extent(start, n), b))
    && (forall b :: Spans(Extent(start, n), b) ==> Free(s, b))
    && Total(t) + n == Total(s)
  }

  /** Extent i, whose length is read in 32 bits, gave n blocks from start on, as many as there are up to cnt; what is
      before
      and behind them in its first blocks is still free. */
  ghost predicate LeftOver(s: seq<Extent>, t: seq<Extent>, i: nat, start: nat, cnt: nat, n: nat) {
    && i < |s|
    && (var e := s[i];
        && e.addr <= start && 0 < n <= cnt
        && n == (if start + cnt < e.addr + Low32(e.len) then cnt else e.addr + Low32(e.len) - start)
        && (forall b: nat ::
              Free(t, b) <==>
                || (Free(s, b) && !Spans(e, b))
                || e.addr <= b < start || start + n <= b < e.addr + Low32(e.len))
        && Total(t) + e.len == Total(s) + Low32(e.len) - n)
  }

  class SpaceManager {
    const table: ExtentTable
    var firstFreeBlock: nat
    var totalFreeBlocks: nat

    /** ofs_init_sm, with a new table. */
    constructor (firstFreeBlock: nat, totalFreeBlocks: nat)
      ensures fresh(table) && table.Ok() && table.exts == []
      ensures this.firstFreeBlock == firstFreeBlock && this.totalFreeBlocks == totalFreeBlocks
    {
      table := new ExtentTable();
      this.firstFreeBlock, this.totalFreeBlocks := firstFreeBlock, totalFreeBlocks;
    }

    /** ofs_init_sm and ofs_init_free_space: one extent is free. */
    constructor Filled(start: nat, blkCnt: nat)
      requires 0 < blkCnt && start < TWO_32 && start + blkCnt < TWO_64 && blkCnt < TWO_32
      ensures fresh(table) && Ok() && Counted() && totalFreeBlocks == blkCnt
      ensures forall b: nat :: Free(table.exts, b) <==> start <= b < start + blkCnt
    {
      var t := new ExtentTable();
      table, firstFreeBlock, totalFreeBlocks := t, start, blkCnt;
      new;
      hide Proper, Coalesced, Indexed;
      NoneFree();
      ghost var p := t.InsertKey(start, blkCnt);
    }

    /** ofs_init_sm, with a table that is there already. */
    constructor Over(table: ExtentTable, firstFreeBlock: nat, totalFreeBlocks: nat)
      ensures this.table == table && this.firstFreeBlock == firstFreeBlock && this.totalFreeBlocks == totalFreeBlocks
    {
      this.table, this.firstFreeBlock, this.totalFreeBlocks := table, firstFreeBlock, totalFreeBlocks;
    }

    /** alloc_space: up to blkCnt blocks from one extent, number i; negative when there is none.  Right exactly when
        that extent is shorter than 2^32 blocks; otherwise blocks are lost, or an assertion fails (died). */
    method AllocSpace(start: nat, blkCnt: nat) returns (ret: int, realStart: nat, died: bool, ghost i: nat,
        ghost n: nat)
      requires table.Ok() && 0 < blkCnt < TWO_32 && start + blkCnt < TWO_64
      modifies table
      ensures old(table.exts) == [] ==> !died && ret < 0 && table.exts == [] && table.Ok()
      ensures old(table.exts) != [] ==>
                var s := old(table.exts);
                && i < |s| && Chosen(s, old(table.tree), Extent(start, blkCnt), i)
                && (!died && Taken(s, table.exts, realStart, n) <==> s[i].len < TWO_32)
                && (died <==> Low32(s[i].len) == 0 || (Spans(s[i], start) && s[i].addr + Low32(s[i].len) <= start))
                && (!died ==>
                      && table.Ok() && LeftOver(s, table.exts, i, realStart, blkCnt, n)
                      && n <= blkCnt && ret == (if n < TWO_31 then n else n - TWO_32)
                      && realStart == (if Spans(s[i], start) then start else s[i].addr)
                      && (Coalesced(s) ==> Coalesced(table.exts)))
      ensures Coalesced(old(table.exts)) && AllFree(old(table.exts), Extent(start, blkCnt)) ==>
                && i < |old(table.exts)|
                && (old(table.exts)[i].len < TWO_32 ==> !died && n == blkCnt && realStart == start)
    {
      hide Proper, Free, Coalesced, Indexed, Taken, LeftOver;
      i, n := 0, 0;
      var startBlk := start;
      var found := table.Search(start, blkCnt);
      if !found {
        if table.cur == |table.exts| {
          // walk_tree(INDEX_GET_FIRST)
          if |table.exts| == 0 {
            NoneFree();
            assert Spans(Extent(start, blkCnt), start) && !Free(table.exts, start);
            return -1, start, false, i, n;
          }
          table.cur := 0;
        }
        startBlk := table.exts[table.cur].addr;
      }
      i := table.cur;
      ghost var s, t := table.exts, table.tree;
      ExtentFacts(table.exts, table.cur);
      ret, realStart, died, n := Carve(startBlk, blkCnt);
      if !died { GaveIs(s, table.exts, i, realStart, blkCnt, n); }
      if !died {
        Carved(s, i, realStart, blkCnt, n, table.exts);
        WholeRequest(s, t, i, start, blkCnt, realStart, n, table.exts);
      }
    }

    /** The rest of alloc_space: the extent under the cursor gives up to blkCnt blocks from startBlk on. */
    method Carve(startBlk: nat, blkCnt: nat) returns (ret: int, realStart: nat, died: bool, ghost n: nat)
      requires table.Ok() && 0 < blkCnt < TWO_32 && table.cur < |table.exts|
      requires startBlk < End(table.exts[table.cur])
      modifies table
      ensures !died ==> table.Ok() && ret == Int32(n) && LeftOver(old(table.exts), table.exts, old(table.cur),
          realStart, blkCnt, n)
                        && realStart == var addr := old(table.exts)[old(table.cur)].addr;
                                        if addr < startBlk then startBlk else addr
      ensures !died && Coalesced(old(table.exts)) ==> Coalesced(table.exts)
      ensures var e := old(table.exts)[old(table.cur)]; died <==> Low32(e.len) == 0 || e.addr + Low32(e.len) <= startBlk
    {
      hide Proper, Free, Coalesced, Delete, Indexed;
      ghost var s, i := table.exts, table.cur;
      ExtentFacts(s, i);
      var addr := table.exts[table.cur].addr;
      var len := Low32(table.exts[table.cur].len);
      var end := addr + len;
      n := 0;
      if len == 0 {
        // the assertion on len fails
        return 0, startBlk, true, n;
      }
      OutBlocks(s, i);
      if Coalesced(s) { OutGap(s, i, startBlk, startBlk + blkCnt); }
      table.Remove();
      if startBlk <= addr {
        ret, n := PutRest(s, i, addr, blkCnt, end);
        return ret, addr, false, n;
      }
      if startBlk >= end {
        // the assertion on start_blk fails
        return 0, startBlk, true, n;
      }
      ghost var s1 := table.exts;
      ghost var p := table.InsertKey(addr, startBlk - addr);
      StillApart(s1, p, Extent(addr, startBlk - addr), Extent(startBlk, end - startBlk));
      if Coalesced(s) && startBlk + blkCnt < end {
        GapKept(s1, p, Extent(addr, startBlk - addr), startBlk + blkCnt, end);
      }
      ret, n := PutRest(s, i, startBlk, blkCnt, end);
      return ret, startBlk, false, n;
    }

    /** What is left behind the blocks taken goes back. */
    method PutRest(ghost s: seq<Extent>, ghost i: nat, startBlk: nat, blkCnt: nat, end: nat) returns (ret: int,
        ghost n: nat)
      requires table.Ok() && 0 < blkCnt < TWO_32 && i < |s| && s[i].addr <= startBlk < end < TWO_64
      requires end == s[i].addr + Low32(s[i].len) && forall e | e in table.exts ::
          !Overlap(e, Extent(startBlk, end - startBlk))
      requires forall b: nat :: Free(table.exts, b) <==> (Free(s, b) && !Spans(s[i], b)) || s[i].addr <= b < startBlk
      requires Total(table.exts) + s[i].len == Total(s) + startBlk - s[i].addr
      modifies table
      requires Coalesced(s) ==> Coalesced(table.exts)
      requires Coalesced(s) && startBlk + blkCnt < end ==> NoneTouches(table.exts, startBlk + blkCnt, end)
      ensures table.Ok() && ret == Int32(n) && LeftOver(s, table.exts, i, startBlk, blkCnt, n)
      ensures Coalesced(s) ==> Coalesced(table.exts)
    {
      hide Proper, Free, Coalesced, Indexed;
      var endBlk := startBlk + blkCnt;
      if endBlk < end {
        ghost var p := table.InsertKey(endBlk, end - endBlk);
        n := endBlk - startBlk;
        ret := Int32(endBlk - startBlk);
      } else {
        n := end - startBlk;
        ret := Int32(end - startBlk);
      }
    }

    /** free_space: the range is added, together with the extents it is joined with.  A range that overlaps a free
        extent is refused, with result 0.  Exactly the range becomes free if and only if the joined extent is shorter
        than 2^32 blocks, and then the table stays coalesced exactly when the neighbour before is not missed. */
    method FreeSpace(start: nat, blkCnt: nat) returns (ret: int, ghost g: Extent)
      requires table.Ok() && 0 < blkCnt < TWO_32 && start + blkCnt < TWO_64
      modifies table
      ensures ret == 0
      ensures (exists e :: e in old(table.exts) && Overlap(e, Extent(start, blkCnt)))
          ==> table.Ok() && table.exts == old(table.exts)
      ensures (forall e | e in old(table.exts) :: !Overlap(e, Extent(start, blkCnt))) ==>
                var s, t, e := old(table.exts), old(table.tree), Extent(start, blkCnt);
                && (Given(s, table.exts, e) <==> Fits(s, t, e))
                && (Fits(s, t, e) ==> table.Ok() && Joins(s, t, e, g) && Renewed(s, table.exts, g))
                && (Fits(s, t, e) && Coalesced(s) ==> (Coalesced(table.exts) <==> !MissesPrev(s, t, e)))
    {
      hide Proper, Free, Coalesced, Place, Indexed, GoesBack, Given, Fits, MissesPrev, WithNext, LessNext, WithPrev,
        LessPrev, Missed, Joins, Renewed;
      ghost var s, t, e := table.exts, table.tree, Extent(start, blkCnt);
      var found := table.Search(start, blkCnt);
      g := e;
      if found {
        return 0, g;
      }
      ghost var k := table.cur;
      PlaceApart(s, k, e);
      var cnt := JoinNext(start, blkCnt);
      NextView(s, k, e);
      ghost var back := table.cur < k || (0 < k && s[k - 1].len >= TWO_32);
      var startBlk, newCnt := JoinPrev(start, cnt, k, WithNext(s, k, e));
      PrevView(s, k, e, back);
      MissedIs(s, t, k, e, back);
      FitsIs(s, t, k, e, back);
      ghost var t1 := table.exts;
      ghost var p := PutJoined(startBlk, newCnt, WithPrev(LessNext(s, k, e), k, WithNext(s, k, e), back).len);
      GivenIs(s, k, e, back, t1, table.exts, newCnt);
      g := WithPrev(LessNext(s, k, e), k, WithNext(s, k, e), back);
      if Fits(s, t, e) {
        JoinedCoalesced(s, k, e, back, p);
        JoinsIs(s, t, k, e, back);
        RenewedIs(s, k, e, back, p);
      }
      return 0, g;
    }

    /** The joined extent goes back into the table, with its length in 32 bits. */
    method PutJoined(startBlk: nat, newCnt: nat, ghost len: nat) returns (ghost p: nat)
      requires table.Ok() && newCnt == Low32(len) && 0 < len && startBlk + len < TWO_64
      requires forall g | g in table.exts :: !Overlap(g, Extent(startBlk, len))
      modifies table
      ensures newCnt > 0 ==>
                && table.Ok() && Place(old(table.exts), p, Extent(startBlk, newCnt))
                    && table.exts == Insert(old(table.exts), p, Extent(startBlk, newCnt))
                && (forall b :: Free(table.exts, b) <==> Free(old(table.exts), b) || Spans(Extent(startBlk, newCnt), b))
      ensures Total(table.exts) == Total(old(table.exts)) + newCnt
    {
      hide Proper, Free, Coalesced, Place, Indexed;
      if newCnt == 0 {
        p := table.InsertEmpty(startBlk);
      } else {
        p := table.InsertKey(startBlk, newCnt);
      }
    }

    /** Join with the extent after, which is under the cursor. */
    method JoinNext(start: nat, blkCnt: nat) returns (cnt: nat)
      requires table.Ok() && 0 < blkCnt < TWO_32 && start + blkCnt < TWO_64
      requires Place(table.exts, table.cur, Extent(start, blkCnt))
      modifies table
      ensures table.Ok() && cnt == Low32(WithNext(old(table.exts), old(table.cur), Extent(start, blkCnt)).len)
      ensures table.exts == LessNext(old(table.exts), old(table.cur), Extent(start, blkCnt))
      ensures table.cur < old(table.cur) <==>
                TouchesNext(old(table.exts), old(table.cur), Extent(start, blkCnt))
                    && GoesBack(old(table.tree), old(table.cur))
    {
      hide Proper, Free, Coalesced, Indexed, RestAt, Delete, Place;
      NextAfter(table.exts, table.cur, Extent(start, blkCnt));
      cnt := blkCnt;
      if table.cur < |table.exts| {
        ghost var s, k := table.exts, table.cur;
        var addr := table.exts[table.cur].addr;
        var len := Low32(table.exts[table.cur].len);
        if addr < start + blkCnt {
          // INDEX_ERR_CHAOS
          assert false;
        }
        if addr == start + blkCnt {
          Low32Sum(cnt, s[k].len);
          table.Remove();
          cnt := Low32(cnt + len);
        }
      }
    }

    /** Walk backwards over extents after the range e, and join with the one before if it is met and touches; cnt is the
        length of e in 32 bits. */
    method JoinPrev(start: nat, cnt: nat, ghost k: nat, ghost e: Extent) returns (startBlk: nat, newCnt: nat)
      requires table.Ok() && 0 < e.len && start == e.addr && cnt == Low32(e.len) && Place(table.exts, k, e)
      modifies table
      ensures table.Ok()
      ensures var back := old(table.cur) < k || (0 < k <= |old(table.exts)| && old(table.exts)[k - 1].len >= TWO_32);
              && startBlk == WithPrev(old(table.exts), k, e, back).addr
                  && newCnt == Low32(WithPrev(old(table.exts), k, e, back).len)
              && table.exts == LessPrev(old(table.exts), k, e, back)
    {
      hide Free, Coalesced, Proper, Place, Delete, Indexed, WithPrev, LessPrev, Low32, Total, Spans;
      startBlk, newCnt := start, cnt;
      while true
        invariant table.Ok() && table.exts == old(table.exts) && table.cur <= old(table.cur)
        invariant k <= old(table.cur) ==> k <= table.cur
        invariant old(table.cur) < k ==> table.cur == old(table.cur)
        decreases table.cur
      {
        var found := table.WalkPrev();
        if !found {
          PrevNone(table.exts, k, e, old(table.cur) < k);
          return;
        }
        var addr := table.exts[table.cur].addr;
        var len := Low32(table.exts[table.cur].len);
        BackFrom(table.exts, k, e, table.cur);
        if table.cur < k { PrevIs(table.exts, k, e, table.cur, old(table.cur) < k); }
        if addr + len > start {
          if addr > start {
            continue;
          }
          // INDEX_ERR_CHAOS
          assert false;
        }
        if addr + len == start {
          table.Remove();
          startBlk := addr;
          newCnt := Low32(newCnt + len);
        }
        return;
      }
    }

    ghost predicate Ok()
      reads this, table
    {
      table.Ok() && Total(table.exts) < TWO_32 && firstFreeBlock < TWO_32
    }

    /** The counter is the number of free blocks. */
    ghost predicate Counted()
      reads this, table
    {
      totalFreeBlocks == Total(table.exts)
    }

    /** sm_alloc_space: negative when no block is free, or none according to the counter.  It starts where the last
        call ended if the extent it takes from, number i, has that block, and otherwise at the beginning of that extent.
        The counter stays exact, and one that is too high is set right when the table turns out to be empty. */
    method SmAllocSpace(blkCnt: nat) returns (n: int, realStart: nat, ghost i: nat)
      requires Ok() && 0 < blkCnt < TWO_31 && forall b: nat :: Free(table.exts, b) ==> b < TWO_32 - 1
      modifies this, table
      ensures Ok() && (old(Counted()) ==> Counted())
      ensures n < 0 <==> old(totalFreeBlocks) == 0 || old(table.exts) == []
      ensures n < 0 ==>
                && table.exts == old(table.exts) && totalFreeBlocks == 0
                && firstFreeBlock == if old(totalFreeBlocks) == 0 then old(firstFreeBlock) else 0
      ensures n >= 0 ==>
                && 0 < n <= blkCnt && firstFreeBlock == realStart + n
                && (old(Counted()) ==> totalFreeBlocks + n == old(totalFreeBlocks))
                && totalFreeBlocks == (if old(totalFreeBlocks) < n then old(totalFreeBlocks)
                                       else old(totalFreeBlocks) - n)
                && (forall b :: Free(table.exts, b) <==> Free(old(table.exts), b) && !Spans(Extent(realStart, n), b))
                && (forall b :: Spans(Extent(realStart, n), b) ==> Free(old(table.exts), b))
      ensures n >= 0 ==>
                var s, first := old(table.exts), old(firstFreeBlock);
                && Chosen(s, old(table.tree), Extent(first, blkCnt), i)
                && realStart == (if Spans(s[i], first) then first else s[i].addr)
                && n == (if realStart + blkCnt < End(s[i]) then blkCnt else End(s[i]) - realStart)
                && (realStart == first <==> Hinted(s, old(table.tree), first, blkCnt))
      ensures Coalesced(old(table.exts)) ==> Coalesced(table.exts)
      ensures n >= 0 && Coalesced(old(table.exts)) && AllFree(old(table.exts), Extent(old(firstFreeBlock), blkCnt)) ==>
                n == blkCnt && realStart == old(firstFreeBlock)
      ensures 0 < n < blkCnt && Coalesced(old(table.exts)) ==> !Free(old(table.exts), realStart + n)
    {
      hide Proper, Free, Indexed, Chosen, Coalesced, Hinted, AllFree;
      i := 0;
      if totalFreeBlocks == 0 {
        return -1, 0, i;
      }
      n, realStart, i := Draw(firstFreeBlock, blkCnt);
      if n < 0 {
        // INDEX_ERR_NO_FREE_BLOCKS
        firstFreeBlock, totalFreeBlocks := 0, 0;
        return;
      }
      assert Spans(Extent(realStart, n), realStart + n - 1);
      firstFreeBlock := realStart + n;
      if totalFreeBlocks >= n {
        totalFreeBlocks := totalFreeBlocks - n;
      }
    }

    /** alloc_space on a table with fewer than 2^32 blocks. */
    method Draw(start: nat, blkCnt: nat) returns (n: int, realStart: nat, ghost i: nat)
      requires table.Ok() && Total(table.exts) < TWO_32 && 0 < blkCnt < TWO_31 && start < TWO_32
      modifies table
      ensures table.Ok() && (n < 0 <==> old(table.exts) == []) && (n < 0 ==> table.exts == old(table.exts))
      ensures n >= 0 ==>
                var s := old(table.exts);
                && 0 < n <= blkCnt && i < |s| && Chosen(s, old(table.tree), Extent(start, blkCnt), i)
                && realStart == (if Spans(s[i], start) then start else s[i].addr)
                && n == (if realStart + blkCnt < End(s[i]) then blkCnt else End(s[i]) - realStart)
                && Taken(s, table.exts, realStart, n)
                && (realStart == start <==> Hinted(s, old(table.tree), start, blkCnt))
      ensures Coalesced(old(table.exts)) ==> Coalesced(table.exts)
      ensures n >= 0 && Coalesced(old(table.exts)) && AllFree(old(table.exts), Extent(start, blkCnt)) ==>
                n == blkCnt && realStart == start
      ensures 0 < n < blkCnt && Coalesced(old(table.exts)) ==> !Free(old(table.exts), realStart + n)
    {
      hide Proper, Free, Indexed, LeftOver, Chosen, Coalesced, Taken, Spans, Hinted, AllFree;
      TotalShort(table.exts);
      var died;
      ghost var m;
      ghost var s, t := table.exts, table.tree;
      n, realStart, died, i, m := AllocSpace(start, blkCnt);
      if s != [] {
        GaveIs(s, table.exts, i, realStart, blkCnt, m);
        HintedIs(s, t, start, blkCnt, i);
        if Coalesced(s) { GapAfter(s, i); }
      }
    }

    /** sm_free_space.  The counter stays right exactly when the range was not free, wholly or in part. */
    method SmFreeSpace(start: nat, blkCnt: nat) returns (ret: int)
      requires Ok() && Counted() && 0 < blkCnt && start + blkCnt < TWO_64 && Total(table.exts) + blkCnt < TWO_32
      modifies this, table
      ensures Ok() && ret == 0 && totalFreeBlocks == old(totalFreeBlocks) + blkCnt
          && firstFreeBlock == old(firstFreeBlock)
      ensures Counted() <==> forall e | e in old(table.exts) :: !Overlap(e, Extent(start, blkCnt))
      ensures !Counted() ==> table.exts == old(table.exts)
      ensures Counted() ==>
                && (forall b :: Free(table.exts, b) <==> Free(old(table.exts), b) || Spans(Extent(start, blkCnt), b))
                && (Coalesced(old(table.exts)) ==>
                      (Coalesced(table.exts) <==> !MissesPrev(old(table.exts), old(table.tree), Extent(start, blkCnt))))
                && exists g :: Joins(old(table.exts), old(table.tree), Extent(start, blkCnt), g)
                               && Renewed(old(table.exts), table.exts, g)
    {
      hide Proper, Free, Coalesced, Indexed, Fits, MissesPrev, Joins, Renewed;
      TotalFits(table.exts, table.tree, Extent(start, blkCnt));
      ghost var g;
      ret, g := FreeSpace(start, blkCnt);
      totalFreeBlocks := totalFreeBlocks + blkCnt;
    }
  }

  lemma {:induction false} ExtentFacts(s: seq<Extent>, i: nat)
    requires Proper(s) && i < |s|
    ensures 0 < s[i].len && End(s[i]) < TWO_64 && Low32(s[i].len) <= s[i].len
        && (Low32(s[i].len) == s[i].len <==> s[i].len < TWO_32)
  {
  }

  /** What overlaps an extent taken out, and which blocks were free because of it. */
  lemma {:induction false} OutBlocks(s: seq<Extent>, i: nat)
    requires Proper(s) && i < |s|
    ensures forall e | e in Delete(s, i) :: End(e) <= s[i].addr || End(s[i]) <= e.addr
    ensures forall b :: Spans(s[i], b) ==> Free(s, b)
  {
    forall e | e in Delete(s, i) ensures End(e) <= s[i].addr || End(s[i]) <= e.addr {
      var j :| 0 <= j < |Delete(s, i)| && Delete(s, i)[j] == e;
      DeleteIndex(s, i, j);
    }
  }

  /** Parts of an extent of a coalesced table that was taken out touch no other, and not each other. */
  lemma {:induction false} OutGap(s: seq<Extent>, i: nat, lo: nat, hi: nat)
    requires Proper(s) && Coalesced(s) && i < |s| && lo < hi
    ensures var e, t := s[i], Delete(s, i); var end := e.addr + Low32(e.len);
            && (e.addr <= lo <= end ==> NoneTouches(t, e.addr, lo))
            && (lo <= e.addr && e.addr < e.addr + hi - lo < end ==> NoneTouches(t, e.addr + hi - lo, end))
            && (e.addr < lo && hi < end ==> NoneTouches(t, hi, end))
  {
    ExtentFacts(s, i);
    var t := Delete(s, i);
    forall f | f in t ensures End(f) < s[i].addr || End(s[i]) < f.addr {
      var j :| 0 <= j < |t| && t[j] == f;
      DeleteIndex(s, i, j);
    }
  }

  lemma {:induction false} GapKept(s: seq<Extent>, p: nat, e: Extent, lo: nat, hi: nat)
    requires p <= |s| && NoneTouches(s, lo, hi) && End(e) != lo && e.addr != hi
    ensures NoneTouches(Insert(s, p, e), lo, hi)
  {
  }

  lemma {:induction false} GaveIs(s: seq<Extent>, t: seq<Extent>, i: nat, start: nat, cnt: nat, n: nat)
    requires LeftOver(s, t, i, start, cnt, n)
    ensures 0 < n <= cnt && i < |s|
    ensures s[i].len < TWO_32 ==> n == if start + cnt < End(s[i]) then cnt else End(s[i]) - start
  {
    hide Free;
  }

  /** What is left is all but the n blocks exactly when the extent was shorter than 2^32 blocks. */
  lemma {:induction false} Carved(s: seq<Extent>, i: nat, start: nat, cnt: nat, n: nat, t: seq<Extent>)
    requires Proper(s) && LeftOver(s, t, i, start, cnt, n)
    ensures Taken(s, t, start, n) <==> s[i].len < TWO_32
  {
    hide Free, Proper;
    OutBlocks(s, i);
    ExtentFacts(s, i);
    if s[i].len >= TWO_32 {
      var b := End(s[i]) - 1;
      assert Spans(s[i], b) && Free(s, b) && !Free(t, b);
    }
  }

  /** The block to start from is in the extent that a search for cnt blocks from there meets. */
  ghost predicate Hinted(s: seq<Extent>, t: Tree, first: nat, cnt: nat) {
    exists k :: 0 <= k < |s| && Spans(s[k], first) && Met(s, t, Extent(first, cnt), k)
  }

  lemma {:induction false} HintedIs(s: seq<Extent>, t: Tree, first: nat, cnt: nat, i: nat)
    requires Proper(s) && 0 < cnt && Chosen(s, t, Extent(first, cnt), i)
    ensures Hinted(s, t, first, cnt) <==> first == if Spans(s[i], first) then first else s[i].addr
  {
    hide DepthAt;
    if Spans(s[i], first) { assert s[i] in s && Overlap(s[i], Extent(first, cnt)); }
    if Hinted(s, t, first, cnt) {
      var k :| 0 <= k < |s| && Spans(s[k], first) && Met(s, t, Extent(first, cnt), k);
      assert s[k] in s;
    }
  }

  /** A free block is where the next request starts if no other extent has blocks of the request; so it is whenever one
      block is asked for. */
  lemma {:induction false} AloneIsHinted(s: seq<Extent>, t: Tree, first: nat, cnt: nat, k: nat)
    requires Proper(s) && 0 < cnt && k < |s| && Spans(s[k], first)
    requires cnt == 1 || forall j | 0 <= j < |s| && Overlap(s[j], Extent(first, cnt)) :: j == k
    ensures Hinted(s, t, first, cnt)
  {
    assert forall j | 0 <= j < |s| && Overlap(s[j], Extent(first, cnt)) :: j == k;
    assert Met(s, t, Extent(first, cnt), k);
  }

  /** A range of free blocks lies in one extent of a coalesced table. */
  lemma {:induction false} OneExtent(s: seq<Extent>, t: Tree, q: Extent, i: nat)
    requires Proper(s) && Coalesced(s) && i < |s| && 0 < q.len && AllFree(s, q)
    requires Chosen(s, t, q, i)
    ensures s[i].addr <= q.addr && End(q) <= End(s[i])
  {
    assert Spans(q, q.addr) && Free(s, q.addr);
    var j :| 0 <= j < |s| && Spans(s[j], q.addr);
    assert s[j] in s && Overlap(s[j], q);
    GapAfter(s, j);
    assert !Spans(q, End(s[j]));
  }

  lemma {:induction false} GapAfter(s: seq<Extent>, j: nat)
    requires Proper(s) && Coalesced(s) && j < |s|
    ensures !Free(s, End(s[j]))
  {
    forall k | 0 <= k < |s| ensures !Spans(s[k], End(s[j])) {
      assert k < j ==> End(s[k]) <= s[j].addr;
      assert j < k ==> End(s[j]) < s[k].addr;
    }
  }

  lemma {:induction false} WholeRequest(s: seq<Extent>, tree: Tree, i: nat, start: nat, cnt: nat, first: nat, n: nat,
      t: seq<Extent>)
    requires Proper(s) && 0 < cnt && Chosen(s, tree, Extent(start, cnt), i) && LeftOver(s, t, i, first, cnt, n)
    requires first == if Spans(s[i], start) then start else s[i].addr
    ensures Coalesced(s) && AllFree(s, Extent(start, cnt)) && s[i].len < TWO_32 ==>
              n == cnt && first == start
  {
    hide Free, Coalesced, Proper, Chosen;
    if Coalesced(s) && AllFree(s, Extent(start, cnt)) && s[i].len < TWO_32 {
      OneExtent(s, tree, Extent(start, cnt), i);
    }
  }

  lemma {:induction false} StillApart(s: seq<Extent>, p: nat, e: Extent, f: Extent)
    requires p <= |s| && !Overlap(e, f) && forall g | g in s :: !Overlap(g, f)
    ensures forall g | g in Insert(s, p, e) :: !Overlap(g, f)
  {
  }

  lemma {:induction false} Low32Sum(a: nat, b: nat)
    ensures Low32(a + Low32(b)) == Low32(a + b) == Low32(Low32(a) + Low32(b))
  {
    assert a == TWO_32 * (a / TWO_32) + Low32(a) && b == TWO_32 * (b / TWO_32) + Low32(b);
    assert a + b == TWO_32 * (b / TWO_32) + (a + Low32(b));
    ModSum(b / TWO_32, a + Low32(b));
    ModSum(a / TWO_32, Low32(a) + Low32(b));
  }

  lemma {:induction false} ModSum(m: nat, x: nat)
    ensures Low32(TWO_32 * m + x) == Low32(x)
  {
    if m > 0 {
      ModSum(m - 1, x);
      assert TWO_32 * m + x == TWO_32 * (m - 1) + x + TWO_32;
    }
  }

  /** Extents at place k or later lie after the range; of those before, only the last can touch it. */
  lemma {:induction false} BackFrom(s: seq<Extent>, k: nat, e: Extent, c: nat)
    requires Proper(s) && Place(s, k, e) && c < |s| && 0 < e.len
    ensures c < k ==> s[c].addr + Low32(s[c].len) <= e.addr
    ensures k <= c ==> e.addr < s[c].addr
    ensures k <= |s|
  {
    ExtentFacts(s, c);
  }

  /** The walk met the extent before the range, or, if it started too early, one before that. */
  lemma {:induction false} PrevIs(s: seq<Extent>, k: nat, e: Extent, c: nat, early: bool)
    requires Proper(s) && Place(s, k, e) && c < k <= |s| && (if early then c + 1 < k else c + 1 == k) && 0 < e.len
    ensures var back := early || s[k - 1].len >= TWO_32;
            if s[c].addr + Low32(s[c].len) == e.addr
            then WithPrev(s, k, e, back).addr == s[c].addr && Low32(WithPrev(s, k, e, back).len)
                == Low32(Low32(e.len) + Low32(s[c].len))
                 && LessPrev(s, k, e, back) == Delete(s, c)
            else WithPrev(s, k, e, back) == e && LessPrev(s, k, e, back) == s
  {
    hide Delete, Low32;
    ExtentFacts(s, c);
    Low32Sum(e.len, s[c].len);
    assert c < k - 1 ==> End(s[c]) <= s[k - 1].addr && End(s[k - 1]) <= e.addr;
  }

  lemma {:induction false} PrevNone(s: seq<Extent>, k: nat, e: Extent, early: bool)
    requires early || k == 0
    ensures forall back: bool | early ==> back :: WithPrev(s, k, e, back) == e && LessPrev(s, k, e, back) == s
  {
  }

  lemma {:induction false} NextAfter(s: seq<Extent>, k: nat, e: Extent)
    requires Proper(s) && Place(s, k, e)
    ensures k < |s| ==> End(e) <= s[k].addr && 0 < s[k].len
  {
  }

  lemma {:induction false} JoinNextOk(s: seq<Extent>, k: nat, e: Extent)
    requires Proper(s) && k < |s| && Place(s, k, e) && s[k].addr == End(e)
    ensures Place(Delete(s, k), k, Extent(e.addr, e.len + s[k].len)) && End(s[k]) < TWO_64
  {
    hide Delete;
    var t := Delete(s, k);
    DeleteIndex(s, k, 0);
    forall i | 0 <= i < k ensures End(t[i]) <= e.addr { DeleteIndex(s, k, i); }
    forall i | k <= i < |t| ensures End(s[k]) <= t[i].addr { DeleteIndex(s, k, i); }
  }

  // ---- joining a freed range with its neighbours

  predicate TouchesNext(s: seq<Extent>, k: nat, e: Extent) { k < |s| && s[k].addr == End(e) }

  function WithNext(s: seq<Extent>, k: nat, e: Extent): Extent {
    if TouchesNext(s, k, e) then Extent(e.addr, e.len + s[k].len) else e
  }

  function LessNext(s: seq<Extent>, k: nat, e: Extent): seq<Extent> {
    if TouchesNext(s, k, e) then Delete(s, k) else s
  }

  /** `back`: the cursor stands before place k, so that the walk backwards starts too early. */
  predicate TouchesPrev(s: seq<Extent>, k: nat, e: Extent, back: bool) {
    !back && 0 < k <= |s| && End(s[k - 1]) == e.addr
  }

  function WithPrev(s: seq<Extent>, k: nat, e: Extent, back: bool): Extent {
    if TouchesPrev(s, k, e, back) then Extent(s[k - 1].addr, e.len + s[k - 1].len) else e
  }

  function LessPrev(s: seq<Extent>, k: nat, e: Extent, back: bool): seq<Extent> {
    if TouchesPrev(s, k, e, back) then Delete(s, k - 1) else s
  }

  /** The range together with what it is joined with is shorter than 2^32 blocks. */
  ghost predicate Fits(s: seq<Extent>, t: Tree, e: Extent) {
    && (forall j | 0 <= j < |s| && s[j].addr == End(e) :: e.len + s[j].len < TWO_32)
    && (!MissesPrev(s, t, e) ==>
          && (forall i | 0 <= i < |s| && End(s[i]) == e.addr :: s[i].len + e.len < TWO_32)
          && (forall i, j | 0 <= i < |s| && 0 <= j < |s| && End(s[i]) == e.addr
              && s[j].addr == End(e) :: s[i].len + e.len + s[j].len < TWO_32))
  }

  /** Exactly the blocks of e have become free. */
  ghost predicate Given(s: seq<Extent>, t: seq<Extent>, e: Extent) {
    (forall b :: Free(t, b) <==> Free(s, b) || Spans(e, b)) && Total(t) == Total(s) + e.len
  }

  /** The range e becomes part of extent g: from where the extent before begins, unless that is missed, to where the
      extent after ends. */
  ghost predicate Joins(s: seq<Extent>, t: Tree, e: Extent, g: Extent) {
    && (forall i | 0 <= i < |s| && End(s[i]) == e.addr && !MissesPrev(s, t, e) :: g.addr == s[i].addr)
    && (MissesPrev(s, t, e) || (forall i | 0 <= i < |s| :: End(s[i]) != e.addr) ==> g.addr == e.addr)
    && (forall j | 0 <= j < |s| && s[j].addr == End(e) :: End(g) == End(s[j]))
    && ((forall j | 0 <= j < |s| :: s[j].addr != End(e)) ==> End(g) == End(e))
  }

  /** Extent g is in the table, and all others that are beside it stay. */
  ghost predicate Renewed(s: seq<Extent>, u: seq<Extent>, g: Extent) {
    forall f :: f in u <==> f == g || (f in s && (End(f) <= g.addr || End(g) <= f.addr))
  }

  lemma {:induction false} DeletedIn(s: seq<Extent>, i: nat)
    requires Proper(s) && i < |s|
    ensures forall f :: f in Delete(s, i) <==> f in s && f != s[i]
  {
    hide Delete;
    var t := Delete(s, i);
    DeleteIndex(s, i, 0);
    forall f ensures f in t <==> f in s && f != s[i] {
      if f in t {
        var j :| 0 <= j < |t| && t[j] == f;
        DeleteIndex(s, i, j);
        var m := if j < i then j else j + 1;
        assert f == s[m] && (if m < i then End(s[m]) <= s[i].addr else End(s[i]) <= s[m].addr);
      }
      if f in s && f != s[i] {
        var j :| 0 <= j < |s| && s[j] == f;
        DeleteIndex(s, i, if j < i then j else j - 1);
      }
    }
  }

  lemma {:induction false} InsertedIn(s: seq<Extent>, p: nat, e: Extent)
    requires p <= |s|
    ensures forall f :: f in Insert(s, p, e) <==> f in s || f == e
  {
  }

  /** Which extents are left when one beside the range is joined with it: those that do not touch the joined range. */
  lemma {:induction false} LeftBeside(s: seq<Extent>, k: nat, e: Extent, i: nat, g: Extent)
    requires Proper(s) && Place(s, k, e) && 0 < e.len && i < |s| && 0 < s[i].len
    requires (i == k && s[i].addr == End(e) && g == Extent(e.addr, e.len + s[i].len))
          || (i + 1 == k && End(s[i]) == e.addr && g == Extent(s[i].addr, e.len + s[i].len))
    ensures forall f :: f in Delete(s, i) <==> f in s && (End(f) <= g.addr || End(g) <= f.addr)
  {
    hide Delete, Free, Coalesced;
    DeletedIn(s, i);
    forall f | f in s ensures f != s[i] <==> End(f) <= g.addr || End(g) <= f.addr {
      var j :| 0 <= j < |s| && s[j] == f;
      Ordered(s, i, j);
    }
  }

  lemma {:induction false} Ordered(s: seq<Extent>, i: nat, j: nat)
    requires Proper(s) && i < |s| && j < |s|
    ensures if i < j then End(s[i]) <= s[j].addr else if j < i then End(s[j]) <= s[i].addr else s[i] == s[j]
    ensures 0 < s[i].len && 0 < s[j].len
  {
  }

  /** None touches the range but those joined with it. */
  lemma {:induction false} AllBeside(s: seq<Extent>, k: nat, e: Extent)
    requires Proper(s) && Place(s, k, e) && 0 < e.len
    ensures forall f | f in s :: End(f) <= e.addr || End(e) <= f.addr
  {
    forall f | f in s ensures End(f) <= e.addr || End(e) <= f.addr {
      var j :| 0 <= j < |s| && s[j] == f;
    }
  }

  lemma {:induction false} RenewedIs(s: seq<Extent>, k: nat, e: Extent, back: bool, p: nat)
    requires Proper(s) && Place(s, k, e) && 0 < e.len && End(e) < TWO_64
    ensures var u, f := LessPrev(LessNext(s, k, e), k, WithNext(s, k, e), back),
                        WithPrev(LessNext(s, k, e), k, WithNext(s, k, e), back);
            p <= |u| ==> Renewed(s, Insert(u, p, f), f)
  {
    hide Insert, Delete, Coalesced, Free, Proper, Place, Spans;
    hide TouchesNext, TouchesPrev, LessNext, WithNext, LessPrev, WithPrev;
    NextView(s, k, e);
    var s1, e1 := LessNext(s, k, e), WithNext(s, k, e);
    NextBeside(s, k, e);
    PrevBeside(s1, k, e1, back);
    var u, f := LessPrev(s1, k, e1, back), WithPrev(s1, k, e1, back);
    assert e.addr == e1.addr && End(e) <= End(e1) && f.addr <= e1.addr && End(f) == End(e1);
    assert forall g :: g in u <==> g in s && (End(g) <= f.addr || End(f) <= g.addr) by {
      forall g ensures g in u <==> g in s && (End(g) <= f.addr || End(f) <= g.addr) {
        Ends(g, e1, f);
      }
    }
    if p <= |u| { InsertedIn(u, p, f); }
  }

  lemma {:induction false} Ends(g: Extent, e: Extent, f: Extent)
    requires f.addr <= e.addr <= End(e) == End(f)
    ensures (End(g) <= e.addr || End(e) <= g.addr) && (End(g) <= f.addr || End(f) <= g.addr)
        <==> End(g) <= f.addr || End(f) <= g.addr
  {
  }

  lemma {:induction false} NextBeside(s: seq<Extent>, k: nat, e: Extent)
    requires Proper(s) && Place(s, k, e) && 0 < e.len
    ensures var u, g := LessNext(s, k, e), WithNext(s, k, e);
            && g.addr == e.addr && End(e) <= End(g)
            && forall f :: f in u <==> f in s && (End(f) <= g.addr || End(g) <= f.addr)
  {
    hide Delete, Proper, Place;
    AllBeside(s, k, e);
    if TouchesNext(s, k, e) { Ordered(s, k, k); LeftBeside(s, k, e, k, WithNext(s, k, e)); }
  }

  lemma {:induction false} PrevBeside(s: seq<Extent>, k: nat, e: Extent, back: bool)
    requires Proper(s) && Place(s, k, e) && 0 < e.len
    ensures var u, g := LessPrev(s, k, e, back), WithPrev(s, k, e, back);
            && g.addr <= e.addr && End(g) == End(e)
            && forall f :: f in u <==> f in s && (End(f) <= g.addr || End(g) <= f.addr)
  {
    hide Delete, Proper, Place;
    AllBeside(s, k, e);
    if TouchesPrev(s, k, e, back) { Ordered(s, k - 1, k - 1); LeftBeside(s, k, e, k - 1, WithPrev(s, k, e, back)); }
  }

  /** What the range is joined with. */
  lemma {:induction false} JoinsIs(s: seq<Extent>, t: Tree, k: nat, e: Extent, back: bool)
    requires Proper(s) && Place(s, k, e) && 0 < e.len && End(e) < TWO_64 && (back <==> TooFar(s, t, k, e))
    ensures Joins(s, t, e, WithPrev(LessNext(s, k, e), k, WithNext(s, k, e), back))
  {
    hide MissesPrev, GoesBack, TooFar, Delete, Coalesced, Free, Proper, Place, Spans;
    MissedIs(s, t, k, e, back);
    Neighbours(s, k, e);
    NextView(s, k, e);
  }

  lemma {:induction false} TotalFits(s: seq<Extent>, t: Tree, e: Extent)
    requires Proper(s) && 0 < e.len && Total(s) + e.len < TWO_32
    ensures Fits(s, t, e)
  {
    hide MissesPrev;
    forall i | 0 <= i < |s| ensures s[i].len + e.len < TWO_32 { TotalAt(s, i); }
    forall i, j | 0 <= i < |s| && 0 <= j < |s| && End(s[i]) == e.addr
        && s[j].addr == End(e) ensures s[i].len + e.len + s[j].len < TWO_32 {
      TotalDelete(s, i);
      var d := Delete(s, i);
      DeleteIndex(s, i, if j < i then j else j - 1);
      TotalAt(d, if j < i then j else j - 1);
    }
  }

  /** The extent before the range ends where it starts, and is not joined with it: it is 2^32 blocks long or more, or
      the extent after the range is taken out first and that leaves the cursor too far back. */
  ghost predicate MissesPrev(s: seq<Extent>, t: Tree, e: Extent) {
    exists i :: 0 <= i < |s| && End(s[i]) == e.addr
                && (s[i].len >= TWO_32 || (i + 1 < |s| && s[i + 1].addr == End(e) && GoesBack(t, i + 1)))
  }

  /** back: the walk starts too early, or the extent before is too long. */
  ghost predicate TooFar(s: seq<Extent>, t: Tree, k: nat, e: Extent) {
    (TouchesNext(s, k, e) && GoesBack(t, k)) || (0 < k <= |s| && s[k - 1].len >= TWO_32)
  }

  lemma {:induction false} MissedIs(s: seq<Extent>, t: Tree, k: nat, e: Extent, back: bool)
    requires Proper(s) && Place(s, k, e) && 0 < e.len && (back <==> TooFar(s, t, k, e))
    ensures Missed(s, k, e, back) <==> MissesPrev(s, t, e)
  {
    hide GoesBack;
    Neighbours(s, k, e);
    if Missed(s, k, e, back) { assert End(s[k - 1]) == e.addr; }
  }

  /** Only the extents beside its place touch the range. */
  lemma {:induction false} Neighbours(s: seq<Extent>, k: nat, e: Extent)
    requires Proper(s) && Place(s, k, e) && 0 < e.len
    ensures forall i | 0 <= i < |s| :: (End(s[i]) == e.addr ==> i == k - 1) && (s[i].addr == End(e) ==> i == k)
    ensures k <= |s|
  {
    forall i | 0 <= i < |s| ensures (End(s[i]) == e.addr ==> i == k - 1) && (s[i].addr == End(e) ==> i == k) {
      if i < k - 1 { assert End(s[i]) <= s[k - 1].addr && End(s[k - 1]) <= e.addr; }
      if k < i { assert End(s[k]) <= s[i].addr && End(e) <= s[k].addr; }
    }
  }

  /** The joined extent, and whether it fits into 32 bits. */
  lemma {:induction false} FitsIs(s: seq<Extent>, t: Tree, k: nat, e: Extent, back: bool)
    requires Proper(s) && Place(s, k, e) && 0 < e.len < TWO_32 && (back <==> TooFar(s, t, k, e))
    ensures Fits(s, t, e) <==> WithPrev(LessNext(s, k, e), k, WithNext(s, k, e), back).len < TWO_32
  {
    hide MissesPrev, GoesBack, Delete;
    MissedIs(s, t, k, e, back);
    Neighbours(s, k, e);
    if TouchesNext(s, k, e) {
      DeleteIndex(s, k, 0);
      if 0 < k { DeleteIndex(s, k, k - 1); }
    }
  }

  /** Exactly the range became free if and only if the joined extent is stored with its full length. */
  lemma {:induction false} GivenIs(s: seq<Extent>, k: nat, e: Extent, back: bool, t1: seq<Extent>, t2: seq<Extent>,
      cnt: nat)
    requires Proper(s) && Place(s, k, e) && 0 < e.len && End(e) < TWO_64
    requires var f := WithPrev(LessNext(s, k, e), k, WithNext(s, k, e), back);
             && t1 == LessPrev(LessNext(s, k, e), k, WithNext(s, k, e), back) && cnt == Low32(f.len)
                 && Total(t2) == Total(t1) + cnt
             && (cnt > 0 ==> forall b :: Free(t2, b) <==> Free(t1, b) || Spans(Extent(f.addr, cnt), b))
    ensures Given(s, t2, e) <==> WithPrev(LessNext(s, k, e), k, WithNext(s, k, e), back).len < TWO_32
  {
    hide Free, Proper, Place, WithPrev, LessPrev, WithNext, LessNext;
    PrevView(s, k, e, back);
  }

  /** The extent before touches, but the walk does not meet it, or does not see that it touches. */
  predicate Missed(s: seq<Extent>, k: nat, e: Extent, back: bool) {
    back && 0 < k <= |s| && End(s[k - 1]) == e.addr
  }

  lemma {:induction false} PlaceApart(s: seq<Extent>, k: nat, e: Extent)
    requires Place(s, k, e)
    ensures k <= |s| && forall f | f in s :: !Overlap(f, e)
  {
    forall f | f in s ensures !Overlap(f, e) {
      var i :| 0 <= i < |s| && s[i] == f;
    }
  }

  /** What joining with the next extent keeps. */
  lemma {:induction false} NextView(s: seq<Extent>, k: nat, e: Extent)
    requires Proper(s) && Place(s, k, e) && 0 < e.len && End(e) < TWO_64
    ensures var t, f := LessNext(s, k, e), WithNext(s, k, e);
            && Proper(t) && Place(t, k, f) && End(f) < TWO_64 && f.addr == e.addr && 0 < f.len
            && (forall b :: Free(t, b) || Spans(f, b) <==> Free(s, b) || Spans(e, b))
            && Total(t) + f.len == Total(s) + e.len
            && |t| >= k && (0 < k ==> t[k - 1] == s[k - 1])
            && (Coalesced(s) ==> Coalesced(t) && (k < |t| ==> End(f) < t[k].addr))
  {
    hide Free, Proper, Coalesced, Delete;
    if TouchesNext(s, k, e) {
      JoinNextOk(s, k, e);
      DeleteExtent(s, k);
      TotalDelete(s, k);
      DeleteIndex(s, k, 0);
      TakenBlocks(s, k);
      if 0 < k { DeleteIndex(s, k, k - 1); }
      NextGap(s, k);
    } else {
      NextFree(s, k, e);
    }
  }

  lemma {:induction false} NextGap(s: seq<Extent>, k: nat)
    requires k < |s|
    ensures Coalesced(s) ==> (k < |Delete(s, k)| ==> End(s[k]) < Delete(s, k)[k].addr)
  {
    if k + 1 < |s| { DeleteIndex(s, k, k); } else { DeleteIndex(s, k, 0); }
  }

  lemma {:induction false} NextFree(s: seq<Extent>, k: nat, e: Extent)
    requires Place(s, k, e) && !TouchesNext(s, k, e)
    ensures k < |s| ==> End(e) < s[k].addr
  {
  }

  lemma {:induction false} TakenBlocks(s: seq<Extent>, i: nat)
    requires i < |s|
    ensures forall b :: Spans(s[i], b) ==> Free(s, b)
  {
  }

  lemma {:induction false} JoinPrevOk(s: seq<Extent>, k: nat, e: Extent)
    requires Proper(s) && 0 < k <= |s| && Place(s, k, e) && End(s[k - 1]) == e.addr && End(e) < TWO_64
    ensures Place(Delete(s, k - 1), k - 1, Extent(s[k - 1].addr, e.len + s[k - 1].len))
  {
    hide Delete;
    var t := Delete(s, k - 1);
    DeleteIndex(s, k - 1, 0);
    forall i | 0 <= i < k - 1 ensures End(t[i]) <= s[k - 1].addr { DeleteIndex(s, k - 1, i); }
    forall i | k - 1 <= i < |t| ensures End(e) <= t[i].addr { DeleteIndex(s, k - 1, i); }
  }

  /** What joining with both neighbours keeps. */
  lemma {:induction false} PrevView(s: seq<Extent>, k: nat, e: Extent, back: bool)
    requires Proper(s) && Place(s, k, e) && 0 < e.len && End(e) < TWO_64
    ensures var t0, f0 := LessNext(s, k, e), WithNext(s, k, e);
            var t, f := LessPrev(t0, k, f0, back), WithPrev(t0, k, f0, back);
            && Proper(t) && 0 < f.len && End(f) < TWO_64 && (forall g | g in t :: !Overlap(g, f))
            && (forall b :: Free(t, b) || Spans(f, b) <==> Free(s, b) || Spans(e, b))
            && Total(t) + f.len == Total(s) + e.len
  {
    hide Free, Proper, Coalesced, Delete, Place;
    NextView(s, k, e);
    var t0, f0 := LessNext(s, k, e), WithNext(s, k, e);
    var t, f := LessPrev(t0, k, f0, back), WithPrev(t0, k, f0, back);
    if TouchesPrev(t0, k, f0, back) {
      JoinPrevOk(t0, k, f0);
      DeleteExtent(t0, k - 1);
      TotalDelete(t0, k - 1);
      TakenBlocks(t0, k - 1);
      PlaceApart(t, k - 1, f);
      forall b ensures Free(t, b) || Spans(f, b) <==> Free(t0, b) || Spans(f0, b) {
      }
    } else {
      PlaceApart(t, k, f);
    }
  }

  /** The table is fully coalesced again, unless the extent before was missed. */
  lemma {:induction false} JoinedCoalesced(s: seq<Extent>, k: nat, e: Extent, back: bool, p: nat)
    requires Proper(s) && Place(s, k, e) && 0 < e.len && End(e) < TWO_64
    requires var t0, f0 := LessNext(s, k, e), WithNext(s, k, e);
             Place(LessPrev(t0, k, f0, back), p, WithPrev(t0, k, f0, back))
    ensures var t0, f0 := LessNext(s, k, e), WithNext(s, k, e);
            Coalesced(s) ==> (Coalesced(Insert(LessPrev(t0, k, f0, back), p, WithPrev(t0, k, f0, back)))
                <==> !Missed(s, k, e, back))
  {
    hide Free, Proper, Coalesced, Delete, Insert, Place;
    NextView(s, k, e);
    PrevView(s, k, e, back);
    var t0, f0 := LessNext(s, k, e), WithNext(s, k, e);
    var t, f := LessPrev(t0, k, f0, back), WithPrev(t0, k, f0, back);
    PlaceApart(t0, k, f0);
    if Coalesced(s) {
      if TouchesPrev(t0, k, f0, back) {
        JoinPrevOk(t0, k, f0);
        DeleteExtent(t0, k - 1);
        DeleteIndex(t0, k - 1, 0);
        if k < |t0| { DeleteIndex(t0, k - 1, k - 1); }
        if 1 < k {
          DeleteIndex(t0, k - 1, k - 2);
          Gap(t0, k - 2, k - 1);
        }
        PlaceOnce(t, p, k - 1, f);
      } else {
        PlaceOnce(t, p, k, f);
        Touching(t0, k, f0);
      }
      InsertCoalesced(t, p, f);
    }
  }

  lemma {:induction false} Gap(s: seq<Extent>, i: nat, j: nat)
    requires Coalesced(s) && i < j < |s|
    ensures End(s[i]) < s[j].addr
  {
  }

  lemma {:induction false} Touching(s: seq<Extent>, k: nat, e: Extent)
    requires Place(s, k, e)
    ensures 0 < k ==> End(s[k - 1]) <= e.addr
  {
  }

  lemma {:induction false} PlaceOnce(s: seq<Extent>, p: nat, q: nat, e: Extent)
    requires Proper(s) && 0 < e.len && Place(s, p, e) && Place(s, q, e)
    ensures p == q <= |s|
  {
    assert p < |s| ==> End(e) <= s[p].addr;
    assert q < |s| ==> End(e) <= s[q].addr;
  }

  lemma {:induction false} InsertCoalesced(s: seq<Extent>, p: nat, e: Extent)
    requires Proper(s) && Coalesced(s) && Place(s, p, e) && 0 < e.len
    ensures Coalesced(Insert(s, p, e)) <==> (0 < p ==> End(s[p - 1]) < e.addr) && (p < |s| ==> End(e) < s[p].addr)
  {
    hide Insert;
    var t := Insert(s, p, e);
    InsertedIs(s, p, e, p);
    if (0 < p ==> End(s[p - 1]) < e.addr) && (p < |s| ==> End(e) < s[p].addr) {
      forall i, j | 0 <= i < j < |t| ensures End(t[i]) < t[j].addr {
        InsertedIs(s, p, e, i);
        InsertedIs(s, p, e, j);
      }
    }
    if Coalesced(t) {
      if 0 < p { InsertedIs(s, p, e, p - 1); assert End(t[p - 1]) < t[p].addr; }
      if p < |s| { InsertedIs(s, p, e, p + 1); assert End(t[p]) < t[p + 1].addr; }
    }
  }

  lemma {:induction false} NoneFree()
    ensures Total([]) == 0 && forall b :: !Free([], b)
  {
  }

  /** No extent is longer than all of them together. */
  lemma {:induction false} TotalShort(s: seq<Extent>)
    requires Total(s) < TWO_32
    ensures forall i | 0 <= i < |s| :: s[i].len < TWO_32
  {
    forall i | 0 <= i < |s| ensures s[i].len < TWO_32 {
      TotalAt(s, i);
    }
  }

  // ---- runs

  /** An index in which the right neighbour is alone in the last leaf: freeing the block between the two neighbours
      leaves two extents that touch. */
  method MissRun() returns (m: SpaceManager)
    ensures m.table.Ok() && !Coalesced(m.table.exts) && Coalesced(MissTable())
    ensures forall b :: Free(m.table.exts, b) <==> Free(MissTable(), b) || b == 5
  {
    hide Indexed, GoesBack, Proper, Free, Coalesced;
    MissIndexed();
    MissFacts();
    var table := new ExtentTable.Holding(MissTable(), MissTree(), 2);
    m := new SpaceManager.Over(table, 0, 0);
    var ret;
    ghost var g;
    ret, g := m.FreeSpace(5, 1);
    assert forall b :: Spans(Extent(5, 1), b) <==> b == 5;
  }

  lemma {:induction false} MissFacts()
    ensures var s, e := MissTable(), Extent(5, 1);
            Proper(s) && Coalesced(s) && Fits(s, MissTree(), e)
                && (GoesBack(MissTree(), 2) ==> MissesPrev(s, MissTree(), e)) && (forall f | f in s :: !Overlap(f, e))
  {
    hide GoesBack, MissTree;
    var s, e := MissTable(), Extent(5, 1);
    assert End(s[1]) == e.addr && s[2].addr == End(e);
  }

  /** Three blocks are asked for from block 1 on, which is free: two blocks from block 3 on are given, because the
      search meets their extent first. */
  method HintRun() returns (m: SpaceManager, n: int, realStart: nat)
    ensures m.Ok() && m.Counted() && n == 2 && realStart == 3
    ensures Free(MissTable(), 1) && Free(m.table.exts, 1) && m.firstFreeBlock == 5
  {
    hide Indexed, GoesBack, Proper, Free, Coalesced, Hinted, Chosen, MissTree;
    MissIndexed();
    MissFacts();
    MissHint();
    var table := new ExtentTable.Holding(MissTable(), MissTree(), 2);
    m := new SpaceManager.Over(table, 1, 4);
    ghost var i;
    n, realStart, i := m.SmAllocSpace(3);
  }

  lemma {:induction false} MissHint()
    ensures Total(MissTable()) == 4 && forall b: nat :: Free(MissTable(), b) <==> b == 1 || 3 <= b < 5 || b == 6
    ensures forall i: nat | Chosen(MissTable(), MissTree(), Extent(1, 3), i) :: i == 1
  {
    hide DepthAt, MissTree;
    var s := MissTable();
    MissMet();
    assert s[1] in s && Overlap(s[1], Extent(1, 3));
    forall b: nat ensures Free(s, b) <==> b == 1 || 3 <= b < 5 || b == 6 {
      assert Free(s, b) <==> Spans(s[0], b) || Spans(s[1], b) || Spans(s[2], b);
    }
    assert s[1..] == [s[1], s[2]] && s[1..][1..] == [s[2]] && [s[2]][1..] == [];
  }

  /** A free block is freed: the counter says one more block than there are. */
  method FreeTwiceRun() returns (m: SpaceManager)
    ensures m.table.Ok() && (forall b: nat :: Free(m.table.exts, b) <==> 3 <= b < 8)
    ensures m.totalFreeBlocks == 6 && Total(m.table.exts) == 5
  {
    hide Indexed, Free, Coalesced, Proper;
    m := new SpaceManager.Filled(3, 5);
    ghost var s := m.table.exts;
    assert Free(s, 4);
    FreeOverlaps(s, 4);
    var ret := m.SmFreeSpace(4, 1);
  }

  lemma {:induction false} FreeOverlaps(s: seq<Extent>, b: nat)
    requires Free(s, b)
    ensures exists e :: e in s && Overlap(e, Extent(b, 1))
  {
    var i :| 0 <= i < |s| && Spans(s[i], b);
    assert s[i] in s && Overlap(s[i], Extent(b, 1));
  }

  /** One block is freed before an extent of 2^32 - 1: together they are 2^32 blocks, which read as none. */
  method LongFreeRun() returns (m: SpaceManager, s: seq<Extent>)
    ensures s == [Extent(5, TWO_32 - 1)] && Proper(s) && (forall e | e in s :: !Overlap(e, Extent(4, 1)))
    ensures !Given(s, m.table.exts, Extent(4, 1))
  {
    hide Indexed, Free, Given;
    s := [Extent(5, TWO_32 - 1)];
    assert s[0].addr == End(Extent(4, 1));
    ghost var g, k := IndexExists(s);
    var t, h :| Indexed(t, h, s);
    var table := new ExtentTable.Holding(s, t, h);
    m := new SpaceManager.Over(table, 0, 0);
    var ret;
    ghost var joined;
    ret, joined := m.FreeSpace(4, 1);
  }

  /** An extent of 2^32 + 5 blocks: after two of them were allocated, only the next three are free. */
  method LongRun() returns (m: SpaceManager, s: seq<Extent>)
    ensures s == [Extent(3, TWO_32 + 5)] && Proper(s)
    ensures m.table.Ok() && (forall b: nat :: Free(s, b) <==> 3 <= b < TWO_32 + 8)
        && (forall b: nat :: Free(m.table.exts, b) <==> 5 <= b < 8)
  {
    hide Indexed, Free, Taken;
    s := [Extent(3, TWO_32 + 5)];
    LongFree(s);
    ghost var g, k := IndexExists(s);
    var t, h :| Indexed(t, h, s);
    var table := new ExtentTable.Holding(s, t, h);
    m := new SpaceManager.Over(table, 0, 0);
    var ret, realStart, died;
    ghost var i, n;
    ret, realStart, died, i, n := m.AllocSpace(3, 2);
  }

  lemma {:induction false} LongFree(s: seq<Extent>)
    requires |s| == 1
    ensures forall b: nat :: Free(s, b) <==> Spans(s[0], b)
  {
  }
}
