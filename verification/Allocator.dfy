/** The two levels of allocation: objects take blocks from `sm`, the tree that records sm's free extents
    takes its blocks from `bsm`, and the tree that records bsm's uses one block set aside. */
module Allocator {
  import opened Collate
  import opened Extents
  import opened IndexTreeEdit
  import opened ExtentIndex
  import opened SpaceManager

  datatype Owner = Base | Space | User

  function Range(start: nat, n: nat): (r: set<nat>)
    ensures forall b :: b in r <==> start <= b < start + n
  {
    if n == 0 then {} else Range(start, n - 1) + {start + n - 1}
  }

  class Allocator {
    const total: nat
    const sm: SpaceManager
    const bsm: SpaceManager
    var baseBlk: nat

    // blocks handed out: to the tree of bsm, to the tree of sm, and to everything else
    ghost var baseOwned: set<nat>
    ghost var spaceOwned: set<nat>
    ghost var userOwned: set<nat>

    ghost function Repr(): set<object>
      reads this
    {
      {this, sm, sm.table, bsm, bsm.table}
    }

    /** How often block b is accounted for. */
    ghost function Uses(b: nat): nat
      reads Repr()
    {
      (if b == 0 then 1 else 0)
      + (if Free(sm.table.exts, b) then 1 else 0)
      + (if Free(bsm.table.exts, b) then 1 else 0)
      + (if b == baseBlk && b != 0 then 1 else 0)
      + (if b in baseOwned then 1 else 0)
      + (if b in spaceOwned then 1 else 0)
      + (if b in userOwned then 1 else 0)
    }

    /** Every block of the container is in exactly one place, and the counters are exact. */
    ghost predicate Ok()
      reads Repr()
    {
      && total < TWO_32 - 1
      && sm != bsm && sm.table != bsm.table
      && sm.Ok() && sm.Counted() && bsm.Ok() && bsm.Counted()
      && forall b: nat :: Uses(b) == if b < total then 1 else 0
    }

    /** The blocks not handed out, as they are counted. */
    ghost function Unused(): nat
      reads this, sm, bsm
    {
      sm.totalFreeBlocks + bsm.totalFreeBlocks + if baseBlk == 0 then 0 else 1
    }

    /** The blocks that reserve_base_space cannot do without. */
    ghost function Needed(): nat
      reads this, bsm
    {
      (if baseBlk == 0 then 1 else 0)
      + if bsm.totalFreeBlocks <= MIN_BLK_NUM then MIN_BLK_NUM + 1 - bsm.totalFreeBlocks else 0
    }

    ghost function OwnedBy(o: Owner): set<nat>
      reads this`baseOwned, this`spaceOwned, this`userOwned
    {
      match o case Base => baseOwned case Space => spaceOwned case User => userOwned
    }

    /** create_system_objects: blocks 1 and 2 hold the system objects, the rest is free. */
    constructor (total: nat)
      requires 10 <= total < TWO_32 - 1
      ensures Ok() && fresh(Repr() - {this}) && this.total == total
      ensures userOwned == {} && baseBlk == 0 && sm.totalFreeBlocks == total - 3
    {
      this.total := total;
      baseBlk := 0;
      baseOwned, spaceOwned, userOwned := {1}, {2}, {};
      // ofs_init_free_space on sm alone
      var s := new SpaceManager.Filled(3, total - 3);
      var b := new SpaceManager(0, 0);
      sm, bsm := s, b;
      new;
      hide Proper, Free, Coalesced, Indexed, Chosen, Hinted, AllFree, Joins, Renewed, MissesPrev;
      NoneFree();
      forall i: nat ensures Uses(i) == if i < total then 1 else 0 {
        assert Free(sm.table.exts, i) <==> 3 <= i < total;
      }
    }

    /** reserve_base_space: one block for the tree of bsm, and a few for the tree of sm, moved there from sm.  It fails
        exactly when sm has too few blocks. */
    method ReserveBaseSpace() returns (ok: bool)
      requires Ok()
      modifies sm, sm.table, bsm, bsm.table, this`baseBlk
      ensures Ok() && Unused() == old(Unused())
      ensures ok <==> old(Needed()) <= old(sm.totalFreeBlocks)
      ensures ok <==> baseBlk != 0 && MIN_BLK_NUM < bsm.totalFreeBlocks
      ensures !ok ==> sm.totalFreeBlocks == 0
      ensures old(baseBlk) != 0 ==> baseBlk == old(baseBlk)
      ensures if old(bsm.totalFreeBlocks) <= MIN_BLK_NUM then bsm.totalFreeBlocks <= MAX_BLK_NUM
              else bsm.totalFreeBlocks == old(bsm.totalFreeBlocks)
      ensures forall b: nat | Free(sm.table.exts, b) :: old(Free(sm.table.exts, b))
      ensures old(Coalesced(sm.table.exts)) ==> Coalesced(sm.table.exts)
    {
      hide Proper, Free, Coalesced, Indexed, Chosen, Hinted, AllFree, Joins, Renewed, MissesPrev;
      if baseBlk == 0 {
        ok := ReserveBaseBlock();
        if !ok {
          return false;
        }
      }
      while bsm.totalFreeBlocks <= MIN_BLK_NUM
        invariant Ok() && baseBlk != 0 && (old(baseBlk) != 0 ==> baseBlk == old(baseBlk)) && Unused() == old(Unused())
        invariant if old(bsm.totalFreeBlocks) <= MIN_BLK_NUM then bsm.totalFreeBlocks <= MAX_BLK_NUM
                  else bsm.totalFreeBlocks == old(bsm.totalFreeBlocks)
        invariant forall b: nat | Free(sm.table.exts, b) :: old(Free(sm.table.exts, b))
        invariant old(Coalesced(sm.table.exts)) ==> Coalesced(sm.table.exts)
        modifies sm, sm.table, bsm, bsm.table
        decreases sm.totalFreeBlocks
      {
        ok := Refill();
        if !ok {
          return false;
        }
      }
      return true;
    }

    method ReserveBaseBlock() returns (ok: bool)
      requires Ok() && baseBlk == 0
      modifies sm, sm.table, this`baseBlk
      ensures Ok() && (ok <==> baseBlk != 0) && (!ok ==> sm.totalFreeBlocks == 0) && Unused() == old(Unused())
      ensures forall b: nat | Free(sm.table.exts, b) :: old(Free(sm.table.exts, b))
      ensures old(Coalesced(sm.table.exts)) ==> Coalesced(sm.table.exts)
    {
      hide Proper, Free, Coalesced, Indexed, Chosen, Hinted, AllFree, Joins, Renewed, MissesPrev;
      FreeBelow();
      var n, realStart;
      ghost var i;
      n, realStart, i := sm.SmAllocSpace(1);
      if n < 0 {
        forall b: nat ensures Uses(b) == if b < total then 1 else 0 {
          assert old(Uses(b)) == if b < total then 1 else 0;
        }
        return false;
      }
      assert Spans(Extent(realStart, n), realStart);
      assert old(Uses(realStart)) == if realStart < total then 1 else 0;
      baseBlk := realStart;
      forall b: nat ensures Uses(b) == if b < total then 1 else 0 {
        assert old(Uses(b)) == if b < total then 1 else 0;
        assert Spans(Extent(realStart, n), b) <==> b == realStart;
      }
      return true;
    }

    /** One round of the loop of reserve_base_space: blocks move from sm to bsm. */
    method Refill() returns (ok: bool)
      requires Ok() && bsm.totalFreeBlocks <= MIN_BLK_NUM
      modifies sm, sm.table, bsm, bsm.table
      ensures Ok() && (!ok ==> sm.totalFreeBlocks == 0 && bsm.totalFreeBlocks == old(bsm.totalFreeBlocks))
      ensures Unused() == old(Unused())
      ensures ok ==> sm.totalFreeBlocks < old(sm.totalFreeBlocks) && bsm.totalFreeBlocks > old(bsm.totalFreeBlocks)
      ensures bsm.totalFreeBlocks <= MAX_BLK_NUM
      ensures forall b: nat | Free(sm.table.exts, b) :: old(Free(sm.table.exts, b))
      ensures old(Coalesced(sm.table.exts)) ==> Coalesced(sm.table.exts)
    {
      hide Proper, Free, Coalesced, Indexed, Chosen, Hinted, AllFree, Joins, Renewed, MissesPrev;
      FreeBelow();
      var blkCnt := MAX_BLK_NUM - bsm.totalFreeBlocks;
      var n, realStart;
      ghost var i;
      n, realStart, i := sm.SmAllocSpace(blkCnt);
      if n < 0 {
        forall b: nat ensures Uses(b) == if b < total then 1 else 0 {
          assert old(Uses(b)) == if b < total then 1 else 0;
        }
        return false;
      }
      var ret;
      forall b: nat ensures Free(bsm.table.exts, b) || Spans(Extent(realStart, n), b) ==> b < total
                    ensures Spans(Extent(realStart, n), b) ==> !Free(bsm.table.exts, b) {
        assert old(Uses(b)) == if b < total then 1 else 0;
      }
      assert Spans(Extent(realStart, n), realStart + n - 1);
      RangeNotFree(bsm.table.exts, Extent(realStart, n), total);
      ret := bsm.SmFreeSpace(realStart, n);
      forall b: nat ensures Uses(b) == if b < total then 1 else 0 {
        assert old(Uses(b)) == if b < total then 1 else 0;
      }
      return true;
    }

    /** The most blocks reserve_base_space takes from sm. */
    ghost function Reserving(): nat
      reads this, bsm
    {
      (if baseBlk == 0 then 1 else 0)
      + if bsm.totalFreeBlocks <= MIN_BLK_NUM then MAX_BLK_NUM - bsm.totalFreeBlocks else 0
    }

    ghost function LevelOf(o: Owner): SpaceManager
      reads this
    {
      if o.User? then sm else bsm
    }

    /** ofs_alloc_space: negative when there is nothing to give out: for a user, when nothing is left in sm after the
        lower level was filled up.  Fewer blocks than asked for are given only where the free ones end.  The two
        assertions on the block set aside hold when the tree of bsm asks for one block at a time, after the slot was
        filled. */
    method OfsAllocSpace(o: Owner, blkCnt: nat) returns (n: int, realStart: nat)
      requires Ok() && 0 < blkCnt < TWO_31 && (o.Base? ==> baseBlk != 0 && blkCnt == 1)
      modifies this`baseBlk, this`baseOwned, this`spaceOwned, this`userOwned, sm, sm.table, bsm, bsm.table
      ensures Ok() && n <= blkCnt && n != 0
      ensures n > 0 ==>
                && (forall b: nat | realStart <= b < realStart + n :: b !in old(OwnedBy(o)) && b < total)
                && OwnedBy(o) == old(OwnedBy(o)) + Range(realStart, n) && Unused() + n == old(Unused())
      ensures n < 0 ==> OwnedBy(o) == old(OwnedBy(o)) && Unused() == old(Unused())
      ensures forall p: Owner | p != o :: OwnedBy(p) == old(OwnedBy(p))
      ensures o.Base? ==> n == 1 && realStart == old(baseBlk) && baseBlk == 0
      ensures !o.Base? && old(baseBlk) != 0 ==> baseBlk == old(baseBlk)
      ensures !o.User? ==> sm.totalFreeBlocks == old(sm.totalFreeBlocks)
      ensures o.Space? ==> (n < 0 <==> old(bsm.totalFreeBlocks) == 0)
      ensures o.User? && n < 0 ==> sm.totalFreeBlocks == 0 && old(sm.totalFreeBlocks) <= old(Reserving())
      ensures o.User? && old(sm.totalFreeBlocks) <= old(Needed()) ==> n < 0
      ensures o.User? && n > 0 ==>
                && baseBlk != 0 && MIN_BLK_NUM < bsm.totalFreeBlocks
                && if old(bsm.totalFreeBlocks) <= MIN_BLK_NUM then bsm.totalFreeBlocks <= MAX_BLK_NUM
                   else bsm.totalFreeBlocks == old(bsm.totalFreeBlocks)
      ensures !o.Base? && n > 0 ==>
                && (forall b: nat | realStart <= b < realStart + n :: old(Free(LevelOf(o).table.exts, b)))
                && (n < blkCnt && old(Coalesced(LevelOf(o).table.exts)) ==>
                      !Free(LevelOf(o).table.exts, realStart + n))
    {
      hide Proper, Free, Coalesced, Indexed, Chosen, Hinted, AllFree, Joins, Renewed, MissesPrev;
      match o
      case Base =>
        n, realStart := TakeBaseBlock();
        assert OwnedBy(Base) == old(OwnedBy(Base)) + {realStart} && Range(realStart, 1) == {realStart};
      case Space =>
        n, realStart := AllocFrom(bsm, Space, blkCnt);
      case User =>
        var ok := ReserveBaseSpace();
        if !ok {
          return -1, 0;
        }
        assert OwnedBy(User) == old(OwnedBy(User));
        n, realStart := AllocFrom(sm, User, blkCnt);
    }

    method TakeBaseBlock() returns (n: int, realStart: nat)
      requires Ok() && baseBlk != 0
      modifies this`baseBlk, this`baseOwned
      ensures Ok() && n == 1 && realStart == old(baseBlk) < total && baseBlk == 0
      ensures realStart !in old(baseOwned) && baseOwned == old(baseOwned) + {realStart}
    {
      hide Proper, Free, Coalesced, Indexed, Chosen, Hinted, AllFree, Joins, Renewed, MissesPrev;
      assert Uses(baseBlk) == if baseBlk < total then 1 else 0;
      n, realStart := 1, baseBlk;
      baseBlk := 0;
      baseOwned := baseOwned + {realStart};
      forall b: nat ensures Uses(b) == if b < total then 1 else 0 {
        assert old(Uses(b)) == if b < total then 1 else 0;
      }
    }

    /** sm_alloc_space on one of the levels, for an object that takes its blocks there. */
    method AllocFrom(m: SpaceManager, o: Owner, blkCnt: nat) returns (n: int, realStart: nat)
      requires Ok() && 0 < blkCnt < TWO_31 && (if o.User? then m == sm else o.Space? && m == bsm)
      modifies this`spaceOwned, this`userOwned, m, m.table
      ensures Ok() && n <= blkCnt && n != 0
      ensures n > 0 ==>
                && (forall b: nat | realStart <= b < realStart + n :: b !in old(OwnedBy(o)) && b < total)
                && OwnedBy(o) == old(OwnedBy(o)) + Range(realStart, n)
      ensures n < 0 ==> OwnedBy(o) == old(OwnedBy(o))
      ensures forall p: Owner | p != o :: OwnedBy(p) == old(OwnedBy(p))
      ensures (n < 0 <==> old(m.totalFreeBlocks) == 0)
          && m.totalFreeBlocks == old(m.totalFreeBlocks) - if n < 0 then 0 else n
      ensures Unused() == old(Unused()) - if n < 0 then 0 else n
      ensures n > 0 ==>
                && (forall b: nat | realStart <= b < realStart + n :: old(Free(m.table.exts, b)))
                && (n < blkCnt && old(Coalesced(m.table.exts)) ==> !Free(m.table.exts, realStart + n))
    {
      hide Proper, Free, Coalesced, Indexed, Chosen, Hinted, AllFree, Joins, Renewed, MissesPrev;
      FreeBelow();
      ghost var i;
      n, realStart, i := m.SmAllocSpace(blkCnt);
      if n > 0 {
        ghost var r := Range(realStart, n);
        forall b: nat ensures b in r <==> Spans(Extent(realStart, n), b)
                      ensures Spans(Extent(realStart, n), b) ==> b !in old(OwnedBy(o)) && b < total {
          assert old(Uses(b)) == if b < total then 1 else 0;
        }
        if o.User? { userOwned := userOwned + r; } else { spaceOwned := spaceOwned + r; }
      }
      forall b: nat ensures Uses(b) == if b < total then 1 else 0 {
        assert old(Uses(b)) == if b < total then 1 else 0;
      }
    }

    /** ofs_free_space: an object gives back blocks it owns.  A user is refused exactly when the lower level cannot be
        filled up first. */
    method OfsFreeSpace(o: Owner, start: nat, blkCnt: nat) returns (ret: int)
      requires Ok() && 0 < blkCnt < TWO_32 && (o.Base? ==> baseBlk == 0 && blkCnt == 1)
      requires forall b: nat | start <= b < start + blkCnt :: b in OwnedBy(o)
      modifies this`baseBlk, this`baseOwned, this`spaceOwned, this`userOwned, sm, sm.table, bsm, bsm.table
      ensures Ok()
      ensures ret >= 0 ==>
                && OwnedBy(o) == old(OwnedBy(o)) - Range(start, blkCnt) && Unused() == old(Unused()) + blkCnt
                && (!o.Base? ==> forall b: nat | start <= b < start + blkCnt :: Free(LevelOf(o).table.exts, b))
      ensures ret < 0 ==> OwnedBy(o) == old(OwnedBy(o)) && Unused() == old(Unused())
      ensures ret < 0 <==> o.User? && old(sm.totalFreeBlocks) < old(Needed())
      ensures forall p: Owner | p != o :: OwnedBy(p) == old(OwnedBy(p))
      ensures o.Base? ==> baseBlk == start != 0
      ensures !o.Base? && old(baseBlk) != 0 ==> baseBlk == old(baseBlk)
    {
      hide Proper, Free, Coalesced, Indexed, Chosen, Hinted, AllFree, Joins, Renewed, MissesPrev;
      match o
      case Base =>
        assert start in OwnedBy(o);
        GiveBaseBlock(start);
        ret := 0;
      case Space =>
        ret := FreeTo(bsm, Space, start, blkCnt);
      case User =>
        var ok := ReserveBaseSpace();
        if !ok {
          return -1;
        }
        ret := FreeTo(sm, User, start, blkCnt);
    }

    method GiveBaseBlock(start: nat)
      requires Ok() && baseBlk == 0 && start in baseOwned
      modifies this`baseBlk, this`baseOwned
      ensures Ok() && baseBlk == start != 0 && baseOwned == old(baseOwned) - {start}
    {
      hide Proper, Free, Coalesced, Indexed, Chosen, Hinted, AllFree, Joins, Renewed, MissesPrev;
      assert Uses(start) == if start < total then 1 else 0;
      baseBlk := start;
      baseOwned := baseOwned - {start};
      forall b: nat ensures Uses(b) == if b < total then 1 else 0 {
        assert old(Uses(b)) == if b < total then 1 else 0;
      }
    }

    method FreeTo(m: SpaceManager, o: Owner, start: nat, blkCnt: nat) returns (ret: int)
      requires Ok() && 0 < blkCnt < TWO_32 && (if o.User? then m == sm else o.Space? && m == bsm)
      requires forall b: nat | start <= b < start + blkCnt :: b in OwnedBy(o)
      modifies this`spaceOwned, this`userOwned, m, m.table
      ensures Ok() && ret == 0 && OwnedBy(o) == old(OwnedBy(o)) - Range(start, blkCnt)
      ensures m.totalFreeBlocks == old(m.totalFreeBlocks) + blkCnt
      ensures forall b: nat | start <= b < start + blkCnt :: Free(m.table.exts, b)
      ensures forall p: Owner | p != o :: OwnedBy(p) == old(OwnedBy(p))
    {
      hide Proper, Free, Coalesced, Indexed, Chosen, Hinted, AllFree, Joins, Renewed, MissesPrev;
      ghost var r := Range(start, blkCnt);
      forall b: nat ensures b in r <==> Spans(Extent(start, blkCnt), b)
                    ensures Spans(Extent(start, blkCnt), b) ==> !Free(m.table.exts, b) && b < total
                    ensures Free(m.table.exts, b) ==> b < total {
        assert Uses(b) == if b < total then 1 else 0;
        assert b in r ==> b in OwnedBy(o);
      }
      assert Spans(Extent(start, blkCnt), start + blkCnt - 1);
      RangeNotFree(m.table.exts, Extent(start, blkCnt), total);
      ret := m.SmFreeSpace(start, blkCnt);
      if o.User? { userOwned := userOwned - r; } else { spaceOwned := spaceOwned - r; }
      forall b: nat ensures Uses(b) == if b < total then 1 else 0 {
        assert old(Uses(b)) == if b < total then 1 else 0;
        assert b in r <==> Spans(Extent(start, blkCnt), b);
        assert b in r ==> b in old(OwnedBy(o));
      }
    }

    /** set_ib_dirty on the one block of bsm's tree: the block set aside is taken, and the old one becomes
        the block set aside. */
    method MoveBaseTree(root: nat) returns (newRoot: nat)
      requires Ok() && baseBlk != 0 && root in baseOwned
      modifies this`baseBlk, this`baseOwned, this`spaceOwned, this`userOwned, sm, sm.table, bsm, bsm.table
      ensures Ok() && baseBlk == root && newRoot == old(baseBlk) && baseOwned == old(baseOwned) - {root} + {newRoot}
      ensures spaceOwned == old(spaceOwned) && userOwned == old(userOwned)
    {
      hide Ok;
      var n;
      assert OwnedBy(Base) == baseOwned;
      n, newRoot := OfsAllocSpace(Base, 1);
      assert OwnedBy(Base) == baseOwned && baseOwned == old(baseOwned) + {newRoot};
      assert newRoot != root && root in baseOwned;
      var ret := OfsFreeSpace(Base, root, 1);
      assert OwnedBy(Base) == baseOwned && OwnedBy(Space) == spaceOwned && OwnedBy(User) == userOwned;
    }

    /** Free blocks are blocks of the container. */
    lemma FreeBelow()
      requires Ok()
      ensures forall b: nat :: Free(sm.table.exts, b) ==> b < TWO_32 - 1
      ensures forall b: nat :: Free(bsm.table.exts, b) ==> b < TWO_32 - 1
    {
      forall b: nat ensures Free(sm.table.exts, b) || Free(bsm.table.exts, b) ==> b < TWO_32 - 1 {
        assert Uses(b) == if b < total then 1 else 0;
      }
    }
  }

  /** A container is filled by a user, and the tree of sm takes blocks of the lower level until three are left: then the
      user cannot give back a block it owns. */
  method StuckRun() returns (a: Allocator, b: nat, ret: int)
    ensures fresh(a) && a.Ok() && b in a.userOwned && ret < 0
  {
    hide Proper, Free, Coalesced, Indexed;
    a := new Allocator(100);
    var n, start;
    n, b := a.OfsAllocSpace(User, 1);
    assert b in a.OwnedBy(User);
    while n > 0
      invariant a.Ok() && b in a.userOwned && n != 0 && (n < 0 ==> a.sm.totalFreeBlocks == 0)
      modifies a`baseBlk, a`baseOwned, a`spaceOwned, a`userOwned, a.sm, a.sm.table, a.bsm, a.bsm.table
      decreases a.Unused(), n > 0
    {
      assert b in a.OwnedBy(User);
      n, start := a.OfsAllocSpace(User, 1);
      assert b in a.OwnedBy(User);
    }
    while a.bsm.totalFreeBlocks > MIN_BLK_NUM
      invariant a.Ok() && b in a.userOwned && a.sm.totalFreeBlocks == 0
      modifies a`baseBlk, a`baseOwned, a`spaceOwned, a`userOwned, a.sm, a.sm.table, a.bsm, a.bsm.table
      decreases a.Unused()
    {
      assert b in a.OwnedBy(User);
      n, start := a.OfsAllocSpace(Space, 1);
      assert b in a.OwnedBy(User);
    }
    assert b in a.OwnedBy(User);
    ret := a.OfsFreeSpace(User, b, 1);
    assert b in a.OwnedBy(User);
  }

  /** A range of blocks that are not free: it overlaps no free extent, and leaves room for itself. */
  lemma {:induction false} RangeNotFree(s: seq<Extent>, r: Extent, n: nat)
    requires Proper(s) && 0 < r.len && End(r) <= n < TWO_64
    requires forall b: nat :: Free(s, b) ==> b < n
    requires forall b: nat :: Spans(r, b) ==> !Free(s, b)
    ensures forall e | e in s :: !Overlap(e, r)
    ensures Total(s) + r.len <= n
  {
    forall e | e in s ensures !Overlap(e, r) {
      var i :| 0 <= i < |s| && s[i] == e;
      var b := if e.addr < r.addr then r.addr else e.addr;
      if Overlap(e, r) { assert Spans(s[i], b) && Spans(r, b); }
    }
    var p := PlaceExists(s, r);
    InsertExtent(s, p, r);
    TotalInsert(s, p, r);
    FreeEnds(Insert(s, p, r), n);
  }
}
