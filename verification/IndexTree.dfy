/** The index tree of one object: its cached blocks, its allocator and its cursor. */
module IndexTree {
  import opened IndexLayout
  import opened IndexTreeShape
  import opened IndexTreeZipper
  import opened IndexTreeDirty
  import opened IndexTreeEdit
  import opened IndexTreeSplit
  import opened IndexTreeLanding
  import opened IndexTreeInsert
  import opened IndexTreeSearch
  import opened IndexTreeRemove
  import opened IndexTreeWalk
  import opened IndexTreeSwap
  import opened IndexTreeRest
  import opened IndexTreeCommit
  import opened IndexTreeCount
  import opened Collate

  class IndexTree {
    const cr: CollateRule
    var root: Vbn
    var store: map<Vbn, Block>
    var dirty: set<Vbn>
    var disk: map<Vbn, Block>
    // where the allocator looks first
    var wish: Vbn

    // the cursor
    var depth: nat
    var cacheStack: seq<Vbn>
    var posStack: seq<nat>
    var pos: nat

    // the tree, opened along the cursor's path
    ghost var height: nat
    ghost var frames: seq<Frame>
    ghost var focus: Tree
    // the root number in the super block on disk
    var savedRoot: Vbn

    // the last committed tree, its blocks, and whether one of them was handed out again since
    ghost var saved: Tree
    ghost var savedHeight: nat
    ghost var live: set<Vbn>
    ghost var reused: bool
    // the numbers given back to the allocator, in order
    ghost var freed: seq<Vbn>
    // the writes to disk, in order
    ghost var log: seq<Write>

    /** An object as it is created: an empty root, not committed yet. */
    constructor (cr: CollateRule, vbn: Vbn)
      requires vbn != 0
      ensures Ok() && Contents() == [] && height == 1 && this.cr == cr
      ensures saved == Nil && Saved()
    {
      this.cr := cr;
      root := vbn;
      store := map[vbn := Block(ROOT_CAP, [EndEntry(false, 0)])];
      dirty := {vbn};
      disk := map[];
      depth, pos := 0, 0;
      cacheStack, posStack := [vbn], [];
      savedRoot := 0;
      height, frames := 1, [];
      focus := Node(vbn, ROOT_CAP, [EndEntry(false, 0)], [Nil]);
      saved, savedHeight, live, reused, freed, log := Nil, 0, {}, false, [], [];
      new;
      EmptyTreeOk(Blocks(), focus);
      CountEmpty(Blocks(), focus);
    }

    /** An object that was committed earlier, with root number vbn on disk; wish is up to the allocator. */
    constructor Existing(cr: CollateRule, disk: map<Vbn, Block>, vbn: Vbn, wish: Vbn, ghost t: Tree, ghost h: nat)
      requires t.Node? && t.vbn == vbn && OnDisk(disk, t) && 1 <= h <= TREE_MAX_DEPTH && Shape(t, h, true)
          && NoDup(Foot(t))
      ensures Ok() && Saved() && TheTree() == saved == t && height == h && !reused && depth == pos == 0 && frames == []
          && focus == t
      ensures savedRoot == vbn && Contents() == Flat(t)
      ensures this.cr == cr && this.disk == disk && this.wish == wish && dirty == {} && store == Cached(disk, t)
    {
      this.cr, this.disk, this.wish := cr, disk, wish;
      savedRoot, saved, savedHeight, live := vbn, t, h, set v | v in Foot(t);
      new;
      Reopen();
    }

    ghost function Blocks(): World
      reads this
    {
      World(store, dirty, disk)
    }

    /** The stacks of the cursor name the blocks of the path. */
    ghost predicate AtPath()
      reads this
    {
      && depth == |frames| == |posStack|
      && |cacheStack| == depth + 1
      && focus.Node?
      && (forall i | 0 <= i <= depth :: cacheStack[i] == VbnAt(frames, focus.vbn, i))
      && (forall i | 0 <= i < depth :: posStack[i] == frames[i].pos)
      && root == cacheStack[0]
    }

    /** OFS_ALLOC_BLOCK: some block number that is not in use. */
    method AllocBlock() returns (v: Vbn)
      modifies this`reused
      ensures v !in store && v != 0 && (wish !in store && wish != 0 ==> v == wish)
      ensures reused == (old(reused) || v in live)
    {
      if wish !in store && wish != 0 {
        v := wish;
      } else {
        FreshExists(store.Keys);
        v :| v !in store.Keys && v != 0;
      }
      reused := reused || v in live;
    }

    /** No dirty block overwrites a block of the last committed tree, unless one was reused. */
    ghost predicate Clear()
      reads this
    {
      !reused ==> forall v | v in dirty :: v !in live
    }

    /** SET_IE_VBN on the open entry of level d. */
    method LinkChild(d: nat, vbn: Vbn)
      requires AtPath() && d < depth && Held(Blocks(), frames[d].vbn, frames[d].cap, frames[d].es)
          && frames[d].pos < |frames[d].es|
      modifies this`store, this`frames
      ensures AtPath()
      ensures var f := Redirect(old(frames[d]), old(frames[d].vbn), vbn);
              frames == old(frames)[d := f] && store == old(store)[f.vbn := Block(f.cap, f.es)]
    {
      var b := store[cacheStack[d]];
      store := store[cacheStack[d] := b.(es := SetVbn(b.es, posStack[d], vbn))];
      frames := frames[d := Redirect(frames[d], frames[d].vbn, vbn)];
    }

    /** change_obj_cache_vbn: the cached block of level d takes a new number. */
    method RekeyBlock(d: nat, newVbn: Vbn)
      requires AtPath() && d <= depth && cacheStack[d] in store
      modifies this`root, this`store, this`cacheStack, this`frames, this`focus
      ensures AtPath() && cacheStack == old(cacheStack)[d := newVbn]
      ensures store == (old(store) - {old(cacheStack[d])})[newVbn := old(store[cacheStack[d]])]
      ensures if d < depth then focus == old(focus) && frames == old(frames)[d := old(frames[d]).(vbn := newVbn)]
              else frames == old(frames) && focus == old(focus).(vbn := newVbn)
    {
      store := (store - {cacheStack[d]})[newVbn := store[cacheStack[d]]];
      cacheStack := cacheStack[d := newVbn];
      if d == 0 { root := newVbn; }
      if d < depth { frames := frames[d := frames[d].(vbn := newVbn)]; } else { focus := focus.(vbn := newVbn); }
    }

    ghost function ThePath(): Path
      reads this
    {
      Path(Blocks(), frames, focus)
    }

    /** The updates of one round of set_ib_dirty at level d: the block moves to newVbn, its open
        entry (if there is a block below) is set to vbn.  The old number goes back to the allocator
        (OFS_FREE_BLOCK), that is, out of the store. */
    method Relocate(d: nat, vbn: Vbn, newVbn: Vbn)
      requires AtPath() && d <= depth && cacheStack[d] in store && newVbn !in store
      requires d == depth <==> vbn == 0
      requires d < depth ==>
                Held(Blocks(), frames[d].vbn, frames[d].cap, frames[d].es) && frames[d].pos < |frames[d].es|
      requires d == depth ==> store[cacheStack[d]] == Block(focus.cap, focus.es)
      modifies this`root, this`store, this`dirty, this`freed, this`cacheStack, this`frames, this`focus
      ensures AtPath() && cacheStack == old(cacheStack)[d := newVbn]
      ensures ThePath() == MovedAt(old(ThePath()), d, vbn, newVbn)
      ensures dirty == old(dirty) + {newVbn} && freed == old(freed) + [old(cacheStack[d])]
    {
      freed := freed + [cacheStack[d]];
      RekeyBlock(d, newVbn);
      if vbn != 0 {
        LinkChild(d, vbn);
      }
      dirty := dirty + {cacheStack[d]};
    }

    /** One round of set_ib_dirty at level d, whose block is clean. */
    method MoveBlockTo(d: nat, vbn: Vbn, ghost o: Path, ghost m: multiset<Vbn>) returns (newVbn: Vbn)
      requires d <= depth && AtPath() && PathOk(Blocks(), frames, focus, height, d, vbn, m)
      requires Progress(o.w, o.fs, o.x, Blocks(), frames, focus, m)
      requires d == depth ==> vbn == 0
      requires cacheStack[d] !in dirty && Clear()
      modifies this`root, this`store, this`dirty, this`reused, this`freed, this`cacheStack, this`frames, this`focus
      ensures AtPath() && PathOk(Blocks(), frames, focus, height, d - 1, newVbn, m)
      ensures Progress(o.w, o.fs, o.x, Blocks(), frames, focus, m)
      ensures Clear() && dirty == old(dirty) + {newVbn} && newVbn !in old(store)
      ensures freed == old(freed) + [old(cacheStack[d])] && cacheStack == old(cacheStack)[d := newVbn]
      ensures reused <==> old(reused) || newVbn in live
      ensures |store| == |old(store)|
      ensures ThePath() == MovedAt(old(ThePath()), d, vbn, newVbn)
          && (wish !in old(store) && wish != 0 ==> newVbn == wish)
    {
      hide PathOk, Progress;
      PathFacts(Blocks(), frames, focus, height, d, vbn, m);
      assert cacheStack[d] == VbnAt(frames, focus.vbn, d);
      newVbn := AllocBlock();
      MovedSize(ThePath(), d, vbn, newVbn);
      MoveRound(o, ThePath(), height, d, vbn, m, newVbn);
      Relocate(d, vbn, newVbn);
    }

    /** The same, wherever the block goes. */
    method MoveBlock(d: nat, vbn: Vbn, ghost o: Path, ghost m: multiset<Vbn>) returns (newVbn: Vbn)
      requires d <= depth && AtPath() && PathOk(Blocks(), frames, focus, height, d, vbn, m)
      requires Progress(o.w, o.fs, o.x, Blocks(), frames, focus, m)
      requires d == depth ==> vbn == 0
      requires cacheStack[d] !in dirty && Clear()
      modifies this`root, this`store, this`dirty, this`reused, this`freed, this`cacheStack, this`frames, this`focus
      ensures AtPath() && PathOk(Blocks(), frames, focus, height, d - 1, newVbn, m)
      ensures Progress(o.w, o.fs, o.x, Blocks(), frames, focus, m)
      ensures Clear() && dirty == old(dirty) + {newVbn} && newVbn !in old(store)
      ensures freed == old(freed) + [old(cacheStack[d])] && cacheStack == old(cacheStack)[d := newVbn]
      ensures reused <==> old(reused) || newVbn in live
      ensures |store| == |old(store)|
    {
      hide PathOk, Progress, MovedAt, Clear, AtPath;
      newVbn := MoveBlockTo(d, vbn, o, m);
    }

    /** The last round of set_ib_dirty, at a block of level d that is dirty already. */
    method StopBlock(d: nat, vbn: Vbn, ghost o: Path, ghost m: multiset<Vbn>)
      requires d <= depth && AtPath() && PathOk(Blocks(), frames, focus, height, d, vbn, m)
      requires Progress(o.w, o.fs, o.x, Blocks(), frames, focus, m)
      requires d == depth ==> vbn == 0
      requires cacheStack[d] in dirty
      modifies this`store, this`frames
      ensures AtPath() && PathOk(Blocks(), frames, focus, height, -1, vbn, m)
      ensures Progress(o.w, o.fs, o.x, Blocks(), frames, focus, m) && |store| == |old(store)|
    {
      hide PathOk, Progress;
      PathFacts(Blocks(), frames, focus, height, d, vbn, m);
      assert cacheStack[d] == VbnAt(frames, focus.vbn, d);
      StopRound(o, ThePath(), height, d, vbn, m);
      if d < depth {
        LinkChild(d, vbn);
      }
    }

    /** One round of set_ib_dirty: at a dirty block it stops. */
    method DirtyRound(d: nat, vbn: Vbn, ghost o: Path, ghost m: multiset<Vbn>) returns (stop: bool, newVbn: Vbn)
      requires d <= depth && AtPath() && PathOk(Blocks(), frames, focus, height, d, vbn, m) && Clear()
      requires Progress(o.w, o.fs, o.x, Blocks(), frames, focus, m)
      requires d == depth ==> vbn == 0
      modifies this`root, this`store, this`dirty, this`reused, this`freed, this`cacheStack, this`frames, this`focus
      ensures AtPath() && PathOk(Blocks(), frames, focus, height, if stop then -1 else d - 1, newVbn, m)
      ensures Progress(o.w, o.fs, o.x, Blocks(), frames, focus, m) && Clear() && |store| == |old(store)|
      ensures stop <==> old(cacheStack[d]) in old(dirty)
      ensures stop ==>
                && cacheStack == old(cacheStack) && dirty == old(dirty)
                && freed == old(freed) && reused == old(reused)
      ensures !stop ==>
                && cacheStack == old(cacheStack)[d := newVbn] && dirty == old(dirty) + {newVbn} && newVbn !in old(store)
                && freed == old(freed) + [old(cacheStack[d])] && (reused <==> old(reused) || newVbn in live)
    {
      hide PathOk, Progress, ZipFoot, Foot, CtxFoot;
      PathCached(Blocks(), frames, focus, height, d, vbn, m);
      stop := cacheStack[d] in dirty;
      if stop {
        StopBlock(d, vbn, o, m);
        newVbn := vbn;
      } else {
        newVbn := MoveBlock(d, vbn, o, m);
      }
    }

    /** The loop of set_ib_dirty. */
    method DirtyUpwards(ghost m: multiset<Vbn>) returns (ghost top: int)
      requires AtPath() && PathOk(Blocks(), frames, focus, height, depth, 0, m) && Clear()
      modifies this`root, this`store, this`dirty, this`reused, this`freed, this`cacheStack, this`frames, this`focus
      ensures AtPath() && PathOk(Blocks(), frames, focus, height, -1, 0, m)
      ensures Progress(old(Blocks()), old(frames), old(focus), Blocks(), frames, focus, m)
      ensures Clear() && |store| == |old(store)|
      ensures Rekeyed(old(TheKeys()), TheKeys(), live, top)
      ensures -1 <= top <= depth && |old(cacheStack)| == depth + 1 && (0 <= top ==> old(cacheStack)[top] in old(dirty))
    {
      hide PathOk, Progress, ZipFoot, Foot, CtxFoot, Rekeyed, Clear;
      var d: int := depth;
      var vbn: Vbn := 0;
      ghost var o, k := ThePath(), TheKeys();
      ProgressRefl(Blocks(), frames, focus, height, d, vbn, m);
      RekeyedNone(k, live);
      while d >= 0
        invariant -1 <= d <= depth
        invariant AtPath() && PathOk(Blocks(), frames, focus, height, d, vbn, m)
        invariant d == depth ==> vbn == 0
        invariant Progress(o.w, o.fs, o.x, Blocks(), frames, focus, m)
        invariant Clear() && |store| == |old(store)|
        invariant Rekeyed(k, TheKeys(), live, d)
      {
        PathCached(Blocks(), frames, focus, height, d, vbn, m);
        ghost var n := TheKeys();
        var stop;
        stop, vbn := DirtyRound(d, vbn, o, m);
        RekeyedIs(k, n, live, d);
        if stop {
          break;
        }
        RekeyedStep(k, n, live, d, vbn);
        d := d - 1;
      }
      top := d;
      PathDone(Blocks(), frames, focus, height, vbn, 0, m);
    }

    ghost function TheKeys(): Keys
      reads this
    {
      Keys(cacheStack, dirty, freed, reused)
    }

    /** set_ib_dirty: from the cursor's block up to the root, give every clean block a new number
        and let its parent point there; stop at the first dirty block.  The numbers given back are those
        of all clean blocks of the path, and just these blocks have other numbers than before. */
    method SetDirty(ghost m: multiset<Vbn>)
      requires AtPath() && PathOk(Blocks(), frames, focus, height, depth, 0, m)
      requires Clear() && Counted(Blocks(), frames, focus, m)
      modifies this`root, this`store, this`dirty, this`reused, this`freed, this`cacheStack, this`frames, this`focus
      ensures AtPath() && PathOk(Blocks(), frames, focus, height, -1, 0, m)
      ensures Progress(old(Blocks()), old(frames), old(focus), Blocks(), frames, focus, m)
      ensures Clear() && freed == old(freed) + CleanFrom(old(cacheStack), old(dirty), depth)
      ensures GivesAll(old(cacheStack), old(dirty), depth)
      ensures CopiedOnWrite(old(TheKeys()), TheKeys(), live)
      ensures Counted(Blocks(), frames, focus, m)
    {
      hide PathOk, Progress, Counted, ZipFoot, Foot, CtxFoot, CleanFrom, GivesAll, Rekeyed, CopiedOnWrite;
      ghost var o, k := ThePath(), TheKeys();
      GivesBackClean(Blocks(), frames, focus, height, m, cacheStack);
      ghost var top := DirtyUpwards(m);
      RekeyedDone(k, TheKeys(), live, top);
      CountMoved(o.w, o.fs, o.x, Blocks(), frames, focus, height, depth, m);
    }

    // ---- moving the cursor along the path

    /** pop_cache_stack, with the tree's view of it: the last frame closes over block x. */
    method PopCacheStack(ghost x: Tree)
      requires AtPath() && 0 < depth && frames[depth - 1].pos < |frames[depth - 1].kids|
      modifies this`depth, this`cacheStack, this`posStack, this`pos, this`frames, this`focus
      ensures AtPath() && depth == old(depth) - 1
      ensures frames == old(frames)[..depth] && focus == Close(old(frames)[depth], x)
      ensures pos == old(frames)[depth].pos && cacheStack == old(cacheStack)[..depth + 1]
    {
      depth := depth - 1;
      pos := posStack[depth];
      cacheStack := cacheStack[..depth + 1];
      posStack := posStack[..depth];
      focus := Close(frames[depth], x);
      frames := frames[..depth];
    }

    // ---- inserting

    /** A well-formed tree, with a pending entry to insert at the cursor. */
    ghost predicate Inserting(e: Entry, l: Tree)
      reads this
    {
      AtPath() && InsertOk(Blocks(), frames, focus, pos, e, l, height) && Clear()
          && Counted(Blocks(), frames, focus, Foot(l))
    }

    ghost predicate Ok()
      reads this
    {
      AtPath() && TreeOk(Blocks(), frames, focus, height) && Clear() && Recorded()
          && Counted(Blocks(), frames, focus, multiset{})
    }

    /** A clean root is the committed one. */
    ghost predicate Recorded()
      reads this
    {
      root !in dirty ==> root == savedRoot && !reused && saved.Node?
    }

    /** The keys and values of the tree, in order. */
    ghost function Contents(): seq<KV>
      reads this
    {
      ZipFlat(frames, focus)
    }

    /** The whole tree. */
    ghost function TheTree(): Tree
      reads this
    {
      Plug(frames, focus)
    }

    /** How many levels the cursor's block stands above the ground: 1 at a leaf. */
    ghost function Level(): int
      reads this
    {
      height - depth
    }

    /** Every stored block is one of the tree, and is there once: what an operation takes out of the
        tree it also frees. */
    lemma StoredIsOwned()
      requires Ok()
      ensures forall v :: v in store <==> v in Foot(TheTree())
      ensures Foot(TheTree()) == multiset(store.Keys)
    {
      hide ZipOk, TreeOk, Counted, Foot, CtxFoot, Plug, Clear, Recorded;
      TreeTop(Blocks(), frames, focus, height);
      CountedExact(Blocks(), frames, focus, height);
      TopFoot(TheTree());
    }

    /** In-order position of the entry under the cursor. */
    ghost function CursorRank(): nat
      reads this
    {
      Rank(frames, focus, pos)
    }

    /** In-order position where the subtree left of the entry under the cursor starts. */
    ghost function CursorLo(): nat
      reads this
    {
      Lo(frames, focus, pos)
    }

    /** set_ib_dirty on a well-shaped tree whose last block was rewritten. */
    method DirtyTree(ghost m: multiset<Vbn>)
      requires AtPath() && PathOk(Blocks(), frames, focus, height, depth, 0, m) && Clear()
      requires CtxShape(frames, height) && Shape(focus, height - depth, depth == 0)
          && Counted(Blocks(), frames, focus, m)
      modifies this`root, this`store, this`dirty, this`reused, this`freed, this`cacheStack, this`frames, this`focus
      ensures AtPath() && PathOk(Blocks(), frames, focus, height, -1, 0, m) && Clear()
      ensures ZipOk(Blocks(), frames, focus, height) && NoDup(ZipFoot(frames, focus) + m) && Apart(Blocks(), m)
      ensures ZipFlat(frames, focus) == ZipFlat(old(frames), old(focus))
      ensures Before(frames) == Before(old(frames)) && After(frames) == After(old(frames))
      ensures Progress(old(Blocks()), old(frames), old(focus), Blocks(), frames, focus, m)
      ensures Renumbered(old(focus), focus) && root in dirty && Counted(Blocks(), frames, focus, m)
      ensures SamePath(old(frames), frames)
      ensures 0 < depth ==> 0 < |old(frames)| && |frames[0].es| == |old(frames)[0].es|
    {
      hide PathOk, Progress, ZipOk, Counted, Apart, NoDup, Shape, Holds, CtxShape, CtxFoot, Foot, Weave, Before, After,
        SamePath;
      ghost var w, fs, x := Blocks(), frames, focus;
      SetDirty(m);
      RootDirty(Blocks(), frames, focus, height, m);
      DirtyDone(w, fs, x, Blocks(), frames, focus, height, m);
      ProgressFocus(w, fs, x, Blocks(), frames, focus, m);
      ProgressSame(w, fs, x, Blocks(), frames, focus, m);
    }

    /** insert_ie on the cursor's block. */
    method InsertIe(e: Entry, ghost l: Tree)
      requires AtPath() && Held(Blocks(), focus.vbn, focus.cap, focus.es)
      modifies this`store, this`focus
      ensures AtPath() && focus == Inserted(old(focus), pos, e, l)
      ensures Blocks() == Rewritten(old(Blocks()), old(focus.vbn), Block(old(focus.cap), Insert(old(focus.es), pos, e)))
    {
      var b := store[cacheStack[depth]];
      store := store[cacheStack[depth] := b.(es := Insert(b.es, pos, e))];
      focus := Inserted(focus, pos, e, l);
    }

    /** The block has room: insert_ie, then set_ib_dirty. */
    method InsertHere(e: Entry, ghost l: Tree)
      requires Inserting(e, l) && RealSize(focus.es) + Len(e) <= focus.cap
      modifies this`root, this`store, this`dirty, this`reused, this`freed, this`cacheStack, this`frames, this`focus
      ensures Ok() && ZipFlat(frames, focus) == InsertFlat(old(frames), old(focus), pos, e, l)
      ensures Before(frames) == Before(old(frames)) && SamePath(old(frames), frames)
      ensures Renumbered(Inserted(old(focus), pos, e, l), focus)
    {
      hide InsertOk, PathOk, Progress, ZipOk, Counted, Apart, NoDup, Shape, Holds, CtxShape, CtxFoot, Foot, Weave,
        SumLen, Before, After, SamePath;
      InsertFacts(Blocks(), frames, focus, pos, e, l, height);
      FitStart(Blocks(), frames, focus, pos, e, l, height);
      CountInserted(Blocks(), frames, focus, pos, e, l, Block(focus.cap, Insert(focus.es, pos, e)));
      InsertIe(e, l);
      DirtyTree(multiset{});
    }

    /** The entries of the root move to block newVbn; the root keeps an END entry naming it. */
    method MoveRootEntries(newVbn: Vbn)
      requires AtPath() && depth == 0 && Held(Blocks(), focus.vbn, focus.cap, focus.es) && newVbn != focus.vbn
      modifies this`store, this`dirty, this`focus, this`height
      ensures AtPath() && focus == NewRoot(old(focus), newVbn) && height == old(height) + 1
      ensures Blocks() == Reparented(old(Blocks()), old(focus), newVbn)
    {
      var b := store[cacheStack[0]];
      store := store[newVbn := Block(BLOCK_CAP, b.es)];
      dirty := dirty + {newVbn};
      store := store[cacheStack[0] := b.(es := [EndEntry(true, newVbn)])];
      focus := NewRoot(focus, newVbn);
      height := height + 1;
    }

    /** The cursor steps down from the new root, keeping its position. */
    method FollowEntries(newVbn: Vbn)
      requires AtPath() && depth == 0 && focus.kids != [] && focus.kids[0].Node? && RootVbn(focus.kids[0]) == newVbn
      modifies this`depth, this`cacheStack, this`posStack, this`frames, this`focus
      ensures AtPath() && depth == 1 && frames == [OpenAt(old(focus), 0)] && focus == old(focus.kids[0])
    {
      posStack := [0];
      cacheStack := cacheStack + [newVbn];
      depth := 1;
      frames := [OpenAt(focus, 0)];
      focus := focus.kids[0];
    }

    /** reparent_root up to its call of set_ib_dirty and including it. */
    method RaiseRoot(ghost e: Entry, ghost l: Tree) returns (newVbn: Vbn)
      requires Inserting(e, l) && depth == 0 && RealSize(focus.es) + Len(e) > focus.cap
      modifies this`root, this`store, this`dirty, this`reused, this`freed, this`cacheStack, this`frames, this`focus,
        this`height
      ensures old(focus.Node?) && AtPath() && Clear() && frames == [] && height == old(height) + 1
      ensures PathOk(Blocks(), [], focus, height, -1, 0, Foot(l)) && Counted(Blocks(), [], focus, Foot(l))
      ensures var v := Reparented(old(Blocks()), old(focus), newVbn);
              && Progress(v, [], NewRoot(old(focus), newVbn), Blocks(), [], focus, Foot(l))
              && Holds(v, l) && 0 !in v.dirty
      ensures Shape(NewRoot(old(focus), newVbn), height, true)
    {
      hide InsertOk, PathOk, Progress, ZipOk, Counted, Apart, NoDup, Shape, Holds, CtxShape, CtxFoot, Foot, Flat,
        Weave, SumLen, Before, After, Linked, CtxHolds, InsertFlat, Pending, RealSize, ZipFoot, Bare, SmallEntries,
        GivesAll, CleanFrom, PathHeld, PathLinks, LeftOf, RightOf, FrameFoot, FootAll, Len;
      assert frames == [];
      ghost var x, p := focus, pos;
      InsertFacts(Blocks(), [], x, p, e, l, height);
      newVbn := AllocBlock();
      ReparentStart(Blocks(), x, p, e, l, height, newVbn);
      CountReparented(Blocks(), x, Foot(l), newVbn);
      MoveRootEntries(newVbn);
      SetDirty(Foot(l));
      SamePathEmpty(Reparented(old(Blocks()), x, newVbn), NewRoot(x, newVbn), Blocks(), frames, focus, Foot(l));
    }

    /** reparent_root: the root's entries move to a new block, and the cursor with them. */
    method ReparentRoot(ghost e: Entry, ghost l: Tree)
      requires Inserting(e, l) && depth == 0 && RealSize(focus.es) + Len(e) > focus.cap
      modifies this`root, this`store, this`dirty, this`reused, this`freed, this`depth, this`cacheStack, this`posStack,
        this`pos, this`frames, this`focus, this`height
      ensures Inserting(e, l) && depth == 1 && height == old(height) + 1 && pos == old(pos)
      ensures focus.es == old(focus.es) && focus.kids == old(focus.kids) && focus.cap == BLOCK_CAP
      ensures |frames[0].es| == 1 && Bare(frames[0]) && SmallEntries(focus.es)
      ensures InsertFlat(frames, focus, pos, e, l) == InsertFlat([], old(focus), pos, e, l)
      ensures Before(frames) == []
    {
      hide InsertOk, PathOk, Progress, ZipOk, Counted, Apart, NoDup, Shape, Holds, CtxShape, CtxFoot, Foot, Flat,
        Weave, SumLen, Before, After, Linked, CtxHolds, InsertFlat, Pending, RealSize, ZipFoot, Bare, SmallEntries,
        GivesAll, CleanFrom, PathHeld, PathLinks, LeftOf, RightOf, FrameFoot, FootAll, Len;
      assert frames == [];
      ghost var w, x, p, h := Blocks(), focus, pos, height;
      InsertFacts(w, [], x, p, e, l, h);
      var newVbn := RaiseRoot(e, l);
      ReparentDone(Reparented(w, x, newVbn), x, p, e, l, h, newVbn, Blocks(), focus);
      CountSame(Blocks(), [], focus, [OpenAt(focus, 0)], focus.kids[0], Foot(l));
      FollowEntries(newVbn);
    }

    /** get_middle_ie. */
    method GetMiddleIe() returns (k: nat)
      requires AtPath() && Held(Blocks(), focus.vbn, focus.cap, focus.es)
      requires 0 < |focus.es| && focus.es[|focus.es| - 1].end
      requires forall i | 0 <= i < |focus.es| - 1 :: !focus.es[i].end
      ensures k == Middle(focus.es) < |focus.es|
      ensures 2 * SumLen(focus.es[..k]) + 1 < SumLen(focus.es)
      ensures focus.es[k].end || SumLen(focus.es) <= 2 * SumLen(focus.es[..k + 1]) + 1
    {
      MiddleOnly(focus.es, Middle(focus.es));
      var es := store[cacheStack[depth]].es;
      var midPos: nat := SumLen(es) / 2;
      k := 0;
      while !es[k].end
        invariant k < |es| && midPos >= 0 && MidFrom(es, k, midPos) == Middle(es)
        decreases |es| - k
      {
        if midPos > Len(es[k]) {
          midPos := midPos - Len(es[k]);
          k := k + 1;
        } else {
          break;
        }
      }
    }

    /** copy_ib_tail into a new block, with the pending entry if it belongs there. */
    method AddRightPart(newVbn: Vbn, k: nat, e: Entry, ghost l: Tree)
      requires AtPath() && Held(Blocks(), focus.vbn, focus.cap, focus.es)
      requires k < |focus.es| == |focus.kids| && pos < |focus.es|
      requires newVbn != focus.vbn && newVbn !in store
      modifies this`store, this`dirty
      ensures AtPath()
      ensures Blocks() == World(old(store)[newVbn := Block(focus.cap, RightPart(focus, k, newVbn, pos, e, l).es)],
                                old(dirty) + {newVbn}, disk)
    {
      var b := store[cacheStack[depth]];
      var tail := b.es[k + 1..];
      if k < pos {
        tail := Insert(tail, pos - k - 1, e);
      }
      store := store[newVbn := Block(b.cap, tail)];
      dirty := dirty + {newVbn};
    }

    /** cut_ib_tail on the cursor's block, and the pending entry if it belongs there. */
    method CutToLeftPart(k: nat, e: Entry, ghost l: Tree)
      requires AtPath() && Held(Blocks(), focus.vbn, focus.cap, focus.es)
      requires k < |focus.es| == |focus.kids|
      modifies this`store, this`focus
      ensures AtPath() && focus == LeftPart(old(focus), k, pos, e, l)
      ensures Blocks() == Rewritten(old(Blocks()), old(focus.vbn), Block(focus.cap, focus.es))
    {
      var b := store[cacheStack[depth]];
      var head := b.es[..k] + [b.es[|b.es| - 1].(vbn := b.es[k].vbn)];
      if pos <= k {
        head := Insert(head, pos, e);
      }
      store := store[cacheStack[depth] := Block(b.cap, head)];
      focus := LeftPart(focus, k, pos, e, l);
    }

    /** pop_cache_stack, and the entry found there is pointed at block newVbn. */
    method PopAndLink(newVbn: Vbn, ghost r: Tree)
      requires AtPath() && 0 < depth && RootVbn(r) == newVbn
      requires var f := frames[depth - 1]; f.pos < |f.kids| == |f.es| && Held(Blocks(), f.vbn, f.cap, f.es)
      modifies this`store, this`depth, this`cacheStack, this`posStack, this`pos, this`frames, this`focus
      ensures AtPath() && depth == old(depth) - 1
      ensures frames == old(frames)[..depth] && focus == Swapped(old(frames)[depth], r)
      ensures pos == old(frames)[depth].pos
      ensures Blocks() == Rewritten(old(Blocks()), focus.vbn, Block(focus.cap, focus.es))
    {
      ghost var f := frames[depth - 1];
      PopCacheStack(r);
      var b := store[cacheStack[depth]];
      store := store[cacheStack[depth] := b.(es := SetVbn(b.es, pos, newVbn))];
      focus := Swapped(f, r);
    }

    /** split_ib: the block under the cursor is divided at its middle entry k, which becomes the
        pending entry, one level up; its left child is the left part. */
    method SplitIb(e: Entry, ghost l: Tree) returns (mid: Entry, ghost a: Tree, ghost k: nat)
      requires Inserting(e, l) && 0 < depth && RealSize(focus.es) + Len(e) > focus.cap
      modifies this`root, this`store, this`dirty, this`reused, this`freed, this`depth, this`cacheStack, this`posStack,
        this`pos, this`frames, this`focus, this`height
      ensures Inserting(mid, a) && depth == old(depth) - 1 && height == old(height)
      ensures StepsUp(old(frames), old(focus), old(pos), e, l, frames, focus, pos, mid, a)
      ensures k < |old(focus.es)| && mid.kv == old(focus.es)[k].kv
      ensures 2 * SumLen(old(focus.es)[..k]) + 1 < SumLen(old(focus.es)) <= 2 * SumLen(old(focus.es)[..k + 1]) + 1
    {
      hide InsertOk, PathOk, Progress, ZipOk, Counted, Apart, NoDup, Shape, Holds, CtxShape, CtxFoot, Foot, Flat,
        Weave, SumLen,
        Before, After, LeftPart, RightPart, Middle, Swapped, StepsUp, RightStored, CopiedOnWrite, GivesAll;
      ghost var x, p, fs := focus, pos, frames;
      InsertFacts(Blocks(), fs, x, p, e, l, height);
      var mp := GetMiddleIe();
      k := mp;
      var newVbn := AllocBlock();
      SplitStart(Blocks(), fs, x, p, e, l, height, newVbn);
      PartsVbn(x, x.vbn, k, newVbn, p, e, l);
      CountAdded(Blocks(), fs, x, Foot(l), newVbn, Block(x.cap, RightPart(x, k, newVbn, p, e, l).es), dirty + {newVbn});
      AddRightPart(newVbn, mp, e, l);
      ghost var v := Blocks();
      SetDirty(multiset{newVbn} + Foot(l));
      a, mid := SplitRest(v, fs, x, p, newVbn, mp, e, l);
    }

    /** split_ib after set_ib_dirty. */
    method SplitRest(ghost v: World, ghost fs: seq<Frame>, ghost x: Tree, ghost p: nat, newVbn: Vbn, k: nat, e: Entry,
        ghost l: Tree)
      returns (ghost a: Tree, mid: Entry)
      requires AtPath() && 0 < depth && Clear() && p == pos
      requires PathOk(Blocks(), frames, focus, height, -1, 0, multiset{newVbn} + Foot(l))
      requires Counted(Blocks(), frames, focus, multiset{newVbn} + Foot(l))
      requires Progress(v, fs, x, Blocks(), frames, focus, multiset{newVbn} + Foot(l))
      requires x.Node? && |fs| < height && CtxShape(fs, height) && Shape(x, height - |fs|, false) && p < |x.es|
      requires k == Middle(x.es) && newVbn != 0 && RightStored(v, x, p, e, l, height - |fs|, newVbn)
      modifies this`store, this`depth, this`cacheStack, this`posStack, this`pos, this`frames, this`focus
      ensures Inserting(mid, a) && depth == old(depth) - 1 && k < |x.es| && mid.kv == x.es[k].kv && !x.es[k].end
      ensures StepsUp(fs, x, p, e, l, frames, focus, pos, mid, a)
    {
      hide InsertOk, PathOk, Progress, ZipOk, Counted, Apart, NoDup, Shape, Holds, CtxShape, CtxFoot, Foot, Flat,
        Weave, SumLen,
        Before, After, LeftPart, RightPart, Middle, Swapped, StepsUp, RightStored;
      ghost var gs, y := frames, focus;
      SplitFacts(v, fs, x, p, e, l, height, newVbn, Blocks(), gs, y);
      ghost var r := RightPart(y, k, newVbn, p, e, l);
      ghost var b, c := LeftPart(y, k, p, e, l), Swapped(gs[|gs| - 1], r);
      SwappedIs(gs[|gs| - 1], r);
      CountSplit(Blocks(), gs, y, height, k, newVbn, p, e, l, Block(b.cap, b.es), Block(c.cap, c.es));
      mid := AddVbn(store[cacheStack[depth]].es[k], cacheStack[depth]);
      CutToLeftPart(k, e, l);
      a := focus;
      PopAndLink(newVbn, r);
    }

    /** tree_insert_ie: insert the pending entry before the cursor's position, reparenting the root
        and splitting blocks on the way up as needed. */
    method TreeInsertIe(e0: Entry, ghost l0: Tree) returns (ghost split: bool)
      requires Inserting(e0, l0) && height < TREE_MAX_DEPTH
      modifies this`root, this`store, this`dirty, this`reused, this`freed, this`depth, this`cacheStack, this`posStack,
        this`pos, this`frames, this`focus, this`height
      ensures Ok() && old(height) <= height <= old(height) + 1
      ensures ZipFlat(frames, focus) == InsertFlat(old(frames), old(focus), old(pos), e0, l0)
      ensures Landed(old(frames), old(focus), old(pos), e0, l0, old(height), frames, focus, pos, height, split)
      ensures split <==> old(RealSize(focus.es)) + Len(e0) > BLOCK_CAP
      ensures !split ==>
                && pos == old(pos) && focus.es == Insert(old(focus.es), pos, e0)
                && (height == old(height) <==> old(RealSize(focus.es)) + Len(e0) <= old(focus.cap))
    {
      hide InsertOk, PathOk, Progress, ZipOk, Counted, Apart, NoDup, Shape, Holds, CtxShape, CtxFoot, Foot, Flat,
        Weave, SumLen,
        Before, After, StepsUp, Underway, Landed, InsertFlat, Bare, SmallEntries, SamePath;
      ghost var fs0, x0, p0, h0 := frames, focus, pos, height;
      var e := e0;
      ghost var l := l0;
      ghost var reparented := false;
      split := false;
      InsertFacts(Blocks(), fs0, x0, p0, e0, l0, h0);
      UnderwayStart(fs0, x0, p0, e0, l0, h0);
      while true
        invariant Inserting(e, l)
        invariant Underway(fs0, x0, p0, e0, l0, h0, frames, focus, pos, e, l, height, split)
        invariant height == if reparented then h0 + 1 else h0
        invariant !split && !reparented ==> focus.cap == x0.cap
        invariant !split && reparented ==> RealSize(x0.es) + Len(e0) > x0.cap
        invariant reparented ==> |RootEntries(frames, focus)| == 1
        decreases if reparented then 0 else 1, depth
      {
        InsertFacts(Blocks(), frames, focus, pos, e, l, height);
        UnderwayIs(fs0, x0, p0, e0, l0, h0, frames, focus, pos, e, l, height, split);
        ghost var fs, x, p, h := frames, focus, pos, height;
        var b := store[cacheStack[depth]];
        if RealSize(b.es) + Len(e) <= b.cap {
          InsertHere(e, l);
          LandedHere(fs0, x0, p0, e0, l0, h0, fs, x, p, e, l, h, split, frames, focus);
          LandedIs(fs0, x0, p0, e0, l0, h0, frames, focus, pos, height, split);
          return;
        }
        if depth == 0 {
          ReparentRoot(e, l);
          UnderwayReparent(fs0, x0, p0, e0, l0, h0, x, p, e, l, h, split, frames, focus);
          reparented := true;
        } else {
          var mid;
          ghost var a, k;
          mid, a, k := SplitIb(e, l);
          StepsUpFacts(fs, x, p, e, l, frames, focus, pos, mid, a);
          UnderwaySplit(fs0, x0, p0, e0, l0, h0, fs, x, p, e, l, h, split, frames, focus, pos, mid, a);
          e, l, split := mid, a, true;
        }
      }
    }

    // ---- searching

    /** reset_cache_stack: the cursor goes to the root, to its first or its last entry. */
    method ResetCacheStack(last: bool)
      requires Ok()
      modifies this`depth, this`cacheStack, this`posStack, this`pos, this`frames, this`focus
      ensures Ok() && depth == 0 && Contents() == old(Contents()) && Flat(focus) == Contents()
          && TheTree() == old(TheTree())
      ensures 0 < |focus.es| && pos == if last then |focus.es| - 1 else 0
    {
      hide ZipOk, TreeOk, Counted, PathOk, Flat, Before, After, Plug, ZipFlat, Shape, Weave, ZipFoot, Foot, CtxFoot;
      TreeTop(Blocks(), frames, focus, height);
      CountSame(Blocks(), frames, focus, [], Plug(frames, focus), multiset{});
      TreeFacts(Blocks(), [], Plug(frames, focus), height);
      depth := 0;
      focus := Plug(frames, focus);
      frames := [];
      cacheStack := [root];
      posStack := [];
      pos := if last then |store[root].es| - 1 else 0;
    }

    /** push_cache_stack: down to the child of the entry under the cursor. */
    method PushCacheStack(last: bool)
      requires Ok() && 1 < Level() && pos < |focus.es|
      modifies this`depth, this`cacheStack, this`posStack, this`pos, this`frames, this`focus
      ensures Ok() && depth == old(depth) + 1 && Contents() == old(Contents()) && TheTree() == old(TheTree())
      ensures |old(focus.kids)| == |old(focus.es)|
      ensures frames == old(frames) + [OpenAt(old(focus), old(pos))] && focus == old(focus.kids[pos])
      ensures 0 < |focus.es| == |focus.kids| && pos == if last then |focus.es| - 1 else 0
    {
      hide ZipOk, TreeOk, Counted, PathOk, Flat, Before, After, ZipFlat, Shape, Plug, Weave, ZipFoot, Foot, CtxFoot,
        FrameFoot;
      TreeFacts(Blocks(), frames, focus, height);
      TreeDown(Blocks(), frames, focus, height, pos);
      CountSame(Blocks(), frames, focus, frames + [OpenAt(focus, pos)], focus.kids[pos], multiset{});
      OpenView(frames, focus, pos);
      var vbn := store[cacheStack[depth]].es[pos].vbn;
      posStack := posStack + [pos];
      cacheStack := cacheStack + [vbn];
      depth := depth + 1;
      frames := frames + [OpenAt(focus, pos)];
      focus := focus.kids[pos];
      TreeFacts(Blocks(), frames, focus, height);
      pos := if last then |store[vbn].es| - 1 else 0;
    }

    /** The inner loop of search_key_internal: along the block, up to an entry that is not smaller
        than the key. */
    method ScanBlock(key: seq<u8>, val: seq<u8>, ghost c: seq<KV>) returns (found: bool)
      requires Ok() && Sorted(cr, c) && Run(cr, c, key, val) && QueryOk(cr, key, val)
      requires Narrowed(cr, c, frames, focus, pos, key, val)
      modifies this`pos
      ensures Narrowed(cr, c, frames, focus, pos, key, val) && pos < |focus.es|
      ensures found ==> !focus.es[pos].end && CollateSign(cr, focus.es[pos].kv, key, val) == 0
      ensures !found ==> focus.es[pos].end || CollateSign(cr, focus.es[pos].kv, key, val) > 0
    {
      hide ZipOk, TreeOk, Counted, PathOk, Flat, Before, After, ZipFlat, Shape, CollateSign, Sorted, Run, Rank, Lo,
        Narrowed, QueryOk;
      TreeFacts(Blocks(), frames, focus, height);
      NarrowedPos(cr, c, frames, focus, pos, key, val);
      var es := store[cacheStack[depth]].es;
      while !es[pos].end
        invariant pos < |es| && Narrowed(cr, c, frames, focus, pos, key, val)
        decreases |es| - pos
      {
        NarrowedPos(cr, c, frames, focus, pos, key, val);
        CursorView(frames, focus, pos);
        EntryKeyOk(cr, c, CursorRank());
        var sign := CollateKey(cr, es[pos].kv, key, val);
        if sign > 0 {
          break;
        }
        if sign == 0 {
          return true;
        }
        NarrowNext(cr, c, frames, focus, pos, key, val);
        // get_next_ie
        pos := pos + 1;
      }
      return false;
    }

    /** search_key_internal: to an entry that compares equal, or to the place in a leaf where such
        an entry would be. */
    method SearchKeyInternal(key: seq<u8>, val: seq<u8>) returns (found: bool)
      requires Ok() && Sorted(cr, Contents()) && QueryOk(cr, key, val)
      modifies this`depth, this`cacheStack, this`posStack, this`pos, this`frames, this`focus
      ensures Ok() && Contents() == old(Contents()) && pos < |focus.es| && TheTree() == old(TheTree())
      ensures found ==>
                && pos < |focus.es| - 1 && CursorRank() < |Contents()|
                && CollateSign(cr, Contents()[CursorRank()], key, val) == 0
                && forall i | 0 <= i < |Contents()| && CollateSign(cr, Contents()[i], key, val) == 0 ::
                     Sooner(TheTree(), CursorRank(), i)
      ensures !found ==>
                && Level() == 1
                && (forall i | 0 <= i < CursorRank() && i < |Contents()| ::
                    CollateSign(cr, Contents()[i], key, val) < 0)
                && (forall i | CursorRank() <= i < |Contents()| :: CollateSign(cr, Contents()[i], key, val) > 0)
    {
      hide ZipOk, TreeOk, Counted, PathOk, Flat, Before, After, ZipFlat, Shape, CollateSign, Sorted, Run, Rank, Lo,
        Narrowed, QueryOk, Plug, Weave, Sooner;
      ResetCacheStack(false);
      ghost var c := Contents();
      SortedRun(cr, c, key, val);
      TreeFacts(Blocks(), frames, focus, height);
      NarrowStart(cr, focus, key, val);
      while true
        invariant Ok() && Narrowed(cr, c, frames, focus, pos, key, val) && TheTree() == old(TheTree())
        decreases Level()
      {
        found := ScanBlock(key, val, c);
        TreeFacts(Blocks(), frames, focus, height);
        NarrowedPos(cr, c, frames, focus, pos, key, val);
        CursorView(frames, focus, pos);
        if found {
          MetTopmost(Blocks(), frames, focus, height, pos, cr, c, key, val);
          return;
        }
        AboveCursor(cr, c, frames, focus, pos, key, val);
        if !store[cacheStack[depth]].es[pos].node {
          LeafRank(frames, focus, pos);
          NarrowedLow(cr, c, frames, focus, pos, key, val);
          return;
        }
        ghost var fs, x, p := frames, focus, pos;
        PushCacheStack(false);
        NarrowDown(cr, c, fs, x, p, key, val);
      }
    }

    /** index_insert_key: false when an entry compares equal (INDEX_ERR_KEY_EXIST). */
    method InsertKey(key: seq<u8>, val: seq<u8>) returns (inserted: bool, ghost r: nat)
      requires Ok() && Sorted(cr, Contents()) && height < TREE_MAX_DEPTH
      requires KeyOk(cr, KV(key, val)) && |key| <= KEY_MAX_SIZE && |val| <= VALUE_MAX_SIZE
      modifies this`root, this`store, this`dirty, this`reused, this`freed, this`depth, this`cacheStack, this`posStack,
        this`pos, this`frames, this`focus, this`height
      ensures Ok() && Sorted(cr, Contents())
      ensures inserted <==> forall a | a in old(Contents()) :: CollateSign(cr, a, key, val) != 0
      ensures cr == CrAnsiString ==> (inserted <==> forall a | a in old(Contents()) :: !SameText(a.key, key))
      ensures !inserted ==> Contents() == old(Contents()) && store == old(store)
      ensures inserted ==> r <= |old(Contents())| && Contents() == InsertAt(old(Contents()), r, KV(key, val))
    {
      hide ZipOk, TreeOk, PathOk, Flat, Before, After, ZipFlat, Shape, CollateSign, Sorted, Rank, Lo, InsertAt,
        InsertOk, Counted, Landed, KeyOk, QueryOk, SameText;
      ghost var c := Contents();
      EqualIsSameText(c, key, val);
      KeyIsQuery(cr, key, val);
      var found := SearchKeyInternal(key, val);
      if found {
        r := 0;
        assert c[CursorRank()] in c;
        return false, 0;
      }
      r := CursorRank();
      TreeFacts(Blocks(), frames, focus, height);
      var e := Entry(KV(key, val), false, 0, false);
      KeySize(cr, e);
      InsertLeafView(frames, focus, pos, e);
      LeafInsertOk(Blocks(), frames, focus, pos, e, height);
      InsertSorted(cr, c, r, e.kv);
      ghost var split := TreeInsertIe(e, Nil);
      inserted := true;
    }

    // ---- removing an entry of a leaf

    /** remove_ie on the cursor's block. */
    method RemoveIe()
      requires AtPath() && Held(Blocks(), focus.vbn, focus.cap, focus.es)
      modifies this`store, this`focus
      ensures AtPath() && focus == Deleted(old(focus), pos)
      ensures Blocks() == Rewritten(old(Blocks()), old(focus.vbn), Block(old(focus.cap), focus.es))
    {
      var b := store[cacheStack[depth]];
      store := store[cacheStack[depth] := b.(es := Delete(b.es, pos))];
      focus := Deleted(focus, pos);
    }

    /** The block under the cursor is freed (OFS_FREE_BLOCK, free_obj_cache), and the cursor goes to
        the entry that named it. */
    method FreeBlock()
      requires AtPath() && 0 < depth && frames[depth - 1].pos < |frames[depth - 1].kids|
      modifies this`store, this`dirty, this`freed, this`depth, this`cacheStack, this`posStack, this`pos, this`frames,
        this`focus
      ensures AtPath() && depth == old(depth) - 1
      ensures freed == old(freed) + [old(cacheStack[depth])] && cacheStack == old(cacheStack[..depth])
      ensures Blocks() == Freed(old(Blocks()), old(focus.vbn))
      ensures frames == old(frames)[..depth] && focus == Close(old(frames)[depth], Nil)
      ensures pos == old(frames)[depth].pos
    {
      freed := freed + [cacheStack[depth]];
      store := store - {cacheStack[depth]};
      dirty := dirty - {cacheStack[depth]};
      PopCacheStack(Nil);
    }

    /** make_ib_small on the root. */
    method MakeIbSmall()
      requires AtPath() && depth == 0 && Held(Blocks(), focus.vbn, focus.cap, focus.es)
      modifies this`store, this`focus, this`height, this`pos
      ensures AtPath() && height == 1 && pos == 0
      ensures focus == Node(old(focus.vbn), old(focus.cap), [EndEntry(false, 0)], [Nil])
      ensures Blocks() == Rewritten(old(Blocks()), focus.vbn, Block(focus.cap, focus.es))
    {
      store := store[root := store[root].(es := [EndEntry(false, 0)])];
      focus := Node(focus.vbn, focus.cap, [EndEntry(false, 0)], [Nil]);
      height := 1;
      pos := 0;
    }

    /** One round of check_removed_ib: the hollow block under the cursor is freed. */
    method FreeHollow()
      requires AtPath() && PathOk(Blocks(), frames, focus, height, -1, 0, multiset{}) && Clear()
      requires Counted(Blocks(), frames, focus, multiset{}) && Hollow(focus) && 0 < depth
      modifies this`store, this`dirty, this`freed, this`depth, this`cacheStack, this`posStack, this`pos, this`frames,
        this`focus
      ensures AtPath() && PathOk(Blocks(), frames, focus, height, -1, 0, multiset{}) && Clear()
      ensures Counted(Blocks(), frames, focus, multiset{}) && Contents() == old(Contents()) && depth == old(depth) - 1
      ensures freed == old(freed) + [old(cacheStack[depth])] && cacheStack == old(cacheStack[..depth])
      ensures frames == old(frames)[..depth] && focus == Close(old(frames)[depth], Nil) && pos == old(frames)[depth].pos
      ensures pos < |focus.es| == |focus.kids|
      ensures Held(Blocks(), focus.vbn, focus.cap, focus.es) && 0 < |focus.es| && (depth == 0 ==> focus.cap == ROOT_CAP)
      ensures if focus.es[0].end then Hollow(focus) else Gap(Blocks(), frames, focus, pos, height)
    {
      hide TreeOk, PathOk, ZipOk, Flat, Weave, Before, After, ZipFlat, FrameShape, Gap, CtxFoot, Foot, Shape, Counted;
      ghost var f := frames[depth - 1];
      FreeStep(Blocks(), frames, focus, height);
      PathHere();
      CountFreed(Blocks(), frames, focus);
      FreeBlock();
      PathHere();
      if !focus.es[0].end {
        GapStart(Blocks(), frames, f, height);
      }
    }

    /** The end of check_removed_ib at a root without entries. */
    method Collapse()
      requires AtPath() && PathOk(Blocks(), frames, focus, height, -1, 0, multiset{}) && Clear()
      requires Counted(Blocks(), frames, focus, multiset{}) && Hollow(focus) && depth == 0 && focus.cap == ROOT_CAP
      modifies this`store, this`focus, this`height, this`pos
      ensures Ok() && Contents() == old(Contents()) && height == 1 && pos == 0 && CursorRank() == 0
    {
      hide TreeOk, PathOk, ZipOk, Flat, Weave, Before, After, ZipFlat, CtxFoot, Foot, Shape, Counted, Lo, Rank;
      assert frames == [];
      MakeSmall(Blocks(), focus, height);
      RootDirty(Blocks(), frames, focus, height, multiset{});
      PathHere();
      CountSmall(Blocks(), focus, Block(focus.cap, [EndEntry(false, 0)]));
      MakeIbSmall();
      RootRank(focus, 0);
    }

    /** check_removed_ib: free the cursor's block if it has no entries left, and every block above it
        that has nothing but the freed child.  True when there is a parent to repair. */
    method CheckRemovedIb() returns (gap: bool)
      requires AtPath() && PathOk(Blocks(), frames, focus, height, -1, 0, multiset{}) && Clear()
      requires Counted(Blocks(), frames, focus, multiset{})
      requires if Hollow(focus) && 0 < depth then true else Ok() && Level() == 1
      modifies this`store, this`dirty, this`freed, this`depth, this`cacheStack, this`posStack, this`pos, this`frames,
        this`focus, this`height
      ensures AtPath() && Clear() && Contents() == old(Contents()) && disk == old(disk)
      ensures !gap ==> Ok() && (height == old(height) || height == 1)
      ensures gap ==> Gap(Blocks(), frames, focus, pos, height) && height == old(height)
      ensures Counted(Blocks(), frames, focus, multiset{})
      ensures depth <= old(depth) && freed == old(freed) + Upwards(old(cacheStack), depth)
      ensures !(old(Hollow(focus)) && 0 < old(depth)) ==>
                !gap && frames == old(frames) && focus == old(focus) && pos == old(pos)
      ensures old(Hollow(focus)) && 0 < old(depth) && !gap ==> Mended(old(frames)) == 0 == CursorRank() && pos == 0
      ensures gap ==>
                && old(Hollow(focus)) && 0 < old(depth)
                && Mended(frames + [OpenAt(focus, pos)]) == Mended(old(frames))
                    && Lo(frames, focus, pos) == |Before(old(frames))|
    {
      hide TreeOk, PathOk, ZipOk, Flat, Weave, Before, After, ZipFlat, FrameShape, Gap, CtxFoot, Foot, Shape, Counted,
        Upwards, Mended, Lo, Rank;
      UpwardsNone(cacheStack, depth);
      if Hollow(focus) && 0 < depth { PathHere(); } else { TreeFacts(Blocks(), frames, focus, height); }
      if !store[cacheStack[depth]].es[0].end || depth == 0 {
        return false;
      }
      ghost var c := Contents();
      while true
        invariant AtPath() && PathOk(Blocks(), frames, focus, height, -1, 0, multiset{}) && Clear()
        invariant Counted(Blocks(), frames, focus, multiset{})
        invariant depth <= old(depth) && cacheStack == old(cacheStack)[..depth + 1]
        invariant freed == old(freed) + Upwards(old(cacheStack), depth)
        invariant Hollow(focus) && 0 < depth && Contents() == c && height == old(height) && disk == old(disk)
        invariant Mended(frames) == Mended(old(frames)) && Before(frames) == Before(old(frames))
        decreases depth
      {
        UpwardsStep(old(cacheStack), depth - 1);
        ghost var fs := frames;
        FreeHollow();
        MendedStep(fs);
        if !store[cacheStack[depth]].es[0].end {
          BeforeOpen(frames, focus, pos);
          return true;
        }
        if depth == 0 {
          Collapse();
          return false;
        }
      }
    }

    /** In remove_leaf: take out the entry whose child was freed; if that is END, the entry before it,
        whose child END then takes over. */
    method TakeEntry() returns (e: Entry, last: bool)
      requires AtPath() && Held(Blocks(), focus.vbn, focus.cap, focus.es)
      requires 1 < |focus.es| && pos < |focus.es| && (focus.es[pos].end ==> 0 < pos)
      modifies this`store, this`pos, this`focus
      ensures AtPath() && focus == Repaired(old(focus), old(pos))
      ensures Blocks() == Rewritten(old(Blocks()), old(focus.vbn), Block(old(focus.cap), focus.es))
      ensures pos == Taken(old(focus), old(pos)) && last == old(focus).es[old(pos)].end
      ensures e == DelVbn(old(focus).es[pos])
    {
      var b := store[cacheStack[depth]];
      var es := b.es;
      last := es[pos].end;
      focus := Repaired(focus, pos);
      if last {
        es := SetVbn(es, pos, es[pos - 1].vbn);
        pos := pos - 1;
      }
      e := DelVbn(es[pos]);
      store := store[cacheStack[depth] := b.(es := Delete(es, pos))];
    }

    /** The parent of a freed chain of blocks gives up an entry, which has to go back to rank r. */
    method TakeSeparator() returns (e: Entry, last: bool)
      requires AtPath() && Clear() && Gap(Blocks(), frames, focus, pos, height)
          && Counted(Blocks(), frames, focus, multiset{})
      modifies this`root, this`store, this`dirty, this`reused, this`freed, this`cacheStack, this`frames, this`focus,
        this`pos
      ensures Ok() && pos < |focus.es| && EntryOk(e, false) && !e.end
      ensures var r := if last then CursorRank() else CursorLo();
              r <= |Contents()| && InsertAt(Contents(), r, e.kv) == old(Contents())
              && r == Lo(old(frames), old(focus), old(pos)) - if last then 1 else 0
      ensures SamePath(old(frames), frames) && Renumbered(Repaired(old(focus), old(pos)), focus)
          && pos == Taken(old(focus), old(pos))
      ensures old(pos) < |old(focus.es)| && last == old(focus.es)[old(pos)].end
      ensures pos < |old(focus.es)| && e == DelVbn(old(focus.es)[pos])
      ensures 1 < |old(focus.es)| == |old(focus.kids)| && old(focus.kids)[old(pos)] == Nil && !old(focus.es)[0].end
    {
      hide TreeOk, PathOk, ZipOk, Counted, Flat, Weave, Before, After, ZipFlat, Gap, CtxFoot, Foot, Shape, InsertAt,
        CtxShape, Progress, NoDup, Apart, Repaired, Taken, SetVbn;
      ghost var z, fs, p := focus, frames, pos;
      GapFacts(Blocks(), fs, z, p, height);
      RepairPath(Blocks(), fs, z, p, height);
      RepairView(fs, z, p);
      RepairedIs(z, p);
      CountRepaired(Blocks(), fs, z, p, Block(z.cap, Repaired(z, p).es));
      e, last := TakeEntry();
      ghost var y := focus;
      DirtyTree(multiset{});
      RepairDone(fs, y, frames, focus, pos, last);
      TreeIs(Blocks(), frames, focus, height);
    }

    /** get_current_ie, first part: down to a leaf, by first or by last entries. */
    method Descend(last: bool)
      requires Ok() && pos < |focus.es|
      modifies this`depth, this`cacheStack, this`posStack, this`pos, this`frames, this`focus
      ensures Ok() && Level() == 1 && pos < |focus.es| && Contents() == old(Contents())
      ensures if last then CursorRank() == old(CursorRank()) else CursorLo() == old(CursorLo())
      ensures Opened(old(frames), old(focus), old(pos), frames, focus)
      ensures frames + [OpenAt(focus, pos)] == old(frames) + Down(old(focus), old(pos), last)
      ensures old(Level()) == 1 ==> pos == old(pos) && frames == old(frames) && focus == old(focus)
      ensures old(Level()) > 1 ==> 0 < depth && pos == if last then |focus.es| - 1 else 0
    {
      hide TreeOk, PathOk, ZipOk, Counted, Flat, Weave, Before, After, ZipFlat, Shape, Rank, Lo, Opened, Down;
      TreeFacts(Blocks(), frames, focus, height);
      OpenedHere(frames, focus, pos);
      while store[cacheStack[depth]].es[pos].node
        invariant Ok() && pos < |focus.es| && Contents() == old(Contents())
        invariant Held(Blocks(), focus.vbn, focus.cap, focus.es) && focus.es[pos].node == (1 < Level())
        invariant 1 <= Level()
        invariant if last then CursorRank() == old(CursorRank()) else CursorLo() == old(CursorLo())
        invariant Opened(old(frames), old(focus), old(pos), frames, focus) && old(depth) <= depth
        invariant if depth == old(depth) then pos == old(pos) && frames == old(frames) && focus == old(focus)
                  else pos == if last then |focus.es| - 1 else 0
        invariant frames + Down(focus, pos, last) == old(frames) + Down(old(focus), old(pos), last)
        decreases Level()
      {
        ghost var fs, x, p := frames, focus, pos;
        TreeFacts(Blocks(), frames, focus, height);
        DownOne(frames, focus, pos, last);
        OpenedDown(old(frames), old(focus), old(pos), fs, x, p);
        PushCacheStack(last);
        TreeFacts(Blocks(), frames, focus, height);
        DownView(fs, x, p, focus);
      }
      DownLeaf(focus, pos, last);
    }

    /** remove_leaf: the entry under the cursor, in a leaf, is removed.  The cursor ends where Rest foretells. */
    method RemoveLeaf()
      requires Ok() && Level() == 1 && pos < |focus.es| - 1 && height < TREE_MAX_DEPTH
      modifies this`root, this`store, this`dirty, this`reused, this`freed, this`depth, this`cacheStack, this`posStack,
        this`pos, this`frames, this`focus, this`height
      ensures Ok() && pos < |focus.es|
      ensures old(CursorRank()) < |old(Contents())| && Contents() == DeleteAt(old(Contents()), old(CursorRank()))
      ensures height <= old(height) + 1
      ensures Ends(Rest(old(frames) + [OpenAt(old(focus), old(pos))]), CursorRank(), old(CursorRank()))
    {
      hide TreeOk, PathOk, ZipOk, Counted, Flat, Weave, Before, After, ZipFlat, Gap, CtxFoot, Foot, Shape, InsertAt,
        DeleteAt, CtxShape, Progress, NoDup, Apart, Rank, Lo,
        InsertOk, Landed, InsertFlat, SamePath, Rest, Ends, Mended, Deleted, Hollow, Repaired, Taken;
      ghost var fs0, x0, p0 := frames, focus, pos;
      TreeFacts(Blocks(), frames, focus, height);
      DeletedEntries(x0, p0);
      RemoveFromLeaf();
      ghost var fs, x := frames, focus;
      var gap := CheckRemovedIb();
      if !gap {
        TreeFacts(Blocks(), frames, focus, height);
        if !(Hollow(x) && 0 < |fs|) { LeafRank(frames, focus, pos); }
        RestKept(fs0, x0, p0, fs, x, CursorRank());
      } else {
        RestMended(fs0, x0, p0, fs, x);
        MendGap();
      }
    }

    /** The rest of remove_leaf: the parent of the freed blocks gives up an entry, which goes into a leaf. */
    method MendGap()
      requires AtPath() && Clear() && Gap(Blocks(), frames, focus, pos, height)
          && Counted(Blocks(), frames, focus, multiset{})
      requires height < TREE_MAX_DEPTH
      modifies this`root, this`store, this`dirty, this`reused, this`freed, this`depth, this`cacheStack, this`posStack,
        this`pos, this`frames, this`focus, this`height
      ensures Ok() && pos < |focus.es| && Contents() == old(Contents()) && height <= old(height) + 1
      ensures Ends(Mended(old(frames) + [OpenAt(old(focus), old(pos))]), CursorRank(),
          Lo(old(frames), old(focus), old(pos)))
    {
      hide TreeOk, PathOk, ZipOk, Counted, Flat, Weave, Before, After, ZipFlat, Gap, CtxFoot, Foot, Shape, InsertAt,
        CtxShape, Progress, NoDup, Apart, Rank, Lo,
        InsertOk, InsertFlat, SamePath, Mended, Rejoined, Down, Repaired, Taken, Landed;
      ghost var fs, z, p := frames, focus, pos;
      var e, last := TakeSeparator();
      ghost var gs, y := frames, focus;
      Descend(last);
      MendedMoved(fs, z, p, gs, y, frames + [OpenAt(focus, pos)]);
      TreeFacts(Blocks(), frames, focus, height);
      LeafRank(frames, focus, pos);
      InsertLeafView(frames, focus, pos, e);
      LeafInsertOk(Blocks(), frames, focus, pos, e, height);
      NilFacts(Blocks());
      ghost var hs, x, q, h := frames, focus, pos, height;
      ghost var split := TreeInsertIe(e, Nil);
      RejoinedLanded(hs, x, q, e, h, frames, focus, pos, height, split);
      LandedPos(hs, x, q, e, h, frames, focus, pos, height, split);
    }

    /** remove_leaf up to its first set_ib_dirty. */
    method RemoveFromLeaf()
      requires Ok() && Level() == 1 && pos < |focus.es| - 1
      modifies this`root, this`store, this`dirty, this`reused, this`freed, this`cacheStack, this`frames, this`focus
      ensures AtPath() && PathOk(Blocks(), frames, focus, height, -1, 0, multiset{}) && Clear()
      ensures Counted(Blocks(), frames, focus, multiset{})
      ensures SamePath(old(frames), frames) && Renumbered(Deleted(old(focus), old(pos)), focus)
      ensures old(CursorRank()) == Lo(old(frames), old(focus), old(pos)) && |old(focus.kids)| == |old(focus.es)|
      ensures if Hollow(focus) && 0 < depth then true else Ok() && Level() == 1
      ensures old(CursorRank()) < |old(Contents())| && Contents() == DeleteAt(old(Contents()), old(CursorRank()))
    {
      hide TreeOk, PathOk, ZipOk, Counted, Flat, Weave, Before, After, ZipFlat, CtxFoot, Foot, Shape, DeleteAt,
        CtxShape, Progress, NoDup, Apart, Rank;
      ghost var fs, x, p := frames, focus, pos;
      TreeFacts(Blocks(), fs, x, height);
      CursorView(fs, x, p);
      DeletedView(fs, x, p);
      NilFacts(Blocks());
      TakeOut(Blocks(), fs, x, p, height);
      CountDeleted(Blocks(), fs, x, p, Block(x.cap, Deleted(x, p).es));
      RemoveIe();
      ghost var w, y := Blocks(), focus;
      SetDirty(multiset{});
      ProgressView(w, fs, y, Blocks(), frames, focus, height, multiset{});
      ProgressSame(w, fs, y, Blocks(), frames, focus, multiset{});
      LeafRank(fs, x, p);
      RootDirty(Blocks(), frames, focus, height, multiset{});
      if |x.es| > 2 || depth == 0 {
        DirtyDone(w, fs, y, Blocks(), frames, focus, height, multiset{});
        TreeIs(Blocks(), frames, focus, height);
      }
    }

    lemma PathHere()
      requires AtPath() && PathOk(Blocks(), frames, focus, height, -1, 0, multiset{})
      ensures Held(Blocks(), focus.vbn, focus.cap, focus.es)
    {
    }

    // ---- walking

    /** pop_cache_stack on a well-formed tree. */
    method Pop()
      requires Ok() && 0 < depth
      modifies this`depth, this`cacheStack, this`posStack, this`pos, this`frames, this`focus
      ensures Ok() && depth == old(depth) - 1 && Contents() == old(Contents())
      ensures var f := old(frames)[depth];
              f.pos < |f.kids| == |f.es| && frames == old(frames)[..depth] && focus == Close(f, old(focus))
                  && pos == f.pos
      ensures pos < |focus.es|
    {
      hide TreeOk, PathOk, ZipOk, Counted, Flat, Weave, Before, After, ZipFlat, Shape, ZipFoot, Foot, CtxFoot,
        FrameFoot;
      TreeUp(Blocks(), frames, focus, height);
      CountSame(Blocks(), frames, focus, frames[..depth - 1], Close(frames[depth - 1], focus), multiset{});
      PopCacheStack(focus);
    }

    /** While the cursor is on END, go up (get_to_near_key, and the second part of get_current_ie):
        to the entry at the same rank, or to END of the root when there is none. */
    method SkipEnds() returns (found: bool)
      requires Ok() && pos < |focus.es|
      modifies this`depth, this`cacheStack, this`posStack, this`pos, this`frames, this`focus
      ensures Ok() && pos < |focus.es| && Contents() == old(Contents()) && CursorRank() == old(CursorRank())
      ensures found <==> old(CursorRank()) < |Contents()|
      ensures if found then pos < |focus.es| - 1 && Contents()[CursorRank()] == focus.es[pos].kv
              else depth == 0 && focus.es[pos].end && CursorRank() == |Contents()|
      ensures old(pos) < |old(focus.es)| - 1 ==>
                depth == old(depth) && pos == old(pos) && frames == old(frames) && focus == old(focus)
    {
      hide TreeOk, PathOk, ZipOk, Counted, Flat, Weave, Before, After, ZipFlat, Shape, Rank, Lo, Close;
      TreeFacts(Blocks(), frames, focus, height);
      while store[cacheStack[depth]].es[pos].end
        invariant Ok() && pos < |focus.es| && Contents() == old(Contents()) && CursorRank() == old(CursorRank())
        invariant Held(Blocks(), focus.vbn, focus.cap, focus.es)
        invariant old(pos) < |old(focus.es)| - 1 ==>
                  depth == old(depth) && pos == old(pos) && frames == old(frames) && focus == old(focus)
        decreases depth
      {
        TreeFacts(Blocks(), frames, focus, height);
        if depth == 0 {
          RootRank(focus, pos);
          return false;
        }
        ghost var fs, y, p := frames, focus, pos;
        Pop();
        PopEnd(fs, y, p);
        TreeFacts(Blocks(), frames, focus, height);
      }
      TreeFacts(Blocks(), frames, focus, height);
      CursorView(frames, focus, pos);
      return true;
    }

    /** get_current_ie, forwards: the first entry of the subtree left of the cursor's entry, or the
        next one in order if that subtree is empty. */
    method GetCurrentIe() returns (found: bool)
      requires Ok() && pos < |focus.es|
      modifies this`depth, this`cacheStack, this`posStack, this`pos, this`frames, this`focus
      ensures Ok() && pos < |focus.es| && Contents() == old(Contents()) && CursorRank() == old(CursorLo())
      ensures found <==> old(CursorLo()) < |Contents()|
      ensures if found then pos < |focus.es| - 1 && Contents()[CursorRank()] == focus.es[pos].kv
              else focus.es[pos].end && CursorRank() == |Contents()|
      ensures old(Level()) > 1 ==> found && Level() == 1 && Opened(old(frames), old(focus), old(pos), frames, focus)
      ensures old(Level()) > 1 ==> frames + [OpenAt(focus, pos)] == old(frames) + Down(old(focus), old(pos), false)
    {
      hide TreeOk, PathOk, ZipOk, Counted, Flat, Weave, Before, After, ZipFlat, Shape, Rank, Lo, Opened;
      Descend(false);
      TreeFacts(Blocks(), frames, focus, height);
      LeafRank(frames, focus, pos);
      found := SkipEnds();
    }

    /** walk_tree(INDEX_GET_FIRST) */
    method WalkFirst() returns (found: bool)
      requires Ok()
      modifies this`depth, this`cacheStack, this`posStack, this`pos, this`frames, this`focus
      ensures Ok() && pos < |focus.es| && Contents() == old(Contents())
      ensures found <==> Contents() != []
      ensures found ==> CursorRank() == 0 && pos < |focus.es| - 1 && Contents()[0] == focus.es[pos].kv
    {
      hide TreeOk, PathOk, ZipOk, Counted, Flat, Weave, Before, After, ZipFlat, Shape, Rank, Lo;
      ResetCacheStack(false);
      TreeFacts(Blocks(), frames, focus, height);
      RootRank(focus, |focus.es| - 1);
      found := GetCurrentIe();
    }

    /** walk_tree(0): the next entry; false at END. */
    method WalkNext() returns (found: bool)
      requires Ok() && pos < |focus.es|
      modifies this`depth, this`cacheStack, this`posStack, this`pos, this`frames, this`focus
      ensures Ok() && pos < |focus.es| && Contents() == old(Contents())
      ensures old(pos) == |old(focus.es)| - 1 ==> !found
      ensures old(pos) < |old(focus.es)| - 1 ==>
                && CursorRank() == old(CursorRank()) + 1 && (found <==> CursorRank() < |Contents()|)
                && (old(Level()) > 1 ==>
                          found && Level() == 1 && Opened(old(frames), old(focus), old(pos) + 1, frames, focus))
                && (old(Level()) > 1 ==>
                          frames + [OpenAt(focus, pos)] == old(frames) + Down(old(focus), old(pos) + 1, false))
      ensures found ==>
                CursorRank() < |Contents()| && pos < |focus.es| - 1 && Contents()[CursorRank()] == focus.es[pos].kv
    {
      hide TreeOk, PathOk, ZipOk, Counted, Flat, Weave, Before, After, ZipFlat, Shape, Rank, Lo, Opened;
      TreeFacts(Blocks(), frames, focus, height);
      // get_next_ie
      if store[cacheStack[depth]].es[pos].end {
        return false;
      }
      StepView(frames, focus, pos);
      pos := pos + 1;
      found := GetCurrentIe();
    }

    /** walk_tree(INDEX_GET_LAST) */
    method WalkLast() returns (found: bool)
      requires Ok()
      modifies this`depth, this`cacheStack, this`posStack, this`pos, this`frames, this`focus
      ensures Ok() && pos < |focus.es| && Contents() == old(Contents())
      ensures found <==> Contents() != []
      ensures found ==>
                CursorRank() == |Contents()| - 1 && pos < |focus.es| - 1 && Contents()[CursorRank()] == focus.es[pos].kv
    {
      hide TreeOk, PathOk, ZipOk, Counted, Flat, Weave, Before, After, ZipFlat, Shape, Rank, Lo, Opened, Down, LeftOf,
        RightOf, Plug;
      ResetCacheStack(true);
      TreeFacts(Blocks(), frames, focus, height);
      RootRank(focus, pos);
      Descend(true);
      TreeFacts(Blocks(), frames, focus, height);
      LeafRank(frames, focus, pos);
      // get_prev_ie, and in an empty root pop_cache_stack fails
      if pos == 0 {
        RootRank(focus, 0);
        return false;
      }
      pos := pos - 1;
      StepView(frames, focus, pos);
      CursorView(frames, focus, pos);
      return true;
    }

    /** walk_tree(INDEX_GET_PREV): the entry before; false if there is none, with the cursor on BEGIN
        of the root. */
    method WalkPrev() returns (found: bool)
      requires Ok() && pos < |focus.es|
      modifies this`depth, this`cacheStack, this`posStack, this`pos, this`frames, this`focus
      ensures Ok() && pos < |focus.es| && Contents() == old(Contents())
      ensures found <==> 0 < old(CursorRank())
      ensures found ==> CursorRank() == old(CursorRank()) - 1 < |Contents()| && pos < |focus.es| - 1
                        && Contents()[CursorRank()] == focus.es[pos].kv
    {
      hide TreeOk, PathOk, ZipOk, Counted, Flat, Weave, Before, After, ZipFlat, Shape, Rank, Lo, Close, RightOf,
        LeftOf, Own, Clear;
      ghost var r := CursorRank();
      TreeFacts(Blocks(), frames, focus, height);
      if store[cacheStack[depth]].es[pos].node {
        Descend(true);
        TreeFacts(Blocks(), frames, focus, height);
      }
      LeafRank(frames, focus, pos);
      // whether the cursor is on BEGIN of its block
      var begin := GetPrevIe();
      while begin
        invariant Ok() && pos < |focus.es| && Contents() == old(Contents())
        invariant begin ==> pos == 0 && CursorLo() == r
        invariant !begin ==> CursorRank() + 1 == r && !focus.es[pos].end
        decreases depth, begin
      {
        TreeFacts(Blocks(), frames, focus, height);
        if depth == 0 {
          RootRank(focus, |focus.es| - 1);
          return false;
        }
        ghost var fs, y := frames, focus;
        Pop();
        PopBegin(fs, y);
        begin := GetPrevIe();
      }
      TreeFacts(Blocks(), frames, focus, height);
      CursorView(frames, focus, pos);
      return true;
    }

    /** get_prev_ie; true when the cursor gets to BEGIN of its block. */
    method GetPrevIe() returns (begin: bool)
      requires Ok() && pos < |focus.es|
      modifies this`pos
      ensures Ok() && pos < |focus.es| && begin == (old(pos) == 0)
      ensures begin ==> pos == 0
      ensures !begin ==> pos == old(pos) - 1 && CursorRank() + 1 == old(CursorLo()) && !focus.es[pos].end
    {
      hide TreeOk, PathOk, ZipOk, Counted, Flat, Weave, Before, After, ZipFlat, Shape, Rank, Lo;
      TreeFacts(Blocks(), frames, focus, height);
      if pos == 0 {
        return true;
      }
      pos := pos - 1;
      StepView(frames, focus, pos);
      return false;
    }

    /** index_walk_all, with a call-back that notes the entries it is shown. */
    method WalkAll(reverse: bool) returns (seen: seq<KV>)
      requires Ok()
      modifies this`depth, this`cacheStack, this`posStack, this`pos, this`frames, this`focus
      ensures Ok() && Contents() == old(Contents())
      ensures seen == if reverse then Reversed(Contents()) else Contents()
    {
      hide TreeOk, PathOk, ZipOk, Counted, Flat, Weave, Before, After, ZipFlat, Shape, Rank, Lo, Reversed, Seen;
      ghost var c := Contents();
      SeenEnds(c, reverse);
      seen := [];
      var found;
      if reverse {
        found := WalkLast();
      } else {
        found := WalkFirst();
      }
      while found
        invariant Ok() && pos < |focus.es| && Contents() == c
        invariant found ==> CursorRank() < |c| && pos < |focus.es| - 1 && c[CursorRank()] == focus.es[pos].kv
        invariant seen == Seen(c, if found then CursorRank() else if reverse then -1 else |c|, reverse)
        decreases found, if reverse then CursorRank() else |c| - CursorRank()
      {
        TreeFacts(Blocks(), frames, focus, height);
        SeenStep(c, CursorRank(), reverse);
        seen := seen + [store[cacheStack[depth]].es[pos].kv];
        if reverse {
          found := WalkPrev();
        } else {
          found := WalkNext();
        }
      }
    }

    // ---- removing any entry

    /** In remove_node: walk to the successor, note it, and come back to the entry after the one to
        remove. */
    method Successor() returns (s: Entry)
      requires Ok() && 1 < Level() && pos < |focus.es| - 1
      modifies this`depth, this`cacheStack, this`posStack, this`pos, this`frames, this`focus
      ensures Ok() && frames == old(frames) && focus == old(focus) && pos == old(pos) + 1
      ensures EntryOk(s, false) && !s.end
      ensures old(CursorRank()) + 1 < |Contents()| && Contents()[old(CursorRank()) + 1] == s.kv
    {
      hide TreeOk, PathOk, ZipOk, Counted, Flat, Weave, Before, After, ZipFlat, Shape, Rank, Lo, Opened, Close;
      ghost var fs, x, p := frames, focus, pos;
      var d := depth;
      var found := WalkNext();
      TreeFacts(Blocks(), frames, focus, height);
      s := store[cacheStack[depth]].es[pos];
      OpenedDepth(fs, x, p + 1, frames, focus);
      while depth > d
        invariant Ok() && d <= depth && Opened(fs, x, p + 1, frames, focus) && Contents() == old(Contents())
        invariant depth == d ==> frames == fs && focus == x && pos == p + 1
        decreases depth
      {
        OpenedUp(fs, x, p + 1, frames, focus);
        OpenedDepth(fs, x, p + 1, frames, focus);
        Pop();
        OpenedDepth(fs, x, p + 1, frames, focus);
      }
    }

    /** remove_node: the successor takes the place of the entry under the cursor, and the entry after
        it in order is removed from its leaf.  That is rank j, which is the successor's own exactly
        when no block had to be split. */
    method RemoveNode() returns (ghost j: nat)
      requires Ok() && 1 < Level() && pos < |focus.es| - 1 && height + 1 < TREE_MAX_DEPTH
      modifies this`root, this`store, this`dirty, this`reused, this`freed, this`depth, this`cacheStack, this`posStack,
        this`pos, this`frames, this`focus, this`height
      ensures Ok()
      ensures var c, i := old(Contents()), old(CursorRank());
              && i + 1 < |c| && j < |c| && Contents() == CopiedDropped(c, i, j)
              && if SwapSplits(old(focus.es), old(pos), c[i + 1]) then j < i || i + 1 < j
                 else j == i + 1 && Ends(RestOf(old(frames), old(focus), old(pos)), CursorRank(), i + 1)
      ensures pos < |focus.es|
    {
      hide TreeOk, PathOk, ZipOk, Counted, Flat, Weave, Before, After, ZipFlat, CtxFoot, Foot, Shape, DeleteAt,
        CtxShape, Progress, NoDup, Apart, Rank, Lo,
        SwapSplits, Opened, Replaced, Down, Rest, Ends, RestOf;
      ghost var fs, x, p, h := frames, focus, pos, height;
      TreeFacts(Blocks(), fs, x, h);
      PutSuccessor();
      j := CursorRank() + 1;
      ghost var gs, y := frames, focus;
      if Replaced(fs, x, p, gs, y) { ReplacedRest(fs, x, p, gs, y, h - |fs|, fs == []); }
      var found := WalkNext();
      RemoveLeaf();
    }

    /** remove_node up to its second walk_tree: the entry under the cursor is replaced by its successor. */
    method PutSuccessor()
      requires Ok() && 1 < Level() && pos < |focus.es| - 1 && height + 1 < TREE_MAX_DEPTH
      modifies this`root, this`store, this`dirty, this`reused, this`freed, this`depth, this`cacheStack, this`posStack,
        this`pos, this`frames, this`focus, this`height
      ensures Ok() && 1 < Level() && pos < |focus.es| - 1 && height <= old(height) + 1
      ensures var c, i, r := old(Contents()), old(CursorRank()), CursorRank();
              && i + 1 < |c| && Contents() == c[i := c[i + 1]]
              && if SwapSplits(old(focus.es), old(pos), c[i + 1]) then r + 1 < i || i + 1 < r
                 else r == i && Replaced(old(frames), old(focus), old(pos), frames, focus) && pos == old(pos)
    {
      hide TreeOk, PathOk, ZipOk, Counted, Flat, Weave, Before, After, ZipFlat, CtxFoot, Foot, Shape, CtxShape,
        Progress, NoDup, Apart, Rank, Lo, Idx, Hi,
        InsertOk, InsertFlat, Landed, Splits, SwapSplits, Opened, RealSize, Deleted, SamePath, Replaced, Down;
      ghost var fs, x, p, c, h := frames, focus, pos, Contents(), height;
      TreeFacts(Blocks(), fs, x, height);
      var vbn := store[cacheStack[depth]].es[pos].vbn;
      var s := Successor();
      pos := pos - 1;
      CutNode(s);
      s := AddVbn(s, vbn);
      SwapView(fs, x, p, s, frames, focus);
      ghost var gs, y := frames, focus;
      ghost var split := TreeInsertIe(s, x.kids[p]);
      SwapLanded(fs, x, p, s, gs, y, h, frames, focus, pos, height, split);
      SuccessorIs(fs, x, p, h - |fs|, fs == []);
      if !split { SwapReplaced(fs, x, p, s, gs, y, h, frames, focus, pos, height, split, h - |fs|, fs == []); }
    }

    /** In remove_node: take the entry out, its child aside, and set_ib_dirty. */
    method CutNode(ghost s: Entry)
      requires Ok() && 1 < Level() && pos < |focus.es| - 1 && EntryOk(s, false) && !s.end
      modifies this`root, this`store, this`dirty, this`reused, this`freed, this`cacheStack, this`frames, this`focus
      ensures |old(focus.kids)| == |old(focus.es)|
      ensures Inserting(AddVbn(s, old(focus.es[pos].vbn)), old(focus.kids[pos]))
      ensures Renumbered(Deleted(old(focus), pos), focus) && Before(frames) == Before(old(frames))
          && After(frames) == After(old(frames))
      ensures SamePath(old(frames), frames)
    {
      hide TreeOk, PathOk, ZipOk, Counted, Flat, Weave, Before, After, ZipFlat, CtxFoot, Foot, Shape, CtxShape,
        Progress, NoDup, Apart, InsertOk, SamePath;
      ghost var fs, x, p := frames, focus, pos;
      TreeFacts(Blocks(), fs, x, height);
      TakeOut(Blocks(), fs, x, p, height);
      CountDeleted(Blocks(), fs, x, p, Block(x.cap, Deleted(x, p).es));
      RemoveIe();
      ghost var w := Blocks();
      PathKids(w, fs, focus, height, depth, Foot(x.kids[p]));
      DirtyTree(Foot(x.kids[p]));
      SwapStart(w, fs, x, p, s, height, Blocks(), frames, focus);
    }

    /** tree_remove_ie: false on END (INDEX_ERR_END_ENTRY). */
    method TreeRemoveIe() returns (removed: bool, ghost j: nat)
      requires Ok() && pos < |focus.es| && height + 1 < TREE_MAX_DEPTH
      modifies this`root, this`store, this`dirty, this`reused, this`freed, this`depth, this`cacheStack, this`posStack,
        this`pos, this`frames, this`focus, this`height
      ensures Ok() && (removed <==> old(pos) < |old(focus.es)| - 1)
      ensures !removed ==> Contents() == old(Contents()) && store == old(store)
      ensures var c, i := old(Contents()), old(CursorRank());
              removed ==>
                && i < |c|
                && if Overfull(old(TheTree()), c, i)
                   then i + 1 < |c| && j < |c| && (j < i || i + 1 < j) && Contents() == CopiedDropped(c, i, j)
                   else Contents() == DeleteAt(c, i) && Ends(RestAt(old(TheTree()), i), CursorRank(), i)
      ensures pos < |focus.es|
    {
      hide TreeOk, PathOk, ZipOk, Counted, Flat, Weave, Before, After, ZipFlat, CtxFoot, Foot, Shape, DeleteAt,
        CtxShape, NoDup, Apart, Rank, Lo,
        SwapSplits, Plug, Home, Locate, CopiedDropped, RestAt, Rest, Down;
      TreeFacts(Blocks(), frames, focus, height);
      j := 0;
      if store[cacheStack[depth]].es[pos].end {
        return false, j;
      }
      CursorView(frames, focus, pos);
      HomeOfCursor(Blocks(), frames, focus, height, pos);
      RestOfCursor(Blocks(), frames, focus, height, pos);
      if store[cacheStack[depth]].es[pos].node {
        ghost var c, i := Contents(), CursorRank();
        j := RemoveNode();
        SwapRight(c, i);
      } else {
        RemoveLeaf();
      }
      return true, j;
    }

    /** index_remove_key: false when there is no such key (INDEX_ERR_KEY_NOT_FOUND).  Exactly the key
        is removed, unless its block would be overfull with the successor in its place. */
    method RemoveKey(key: seq<u8>) returns (removed: bool, ghost r: nat, ghost j: nat)
      requires Ok() && Sorted(cr, Contents()) && QueryOk(cr, key, []) && height + 1 < TREE_MAX_DEPTH
      modifies this`root, this`store, this`dirty, this`reused, this`freed, this`depth, this`cacheStack, this`posStack,
        this`pos, this`frames, this`focus, this`height
      ensures Ok() && (removed <==> exists a :: a in old(Contents()) && CollateSign(cr, a, key, []) == 0)
      ensures cr == CrAnsiString ==> (removed <==> exists a :: a in old(Contents()) && SameText(a.key, key))
      ensures !removed ==> Contents() == old(Contents()) && store == old(store)
      ensures removed ==>
                && r < |old(Contents())| && CollateSign(cr, old(Contents())[r], key, []) == 0
                && (Contents() == DeleteAt(old(Contents()), r) <==> !Overfull(old(TheTree()), old(Contents()), r))
                && (!Overfull(old(TheTree()), old(Contents()), r) ==> Sorted(cr, Contents()))
                && (Overfull(old(TheTree()), old(Contents()), r) ==>
                      && r + 1 < |old(Contents())| && j < |old(Contents())| && (j < r || r + 1 < j)
                      && Contents() == CopiedDropped(old(Contents()), r, j))
    {
      hide TreeOk, PathOk, ZipOk, Counted, Flat, Weave, Before, After, ZipFlat, CtxFoot, Foot, Shape, DeleteAt,
        CtxShape, NoDup, Apart, Rank, Lo,
        SwapSplits, Plug, Home, CopiedDropped, CollateSign, Sorted, QueryOk, Overfull, SameText;
      ghost var c, t := Contents(), TheTree();
      EqualIsSameText(c, key, []);
      r, j := 0, 0;
      var found := SearchKeyInternal(key, []);
      if !found {
        return false, r, j;
      }
      r := CursorRank();
      assert c[r] in c;
      removed, j := TreeRemoveIe();
      if Overfull(t, c, r) {
        SwapWrong(cr, c, r, j);
      } else {
        DeleteSorted(cr, c, r);
      }
    }

    /** index_search_key: to an entry that compares equal, or else to the least greater one, or to END
        of the root. */
    method SearchKey(key: seq<u8>, val: seq<u8>) returns (found: bool)
      requires Ok() && Sorted(cr, Contents()) && QueryOk(cr, key, val)
      modifies this`depth, this`cacheStack, this`posStack, this`pos, this`frames, this`focus
      ensures Ok() && Contents() == old(Contents()) && pos < |focus.es| && store == old(store)
      ensures found <==> exists a :: a in Contents() && CollateSign(cr, a, key, val) == 0
      ensures cr == CrAnsiString ==> (found <==> exists a :: a in Contents() && SameText(a.key, key))
      ensures var c, r := Contents(), CursorRank();
              && r <= |c|
              && (found ==> r < |c| && CollateSign(cr, c[r], key, val) == 0)
              && (found ==> forall i | 0 <= i < |c| && CollateSign(cr, c[i], key, val) == 0 ::
                    Sooner(old(TheTree()), r, i))
              && (!found ==> forall i | 0 <= i < r :: CollateSign(cr, c[i], key, val) < 0)
              && (!found ==> forall i | r <= i < |c| :: CollateSign(cr, c[i], key, val) > 0)
              && if r < |c| then pos < |focus.es| - 1 && focus.es[pos].kv == c[r] else depth == 0 && focus.es[pos].end
    {
      hide TreeOk, PathOk, ZipOk, Counted, Flat, Weave, Before, After, ZipFlat, CtxFoot, Foot, Shape, CtxShape, NoDup,
        Apart, Rank, Lo,
        CollateSign, Sorted, QueryOk, Plug, Sooner, SameText;
      EqualIsSameText(Contents(), key, val);
      found := SearchKeyInternal(key, val);
      TreeFacts(Blocks(), frames, focus, height);
      CursorView(frames, focus, pos);
      if !found {
        var near := SkipEnds();
      } else {
        assert Contents()[CursorRank()] in Contents();
      }
    }

    // ---- committing

    /** The super block names the committed tree, and that tree is on disk. */
    ghost predicate Saved()
      reads this
    {
      && (forall v :: v in Foot(saved) <==> v in live)
      && (saved.Node? ==>
            && savedRoot == saved.vbn && OnDisk(disk, saved)
            && 1 <= savedHeight <= TREE_MAX_DEPTH && Shape(saved, savedHeight, true) && NoDup(Foot(saved)))
    }

    /** flush_container_dirty_cache: one dirty block is written. */
    method FlushDirtyCache(vbn: Vbn)
      requires vbn in dirty && vbn in store
      modifies this`disk, this`dirty, this`log
      ensures disk == old(disk)[vbn := store[vbn]] && dirty == old(dirty) - {vbn}
      ensures log == old(log) + [BlockWrite(vbn, store[vbn])]
    {
      disk, log := disk[vbn := store[vbn]], log + [BlockWrite(vbn, store[vbn])];
      dirty := dirty - {vbn};
    }

    /** The first part of flush_container_cache: the dirty blocks s are written, in some order; all of them,
        unless the system stops. */
    method FlushBlocks(s: set<Vbn>) returns (ghost w: seq<Write>)
      requires s <= dirty && forall v | v in s :: v in store
      modifies this`disk, this`dirty, this`log
      ensures dirty == old(dirty) - s && disk == Overlay(old(disk), store, s)
      ensures log == old(log) + w && Lists(w, store, s)
    {
      hide Overlay, Lists;
      var todo := s;
      w := [];
      OverlayNone(disk, store);
      ListsNone(store);
      assert s - todo == {};
      while todo != {}
        invariant todo <= s && dirty == old(dirty) - (s - todo)
        invariant disk == Overlay(old(disk), store, s - todo)
        invariant log == old(log) + w && Lists(w, store, s - todo)
        decreases |todo|
      {
        var vbn :| vbn in todo;
        OverlayStep(old(disk), store, s - todo, vbn);
        ListsMore(w, store, s - todo, vbn);
        FlushDirtyCache(vbn);
        w := w + [BlockWrite(vbn, store[vbn])];
        assert s - (todo - {vbn}) == s - todo + {vbn};
        todo := todo - {vbn};
      }
      assert s - todo == s;
    }

    /** Unless one of its blocks was handed out again, no dirty block overwrites the committed tree. */
    lemma NoneReused()
      requires Clear() && Saved()
      ensures forall s | s <= dirty && !reused :: Harmless(disk, store, s, saved)
    {
    }

    /** ofs_update_super_block, with the root number noted by validate_obj_inode. */
    method UpdateSuperBlock()
      modifies this`savedRoot, this`saved, this`savedHeight, this`live, this`reused, this`log
      ensures savedRoot == root && saved == TheTree() && savedHeight == height && !reused
      ensures forall v :: v in Foot(saved) <==> v in live
      ensures log == old(log) + [RootWrite(root)]
    {
      savedRoot, log := root, log + [RootWrite(root)];
      saved, savedHeight, reused := TheTree(), height, false;
      live := set v | v in Foot(TheTree());
    }

    /** flush_container_cache: all dirty blocks are written. */
    method FlushTree() returns (ghost w: seq<Write>)
      requires Ok() && Saved() && depth == 0
      modifies this`disk, this`dirty, this`log
      ensures dirty == {} && OnDisk(disk, focus) && Shape(focus, height, true) && NoDup(Foot(focus)) && 1 <= height
      ensures AtPath() && TreeOk(Blocks(), frames, focus, height) && Counted(Blocks(), frames, focus, multiset{})
      ensures !reused && saved.Node? ==> Saved()
      ensures log == old(log) + w && Lists(w, store, old(dirty)) && disk == Overlay(old(disk), store, old(dirty))
    {
      hide TreeOk, ZipOk, Counted, OnDisk, Shape, Foot, Flat, Holds, Load, Plug, ZipFlat, NoDup, Overlay, Harmless,
        Lists;
      ghost var b := Blocks();
      DirtyStored(b, frames, focus, height);
      NoneReused();
      if saved.Node? { StopPoint(disk, store, dirty, saved, savedHeight); }
      w := FlushBlocks(dirty);
      OverlayAll(b.disk, b.store, b.dirty);
      assert b.dirty <= b.dirty && frames == [];
      FlushedTree(b, Blocks(), focus, height);
      CountStore(b, Blocks(), [], focus, multiset{});
    }

    /** commit_container_modification: all dirty blocks are written, each once, and then, if the root moved, the
        super block.  A stop between any two of these writes leaves the old tree readable, exactly when the blocks
        written by then did it no harm. */
    method Commit() returns (ghost w: seq<Write>)
      requires Ok() && Saved() && height <= TREE_MAX_DEPTH
      modifies this`disk, this`dirty, this`savedRoot, this`saved, this`savedHeight, this`live, this`reused, this`freed,
        this`log, this`depth, this`cacheStack, this`posStack, this`pos, this`frames, this`focus
      ensures Ok() && Saved() && dirty == {} && !reused
      ensures saved == TheTree() == old(TheTree()) && Flat(saved) == Contents() == old(Contents())
      ensures log == old(log) + w && Replay(Durable(old(disk), old(savedRoot)), w) == Durable(disk, savedRoot)
      ensures if w == [] then old(dirty) == {} && savedRoot == old(savedRoot)
              else Lists(w[..|w| - 1], store, old(dirty)) && w[|w| - 1] == RootWrite(root)
      ensures Interruptible(Durable(old(disk), old(savedRoot)), w, store, old(saved))
    {
      hide TreeOk, ZipOk, Counted, OnDisk, Shape, Foot, Flat, Holds, Load, Plug, ZipFlat, NoDup, Overlay, Harmless,
        Lists, Replay, Interruptible, Touched;
      ResetCacheStack(false);
      w := CommitAtRoot();
    }

    /** The same, with the cursor on the root. */
    method CommitAtRoot() returns (ghost w: seq<Write>)
      requires Ok() && Saved() && height <= TREE_MAX_DEPTH && depth == 0
      modifies this`disk, this`dirty, this`savedRoot, this`saved, this`savedHeight, this`live, this`reused, this`log
      ensures Ok() && Saved() && dirty == {} && !reused && saved == TheTree() && Flat(saved) == Contents()
      ensures log == old(log) + w && Replay(Durable(old(disk), old(savedRoot)), w) == Durable(disk, savedRoot)
      ensures if w == [] then old(dirty) == {} && savedRoot == old(savedRoot)
              else Lists(w[..|w| - 1], store, old(dirty)) && w[|w| - 1] == RootWrite(root)
      ensures Interruptible(Durable(old(disk), old(savedRoot)), w, store, old(saved))
    {
      hide TreeOk, ZipOk, Counted, OnDisk, Shape, Foot, Flat, Holds, Load, Plug, ZipFlat, NoDup, Overlay, Harmless,
        Lists, Replay, Interruptible, Touched, AtPath, Clear, Saved;
      ghost var d, was, h, s := Durable(disk, savedRoot), saved, savedHeight, dirty;
      var moved := root in dirty;
      if !moved { CleanRoot(); }
      SavedRoot();
      w := FlushTree();
      CommitWrites(d, w, store, s, root, was, h);
      Settle(moved);
      if moved { w := w + [RootWrite(root)]; }
    }

    /** The rest of commit_container_modification: the super block, if the root moved. */
    method Settle(moved: bool)
      requires AtPath() && depth == 0 && TreeOk(Blocks(), frames, focus, height) && dirty == {}
      requires Counted(Blocks(), frames, focus, multiset{})
      requires OnDisk(disk, focus) && Shape(focus, height, true) && NoDup(Foot(focus)) && 1 <= height <= TREE_MAX_DEPTH
      requires !moved ==> Saved() && saved.Node? && savedRoot == root && !reused
      modifies this`savedRoot, this`saved, this`savedHeight, this`live, this`reused, this`log
      ensures Ok() && Saved() && !reused && saved == TheTree() && savedRoot == root && Flat(saved) == Contents()
      ensures log == old(log) + if moved then [RootWrite(root)] else []
    {
      hide TreeOk, ZipOk, Counted, OnDisk, Shape, Foot, Flat, Holds, Load, Plug, ZipFlat, NoDup;
      assert frames == [];
      TopTree(focus);
      TopFlat(focus);
      if moved {
        UpdateSuperBlock();
      } else {
        LoadOnDisk(disk, focus, height, true, TREE_MAX_DEPTH);
        LoadOnDisk(disk, saved, savedHeight, true, TREE_MAX_DEPTH);
      }
    }

    /** When the root is clean, every block is. */
    lemma CleanRoot()
      requires Ok() && depth == 0 && root !in dirty
      ensures dirty == {}
    {
      hide TreeOk, ZipOk, Counted, Foot, CtxFoot, Plug, Recorded, Holds;
      StoredIsOwned();
      DirtyStored(Blocks(), frames, focus, height);
      TreeFacts(Blocks(), frames, focus, height);
      TopTree(focus);
      assert frames == [];
      TreeRoot(Blocks(), focus, height);
      forall v | v in dirty ensures false {
        CleanTree(Blocks(), focus, v);
      }
    }

    lemma SavedRoot()
      requires Saved()
      ensures saved.Node? ==>
                && savedRoot == RootVbn(saved) && OnDisk(disk, saved)
                && 1 <= savedHeight <= TREE_MAX_DEPTH && Shape(saved, savedHeight, true)
    {
    }

    /** The object is opened anew: nothing is cached, and the tree is read from disk as needed. */
    method Reopen()
      requires Saved() && saved.Node?
      modifies this
      ensures Ok() && Saved() && TheTree() == saved && Contents() == Flat(saved)
      ensures disk == old(disk) && saved == old(saved) && live == old(live) && !reused
          && height == savedHeight == old(savedHeight)
      ensures depth == pos == 0 && focus == saved && wish == old(wish) && dirty == {} && store == Cached(disk, saved)
    {
      hide TreeOk, ZipOk, Counted, OnDisk, Shape, Foot, Flat, Holds, Load, Cached, Plug, ZipFlat, NoDup, ZipFoot,
        CtxFoot, Before, After;
      LoadOnDisk(disk, saved, savedHeight, true, TREE_MAX_DEPTH);
      CachedOk(disk, saved, savedHeight);
      CountCached(disk, saved);
      AtRoot();
    }

    /** The root is read from disk, and the cursor is on it. */
    method AtRoot()
      requires Load(disk, savedRoot, TREE_MAX_DEPTH) == saved
      modifies this`root, this`store, this`dirty, this`reused, this`depth, this`cacheStack, this`posStack, this`pos,
        this`frames, this`focus, this`height
      ensures store == Cached(disk, saved) && dirty == {} && root == savedRoot && frames == [] && focus == saved
          && !reused
      ensures height == savedHeight && depth == pos == 0 && cacheStack == [root] && posStack == []
    {
      hide Cached, Load;
      ReadRoot();
      depth, pos, cacheStack, posStack := 0, 0, [root], [];
    }

    method ReadRoot()
      requires Load(disk, savedRoot, TREE_MAX_DEPTH) == saved
      modifies this`root, this`store, this`dirty, this`reused, this`frames, this`focus, this`height
      ensures store == Cached(disk, saved) && dirty == {} && root == savedRoot && frames == [] && focus == saved
          && !reused
      ensures height == savedHeight
    {
      hide Cached, Load;
      var t := Load(disk, savedRoot, TREE_MAX_DEPTH);
      root := savedRoot;
      store := Cached(disk, t);
      dirty := {};
      height, frames, focus, reused := savedHeight, [], t, false;
    }

    /** The system stops in a commit when the dirty blocks s were written.  The committed tree can be read
        exactly when none of them overwrote one of its blocks with other contents. */
    method StopInCommit(s: set<Vbn>)
      requires Ok() && Saved() && saved.Node? && s <= dirty
      modifies this`disk, this`dirty, this`log
      ensures disk == Overlay(old(disk), store, s)
      ensures Saved() <==> Harmless(old(disk), store, s, saved)
      ensures Load(disk, savedRoot, TREE_MAX_DEPTH) == saved <==> Harmless(old(disk), store, s, saved)
      ensures !reused ==> Harmless(old(disk), store, s, saved)
    {
      hide TreeOk, ZipOk, OnDisk, Shape, Foot, Overlay, Load, Harmless;
      DirtyStored(Blocks(), frames, focus, height);
      NoneReused();
      StopPoint(disk, store, s, saved, savedHeight);
      ghost var w := FlushBlocks(s);
    }

    /** Every moment at which a commit may stop leaves the committed tree readable, exactly when no dirty
        block overwrites one of its blocks with other contents. */
    lemma CommitMayStop()
      requires Ok() && Saved() && saved.Node?
      ensures (forall s | s <= dirty :: Load(Overlay(disk, store, s), savedRoot, TREE_MAX_DEPTH) == saved)
          <==> Harmless(disk, store, dirty, saved)
      ensures !reused ==> Harmless(disk, store, dirty, saved)
    {
      hide TreeOk, ZipOk, OnDisk, Shape, Foot, Overlay, Load, Harmless;
      NoneReused();
      assert dirty <= dirty;
      SafeToWrite(disk, store, dirty, saved, savedHeight);
    }

    /** The system stops in a commit and is started again: the tree is the last committed one, unless a
        block written overwrote one of its blocks with other contents. */
    method CrashInCommit(s: set<Vbn>)
      requires Ok() && Saved() && saved.Node? && s <= dirty && Harmless(disk, store, s, saved)
      modifies this
      ensures Ok() && Saved() && TheTree() == saved == old(saved) && Contents() == Flat(old(saved))
    {
      hide TreeOk, ZipOk, OnDisk, Shape, Foot, Overlay, Load, Harmless, Flat;
      StopInCommit(s);
      Reopen();
    }
  }

  lemma {:induction false} FreshExists(s: set<Vbn>)
    ensures exists v: Vbn :: v !in s && v != 0
  {
    var b := Above(s);
    assert b !in s;
  }

  ghost function Above(s: set<Vbn>): (b: Vbn)
    ensures b != 0 && forall v | v in s :: v < b
  {
    if s == {} then 1
    else
      var v :| v in s;
      assert s == s - {v} + {v};
      var b := Above(s - {v});
      if v < b then b else v + 1
  }
}
