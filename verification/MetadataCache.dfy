/** The block cache of a container: entries in two indices, and how they reach the disk. */
module MetadataCache {
  import opened IndexLayout

  type Data = seq<u8>

  datatype State = Empty | Clean | Dirty

  /** ofs_block_cache_t.  `flush` is the status bit set when the object is released with the block dirty. */
  class BlockCache {
    var vbn: Vbn
    var state: State
    var flush: bool
    var ib: Data

    constructor (vbn: Vbn)
      ensures TheCell() == Cell(vbn, Empty, false, [])
    {
      this.vbn, state, flush, ib := vbn, Empty, false, [];
    }

    function TheCell(): Cell
      reads this
    {
      Cell(vbn, state, flush, ib)
    }
  }

  datatype Cell = Cell(vbn: Vbn, state: State, flush: bool, ib: Data)

  type Index = map<Vbn, BlockCache>

  /** The state of the cache: the entries of ct->metadata_cache and what they record, the entries of
      obj_info->caches of every object, and the disk. */
  datatype Image = Image(index: Index, cells: map<Vbn, Cell>, objects: map<nat, Index>, disk: map<Vbn, Data>)

  /** An entry is found under its own block number; what an object has is in the container's index under
      the same number, and no other object has it; a clean entry equals its disk copy. */
  ghost predicate Coherent(s: Image) {
    && s.cells.Keys == s.index.Keys
    && CellsOk(s.cells, s.disk)
    && AllShared(s.objects, s.index)
    && OneOwner(s.objects)
  }

  ghost predicate CellsOk(cells: map<Vbn, Cell>, disk: map<Vbn, Data>) {
    forall v | v in cells :: CellOk(cells[v], v, disk)
  }

  ghost predicate AllShared(objects: map<nat, Index>, index: Index) {
    forall o | o in objects :: Shared(objects[o], index)
  }

  ghost predicate OneOwner(objects: map<nat, Index>) {
    forall o, p, v | o in objects && p in objects && v in objects[o] && v in objects[p] :: o == p
  }

  predicate CellOk(c: Cell, v: Vbn, disk: map<Vbn, Data>) {
    && c.vbn == v
    && (c.state == Clean ==> v in disk && disk[v] == c.ib && !c.flush)
    && (c.flush ==> c.state == Dirty)
  }

  ghost predicate Shared(m: Index, index: Index) { forall v | v in m :: v in index && m[v] == index[v] }

  /** Entries waiting to be written for a released object belong to no object. */
  ghost predicate Parted(s: Image) {
    forall o, v | o in s.objects && v in s.objects[o] && v in s.cells :: !s.cells[v].flush
  }

  /** What a reader sees at block v: the cached contents if there are any, else what is on disk. */
  function Seen(s: Image, v: Vbn): (b: Option)
  {
    if v in s.cells && s.cells[v].state != Empty then Some(s.cells[v].ib)
    else if v in s.disk then Some(s.disk[v])
    else None
  }

  datatype Option = None | Some(data: Data)

  /** Nothing changes for a reader. */
  ghost predicate SameView(s: Image, t: Image) { forall v :: Seen(t, v) == Seen(s, v) }

  /** All entries but those of the blocks vs are as they were, in the container and in every object. */
  ghost predicate SameElse(s: Image, t: Image, vs: set<Vbn>) {
    && t.objects.Keys == s.objects.Keys
    && (forall w | w !in vs :: w in t.index <==> w in s.index)
    && (forall w | w !in vs && w in s.index && w in t.index :: t.index[w] == s.index[w])
    && (forall w | w !in vs :: w in t.cells <==> w in s.cells)
    && (forall w | w !in vs && w in s.cells && w in t.cells :: t.cells[w] == s.cells[w])
    && forall p | p in s.objects && p in t.objects :: SameIndex(s.objects[p], t.objects[p], vs)
  }

  ghost predicate SameIndex(m: Index, n: Index, vs: set<Vbn>) {
    && (forall w | w !in vs :: w in n <==> w in m)
    && (forall w | w !in vs && w in m && w in n :: n[w] == m[w])
  }

  /** Nobody but object o, if anyone, has an entry for block v. */
  ghost predicate OnlyIn(s: Image, v: Vbn, owners: set<nat>) {
    forall p | p in s.objects && v in s.objects[p] :: p in owners
  }

  // ---- the operations, as transformations

  /** Object o gets the entry c for block v. */
  function Added(s: Image, o: nat, v: Vbn, c: BlockCache, cell: Cell): Image {
    if o in s.objects then Image(Put(s.index, v, c), s.cells[v := cell], Joined(s.objects, o, v, c), s.disk) else s
  }

  function Joined(m: map<nat, Index>, o: nat, v: Vbn, c: BlockCache): map<nat, Index> {
    if o in m then m[o := Put(m[o], v, c)] else m
  }

  function Put(m: Index, v: Vbn, c: BlockCache): Index { m[v := c] }

  function Drop(m: Index, v: Vbn): Index { m - {v} }

  function Left(m: map<nat, Index>, o: nat, v: Vbn): map<nat, Index> {
    if o in m then m[o := Drop(m[o], v)] else m
  }

  /** The entry for block v goes, in both indices. */
  function Removed(s: Image, o: nat, v: Vbn): Image {
    Image(Drop(s.index, v), s.cells - {v}, Left(s.objects, o, v), s.disk)
  }

  function Changed(s: Image, v: Vbn, cell: Cell): Image { s.(cells := s.cells[v := cell]) }

  /** Object o has an entry for block v. */
  predicate Has(s: Image, o: nat, v: Vbn) { o in s.objects && v in s.objects[o] }

  lemma {:induction false} AddedOk(s: Image, o: nat, v: Vbn, c: BlockCache, cell: Cell)
    requires Coherent(s) && o in s.objects && v !in s.index && CellOk(cell, v, s.disk)
    ensures var t := Added(s, o, v, c, cell);
            && Coherent(t) && Has(t, o, v)
            && (Parted(s) && !cell.flush ==> Parted(t))
            && (forall w | w != v :: Seen(t, w) == Seen(s, w))
            && (cell.state == Empty ==> SameView(s, t))
            && SameElse(s, t, {v}) && OnlyIn(t, v, {o})
            && v in t.index && t.index[v] == c && v in t.cells && t.cells[v] == cell && t.objects[o][v] == c
            && t.disk == s.disk
  {
    hide Coherent, Parted, Seen, SameView, CellOk, SameElse, OnlyIn, Has;
    AddedCoherent(s, o, v, c, cell);
    AddedElse(s, o, v, c, cell);
  }

  lemma {:induction false} AddedCoherent(s: Image, o: nat, v: Vbn, c: BlockCache, cell: Cell)
    requires Coherent(s) && o in s.objects && v !in s.index && CellOk(cell, v, s.disk)
    ensures var t := Added(s, o, v, c, cell);
            && Coherent(t) && Has(t, o, v)
            && (Parted(s) && !cell.flush ==> Parted(t))
            && (forall w | w != v :: Seen(t, w) == Seen(s, w))
            && (cell.state == Empty ==> SameView(s, t))
  {
    hide AllShared, OneOwner, Shared, CellOk;
    JoinedShared(s.objects, s.index, o, v, c);
    JoinedOwner(s.objects, s.index, o, v, c);
    JoinedWhere(s.objects, o, v, c);
  }

  lemma {:induction false} AddedElse(s: Image, o: nat, v: Vbn, c: BlockCache, cell: Cell)
    requires Coherent(s) && o in s.objects && v !in s.index
    ensures var t := Added(s, o, v, c, cell);
            && SameElse(s, t, {v}) && OnlyIn(t, v, {o})
            && v in t.index && t.index[v] == c && v in t.cells && t.cells[v] == cell && t.objects[o][v] == c
            && t.disk == s.disk
  {
    hide Coherent, Joined;
    AbsentOnly(s, v);
    JoinedIs(s.objects, o, v, c);
    JoinedWhere(s.objects, o, v, c);
  }

  /** No object has a block that the container does not. */
  lemma {:induction false} AbsentOnly(s: Image, v: Vbn)
    requires Coherent(s) && v !in s.index
    ensures OnlyIn(s, v, {})
  {
    forall p | p in s.objects ensures v !in s.objects[p] { assert Shared(s.objects[p], s.index); }
  }

  lemma {:induction false} JoinedWhere(m: map<nat, Index>, o: nat, v: Vbn, c: BlockCache)
    requires o in m
    ensures var n := Joined(m, o, v, c);
            && n.Keys == m.Keys && v in n[o]
            && forall p, w | p in n && w in n[p] :: (p == o && w == v) || w in m[p]
  {
  }

  lemma {:induction false} JoinedShared(m: map<nat, Index>, index: Index, o: nat, v: Vbn, c: BlockCache)
    requires AllShared(m, index) && o in m && v !in index
    ensures AllShared(Joined(m, o, v, c), Put(index, v, c))
  {
    var n := Joined(m, o, v, c);
    forall p | p in n ensures Shared(n[p], Put(index, v, c)) {
      assert Shared(m[p], index);
    }
  }

  lemma {:induction false} JoinedOwner(m: map<nat, Index>, index: Index, o: nat, v: Vbn, c: BlockCache)
    requires AllShared(m, index) && OneOwner(m) && o in m && v !in index
    ensures OneOwner(Joined(m, o, v, c))
  {
    hide Joined;
    JoinedWhere(m, o, v, c);
    var n := Joined(m, o, v, c);
    forall p, q, w | p in n && q in n && w in n[p] && w in n[q] ensures p == q {
      assert Shared(m[p], index) && Shared(m[q], index);
    }
  }

  lemma {:induction false} LeftWhere(m: map<nat, Index>, o: nat, v: Vbn)
    requires o in m
    ensures var n := Left(m, o, v);
            && n.Keys == m.Keys
            && (forall p, w | p in n && w in n[p] :: w in m[p] && n[p][w] == m[p][w] && (p != o || w != v))
            && (forall p, w | p in m && w in m[p] && (p != o || w != v) :: w in n[p])
  {
  }

  /** The object lets go of its entry; the index may lose it too. */
  lemma {:induction false} LeftShared(m: map<nat, Index>, index: Index, o: nat, v: Vbn)
    requires AllShared(m, index) && OneOwner(m) && o in m && v in m[o]
    ensures AllShared(Left(m, o, v), index) && AllShared(Left(m, o, v), Drop(index, v)) && OneOwner(Left(m, o, v))
    ensures forall p | p in Left(m, o, v) :: v !in Left(m, o, v)[p]
  {
    hide Left;
    LeftWhere(m, o, v);
    var n := Left(m, o, v);
    forall p | p in n ensures Shared(n[p], index) && Shared(n[p], Drop(index, v)) && v !in n[p] {
      assert Shared(m[p], index);
    }
  }

  /** The object lets go of its entry, and the container may: nothing else changes. */
  lemma {:induction false} LeftElse(s: Image, t: Image, o: nat, v: Vbn)
    requires Coherent(s) && Has(s, o, v) && t.objects == Left(s.objects, o, v)
    requires t.index == s.index || t.index == Drop(s.index, v)
    requires forall w | w != v :: w in t.cells <==> w in s.cells
    requires forall w | w != v && w in s.cells && w in t.cells :: t.cells[w] == s.cells[w]
    ensures SameElse(s, t, {v}) && OnlyIn(t, v, {})
  {
    hide AllShared, CellsOk, Left, OneOwner;
    LeftWhere(s.objects, o, v);
    LeftShared(s.objects, s.index, o, v);
    forall p | p in s.objects && p in t.objects ensures SameIndex(s.objects[p], t.objects[p], {v}) {
    }
  }

  lemma {:induction false} RemovedOk(s: Image, o: nat, v: Vbn)
    requires Coherent(s) && Has(s, o, v)
    ensures var t := Removed(s, o, v);
            && Coherent(t) && (Parted(s) ==> Parted(t))
            && (forall w | w != v :: Seen(t, w) == Seen(s, w))
            && v in s.cells && (s.cells[v].state != Dirty ==> SameView(s, t))
            && SameElse(s, t, {v}) && OnlyIn(t, v, {}) && v !in t.index && v !in t.cells && t.disk == s.disk
  {
    hide AllShared, OneOwner, Left, SameElse, OnlyIn;
    LeftElse(s, Removed(s, o, v), o, v);
    HasCell(s, o, v);
    LeftShared(s.objects, s.index, o, v);
    LeftWhere(s.objects, o, v);
  }

  lemma {:induction false} HasCell(s: Image, o: nat, v: Vbn)
    requires Coherent(s) && Has(s, o, v)
    ensures v in s.cells && v in s.index && s.objects[o][v] == s.index[v] && CellOk(s.cells[v], v, s.disk)
  {
    assert Shared(s.objects[o], s.index);
  }

  lemma {:induction false} ChangedOk(s: Image, v: Vbn, cell: Cell)
    requires Coherent(s) && v in s.index && CellOk(cell, v, s.disk)
    ensures var t := Changed(s, v, cell);
            && Coherent(t)
            && (Parted(s) && (cell.flush ==> v in s.cells && s.cells[v].flush) ==> Parted(t))
            && (forall w | w != v :: Seen(t, w) == Seen(s, w))
            && SameElse(s, t, {v}) && t.objects == s.objects && t.index == s.index && t.disk == s.disk
  {
    hide AllShared, OneOwner;
  }

  /** release_obj_cache of a dirty block: the object lets go of it, the container keeps it. */
  function Released(s: Image, o: nat, v: Vbn): Image {
    if v in s.cells then Changed(s, v, s.cells[v].(flush := true)).(objects := Left(s.objects, o, v)) else s
  }

  lemma {:induction false} ReleasedOk(s: Image, o: nat, v: Vbn)
    requires Coherent(s) && Parted(s) && Has(s, o, v) && v in s.cells && s.cells[v].state == Dirty
    ensures var t := Released(s, o, v);
            && Coherent(t) && Parted(t) && SameView(s, t)
            && SameElse(s, t, {v}) && OnlyIn(t, v, {}) && t.disk == s.disk
            && v in t.index && t.index[v] == s.index[v] && v in t.cells && t.cells[v] == s.cells[v].(flush := true)
  {
    hide Coherent, Parted, Seen, SameView, SameElse, OnlyIn, Has, Left;
    ReleasedCoherent(s, o, v);
    HasCell(s, o, v);
    LeftElse(s, Released(s, o, v), o, v);
  }

  lemma {:induction false} ReleasedCoherent(s: Image, o: nat, v: Vbn)
    requires Coherent(s) && Parted(s) && Has(s, o, v) && v in s.cells && s.cells[v].state == Dirty
    ensures var t := Released(s, o, v); Coherent(t) && Parted(t) && SameView(s, t)
  {
    hide AllShared, OneOwner, Left;
    HasCell(s, o, v);
    LeftShared(s.objects, s.index, o, v);
    LeftWhere(s.objects, o, v);
  }

  lemma {:induction false} NewObjectOk(s: Image, o: nat)
    requires Coherent(s) && o !in s.objects
    ensures var t := s.(objects := s.objects[o := map[]]); Coherent(t) && SameView(s, t) && (Parted(s) ==> Parted(t))
  {
    var t := s.(objects := s.objects[o := map[]]);
    forall p | p in t.objects ensures Shared(t.objects[p], t.index) {
      if p != o { assert Shared(s.objects[p], s.index); }
    }
  }

  // ---- writing to disk

  /** flush_container_dirty_cache: a dirty entry is written, and is clean; if its object was released, it
      goes. */
  function Flushed(s: Image, v: Vbn): Image {
    if v !in s.cells || s.cells[v].state != Dirty then s
    else
      var c := s.cells[v];
      var disk := s.disk[v := c.ib];
      if c.flush then Image(Drop(s.index, v), s.cells - {v}, s.objects, disk)
      else Image(s.index, s.cells[v := c.(state := Clean, flush := false)], s.objects, disk)
  }

  /** The object has an entry that the container has freed. */
  ghost predicate Dangling(s: Image, o: nat, v: Vbn) { Has(s, o, v) && v !in s.index }

  /** What holds of the cache whether objects were re-opened before a flush or not. */
  ghost predicate Sound(s: Image) {
    && s.cells.Keys == s.index.Keys
    && CellsOk(s.cells, s.disk)
    && OneOwner(s.objects)
    && forall o, v | o in s.objects && v in s.objects[o] && v in s.index :: s.objects[o][v] == s.index[v]
  }

  /** A dirty block is written, and clean from then on, with its entry gone if it was marked; nothing else changes. */
  ghost predicate Written(s: Image, t: Image, v: Vbn) {
    && t.objects == s.objects && SameElse(s, t, {v})
    && v in s.cells && v in s.index
    && (if s.cells[v].state == Dirty
        then v in t.disk && t.disk[v] == s.cells[v].ib && (v in t.cells <==> !s.cells[v].flush)
        else t.disk == s.disk && v in t.cells)
    && (v in t.cells <==> v in t.index)
    && (v in t.cells && v in t.index ==>
          && t.index[v] == s.index[v]
          && t.cells[v] == if s.cells[v].state == Dirty then s.cells[v].(state := Clean) else s.cells[v])
    && (forall w | w != v :: w in t.disk <==> w in s.disk)
    && (forall w | w != v && w in s.disk && w in t.disk :: t.disk[w] == s.disk[w])
  }

  lemma {:induction false} FlushedSound(s: Image, v: Vbn)
    requires Sound(s) && v in s.cells
    ensures var t := Flushed(s, v); Sound(t) && SameView(s, t) && Written(s, t, v)
  {
    hide OneOwner, Written;
    FlushedWritten(s, v);
  }

  lemma {:induction false} FlushedWritten(s: Image, v: Vbn)
    requires Sound(s) && v in s.cells
    ensures Written(s, Flushed(s, v), v)
  {
    hide OneOwner, CellOk;
  }

  /** After all entries were flushed. */
  ghost predicate AllClean(s: Image) { forall v | v in s.cells :: s.cells[v].state != Dirty }

  /** The disk alone then shows every block that has contents. */
  lemma {:induction false} CleanDisk(s: Image)
    requires Sound(s) && AllClean(s)
    ensures forall v :: Seen(s, v) == if v in s.disk then Some(s.disk[v]) else None
  {
    forall v ensures Seen(s, v) == if v in s.disk then Some(s.disk[v]) else None {
      if v in s.cells { assert CellOk(s.cells[v], v, s.disk); }
    }
  }

  lemma {:induction false} CoherentIsSound(s: Image)
    ensures Coherent(s) <==> Sound(s) && forall o, v :: !Dangling(s, o, v)
  {
    if Sound(s) && forall o, v :: !Dangling(s, o, v) {
      forall o | o in s.objects ensures Shared(s.objects[o], s.index) {
        forall v | v in s.objects[o] ensures v in s.index { assert !Dangling(s, o, v); }
      }
    }
    if Coherent(s) {
      forall o, v | Has(s, o, v) ensures v in s.index && s.objects[o][v]
          == s.index[v] { assert Shared(s.objects[o], s.index); }
    }
  }

  /** index_block_read2 finds the block in the container's index: the object gets that entry. */
  function Attached(s: Image, o: nat, v: Vbn): Image {
    if v in s.index then s.(objects := Joined(s.objects, o, v, s.index[v])) else s
  }

  lemma {:induction false} AttachedElse(s: Image, o: nat, v: Vbn)
    requires o in s.objects && v in s.index && forall p | p in s.objects :: v !in s.objects[p]
    ensures var t := Attached(s, o, v); SameElse(s, t, {v}) && OnlyIn(t, v, {o}) && t.objects[o][v] == s.index[v]
  {
    hide Joined;
    JoinedWhere(s.objects, o, v, s.index[v]);
    JoinedIs(s.objects, o, v, s.index[v]);
  }

  lemma {:induction false} AttachedOk(s: Image, o: nat, v: Vbn)
    requires Coherent(s) && o in s.objects && v in s.index && forall p | p in s.objects :: v !in s.objects[p]
    ensures var t := Attached(s, o, v);
            && Coherent(t) && SameView(s, t) && Has(t, o, v)
            && v in s.cells && (Parted(t) <==> Parted(s) && !s.cells[v].flush)
            && SameElse(s, t, {v}) && OnlyIn(t, v, {o}) && t.objects[o][v] == s.index[v] && t.cells == s.cells
  {
    hide Joined;
    AttachedElse(s, o, v);
    JoinedWhere(s.objects, o, v, s.index[v]);
    JoinedIs(s.objects, o, v, s.index[v]);
    var t := Attached(s, o, v);
    forall p | p in t.objects ensures Shared(t.objects[p], t.index) {
      assert Shared(s.objects[p], s.index);
    }
    if Parted(t) {
      forall p, w | p in s.objects && w in s.objects[p] && w in s.cells ensures !s.cells[w].flush {
        assert w in t.objects[p];
      }
      assert v in t.objects[o];
    }
  }

  lemma {:induction false} JoinedIs(m: map<nat, Index>, o: nat, v: Vbn, c: BlockCache)
    requires o in m
    ensures var n := Joined(m, o, v, c);
            && n[o][v] == c && (forall w | w in m[o] && w != v :: w in n[o] && n[o][w] == m[o][w])
            && (forall p | p in m && p != o :: p in n && n[p] == m[p])
  {
  }

  class ContainerCache {
    // ct->metadata_cache, and obj_info->caches of every object
    var index: Index
    var objects: map<nat, Index>
    var disk: map<Vbn, Data>

    ghost function Snap(): Image
      reads this, index.Values
    {
      Image(index, map v | v in index :: index[v].TheCell(), objects, disk)
    }

    constructor (disk: map<Vbn, Data>)
      ensures Coherent(Snap()) && Parted(Snap()) && index == map[] && objects == map[] && this.disk == disk
    {
      index, objects, this.disk := map[], map[], disk;
    }

    /** A new object without cached blocks. */
    method AddObject(o: nat)
      requires Coherent(Snap()) && o !in objects
      modifies this`objects
      ensures Coherent(Snap()) && SameView(old(Snap()), Snap()) && (old(Parted(Snap())) ==> Parted(Snap()))
      ensures objects == old(objects)[o := map[]]
    {
      hide CellsOk, Seen;
      ghost var s := Snap();
      objects := objects[o := map[]];
      assert Snap() == s.(objects := objects);
      NewObjectOk(s, o);
    }

    /** insert_obj_cache: into both indices. */
    method InsertObjCache(o: nat, vbn: Vbn, c: BlockCache)
      requires o in objects && vbn !in index
      modifies this`index, this`objects
      ensures index == Put(old(index), vbn, c) && objects == Joined(old(objects), o, vbn, c)
      ensures Snap() == Added(old(Snap()), o, vbn, c, c.TheCell())
    {
      ghost var s := Snap();
      index := Put(index, vbn, c);
      objects := objects[o := Put(objects[o], vbn, c)];
      assert Snap() == Added(s, o, vbn, c, c.TheCell());
    }

    /** remove_obj_cache: out of both indices. */
    method RemoveObjCache(o: nat, vbn: Vbn)
      requires o in objects
      modifies this`index, this`objects
      ensures index == Drop(old(index), vbn) && objects == Left(old(objects), o, vbn)
      ensures Snap() == Removed(old(Snap()), o, vbn)
    {
      ghost var s := Snap();
      index := Drop(index, vbn);
      objects := objects[o := Drop(objects[o], vbn)];
      assert Snap() == Removed(s, o, vbn);
    }

    /** alloc_obj_cache: an entry without contents yet. */
    method AllocObjCache(o: nat, vbn: Vbn) returns (c: BlockCache)
      requires Coherent(Snap()) && o in objects && vbn !in index
      modifies this`index, this`objects
      ensures fresh(c) && Snap() == Added(old(Snap()), o, vbn, c, Cell(vbn, Empty, false, []))
      ensures Coherent(Snap()) && SameView(old(Snap()), Snap()) && (old(Parted(Snap())) ==> Parted(Snap()))
          && Has(Snap(), o, vbn)
      ensures SameElse(old(Snap()), Snap(), {vbn}) && OnlyIn(Snap(), vbn, {o}) && Snap().objects[o][vbn] == c
    {
      hide Coherent, Parted, SameView, Has, SameElse, OnlyIn;
      ghost var s := Snap();
      HasIs(s, o, vbn);
      c := new BlockCache(vbn);
      AddedOk(s, o, vbn, c, Cell(vbn, Empty, false, []));
      InsertObjCache(o, vbn, c);
    }

    /** free_obj_cache */
    method FreeObjCache(o: nat, vbn: Vbn)
      requires Coherent(Snap()) && Has(Snap(), o, vbn)
      modifies this`index, this`objects
      ensures Snap() == Removed(old(Snap()), o, vbn) && Coherent(Snap()) && (old(Parted(Snap())) ==> Parted(Snap()))
      ensures vbn in old(index) && (old(index[vbn].state) != Dirty ==> SameView(old(Snap()), Snap()))
    {
      hide Coherent, Parted, SameView;
      ghost var s := Snap();
      RemovedOk(s, o, vbn);
      HasIs(s, o, vbn);
      RemoveObjCache(o, vbn);
    }

    /** In set_ib_dirty: change_obj_cache_vbn (out of both indices, renumbered, back in) and
        SET_CACHE_DIRTY.  The contents move to the new number, and under the old one the disk shows through. */
    method MoveObjCache(o: nat, vbn: Vbn, newVbn: Vbn)
      requires Coherent(Snap()) && Has(Snap(), o, vbn) && vbn in index && index[vbn].state == Clean && newVbn !in index
      modifies this`index, this`objects, index[vbn]
      ensures Coherent(Snap()) && (old(Parted(Snap())) ==> Parted(Snap())) && Has(Snap(), o, newVbn) && vbn !in index
      ensures index == Put(Drop(old(index), vbn), newVbn, old(index[vbn]))
      ensures objects == Joined(Left(old(objects), o, vbn), o, newVbn, old(index[vbn]))
      ensures newVbn in index && index[newVbn] == old(index[vbn])
          && index[newVbn].TheCell() == Cell(newVbn, Dirty, false, old(index[vbn].ib))
      ensures Seen(Snap(), newVbn) == old(Seen(Snap(), vbn))
      ensures forall w | w != newVbn :: Seen(Snap(), w) == old(Seen(Snap(), w))
      ensures SameElse(old(Snap()), Snap(), {vbn, newVbn}) && OnlyIn(Snap(), vbn, {}) && OnlyIn(Snap(), newVbn, {o})
      ensures o in objects && newVbn in objects[o] && objects[o][newVbn] == index[newVbn]
    {
      hide Coherent, Parted, SameView, Has, Joined, Left, Seen, SameElse, OnlyIn;
      ghost var s := Snap();
      HasIs(s, o, vbn);
      var c := index[vbn];
      ghost var cell := Cell(newVbn, Dirty, false, c.ib);
      MovedOk(s, o, vbn, newVbn, c, cell);
      Renumber(o, vbn, newVbn, c);
      AddedChanged(Removed(s, o, vbn), o, newVbn, c, c.TheCell(), cell);
      Fill(newVbn, c.ib, Dirty, false);
      HasIs(Snap(), o, newVbn);
    }

    /** change_obj_cache_vbn */
    method Renumber(o: nat, vbn: Vbn, newVbn: Vbn, c: BlockCache)
      requires Coherent(Snap()) && o in objects && vbn in index && index[vbn] == c && newVbn !in index
      modifies this`index, this`objects, c
      ensures c.TheCell() == old(c.TheCell()).(vbn := newVbn)
      ensures newVbn in index && index[newVbn] == c && forall w | w in index && w != newVbn :: index[w] != c
      ensures Snap() == Added(Removed(old(Snap()), o, vbn), o, newVbn, c, c.TheCell()) && Numbered(Snap())
    {
      hide Coherent;
      OthersApart(Snap());
      Distinct(vbn);
      ghost var s := Snap();
      RemoveObjCache(o, vbn);
      c.vbn := newVbn;
      assert Snap() == Removed(s, o, vbn);
      InsertObjCache(o, newVbn, c);
    }

    /** Different numbers have different entries. */
    lemma Distinct(vbn: Vbn)
      requires vbn in index && Numbered(Snap())
      ensures forall w | w in index && w != vbn :: index[w] != index[vbn]
    {
      forall w | w in index && w != vbn ensures index[w] != index[vbn] {
        assert Snap().cells[w].vbn == w && Snap().cells[vbn].vbn == vbn;
      }
    }

    /** The tree writes into a block: a new one is dirty from then on, a dirty one stays as it is but for its
        contents. */
    method WriteObjCache(vbn: Vbn, ib: Data)
      requires Coherent(Snap()) && vbn in index && index[vbn].state != Clean
      modifies index[vbn]
      ensures Coherent(Snap()) && (old(Parted(Snap())) ==> Parted(Snap()))
      ensures Snap() == Changed(old(Snap()), vbn, Cell(vbn, Dirty, old(index[vbn].flush), ib))
      ensures forall w :: Seen(Snap(), w) == if w == vbn then Some(ib) else old(Seen(Snap(), w))
    {
      hide Coherent, Parted, SameView;
      ghost var s := Snap();
      OthersApart(s);
      WrittenOk(s, vbn);
      ChangedOk(s, vbn, Cell(vbn, Dirty, index[vbn].flush, ib));
      Fill(vbn, ib, Dirty, index[vbn].flush);
    }

    /** Contents and state of one entry are set. */
    method Fill(vbn: Vbn, ib: Data, state: State, flush: bool)
      requires Numbered(Snap()) && vbn in index
      modifies index[vbn]
      ensures index[vbn].TheCell() == Cell(vbn, state, flush, ib)
      ensures Snap() == Changed(old(Snap()), vbn, Cell(vbn, state, flush, ib))
    {
      ghost var s := Snap();
      Distinct(vbn);
      var c := index[vbn];
      assert s.cells[vbn].vbn == vbn;
      c.ib := ib;
      c.state, c.flush := state, flush;
      assert Snap() == Changed(s, vbn, Cell(vbn, state, flush, ib));
    }

    /** release_obj_cache */
    method ReleaseObjCache(o: nat, vbn: Vbn)
      requires Coherent(Snap()) && Parted(Snap()) && Has(Snap(), o, vbn) && vbn in index
      modifies this`index, this`objects, index[vbn]
      ensures Coherent(Snap()) && Parted(Snap()) && SameView(old(Snap()), Snap())
      ensures index == if old(index[vbn].state) == Dirty then old(index) else Drop(old(index), vbn)
      ensures objects == Left(old(objects), o, vbn)
      ensures old(index[vbn].state) == Dirty ==> index[vbn].TheCell() == old(index[vbn].TheCell()).(flush := true)
      ensures SameElse(old(Snap()), Snap(), {vbn}) && OnlyIn(Snap(), vbn, {})
      ensures vbn in index <==> old(index[vbn].state) == Dirty
    {
      hide Coherent, Parted, SameView, SameElse, OnlyIn;
      ghost var s := Snap();
      OthersApart(s);
      RemovedOk(s, o, vbn);
      if index[vbn].state == Dirty {
        ReleasedOk(s, o, vbn);
        index[vbn].flush := true;
        objects := objects[o := Drop(objects[o], vbn)];
        assert Snap() == Released(s, o, vbn);
      } else {
        FreeObjCache(o, vbn);
      }
    }

    /** release_obj_all_cache: exactly the object's clean entries leave the container's index, its dirty ones are marked
        to go when they are written, and nothing else changes. */
    method ReleaseObjAll(o: nat)
      requires Coherent(Snap()) && Parted(Snap()) && o in objects
      modifies this`index, this`objects, index.Values
      ensures Coherent(Snap()) && Parted(Snap()) && SameView(old(Snap()), Snap())
      ensures o in objects && objects[o] == map[] && SameElse(old(Snap()), Snap(), old(objects[o].Keys))
      ensures forall p | p in old(objects) && p != o :: p in objects && objects[p] == old(objects[p])
      ensures forall v | v in old(objects[o]) :: LetGo(old(Snap()), Snap(), v)
      ensures index.Values <= old(index.Values)
    {
      hide Coherent, Parted, SameView, SameElse, OnlyIn, LetGo, Releasing;
      ghost var all := index.Values;
      ghost var s, done: set<Vbn> := Snap(), {};
      ReleaseBegin(s, o);
      while objects[o] != map[]
        invariant Releasing(s, Snap(), o, done) && o in objects && index.Values <= all
        modifies this`index, this`objects, all
        decreases |objects[o]|
      {
        done := ReleaseOne(o, s, done);
      }
      ReleaseEnd(s, Snap(), o, done);
    }

    /** One round of the walk over the object's entries. */
    method ReleaseOne(o: nat, ghost s: Image, ghost done: set<Vbn>) returns (ghost more: set<Vbn>)
      requires Releasing(s, Snap(), o, done) && o in objects && objects[o] != map[]
      modifies this`index, this`objects, index.Values
      ensures o in objects && |objects[o]| < |old(objects[o])| && index.Values <= old(index.Values)
      ensures Releasing(s, Snap(), o, more)
    {
      hide Coherent, Parted, SameView, SameElse, OnlyIn, LetGo, Releasing, Left;
      var vbn :| vbn in objects[o];
      ghost var t := Snap();
      ReleasingIs(s, t, o, done);
      HasCell(t, o, vbn);
      LeftIs(objects, o, vbn);
      ReleaseObjCache(o, vbn);
      ReleaseStep(s, t, Snap(), o, done, vbn);
      more := done + {vbn};
    }

    /** index_block_read2: the object's own entry, or the container's, or a new one read from disk. */
    method ReadBlock(o: nat, vbn: Vbn) returns (c: BlockCache)
      requires Coherent(Snap()) && o in objects && (vbn in index || vbn in disk)
      requires forall p | p in objects && p != o :: vbn !in objects[p]
      modifies this`index, this`objects
      ensures Coherent(Snap()) && SameView(old(Snap()), Snap()) && Has(Snap(), o, vbn) && vbn in index
          && index[vbn] == c
      ensures c.state != Empty ==> old(Seen(Snap(), vbn)) == Some(c.ib)
      ensures old(vbn !in index) ==> fresh(c) && c.TheCell() == Cell(vbn, Clean, false, disk[vbn])
      ensures vbn in old(index) ==> c == old(index)[vbn]
      ensures index == Put(old(index), vbn, c) && objects == Joined(old(objects), o, vbn, c)
      ensures SameElse(old(Snap()), Snap(), {vbn}) && OnlyIn(Snap(), vbn, {o})
      ensures o in objects && vbn in objects[o] && objects[o][vbn] == c && Snap().cells.Keys == index.Keys
      ensures vbn in old(index) ==> Snap().cells[vbn] == old(Snap()).cells[vbn]
      ensures old(Parted(Snap())) ==> (Parted(Snap()) <==> (vbn in old(index) && vbn !in old(objects[o]) ==> !c.flush))
    {
      hide Coherent, SameView, Parted, SameElse, OnlyIn;
      ghost var s := Snap();
      SameViewRefl(s);
      ReadFacts(s, vbn);
      if vbn in objects[o] {
        HasCell(s, o, vbn);
        assert Put(objects[o], vbn, index[vbn]) == objects[o];
        HeldElse(s, o, vbn);
        return objects[o][vbn];
      }
      if vbn in index {
        AttachedOk(s, o, vbn);
        c := index[vbn];
        objects := objects[o := Put(objects[o], vbn, c)];
        assert Snap() == Attached(s, o, vbn);
        return;
      }
      c := ReadFromDisk(o, vbn);
    }

    /** index_block_read2, when the block is in no cache. */
    method ReadFromDisk(o: nat, vbn: Vbn) returns (c: BlockCache)
      requires Coherent(Snap()) && o in objects && vbn !in index && vbn in disk
      modifies this`index, this`objects
      ensures Coherent(Snap()) && SameView(old(Snap()), Snap()) && Has(Snap(), o, vbn) && vbn in index
          && index[vbn] == c
      ensures fresh(c) && c.TheCell() == Cell(vbn, Clean, false, disk[vbn])
      ensures index == Put(old(index), vbn, c) && objects == Joined(old(objects), o, vbn, c)
      ensures SameElse(old(Snap()), Snap(), {vbn}) && OnlyIn(Snap(), vbn, {o})
      ensures o in objects && vbn in objects[o] && objects[o][vbn] == c
      ensures old(Parted(Snap())) ==> Parted(Snap())
    {
      hide Coherent, SameView, Parted, SameElse, OnlyIn;
      ghost var s := Snap();
      c := AllocObjCache(o, vbn);
      ghost var t := Snap();
      ReadOk(t, vbn);
      OthersApart(t);
      Fill(vbn, disk[vbn], Clean, false);
      SameViewTrans(s, t, Snap());
      ElseTrans(s, t, Snap(), {vbn}, {vbn});
      assert {vbn} + {vbn} == {vbn};
      OnlySame(t, Snap(), vbn, {o});
      HasIs(t, o, vbn);
    }

    /** flush_container_dirty_cache */
    method FlushDirtyCache(vbn: Vbn)
      requires Sound(Snap()) && vbn in index
      modifies this`index, this`disk, index[vbn]
      ensures Snap() == Flushed(old(Snap()), vbn) && Written(old(Snap()), Snap(), vbn)
      ensures Sound(Snap()) && SameView(old(Snap()), Snap())
    {
      hide Sound, CellOk, Written, SameView, Seen;
      ghost var s := Snap();
      FlushedSound(s, vbn);
      OthersApart(s);
      Distinct(vbn);
      var c := index[vbn];
      assert s.cells[vbn] == c.TheCell();
      if c.state != Dirty {
        return;
      }
      disk := disk[vbn := c.ib];
      var released := c.flush;
      c.state, c.flush := Clean, false;
      if released {
        // free_container_cache
        index := Drop(index, vbn);
        assert Snap().cells == s.cells - {vbn};
      } else {
        assert Snap().cells == s.cells[vbn := c.TheCell()];
      }
      assert Snap() == Flushed(s, vbn);
    }

    /** One round of the walk over all entries. */
    method FlushOne(vbn: Vbn, ghost s: Image, ghost todo: set<Vbn>)
      requires Sound(Snap()) && SameView(s, Snap()) && objects == s.objects && vbn in todo && todo <= index.Keys
          && Flushing(s, Snap(), todo)
      modifies this`index, this`disk, index[vbn]
      ensures Sound(Snap()) && SameView(s, Snap()) && objects == s.objects && index.Values <= old(index.Values)
      ensures todo - {vbn} <= index.Keys && Flushing(s, Snap(), todo - {vbn})
    {
      hide Coherent, Sound, SameView, Parted, AllClean, Seen, Flushing, Written;
      ghost var t := Snap();
      FlushedIndex(t, vbn);
      FlushDirtyCache(vbn);
      WrittenObjects(t, Snap(), vbn);
      FlushStep(s, t, Snap(), todo, vbn);
      SameViewTrans(s, t, Snap());
    }

    /** The first part of flush_container_cache: every dirty block is written.  The view stays, nothing is
        dirty, the disk shows what the cache showed; and the objects' entries are all still in the container's
        index exactly when none of them had been waiting for a released object. */
    method FlushAll()
      requires Coherent(Snap())
      modifies this`index, this`disk, index.Values
      ensures Sound(Snap()) && AllClean(Snap()) && SameView(old(Snap()), Snap()) && objects == old(objects)
      ensures forall v :: old(Seen(Snap(), v)) == if v in disk then Some(disk[v]) else None
      ensures forall v :: v in index <==> v in old(index) && !old(Snap()).cells[v].flush
      ensures forall v | v in index && v in old(index) ::
                && index[v] == old(index)[v]
                && Snap().cells[v] == if old(Snap()).cells[v].state == Dirty then old(Snap()).cells[v].(state := Clean)
                                      else old(Snap()).cells[v]
      ensures forall v :: v in disk <==> v in old(disk) || (v in old(index) && old(Snap()).cells[v].state == Dirty)
      ensures forall v | v in disk ::
                if v in old(index) && old(Snap()).cells[v].state == Dirty then disk[v] == old(Snap()).cells[v].ib
                else v in old(disk) && disk[v] == old(disk)[v]
      ensures Coherent(Snap()) <==> old(Parted(Snap()))
    {
      hide Coherent, Sound, SameView, Flushed, Parted, AllClean, Seen, Flushing, Written;
      ghost var all := index.Values;
      ghost var s := Snap();
      SameViewRefl(s);
      CoherentIsSound(s);
      var todo := index.Keys;
      FlushBegin(s);
      while todo != {}
        invariant Sound(Snap()) && SameView(s, Snap()) && objects == s.objects && index.Values <= all
        invariant todo <= index.Keys && Flushing(s, Snap(), todo)
        modifies this`index, this`disk, all
        decreases |todo|
      {
        var vbn :| vbn in todo;
        FlushOne(vbn, s, todo);
        todo := todo - {vbn};
      }
      FlushEnd(s, Snap());
      CleanDisk(Snap());
      ViewIs(s, Snap());
    }
  }

  /** The entry for block v was dirty and is now marked, or it is gone. */
  ghost predicate LetGo(s: Image, t: Image, v: Vbn) {
    && v in s.cells && v in s.index
    && (v in t.index <==> s.cells[v].state == Dirty)
    && (v in t.index ==> v in t.cells && t.index[v] == s.index[v] && t.cells[v] == s.cells[v].(flush := true))
  }

  /** While an object's entries are released: those of the blocks done were let go of, all else is as it was. */
  ghost predicate Releasing(s: Image, t: Image, o: nat, done: set<Vbn>) {
    && Coherent(s) && Coherent(t) && Parted(t) && SameView(s, t) && SameElse(s, t, done)
    && o in s.objects && o in t.objects
    && done + t.objects[o].Keys == s.objects[o].Keys && done !! t.objects[o].Keys
    && forall v | v in done :: LetGo(s, t, v) && OnlyIn(t, v, {})
  }

  lemma {:induction false} ReleasingIs(s: Image, t: Image, o: nat, done: set<Vbn>)
    requires Releasing(s, t, o, done)
    ensures Coherent(t) && Parted(t) && o in t.objects
  {
  }

  lemma {:induction false} ReleaseBegin(s: Image, o: nat)
    requires Coherent(s) && Parted(s) && o in s.objects
    ensures Releasing(s, s, o, {})
  {
    hide Coherent, Parted;
  }

  lemma {:induction false} ReleaseStep(s: Image, t: Image, u: Image, o: nat, done: set<Vbn>, v: Vbn)
    requires Releasing(s, t, o, done) && Coherent(u) && Parted(u) && SameView(t, u)
    requires SameElse(t, u, {v}) && OnlyIn(u, v, {}) && Has(t, o, v) && v in t.cells && v in t.index
    requires v in u.index <==> t.cells[v].state == Dirty
    requires v in u.index ==> v in u.cells && u.index[v] == t.index[v] && u.cells[v] == t.cells[v].(flush := true)
    ensures Releasing(s, u, o, done + {v})
  {
    hide Coherent, Parted, SameElse, OnlyIn, SameView, LetGo;
    assert v in s.objects[o] && v !in done;
    SameViewTrans(s, t, u);
    ElseTrans(s, t, u, done, {v});
    ElseObject(t, u, v, o);
    LetGoStep(s, t, u, o, done, v);
  }

  lemma {:induction false} ReleaseEnd(s: Image, t: Image, o: nat, done: set<Vbn>)
    requires Releasing(s, t, o, done) && t.objects[o] == map[]
    ensures Coherent(t) && Parted(t) && SameView(s, t) && SameElse(s, t, s.objects[o].Keys)
    ensures forall p | p in s.objects && p != o :: p in t.objects && t.objects[p] == s.objects[p]
    ensures forall v | v in s.objects[o] :: LetGo(s, t, v)
  {
    hide Coherent, Parted, SameElse, OnlyIn, SameView, LetGo;
    assert done == s.objects[o].Keys;
    OthersKept(s, t, o);
  }

  lemma {:induction false} LetGoStep(s: Image, t: Image, u: Image, o: nat, done: set<Vbn>, v: Vbn)
    requires Coherent(s) && SameElse(s, t, done) && SameElse(t, u, {v}) && OnlyIn(u, v, {})
    requires Has(s, o, v) && v !in done && v in t.cells && v in t.index
    requires v in u.index <==> t.cells[v].state == Dirty
    requires v in u.index ==> v in u.cells && u.index[v] == t.index[v] && u.cells[v] == t.cells[v].(flush := true)
    requires forall w | w in done :: LetGo(s, t, w) && OnlyIn(t, w, {})
    ensures forall w | w in done + {v} :: LetGo(s, u, w) && OnlyIn(u, w, {})
  {
    hide Coherent, SameElse, OnlyIn;
    HasCell(s, o, v);
    ElseAt(s, t, done, v);
    forall w | w in done ensures LetGo(s, u, w) && OnlyIn(u, w, {}) {
      ElseAt(t, u, {v}, w);
      OnlyKept(t, u, w, {v}, {});
    }
  }

  lemma {:induction false} ElseAt(s: Image, t: Image, vs: set<Vbn>, w: Vbn)
    requires SameElse(s, t, vs) && w !in vs
    ensures (w in t.index <==> w in s.index) && (w in t.cells <==> w in s.cells)
    ensures w in s.index ==> t.index[w] == s.index[w]
    ensures w in s.cells ==> t.cells[w] == s.cells[w]
  {
  }

  lemma {:induction false} ElseObject(t: Image, u: Image, v: Vbn, o: nat)
    requires SameElse(t, u, {v}) && OnlyIn(u, v, {}) && o in t.objects
    ensures o in u.objects && u.objects[o].Keys == t.objects[o].Keys - {v}
  {
    assert o in u.objects && SameIndex(t.objects[o], u.objects[o], {v});
  }

  /** What no other object had, no other object loses. */
  lemma {:induction false} OthersKept(s: Image, t: Image, o: nat)
    requires Coherent(s) && o in s.objects && SameElse(s, t, s.objects[o].Keys)
    requires forall v | v in s.objects[o] :: OnlyIn(t, v, {})
    ensures forall p | p in s.objects && p != o :: p in t.objects && t.objects[p] == s.objects[p]
  {
    hide AllShared, CellsOk;
    forall p | p in s.objects && p != o ensures p in t.objects && t.objects[p] == s.objects[p] {
      assert p in t.objects && SameIndex(s.objects[p], t.objects[p], s.objects[o].Keys);
      assert forall w | w in s.objects[o] :: w !in s.objects[p] && w !in t.objects[p];
      assert t.objects[p].Keys == s.objects[p].Keys;
    }
  }

  lemma {:induction false} HeldElse(s: Image, o: nat, v: Vbn)
    requires Coherent(s) && Has(s, o, v)
    ensures SameElse(s, s, {v}) && OnlyIn(s, v, {o})
  {
  }

  lemma {:induction false} OnlySame(s: Image, t: Image, v: Vbn, owners: set<nat>)
    requires t.objects == s.objects && OnlyIn(s, v, owners)
    ensures OnlyIn(t, v, owners)
  {
  }

  /** An object is released and everything dirty written: none of its entries is left, what was dirty is on disk, and
      the other objects have what they had. */
  method ReleaseAndFlush(ct: ContainerCache, o: nat)
    requires Coherent(ct.Snap()) && Parted(ct.Snap()) && o in ct.objects
    modifies ct`index, ct`objects, ct`disk, ct.index.Values
    ensures Coherent(ct.Snap()) && Parted(ct.Snap()) && SameView(old(ct.Snap()), ct.Snap())
    ensures forall v | v in old(ct.objects[o]) ::
              && v !in ct.index && v in old(ct.index)
              && (old(ct.Snap()).cells[v].state == Dirty ==>
                    v in ct.disk && ct.disk[v] == old(ct.Snap()).cells[v].ib)
    ensures forall p | p in old(ct.objects) && p != o :: p in ct.objects && ct.objects[p] == old(ct.objects[p])
    ensures forall p, v | p in old(ct.objects) && p != o && v in old(ct.objects[p]) :: v in ct.index
  {
    hide Coherent, Parted, SameView, Sound, Seen, AllClean, SameElse, OnlyIn;
    ghost var s := ct.Snap();
    ct.ReleaseObjAll(o);
    ghost var t := ct.Snap();
    ct.FlushAll();
    SameViewTrans(s, t, ct.Snap());
    CleanParted(ct.Snap());
    forall p, v | p in s.objects && p != o && v in s.objects[p] ensures v in ct.index {
      assert t.objects[p] == s.objects[p];
      assert ct.Snap().objects[p] == s.objects[p];
      HasCell(ct.Snap(), p, v);
    }
  }

  lemma {:induction false} CleanParted(s: Image)
    requires Coherent(s) && AllClean(s)
    ensures Parted(s)
  {
    hide AllShared, OneOwner;
  }

  /** While the entries are flushed: those in todo are as they were, the others are clean or gone, and those of them
      that were dirty are on disk. */
  ghost predicate Flushing(s: Image, t: Image, todo: set<Vbn>) { forall v :: FlushedAt(s, t, todo, v) }

  ghost predicate FlushedAt(s: Image, t: Image, todo: set<Vbn>, v: Vbn) {
    && (v in t.cells <==> v in t.index) && (v in s.cells <==> v in s.index)
    && (v in t.cells ==> v in s.cells && t.index[v] == s.index[v])
    && (v in todo && v in s.cells ==> v in t.cells && t.cells[v] == s.cells[v])
    && (v in s.cells && v !in todo ==> (v in t.cells <==> !s.cells[v].flush))
    && (v in t.cells && v !in todo ==>
          t.cells[v] == if s.cells[v].state == Dirty then s.cells[v].(state := Clean) else s.cells[v])
    && (v in t.disk <==> v in s.disk || Flushable(s, v, todo))
    && (v in t.disk ==> if Flushable(s, v, todo) then t.disk[v] == s.cells[v].ib
                        else v in s.disk && t.disk[v] == s.disk[v])
  }

  /** A dirty block whose turn has come. */
  predicate Flushable(s: Image, v: Vbn, todo: set<Vbn>) { v in s.cells && s.cells[v].state == Dirty && v !in todo }


  lemma {:induction false} FlushBegin(s: Image)
    requires s.cells.Keys == s.index.Keys
    ensures Flushing(s, s, s.index.Keys)
  {
  }

  lemma {:induction false} FlushStep(s: Image, t: Image, u: Image, todo: set<Vbn>, v: Vbn)
    requires Sound(t) && Sound(u) && Flushing(s, t, todo) && v in todo && todo <= t.index.Keys && Written(t, u, v)
    ensures Flushing(s, u, todo - {v}) && todo - {v} <= u.index.Keys
  {
    hide Sound, CellOk, Written, FlushedAt;
    WrittenObjects(t, u, v);
    CellAt(t, v);
    forall w ensures FlushedAt(s, u, todo - {v}, w) && (w in todo && w != v ==> w in u.index) {
      assert FlushedAt(s, t, todo, w);
      FlushStepAt(s, t, u, todo, v, w);
    }
  }

  lemma {:induction false} FlushStepAt(s: Image, t: Image, u: Image, todo: set<Vbn>, v: Vbn, w: Vbn)
    requires FlushedAt(s, t, todo, w) && Written(t, u, v) && v in todo && w !in todo - t.index.Keys
    requires v in t.cells && CellOk(t.cells[v], v, t.disk)
    ensures FlushedAt(s, u, todo - {v}, w) && (w in todo && w != v ==> w in u.index)
  {
    hide SameElse;
    if w != v { ElseAt(t, u, {v}, w); }
  }

  lemma {:induction false} WrittenObjects(t: Image, u: Image, v: Vbn)
    requires Written(t, u, v)
    ensures u.objects == t.objects && v in t.cells
  {
  }

  lemma {:induction false} FlushedIndex(t: Image, v: Vbn)
    ensures Flushed(t, v).index == t.index || Flushed(t, v).index == Drop(t.index, v)
    ensures Drop(t.index, v).Values <= t.index.Values
  {
  }

  lemma {:induction false} CellAt(t: Image, v: Vbn)
    requires Sound(t) && v in t.cells
    ensures CellOk(t.cells[v], v, t.disk)
  {
  }

  lemma {:induction false} FlushEnd(s: Image, t: Image)
    requires Coherent(s) && Sound(t) && Flushing(s, t, {}) && t.objects == s.objects
    ensures AllClean(t) && (Coherent(t) <==> Parted(s))
    ensures s.cells.Keys == s.index.Keys && t.cells.Keys == t.index.Keys
    ensures forall v :: v in t.index <==> v in s.index && !s.cells[v].flush
    ensures forall v | v in t.index && v in s.index ::
              && t.index[v] == s.index[v]
              && t.cells[v] == if s.cells[v].state == Dirty then s.cells[v].(state := Clean) else s.cells[v]
    ensures forall v :: v in t.disk <==> v in s.disk || (v in s.index && s.cells[v].state == Dirty)
    ensures forall v | v in t.disk ::
              if v in s.index && s.cells[v].state == Dirty then t.disk[v] == s.cells[v].ib
              else v in s.disk && t.disk[v] == s.disk[v]
  {
    hide OneOwner, CellsOk;
    CoherentIsSound(s);
    forall v
      ensures v in t.index <==> v in s.index && !s.cells[v].flush
      ensures v in t.index ==>
                && t.index[v] == s.index[v]
                && t.cells[v] == if s.cells[v].state == Dirty then s.cells[v].(state := Clean) else s.cells[v]
      ensures v in t.disk <==> v in s.disk || (v in s.index && s.cells[v].state == Dirty)
      ensures v in t.disk ==> if v in s.index && s.cells[v].state == Dirty then t.disk[v] == s.cells[v].ib
                              else v in s.disk && t.disk[v] == s.disk[v]
    {
      assert FlushedAt(s, t, {}, v);
    }
    FlushEndParted(s, t);
  }

  lemma {:induction false} FlushEndParted(s: Image, t: Image)
    requires Coherent(s) && Sound(t) && t.objects == s.objects
    requires forall v :: v in t.index <==> v in s.index && !s.cells[v].flush
    ensures Coherent(t) <==> Parted(s)
  {
    hide OneOwner, CellsOk;
    CoherentIsSound(s);
    CoherentIsSound(t);
    if Coherent(t) {
      forall o, v | o in s.objects && v in s.objects[o] && v in s.cells ensures !s.cells[v].flush {
        assert !Dangling(t, o, v);
      }
    }
    if Parted(s) {
      forall o, v ensures !Dangling(t, o, v) {
        assert !Dangling(s, o, v);
      }
    }
  }

  lemma {:induction false} AddedChanged(s: Image, o: nat, v: Vbn, c: BlockCache, cell: Cell, cell': Cell)
    requires o in s.objects
    ensures Changed(Added(s, o, v, c, cell), v, cell') == Added(s, o, v, c, cell')
  {
  }

  /** An entry that is not clean may be dirty, with its flush mark as it is. */
  lemma {:induction false} WrittenOk(s: Image, v: Vbn)
    requires Coherent(s) && v in s.index
    ensures v in s.cells && s.cells[v].vbn == v && forall ib :: CellOk(Cell(v, Dirty, s.cells[v].flush, ib), v, s.disk)
  {
    hide AllShared, OneOwner;
  }

  lemma {:induction false} HasIs(s: Image, o: nat, v: Vbn)
    ensures Has(s, o, v) <==> o in s.objects && v in s.objects[o]
  {
  }

  /** What a cached entry with contents holds is what a reader sees. */
  lemma {:induction false} ReadFacts(s: Image, v: Vbn)
    ensures v in s.cells && s.cells[v].state != Empty ==> Seen(s, v) == Some(s.cells[v].ib)
    ensures v !in s.cells && v in s.disk ==> Seen(s, v) == Some(s.disk[v])
  {
  }

  lemma {:induction false} MovedOk(s: Image, o: nat, v: Vbn, nv: Vbn, c: BlockCache, cell: Cell)
    requires Coherent(s) && Has(s, o, v) && nv !in s.index && v in s.cells && s.cells[v].state == Clean
    requires cell == Cell(nv, Dirty, false, s.cells[v].ib)
    ensures var t := Added(Removed(s, o, v), o, nv, c, cell);
            && Coherent(t) && (Parted(s) ==> Parted(t)) && Has(t, o, nv) && v !in t.index
            && Seen(t, nv) == Seen(s, v) && (forall w | w != nv :: Seen(t, w) == Seen(s, w))
            && SameElse(s, t, {v, nv}) && OnlyIn(t, v, {}) && OnlyIn(t, nv, {o}) && t.objects[o][nv] == c
            && t.disk == s.disk
    ensures Numbered(s)
  {
    hide Coherent, Parted, Joined, SameElse, OnlyIn;
    HasCell(s, o, v);
    RemovedOk(s, o, v);
    OthersApart(s);
    LeftWhere(s.objects, o, v);
    AddedOk(Removed(s, o, v), o, nv, c, cell);
    var t := Added(Removed(s, o, v), o, nv, c, cell);
    ElseTrans(s, Removed(s, o, v), t, {v}, {nv});
    OnlyKept(Removed(s, o, v), t, v, {nv}, {});
    assert {v} + {nv} == {v, nv};
  }

  lemma {:induction false} ElseTrans(s: Image, t: Image, u: Image, vs: set<Vbn>, ws: set<Vbn>)
    requires SameElse(s, t, vs) && SameElse(t, u, ws)
    ensures SameElse(s, u, vs + ws)
  {
    forall p | p in s.objects && p in u.objects ensures SameIndex(s.objects[p], u.objects[p], vs + ws) {
      assert SameIndex(s.objects[p], t.objects[p], vs) && SameIndex(t.objects[p], u.objects[p], ws);
    }
  }

  lemma {:induction false} OnlyKept(s: Image, t: Image, v: Vbn, vs: set<Vbn>, owners: set<nat>)
    requires SameElse(s, t, vs) && v !in vs && OnlyIn(s, v, owners)
    ensures OnlyIn(t, v, owners)
  {
    forall p | p in t.objects && v in t.objects[p] ensures p in owners {
      assert SameIndex(s.objects[p], t.objects[p], vs);
    }
  }

  lemma {:induction false} ViewIs(s: Image, t: Image)
    requires SameView(s, t)
    ensures forall v :: Seen(s, v) == Seen(t, v)
  {
  }

  lemma {:induction false} SameViewRefl(s: Image)
    ensures SameView(s, s)
  {
  }

  lemma {:induction false} SameViewTrans(s: Image, t: Image, u: Image)
    requires SameView(s, t) && SameView(t, u)
    ensures SameView(s, u)
  {
  }

  ghost predicate Numbered(s: Image) { forall w | w in s.cells :: s.cells[w].vbn == w }

  lemma {:induction false} OthersApart(s: Image)
    requires Coherent(s) || Sound(s)
    ensures Numbered(s)
  {
  }

  lemma {:induction false} LeftIs(m: map<nat, Index>, o: nat, v: Vbn)
    requires o in m && v in m[o]
    ensures o in Left(m, o, v) && |Left(m, o, v)[o]| < |m[o]|
  {
    assert (m[o] - {v}).Keys == m[o].Keys - {v};
    assert |(m[o] - {v}).Keys| < |m[o].Keys|;
  }

  /** Filling a new entry from disk. */
  lemma {:induction false} ReadOk(s: Image, v: Vbn)
    requires Coherent(s) && v in s.cells && v in s.index && s.cells[v].state == Empty && v in s.disk
    ensures var t := Changed(s, v, Cell(v, Clean, false, s.disk[v]));
            Coherent(t) && SameView(s, t) && (Parted(s) ==> Parted(t)) && SameElse(s, t, {v})
  {
    hide Coherent, Parted, SameElse;
    ChangedOk(s, v, Cell(v, Clean, false, s.disk[v]));
  }

  /** An object that is released with a dirty block and opened again before the next flush is left with an
      entry that the container has freed. */
  method ReopenBeforeFlush() returns (ct: ContainerCache)
    ensures fresh(ct) && Dangling(ct.Snap(), 1, 6) && !Coherent(ct.Snap())
  {
    hide Coherent, SameView, Sound, Seen, AllClean, SameElse, OnlyIn;
    var c;
    ct, c := ReleasedDirty();
    var c2 := ct.ReadBlock(1, 6);
    assert ct.objects == map[1 := map[6 := c]] && ct.Snap().cells[6].flush;
    assert 6 in ct.objects[1];
    ct.FlushAll();
  }

  /** A block is read, moved and dirtied, and its object released. */
  method ReleasedDirty() returns (ct: ContainerCache, c: BlockCache)
    ensures fresh(ct) && fresh(c) && Coherent(ct.Snap()) && Parted(ct.Snap())
    ensures ct.index == map[6 := c] && ct.objects == map[1 := map[]] && c.flush
  {
    hide Coherent, SameView, Sound, Parted, Seen, AllClean, SameElse, OnlyIn;
    ct, c := MovedBlock();
    ct.ReleaseObjCache(1, 6);
  }

  /** A block is read, and moved and dirtied. */
  method MovedBlock() returns (ct: ContainerCache, c: BlockCache)
    ensures fresh(ct) && fresh(c) && Coherent(ct.Snap()) && Parted(ct.Snap())
    ensures ct.index == map[6 := c] && ct.objects == map[1 := map[6 := c]] && c.state == Dirty
  {
    hide Coherent, SameView, Sound, Parted, Seen, AllClean, SameElse, OnlyIn;
    ct := new ContainerCache(map[5 := [0]]);
    ct.AddObject(1);
    c := ct.ReadBlock(1, 5);
    assert ct.index == map[5 := c] && ct.objects == map[1 := map[5 := c]];
    ct.MoveObjCache(1, 5, 6);
    assert ct.index == map[6 := c] && ct.objects == map[1 := map[6 := c]];
  }
}
