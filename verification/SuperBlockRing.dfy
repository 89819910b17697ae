/** The super block: eight slots written in turn, and the recovery of the newest good one. */
module SuperBlockRing {
  type u16 = n: int | 0 <= n < 65536

  const TWO_16: nat := 65536
  const SUPER_BLOCK_ID: nat := 0x4B4C4253
  const SUPER_BLOCK_SIZE: nat := 512
  const BLOCK_HEAD_SIZE: nat := 16
  const SLOTS: nat := 8

  type Data = seq<int>

  /** A block as it is stored: the header (block_head_t), the contents, and the last two bytes. */
  datatype Blk = Blk(id: nat, allocSize: nat, realSize: nat, seqNo: u16, fixup: u16, body: Data, foot: u16)

  function Blank(): Blk { Blk(0, 0, 0, 0, 0, [], 0) }

  /** A version of the super block. */
  datatype Version = Version(body: Data, foot: u16)

  function Seq(n: nat): u16 { n % TWO_16 }

  /** Version number n of the history, as it is stored. */
  function Stored(n: nat, v: Version): Blk {
    Blk(SUPER_BLOCK_ID, SUPER_BLOCK_SIZE, SUPER_BLOCK_SIZE, Seq(n), v.foot, v.body, Seq(n))
  }

  function SlotOf(n: nat): nat { n % SLOTS }

  /** The sequence number alone determines the slot, because eight divides 2^16. */
  lemma {:induction false} SlotFromSeq(n: nat)
    ensures Seq(n) % SLOTS == SlotOf(n)
  {
    assert n == TWO_16 * (n / TWO_16) + Seq(n);
    assert TWO_16 == SLOTS * 8192;
    assert n == SLOTS * (8192 * (n / TWO_16)) + Seq(n);
  }

  // ---- integrity

  function Assembled(b: Blk): Blk { b.(fixup := b.foot, foot := b.seqNo) }

  predicate Intact(b: Blk) { b.foot == b.seqNo }

  function FixedUp(b: Blk): Blk { b.(foot := b.fixup, seqNo := Seq(b.seqNo + 1)) }

  predicate Verified(b: Blk, id: nat, allocSize: nat) {
    b.id == id && b.allocSize == allocSize && BLOCK_HEAD_SIZE <= b.realSize <= b.allocSize
  }

  /** What is stored when only parts of a write arrive. */
  function Mixed(was: Blk, b: Blk, head: bool, rest: bool, tail: bool): Blk {
    var h := if head then b else was;
    Blk(h.id, h.allocSize, h.realSize, h.seqNo, h.fixup,
        if rest then b.body else was.body, if tail then b.foot else was.foot)
  }

  /** A block that is read back after assemble_block is the block, one sequence number on; and a write
      over a block of another sequence number of which not both ends arrived is noticed, unless nothing
      but contents changed. */
  lemma {:induction false} FixupDetects(was: Blk, b: Blk, head: bool, rest: bool, tail: bool)
    requires Intact(was) && was.seqNo != b.seqNo
    ensures Intact(Assembled(b)) && FixedUp(Assembled(b)) == b.(fixup := b.foot, seqNo := Seq(b.seqNo + 1))
    ensures Intact(Mixed(was, Assembled(b), head, rest, tail)) <==> head == tail
  {
  }

  // ---- the ring

  /** The slot holds version n of the history, or nothing if there is no such version yet. */
  predicate Keeps(b: Blk, n: int, hist: seq<Version>) {
    if n < 0 then b == Blank() else n < |hist| && b == Stored(n, hist[n])
  }

  /** The slot next to be written, number n: the header is still that of version n - 8 (or of an empty
      slot), or it is that of version n but the last bytes are not. */
  predicate Stale(b: Blk, n: nat) {
    if HeadNew(b, n) then !Intact(b) else if n < SLOTS then b.id == 0 else HeadOld(b, n)
  }

  predicate HeadNew(b: Blk, n: nat) {
    b.id == SUPER_BLOCK_ID && b.allocSize == SUPER_BLOCK_SIZE && b.realSize == SUPER_BLOCK_SIZE && b.seqNo == Seq(n)
  }

  predicate HeadOld(b: Blk, n: nat) {
    n >= SLOTS && HeadNew(b, n - SLOTS)
  }

  /** The version that slot i holds when n versions were written, and slot SlotOf(n) is next. */
  function Held(n: nat, i: nat): int {
    if i < SlotOf(n) then n - SlotOf(n) + i else n - SlotOf(n) + i - SLOTS
  }

  /** After |hist| complete updates: the last seven are all there, and the slot to be written next does not
      pass for a newer one. */
  ghost predicate Lasting(s: seq<Blk>, hist: seq<Version>) {
    && |s| == SLOTS && 0 < |hist|
    && (forall i | 0 <= i < SLOTS && i != SlotOf(|hist|) :: Keeps(s[i], Held(|hist|, i), hist))
    && Stale(s[SlotOf(|hist|)], |hist|)
  }

  lemma {:induction false} SlotNext(n: nat)
    ensures SlotOf(n) < SLOTS && SlotOf(n + 1) == if SlotOf(n) == SLOTS - 1 then 0 else SlotOf(n) + 1
    ensures Held(n + 1, SlotOf(n)) == n && Held(n, SlotOf(n + 1)) == n + 1 - SLOTS
    ensures forall i | 0 <= i < SLOTS && i != SlotOf(n) && i != SlotOf(n + 1) :: Held(n + 1, i) == Held(n, i)
  {
  }

  lemma {:induction false} KeepsLonger(b: Blk, n: int, hist: seq<Version>, v: Version)
    requires Keeps(b, n, hist)
    ensures Keeps(b, n, hist + [v])
  {
  }

  /** Eight versions apart have different sequence numbers. */
  lemma {:induction false} SeqApart(n: nat)
    ensures n >= SLOTS ==> Seq(n - SLOTS) != Seq(n)
    ensures 0 < n < SLOTS ==> Seq(n) != 0
  {
  }

  /** A slot that holds the version before last may be written next. */
  lemma {:induction false} KeptIsStale(b: Blk, n: nat, hist: seq<Version>)
    requires Keeps(b, n - SLOTS, hist)
    ensures Stale(b, n) && (0 < n ==> b.foot != Seq(n)) && !HeadNew(b, n)
  {
    SeqApart(n);
  }

  /** Completing the next update. */
  lemma {:induction false} LastingNext(s: seq<Blk>, hist: seq<Version>, v: Version)
    requires Lasting(s, hist)
    ensures var n := |hist|; Lasting(s[SlotOf(n) := Stored(n, v)], hist + [v])
  {
    hide Keeps, Stale, Held, SlotOf;
    var n := |hist|;
    SlotNext(n);
    SlotNext(n + 1);
    var t, h := s[SlotOf(n) := Stored(n, v)], hist + [v];
    var m := SlotOf(n + 1);
    forall i | 0 <= i < SLOTS && i != m ensures Keeps(t[i], Held(n + 1, i), h) {
      if i != SlotOf(n) {
        KeepsLonger(s[i], Held(n, i), hist, v);
      } else {
        StoredKept(n, v, hist);
      }
    }
    KeptIsStale(s[m], n + 1, hist);
  }

  lemma {:induction false} StoredKept(n: nat, v: Version, hist: seq<Version>)
    requires n == |hist|
    ensures Keeps(Stored(n, v), n, hist + [v])
  {
  }

  /** Both ends of the slot are of version n after a write of which some parts arrived. */
  predicate BothEnds(b: Blk, n: nat, head: bool, tail: bool) {
    (head || HeadNew(b, n)) && (tail || b.foot == Seq(n))
  }

  /** What the slot then passes for; the last two bytes of the contents are kept in the header. */
  function Blend(b: Blk, v: Version, head: bool, rest: bool): Version {
    Version(if rest then v.body else b.body, if head then v.foot else b.fixup)
  }

  /** The versions that recovery counts after a torn write of v. */
  function AfterTear(hist: seq<Version>, b: Blk, v: Version, head: bool, rest: bool, tail: bool): seq<Version> {
    if BothEnds(b, |hist|, head, tail) then hist + [Blend(b, v, head, rest)] else hist
  }

  /** A write of the next version of which some parts arrive leaves a ring like any other.  Only with both
      ends of the slot of that version is there one more version, made of what the slot now holds. */
  lemma {:induction false} LastingTorn(s: seq<Blk>, hist: seq<Version>, v: Version, head: bool, rest: bool, tail: bool)
    requires Lasting(s, hist)
    ensures var n := |hist|;
            && SlotOf(n) < |s|
            && var b := s[SlotOf(n)];
               Lasting(s[SlotOf(n) := Mixed(b, Stored(n, v), head, rest, tail)],
                   AfterTear(hist, b, v, head, rest, tail))
  {
    hide Keeps, Held;
    var n := |hist|;
    SlotNext(n);
    SeqApart(n);
    var b := s[SlotOf(n)];
    var c := Mixed(b, Stored(n, v), head, rest, tail);
    if BothEnds(b, n, head, tail) {
      assert c == Stored(n, Blend(b, v, head, rest));
      LastingNext(s, hist, Blend(b, v, head, rest));
    } else {
      var t := s[SlotOf(n) := c];
      forall i | 0 <= i < SLOTS && i != SlotOf(n) ensures Keeps(t[i], Held(n, i), hist) {
        assert Keeps(s[i], Held(n, i), hist);
      }
      assert Stale(t[SlotOf(n)], n);
    }
  }

  /** A torn write over a slot that still holds the version eight before, or nothing, adds no version. */
  lemma {:induction false} FirstTear(hist: seq<Version>, b: Blk, v: Version, head: bool, rest: bool, tail: bool)
    requires 0 < |hist| && Keeps(b, |hist| - SLOTS, hist) && !(head && tail)
    ensures AfterTear(hist, b, v, head, rest, tail) == hist
  {
    hide Keeps, HeadNew;
    KeptIsStale(b, |hist|, hist);
  }

  /** Two torn writes of the same version that together bring everything add just that version. */
  lemma {:induction false} TearsComplete(hist: seq<Version>, b: Blk, v: Version, head: bool, rest: bool, tail: bool)
    ensures var c := Mixed(b, Stored(|hist|, v), head, rest, tail);
            AfterTear(hist, c, v, !head, !rest, !tail) == hist + [v]
  {
  }

  /** What recovery returns after a torn write of v: the version it would have returned before, exactly
      when not both ends are new (or the slot happens to hold that version's contents again); v, exactly when both
      are and the contents and the bytes kept in the header are v's; otherwise something made of two writes. */
  lemma {:induction false} Recovered(hist: seq<Version>, b: Blk, v: Version, head: bool, rest: bool, tail: bool)
    requires 0 < |hist|
    ensures var t := AfterTear(hist, b, v, head, rest, tail); var r := t[|t| - 1];
        var both := BothEnds(b, |hist|, head, tail);
            && (|t| == |hist| <==> !both)
            && (!both ==> r == hist[|hist| - 1])
            && (both ==> (r == v <==> (rest || b.body == v.body) && (head || b.fixup == v.foot)))
            && (r != v && r != hist[|hist| - 1] <==>
                  && both && ((!rest && b.body != v.body) || (!head && b.fixup != v.foot))
                  && Blend(b, v, head, rest) != hist[|hist| - 1])
  {
  }

  // ---- finding the newest block

  /** Slot i continues the run of sequence numbers. */
  predicate Follows(s: seq<Blk>, i: nat) {
    0 < i < |s| && s[i].id != 0 && s[i - 1].seqNo + 1 == s[i].seqNo
  }

  /** Where the search for the newest block starts: at the slot to be written next, if its header is new. */
  function Start(s: seq<Blk>, n: nat): nat {
    if SlotOf(n) < |s| && HeadNew(s[SlotOf(n)], n) then SlotOf(n) else (SlotOf(n) + SLOTS - 1) % SLOTS
  }

  lemma {:induction false} SeqStep(n: nat)
    ensures Seq(n) + 1 == Seq(n + 1) <==> Seq(n + 1) != 0
    ensures SlotOf(n + 1) != 0 ==> Seq(n + 1) != 0
  {
    SlotFromSeq(n + 1);
  }

  /** Neighbouring slots that hold consecutive versions follow each other. */
  lemma {:induction false} KeptFollow(s: seq<Blk>, i: nat, k: nat, hist: seq<Version>)
    requires 0 < i < |s| && Keeps(s[i], k + 1, hist) && s[i - 1].seqNo == Seq(k) && SlotOf(k + 1) == i
    ensures Follows(s, i)
  {
    SeqStep(k);
  }

  lemma {:induction false} HeldSlot(n: nat, i: nat)
    requires i < SLOTS
    ensures 0 <= Held(n, i) ==> SlotOf(Held(n, i)) == i
    ensures 0 < i && i != SlotOf(n) ==> Held(n, i) == Held(n, i - 1) + 1
    ensures i == SlotOf(n) ==> Held(n, i) == n - SLOTS && (0 < i ==> Held(n, i - 1) == n - 1)
    ensures Held(n, i) < n && -8 < Held(n, i) + 1
    ensures i < SlotOf(n) ==> 0 <= Held(n, i)
    ensures SlotOf(n) == 0 && 0 < n ==> SLOTS <= n && 0 <= Held(n, i)
  {
  }

  /** Which slots follow their neighbour. */
  lemma {:induction false} FollowsWhere(s: seq<Blk>, hist: seq<Version>, i: nat)
    requires Lasting(s, hist) && 0 < i < SLOTS
    ensures var n := |hist|; var m := SlotOf(n);
            && (i < m ==> Follows(s, i))
            && (i == m ==> (Follows(s, i) <==> HeadNew(s[m], n)))
            && (i == m + 1 && HeadNew(s[m], n) ==> !Follows(s, i))
            && (m == 0 && !HeadNew(s[0], n) ==> Follows(s, i))
  {
    hide Held, SlotOf;
    var n := |hist|;
    var m := SlotOf(n);
    HeldSlot(n, i);
    HeldSlot(n, i - 1);
    SlotNext(n);
    assert i != m ==> Keeps(s[i], Held(n, i), hist);
    assert i - 1 != m ==> Keeps(s[i - 1], Held(n, i - 1), hist);
    if i < m {
      KeptFollow(s, i, Held(n, i - 1), hist);
    } else if i == m {
      SeqStep(n - 1);
      SeqFar(n - 1);
    } else if i == m + 1 && HeadNew(s[m], n) {
      SeqFar(n);
    } else if m == 0 && !HeadNew(s[0], n) {
      KeptFollow(s, i, Held(n, i - 1), hist);
    }
  }

  lemma {:induction false} SeqFar(n: nat)
    ensures n >= 7 ==> Seq(n) + 1 != Seq(n - 7)
  {
  }

  /** The run of consecutive sequence numbers from slot 0 ends at Start. */
  lemma {:induction false} RunEnds(s: seq<Blk>, hist: seq<Version>, i: nat)
    requires Lasting(s, hist) && 0 < i <= SLOTS && (forall j | 0 < j < i :: Follows(s, j))
        && (i < SLOTS ==> !Follows(s, i))
    ensures i - 1 == Start(s, |hist|)
  {
    hide Lasting, Follows, Keeps, Stale;
    var n := |hist|;
    var m := SlotOf(n);
    if 0 < m { FollowsWhere(s, hist, m); }
    if i < SLOTS { FollowsWhere(s, hist, i); }
    if m + 1 < SLOTS { FollowsWhere(s, hist, m + 1); }
    LastingSize(s, hist);
  }

  lemma {:induction false} LastingSize(s: seq<Blk>, hist: seq<Version>)
    requires Lasting(s, hist)
    ensures |s| == SLOTS && 0 < |hist| && s[0].id != 0
    ensures HeadNew(s[SlotOf(|hist|)], |hist|) ==> !Intact(s[SlotOf(|hist|)]) && s[SlotOf(|hist|)].id != 0
    ensures var k := (SlotOf(|hist|) + SLOTS - 1) % SLOTS; s[k] == Stored(|hist| - 1, hist[|hist| - 1])
  {
    var n := |hist|;
    var k := (SlotOf(n) + SLOTS - 1) % SLOTS;
    assert k != SlotOf(n) && Held(n, k) == n - 1;
    assert Keeps(s[k], Held(n, k), hist);
    if SlotOf(n) != 0 { assert Keeps(s[0], Held(n, 0), hist); }
  }

  /** A slot that may be returned: a super block of the right size whose two ends agree. */
  predicate Good(b: Blk) {
    && b.id == SUPER_BLOCK_ID && b.allocSize == SUPER_BLOCK_SIZE && BLOCK_HEAD_SIZE <= b.realSize <= SUPER_BLOCK_SIZE
    && b.foot == b.seqNo
  }

  /** The slot k before slot e. */
  function Back(e: nat, k: nat): nat
    requires k <= SLOTS
  {
    (e + SLOTS - k) % SLOTS
  }

  /** The run of consecutive sequence numbers from slot 0 on ends at slot e. */
  ghost predicate RunTo(s: seq<Blk>, e: nat) {
    && |s| == SLOTS && e < SLOTS
    && (s[0].id == 0 ==> e == 0)
    && (forall j | 0 < j <= e :: Follows(s, j))
    && (s[0].id != 0 && e + 1 < SLOTS ==> !Follows(s, e + 1))
  }

  /** The k slots from slot e backwards were written, and are not good. */
  ghost predicate BadBack(s: seq<Blk>, e: nat, k: nat) {
    |s| == SLOTS && k <= SLOTS && forall j | 0 <= j < k :: s[Back(e, j)].id != 0 && !Good(s[Back(e, j)])
  }

  /** The first good slot back from the end of the run holds the newest complete version. */
  lemma {:induction false} LastingFound(s: seq<Blk>, hist: seq<Version>, e: nat, k: nat)
    requires Lasting(s, hist) && RunTo(s, e) && BadBack(s, e, k)
    requires k < SLOTS ==> s[Back(e, k)].id == 0 || Good(s[Back(e, k)])
    ensures k < SLOTS && Good(s[Back(e, k)]) && s[Back(e, k)] == Stored(|hist| - 1, hist[|hist| - 1])
  {
    hide Lasting, Follows, Start, Keeps, Stale;
    var n := |hist|;
    LastingSize(s, hist);
    RunEnds(s, hist, e + 1);
    StartIs(s, n);
    var m := SlotOf(n);
    var b := (m + SLOTS - 1) % SLOTS;
    assert Good(s[b]);
    if HeadNew(s[m], n) {
      assert Back(e, 0) == m && Back(e, 1) == b;
    } else {
      assert Back(e, 0) == b;
    }
  }

  class SuperBlock {
    var blk: Blk

    constructor (body: Data, foot: u16)
      ensures blk == Blk(SUPER_BLOCK_ID, SUPER_BLOCK_SIZE, SUPER_BLOCK_SIZE, 0, 0, body, foot)
    {
      blk := Blk(SUPER_BLOCK_ID, SUPER_BLOCK_SIZE, SUPER_BLOCK_SIZE, 0, 0, body, foot);
    }

    /** A version ready to be written as number n. */
    predicate Ready(n: nat)
      reads this
    {
      HeadNew(blk, n)
    }

    function TheVersion(): Version
      reads this
    {
      Version(blk.body, blk.foot)
    }

    /** assemble_block */
    method AssembleBlock()
      modifies this
      ensures blk == Assembled(old(blk))
    {
      blk := blk.(fixup := blk.foot);
      blk := blk.(foot := blk.seqNo);
    }

    /** fixup_block */
    method FixupBlock() returns (ok: bool)
      modifies this
      ensures ok == Intact(old(blk)) && blk == if ok then FixedUp(old(blk)) else old(blk)
    {
      if blk.foot != blk.seqNo {
        return false;
      }
      blk := blk.(foot := blk.fixup);
      blk := blk.(seqNo := (blk.seqNo + 1) % TWO_16);
      return true;
    }
  }

  class Ring {
    const slots: array<Blk>
    ghost var hist: seq<Version>

    ghost predicate Ok()
      reads this, slots
    {
      slots.Length == SLOTS && Lasting(slots[..], hist)
    }

    constructor ()
      ensures fresh(slots) && slots.Length == SLOTS && hist == []
    {
      slots := new Blk[SLOTS](i => Blank());
      hist := [];
    }

    /** ofs_update_block_pingpong_init: the first version, with all other slots empty. */
    method UpdateInit(sb: SuperBlock)
      requires slots.Length == SLOTS && sb.Ready(0)
      modifies this`hist, slots, sb
      ensures Ok() && hist == [old(sb.TheVersion())] && sb.Ready(1) && sb.TheVersion() == old(sb.TheVersion())
      ensures forall i | 0 < i < SLOTS :: slots[i] == Blank()
    {
      ghost var v := sb.TheVersion();
      sb.AssembleBlock();
      forall i | 0 <= i < SLOTS { slots[i] := Blank(); }
      slots[sb.blk.seqNo % SLOTS] := sb.blk;
      var ok := sb.FixupBlock();
      hist := [v];
      InitLasting(slots[..], v);
    }

    /** ofs_update_block_pingpong: the next version. */
    method Update(sb: SuperBlock)
      requires Ok() && sb.Ready(|hist|)
      modifies this`hist, slots, sb
      ensures Ok() && hist == old(hist) + [old(sb.TheVersion())]
      ensures sb.Ready(|hist|) && sb.TheVersion() == old(sb.TheVersion())
    {
      hide Lasting;
      ghost var s, v, n := slots[..], sb.TheVersion(), |hist|;
      sb.AssembleBlock();
      SlotFromSeq(n);
      LastingNext(s, hist, v);
      slots[sb.blk.seqNo % SLOTS] := sb.blk;
      assert slots[..] == s[SlotOf(n) := Stored(n, v)];
      var ok := sb.FixupBlock();
      NextSeq(n);
      hist := hist + [v];
    }

    /** The system stops while the next version is written: the header, the contents and the last bytes
        arrive or not.  What recovery finds afterwards is the last version of hist: the one it would have
        found before, unless both ends of the slot are of the new version. */
    method TornUpdate(sb: SuperBlock, head: bool, rest: bool, tail: bool)
      requires Ok() && sb.Ready(|hist|)
      modifies this`hist, slots, sb
      ensures Ok()
      ensures hist == AfterTear(old(hist), old(slots[SlotOf(|hist|)]), old(sb.TheVersion()), head, rest, tail)
      ensures slots[..] == old(slots[..])[SlotOf(|old(hist)|) := slots[SlotOf(|old(hist)|)]]
      ensures slots[SlotOf(|old(hist)|)] == Mixed(old(slots[SlotOf(|hist|)]), Stored(|old(hist)|, old(sb.TheVersion())),
          head, rest, tail)
    {
      hide Lasting, AfterTear;
      ghost var s, v, n := slots[..], sb.TheVersion(), |hist|;
      sb.AssembleBlock();
      SlotFromSeq(n);
      LastingTorn(s, hist, v, head, rest, tail);
      var i := sb.blk.seqNo % SLOTS;
      hist := AfterTear(hist, slots[i], v, head, rest, tail);
      slots[i] := Mixed(slots[i], sb.blk, head, rest, tail);
      assert slots[..] == s[SlotOf(n) := Mixed(s[SlotOf(n)], Stored(n, v), head, rest, tail)];
    }

    /** get_last_correct_block on a buffer read from the ring, whatever it holds: the run of consecutive sequence
        numbers is followed to its end, slot e, and from there k slots back to the first that is good; -1 when a slot
        that was never written comes first, or none is good. */
    method GetLastCorrectBlock(buf: array<Blk>) returns (found: int, ghost e: nat, ghost k: nat)
      requires buf.Length == SLOTS
      modifies buf
      ensures k <= SLOTS && RunTo(old(buf[..]), e) && BadBack(old(buf[..]), e, k)
      ensures if 0 <= found then k < SLOTS && found == Back(e, k) && Good(old(buf[..])[found])
              else buf[..] == old(buf[..]) && (k == SLOTS || old(buf[..])[Back(e, k)].id == 0)
      ensures -1 <= found < SLOTS
      ensures 0 <= found ==> buf[..] == old(buf[..])[found := FixedUp(old(buf[..])[found])]
      ensures Lasting(old(buf[..]), hist) ==>
                0 <= found && buf[found] == FixedUp(Stored(|hist| - 1, hist[|hist| - 1]))
    {
      hide Lasting, Follows, Start;
      ghost var s := buf[..];
      var prevI := RunEnd(buf);
      e := prevI;
      k := 0;
      var i := 0;
      while i < buf.Length
        invariant 0 <= i <= buf.Length && buf[..] == s && k == i && BadBack(s, e, k)
        invariant prevI == Back(e, i)
      {
        var blk := buf[prevI];
        assert blk == s[prevI];
        if blk.id == 0 {
          // not written yet
          break;
        }
        if Verified(blk, SUPER_BLOCK_ID, SUPER_BLOCK_SIZE) && Intact(blk) {
          buf[prevI] := FixedUp(blk);
          if Lasting(s, hist) { LastingFound(s, hist, e, k); }
          return prevI, e, k;
        }
        if prevI == 0 {
          prevI := buf.Length;
        }
        prevI := prevI - 1;
        i := i + 1;
        k := i;
      }
      if Lasting(s, hist) { LastingFound(s, hist, e, k); }
      return -1, e, k;
    }

    /** The first loop of get_last_correct_block. */
    method RunEnd(buf: array<Blk>) returns (prevI: nat)
      requires buf.Length == SLOTS
      ensures RunTo(buf[..], prevI)
    {
      hide Follows;
      ghost var s := buf[..];
      var i := 0;
      prevI := 0;
      var prevSeqNo: int := 0;
      while i < buf.Length
        invariant 0 <= i <= buf.Length && prevI == (if i == 0 then 0 else i - 1)
            && (0 < i ==> prevSeqNo == s[i - 1].seqNo && s[0].id != 0)
        invariant forall j | 0 < j < i :: Follows(s, j)
      {
        var blk := buf[i];
        FollowsIs(s, i);
        if blk.id == 0 {
          break;
        }
        if i != 0 && prevSeqNo + 1 != blk.seqNo {
          break;
        }
        prevSeqNo := blk.seqNo;
        prevI := i;
        i := i + 1;
      }
    }

    /** ofs_read_block_pingpong: the newest version that was written completely, ready for the next number. */
    method Recover() returns (sb: SuperBlock)
      requires Ok()
      ensures fresh(sb) && sb.TheVersion() == hist[|hist| - 1] && sb.Ready(|hist|)
    {
      hide Lasting, RunTo, BadBack;
      LastingSize(slots[..], hist);
      var buf := new Blk[SLOTS](i requires 0 <= i < SLOTS reads this, slots => slots[i]);
      assert buf[..] == slots[..];
      var found;
      ghost var e, k;
      found, e, k := GetLastCorrectBlock(buf);
      sb := new SuperBlock([], 0);
      sb.blk := buf[found];
      NextSeq(|hist| - 1);
    }
  }

  /** Two torn writes of different versions, the first of which brings the header only and the second the
      last bytes only: recovery returns what was never written. */
  method TwoTears(v0: Version, v1: Version, v2: Version) returns (found: SuperBlock)
    requires v0.body != [] && v1.body != [] && v2.body != []
    ensures found.TheVersion() == Version([], v1.foot) && found.TheVersion() !in {v0, v1, v2}
  {
    hide Lasting, AfterTear;
    var ring := new Ring();
    var sb := new SuperBlock(v0.body, v0.foot);
    ring.UpdateInit(sb);
    sb.blk := sb.blk.(body := v1.body, foot := v1.foot);
    ring.TornUpdate(sb, true, false, false);
    HeadOnly([v0], v1, v2);
    sb := ring.Recover();
    assert sb.TheVersion() == v0;
    sb.blk := sb.blk.(body := v2.body, foot := v2.foot);
    ring.TornUpdate(sb, false, false, true);
    found := ring.Recover();
  }

  lemma {:induction false} HeadOnly(hist: seq<Version>, v: Version, u: Version)
    requires |hist| == 1
    ensures AfterTear(hist, Blank(), v, true, false, false) == hist
    ensures AfterTear(hist, Mixed(Blank(), Stored(1, v), true, false, false), u, false, false, true)
        == hist + [Version([], v.foot)]
  {
  }

  lemma {:induction false} InitLasting(s: seq<Blk>, v: Version)
    requires |s| == SLOTS && s[0] == Stored(0, v) && forall i | 0 < i < SLOTS :: s[i] == Blank()
    ensures Lasting(s, [v])
  {
  }

  lemma {:induction false} NextSeq(n: nat)
    ensures Seq(Seq(n) + 1) == Seq(n + 1)
  {
  }

  lemma {:induction false} FollowsIs(s: seq<Blk>, i: nat)
    requires i < |s|
    ensures Follows(s, i) <==> 0 < i && s[i].id != 0 && s[i - 1].seqNo + 1 == s[i].seqNo
  {
  }

  lemma {:induction false} StartIs(s: seq<Blk>, n: nat)
    requires |s| == SLOTS
    ensures Start(s, n) == if HeadNew(s[SlotOf(n)], n) then SlotOf(n) else (SlotOf(n) + SLOTS - 1) % SLOTS
  {
  }
}
