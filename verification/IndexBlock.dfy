/** An index block as the buffer it is: entries are inserted, removed, copied and cut by moving bytes. */
module IndexBlock {
  import opened IndexLayout
  import opened IndexTreeShape
  import opened IndexTreeEdit
  import opened IndexTreeSplit
  import opened Collate
  import opened IndexBlockBytes
  import opened IndexBlockEdit

  // Offset of begin_entry, just before the first entry.
  const BEGIN_OFF: nat := HEAD_SIZE - ENTRY_HEAD_SIZE

  /** Well-formed entries of one block: all with or all without child, END last. */
  ghost predicate Formed(es: seq<Entry>, node: bool) {
    && 0 < |es|
    && forall i | 0 <= i < |es| ::
         Encodable(es[i]) && es[i].node == node && (es[i].end <==> i == |es| - 1)
             && (es[i].end ==> es[i].kv == KV([], []))
  }

  function BeginBytes(): seq<u8> {
    Memory(ENTRY_HEAD_SIZE, 2) + Memory(0, 2) + Memory(0, 2) + Memory(0, 2) + [FLAG_BEGIN]
  }

  /** The buffer b holds exactly the entries es, between BEGIN and position size. */
  ghost predicate Contains(b: seq<u8>, size: nat, es: seq<Entry>) {
    && HEAD_SIZE <= size == RealSize(es) <= |b|
    && b[BEGIN_OFF..HEAD_SIZE] == BeginBytes()
    && Lies(b, HEAD_SIZE, es, ENTRY_HEAD_SIZE)
  }

  predicate HasFlag(flags: u8, f: u8)
    requires f != 0
  {
    (flags / f) % 2 == 1
  }

  lemma {:induction false} FlagsOf(e: Entry)
    ensures HasFlag(Flags(e), FLAG_NODE) == e.node && HasFlag(Flags(e), FLAG_END) == e.end
  {
  }

  lemma {:induction false} TwoBytes(b: seq<u8>)
    requires |b| == 2
    ensures LittleEndian(b) == b[0] as int + 256 * b[1] as int
  {
    assert b[1..][1..] == [];
    assert LittleEndian(b[1..]) == b[1] + 256 * LittleEndian([]);
  }

  lemma {:induction false} FormedTail(es: seq<Entry>, node: bool, i: nat)
    requires Formed(es, node) && i < |es|
    ensures Formed(es[i..], node)
  {
  }

  lemma {:induction false} FormedDelete(es: seq<Entry>, node: bool, i: nat)
    requires Formed(es, node) && i < |es| - 1
    ensures Formed(Delete(es, i), node)
  {
  }

  lemma {:induction false} FormedInsert(es: seq<Entry>, node: bool, i: nat, e: Entry)
    requires Formed(es, node) && i < |es| && Encodable(e) && e.node == node && !e.end
    ensures Formed(Insert(es, i, e), node)
  {
  }

  lemma {:induction false} FormedCut(es: seq<Entry>, node: bool, k: nat)
    requires Formed(es, node) && k < |es|
    ensures Formed(CutEntries(es, k), node)
  {
  }

  lemma {:induction false} PrevLenBound(es: seq<Entry>, node: bool, i: nat)
    requires Formed(es, node) && i <= |es|
    ensures ENTRY_HEAD_SIZE <= PrevLen(es, i) < TWO_16
  {
    if i > 0 { assert Encodable(es[i - 1]); }
  }

  lemma {:induction false} BeginLen()
    ensures |BeginBytes()| == ENTRY_HEAD_SIZE && LittleEndian(BeginBytes()[..2]) == ENTRY_HEAD_SIZE
  {
    Word(ENTRY_HEAD_SIZE);
    assert BeginBytes()[..2] == Memory(ENTRY_HEAD_SIZE, 2);
  }

  /** What can be read at entry i of a block. */
  lemma {:induction false} EntryAt(b: seq<u8>, size: nat, es: seq<Entry>, node: bool, i: nat)
    requires Contains(b, size, es) && Formed(es, node) && i < |es|
    ensures var off, n := Off(es, i), Len(es[i]);
            && ENTRY_HEAD_SIZE <= n && HEAD_SIZE <= off && off + n <= size <= |b|
            && LittleEndian(b[off..off + 2]) == n
            && LittleEndian(b[off + PREV_OFF..off + PREV_OFF + 2]) == PrevLen(es, i)
            && b[off + FLAGS_OFF] == Flags(es[i])
            && (es[i].node ==> VBN_SIZE <= n && LittleEndian(b[off + n - VBN_SIZE..off + n]) == es[i].vbn)
            && b[off..off + n] == EntryBytes(es[i], PrevLen(es, i))
            && es[i].node == node && (es[i].end <==> i == |es| - 1)
  {
    hide Lies, SumLen, EntryBytes, LittleEndian, Memory;
    LiesAt(b, es, i);
    PrevLenBound(es, node, i);
    assert Encodable(es[i]);
    LiesHead(b, Off(es, i), es[i..], PrevLen(es, i));
    OffNext(es, i);
  }

  class IndexBlock {
    const buf: array<u8>
    var realSize: nat
    ghost var entries: seq<Entry>
    // INDEX_BLOCK_LARGE
    var large: bool

    ghost predicate Valid()
      reads this, buf
    {
      Formed(entries, large) && Contains(buf[..], realSize, entries)
    }

    /** Allocated memory, before init_ib. */
    constructor (allocSize: nat)
      requires HEAD_SIZE <= allocSize
      ensures fresh(buf) && buf.Length == allocSize
    {
      buf := new u8[allocSize](i => 0);
      realSize, entries, large := 0, [], false;
    }

    // ---- reading and writing memory

    method Get16(off: nat) returns (v: nat)
      requires off + 2 <= buf.Length
      ensures v == LittleEndian(buf[off..off + 2])
    {
      TwoBytes(buf[off..off + 2]);
      v := buf[off] as int + 256 * buf[off + 1] as int;
    }

    method Get64(off: nat) returns (v: nat)
      requires off + VBN_SIZE <= buf.Length
      ensures v == LittleEndian(buf[off..off + VBN_SIZE])
    {
      v := LittleEndian(buf[off..off + VBN_SIZE]);
    }

    /** memcpy of bytes that are not in the buffer. */
    method Put(off: nat, m: seq<u8>)
      requires off + |m| <= buf.Length
      modifies buf
      ensures buf[..] == Patch(old(buf[..]), off, m)
    {
      forall i | 0 <= i < |m| {
        buf[off + i] := m[i];
      }
    }

    method MemMove(dst: nat, src: nat, n: nat)
      requires dst + n <= buf.Length && src + n <= buf.Length
      modifies buf
      ensures buf[..] == Patch(old(buf[..]), dst, old(buf[src..src + n]))
    {
      forall i | 0 <= i < n {
        buf[dst + i] := buf[src + i];
      }
    }

    // ---- from entry to entry

    /** GET_NEXT_IE */
    method NextIe(off: nat, ghost i: nat) returns (next: nat)
      requires Valid() && i < |entries| && off == Off(entries, i)
      ensures next == Off(entries, i + 1)
    {
      EntryAt(buf[..], realSize, entries, large, i);
      OffNext(entries, i);
      assert buf[..][off..off + 2] == buf[off..off + 2];
      var len := Get16(off);
      next := off + len;
    }

    /** GET_PREV_IE: the entry before, or BEGIN. */
    method PrevIe(off: nat, ghost i: nat) returns (prev: nat)
      requires Valid() && i < |entries| && off == Off(entries, i)
      ensures prev == if i == 0 then BEGIN_OFF else Off(entries, i - 1)
    {
      EntryAt(buf[..], realSize, entries, large, i);
      if i > 0 { OffNext(entries, i - 1); }
      assert buf[..][off + PREV_OFF..off + PREV_OFF + 2] == buf[off + PREV_OFF..off + PREV_OFF + 2];
      var len := Get16(off + PREV_OFF);
      prev := off - len;
    }

    /** get_entries_length: from an entry to the end of END. */
    method GetEntriesLength(start: nat, ghost es: seq<Entry>, ghost prev: nat, ghost node: bool) returns (len: nat)
      requires Lies(buf[..], start, es, prev) && Formed(es, node) && prev < TWO_16
      ensures len == SumLen(es)
    {
      hide Lies, SumLen;
      var off: nat := start;
      ghost var rest, q: nat := es, prev;
      len := 0;
      while true
        invariant Formed(rest, node) && q < TWO_16 && len + SumLen(rest) == SumLen(es)
        invariant Lies(buf[..], off, rest, q)
        decreases |rest|
      {
        LiesHead(buf[..], off, rest, q);
        FlagsOf(rest[0]);
        SumOne(rest);
        assert buf[..][off..off + 2] == buf[off..off + 2];
        var n := Get16(off);
        if HasFlag(buf[off + FLAGS_OFF], FLAG_END) {
          assert rest[1..] == [];
          SumNone();
          return len + n;
        }
        len := len + n;
        off := off + n;
        FormedTail(rest, node, 1);
        rest, q := rest[1..], n;
      }
    }

    /** get_middle_ie */
    method GetMiddleIe() returns (off: nat, ghost k: nat)
      requires Valid()
      ensures k == Middle(entries) < |entries| && off == Off(entries, k)
      ensures 2 * (off - HEAD_SIZE) + 1 < realSize - HEAD_SIZE
      ensures entries[k].end || realSize - HEAD_SIZE <= 2 * (off + Len(entries[k]) - HEAD_SIZE) + 1
    {
      hide Contains, Formed, Lies, SumLen, EntryBytes, LittleEndian, Len, Encodable;
      SizeFacts(buf[..], realSize, entries);
      FormedEnds(entries, large);
      MiddleOnly(entries, Middle(entries));
      SumLenAt(entries, Middle(entries));
      var midPos: nat := (realSize - HEAD_SIZE) / 2;
      off := HEAD_SIZE;
      k := 0;
      while true
        invariant k < |entries| && off == Off(entries, k) && MidFrom(entries, k, midPos) == Middle(entries)
        decreases |entries| - k
      {
        EntryAt(buf[..], realSize, entries, large, k);
        FlagsOf(entries[k]);
        if HasFlag(buf[off + FLAGS_OFF], FLAG_END) {
          break;
        }
        assert buf[..][off..off + 2] == buf[off..off + 2];
        var len := Get16(off);
        if midPos > len {
          midPos := midPos - len;
          off := NextIe(off, k);
          k := k + 1;
        } else {
          break;
        }
      }
    }

    // ---- editing

    /** init_ib: nothing but BEGIN and END. */
    method InitIb(large: bool)
      requires HEAD_SIZE + ENTRY_HEAD_SIZE + VBN_SIZE <= buf.Length
      modifies this, buf
      ensures Valid() && this.large == large && entries == [EndEntry(large, 0)]
      ensures buf[..][BEGIN_OFF..HEAD_SIZE] == BeginBytes()
    {
      hide Contains, Formed, Patch, EntryBytes, BeginBytes, SumLen;
      var e := EndEntry(large, 0);
      forall i | 0 <= i < buf.Length {
        buf[i] := 0;
      }
      this.large := large;
      realSize := HEAD_SIZE + ENTRY_HEAD_SIZE + if large then VBN_SIZE else 0;
      entries := [e];
      InitFacts(buf[..], large);
      Put(HEAD_SIZE, EntryBytes(e, ENTRY_HEAD_SIZE));
      Put(BEGIN_OFF, BeginBytes());
    }

    /** remove_ie: entry i, at offset off, is removed. */
    method RemoveIe(off: nat, ghost i: nat)
      requires Valid() && i < |entries| - 1 && off == Off(entries, i)
      modifies this`realSize, this`entries, buf
      ensures Valid() && entries == Delete(old(entries), i)
    {
      hide Contains, Lies, Patch, Formed, SumLen, Off;
      ghost var b, es := buf[..], entries;
      RemoveFacts(b, realSize, es, large, i);
      var len := Get16(off);
      realSize := realSize - len;
      var next := off + len;
      var prev := Get16(off + PREV_OFF);
      Put(next + PREV_OFF, Memory(prev, 2));
      var n := GetEntriesLength(next, es[i + 1..], PrevLen(es, i), large);
      MemMove(off, next, n);
      entries := Delete(es, i);
    }

    /** insert_ie: the entry in ie is put before entry i, which is at offset off. */
    method InsertIe(ie: array<u8>, off: nat, ghost e: Entry, ghost q: nat, ghost i: nat)
      requires Valid() && i < |entries| && off == Off(entries, i) && ie != buf
      requires Encodable(e) && e.node == large && !e.end && ie[..] == EntryBytes(e, q)
      requires RealSize(entries) + Len(e) <= buf.Length
      modifies this`realSize, this`entries, buf, ie
      ensures Valid() && entries == Insert(old(entries), i, e)
    {
      hide Contains, Lies, Patch, Formed, SumLen, Off, PrevLen, EntryBytes, Memory, LittleEndian, Len, RealSize, Insert;
      ghost var b, es := buf[..], entries;
      InsertFacts(b, realSize, es, large, i, e, q, ie[..]);
      var len := ie[0] as int + 256 * ie[1] as int;
      realSize := realSize + len;
      var prev := Get16(off + PREV_OFF);
      ie[PREV_OFF], ie[PREV_OFF + 1] := prev % 256, prev / 256;
      EntryPrev(e, q, prev, ie[..]);
      Put(off + PREV_OFF, Memory(len, 2));
      var n := GetEntriesLength(off, es[i..], len, large);
      MemMove(off + len, off, n);
      Put(off, ie[..]);
      entries := Insert(es, i, e);
    }

    /** What split_ib works on between copy_ib_tail and cut_ib_tail: the entries after the middle entry
        form a run of their own. */
    ghost predicate HalfCut(k: nat)
      reads this, buf
    {
      && k < |entries| - 1 && Formed(entries, large)
      && HEAD_SIZE <= realSize == RealSize(entries) <= buf.Length
      && HalfLies(buf[..], entries, k)
    }

    /** copy_ib_tail into this block: the entries of src behind entry k, which is at offset mid. */
    method CopyIbTail(src: IndexBlock, mid: nat, ghost k: nat)
      requires src.Valid() && k < |src.entries| - 1 && mid == Off(src.entries, k)
      requires src != this && src.buf != buf && buf.Length == src.buf.Length
      requires HEAD_SIZE + ENTRY_HEAD_SIZE + VBN_SIZE <= buf.Length
      modifies this, buf, src.buf
      ensures Valid() && large == src.large && entries == src.entries[k + 1..]
      ensures src.HalfCut(k)
    {
      hide Contains, Lies, Patch, Formed, SumLen, Off, EntryBytes, HalfLies;
      ghost var b, es := src.buf[..], src.entries;
      SizeFacts(b, src.realSize, es);
      InitIb(src.large);
      TailFacts(b, src.realSize, es, large, k, buf[..]);
      var off := src.NextIe(mid, k);
      src.Put(off + PREV_OFF, Memory(ENTRY_HEAD_SIZE, 2));
      var tailSize := src.realSize - off;
      assert src.buf[..][off..off + tailSize] == src.buf[off..off + tailSize];
      Put(HEAD_SIZE, src.buf[off..off + tailSize]);
      realSize := tailSize + HEAD_SIZE;
      entries := es[k + 1..];
    }

    /** ib_get_last_ie, and what cut_ib_tail reads. */
    method ReadCut(off: nat, ghost k: nat) returns (last: nat, lastLen: nat, prevLen: nat)
      requires HalfCut(k) && off == Off(entries, k)
      ensures lastLen == (ENTRY_HEAD_SIZE + if large then VBN_SIZE else 0) <= realSize && last == realSize - lastLen
      ensures prevLen == PrevLen(entries, k)
      ensures last + FLAGS_OFF < buf.Length && HasFlag(buf[last + FLAGS_OFF], FLAG_NODE) == large
    {
      hide Lies, Formed, SumLen, Off, PrevLen, HalfLies, Memory, LittleEndian, Len, Flags, HasFlag, RealSize, Contains,
        CutBytes;
      CutFacts(buf[..], realSize, entries, large, k);
      last := realSize - ENTRY_HEAD_SIZE - if large then VBN_SIZE else 0;
      assert buf[..][last..last + 2] == buf[last..last + 2];
      lastLen := Get16(last);
      assert buf[..][off + PREV_OFF..off + PREV_OFF + 2] == buf[off + PREV_OFF..off + PREV_OFF + 2];
      var p := Get16(off + PREV_OFF);
      assert buf[..][off - p..off - p + 2] == buf[off - p..off - p + 2];
      prevLen := Get16(off - p);
    }

    /** cut_ib_tail: END takes the place of entry k, at offset off, and takes over its child. */
    method CutIbTail(off: nat, ghost k: nat)
      requires HalfCut(k) && off == Off(entries, k)
      modifies this`realSize, this`entries, buf
      ensures Valid() && entries == CutEntries(old(entries), k)
    {
      hide Contains, Lies, Patch, Formed, SumLen, Off, PrevLen, HalfLies, Memory, LittleEndian, Len, Flags, CutEntries,
        HasFlag, RealSize;
      ghost var es := entries;
      CutFacts(buf[..], realSize, es, large, k);
      var last, lastLen, prev := ReadCut(off, k);
      if HasFlag(buf[last + FLAGS_OFF], FLAG_NODE) {
        TakeChild(off, last + lastLen, es[k].vbn);
      }
      Put(last + PREV_OFF, Memory(prev, 2));
      MemMove(off, last, lastLen);
      realSize := lastLen + off;
      entries := CutEntries(es, k);
    }

    /** SET_IE_VBN(last_ie, GET_IE_VBN(ie)), where last_ie stops at offset stop. */
    method TakeChild(off: nat, stop: nat, ghost vbn: Vbn)
      requires off + 2 <= buf.Length && VBN_SIZE <= stop <= buf.Length
      requires var len := LittleEndian(buf[..][off..off + 2]);
               VBN_SIZE <= len && off + len <= buf.Length && LittleEndian(buf[..][off + len - VBN_SIZE..off + len])
                   == vbn
      modifies buf
      ensures buf[..] == Patch(old(buf[..]), stop - VBN_SIZE, Memory(vbn, VBN_SIZE))
    {
      hide Patch, LittleEndian, Memory;
      assert buf[..][off..off + 2] == buf[off..off + 2];
      var len := Get16(off);
      assert buf[..][off + len - VBN_SIZE..off + len] == buf[off + len - VBN_SIZE..off + len];
      var v := Get64(off + len - VBN_SIZE);
      Put(stop - VBN_SIZE, Memory(v, VBN_SIZE));
    }

    /** SET_IE_VBN on entry i. */
    method SetIeVbn(off: nat, vbn: Vbn, ghost i: nat)
      requires Valid() && large && i < |entries| && off == Off(entries, i) && vbn < TWO_64
      modifies this`entries, buf
      ensures Valid() && entries == old(entries)[i := old(entries)[i].(vbn := vbn)]
    {
      hide Contains, Lies, Patch, Formed, SumLen, Off, EntryBytes, Memory;
      VbnFacts(buf[..], realSize, entries, i, vbn);
      var len := Get16(off);
      Put(off + len - VBN_SIZE, Memory(vbn, VBN_SIZE));
      entries := entries[i := entries[i].(vbn := vbn)];
    }

    /** dump_ie_add_vbn */
    method DumpIeAddVbn(off: nat, vbn: Vbn, ghost i: nat) returns (ie: array<u8>)
      requires Valid() && i < |entries| && off == Off(entries, i) && vbn < TWO_64
      ensures fresh(ie) && ie[..] == EntryBytes(AddVbn(entries[i], vbn), PrevLen(entries, i))
    {
      hide Contains, Lies, Patch, Formed, SumLen, Off, PrevLen, EntryBytes, Memory, LittleEndian, HasFlag, RealSize,
        Flags, Len, AddVbn, DelVbn;
      EntryAt(buf[..], realSize, entries, large, i);
      ChildFacts(entries[i], vbn);
      FlagsOf(entries[i]);
      var len := Get16(off);
      var flags := buf[off + FLAGS_OFF];
      var size := len + if HasFlag(flags, FLAG_NODE) then 0 else VBN_SIZE;
      ie := new u8[size](i => 0);
      forall i | 0 <= i < len { ie[i] := buf[off + i]; }
      var word, v := Memory(size, 2), Memory(vbn, VBN_SIZE);
      ie[0], ie[1] := word[0], word[1];
      ie[FLAGS_OFF] := if HasFlag(flags, FLAG_NODE) then flags else flags + FLAG_NODE;
      forall i | 0 <= i < VBN_SIZE { ie[size - VBN_SIZE + i] := v[i]; }
      AddVbnBytes(entries[i], PrevLen(entries, i), vbn, ie[..]);
    }

    /** dump_ie_del_vbn */
    method DumpIeDelVbn(off: nat, ghost i: nat) returns (ie: array<u8>)
      requires Valid() && i < |entries| && off == Off(entries, i)
      ensures fresh(ie) && ie[..] == EntryBytes(DelVbn(entries[i]), PrevLen(entries, i))
    {
      hide Contains, Lies, Patch, Formed, SumLen, Off, PrevLen, EntryBytes, Memory, LittleEndian, HasFlag, RealSize,
        Flags, Len, AddVbn, DelVbn;
      EntryAt(buf[..], realSize, entries, large, i);
      ChildFacts(entries[i], 0);
      FlagsOf(entries[i]);
      var len := Get16(off);
      var flags := buf[off + FLAGS_OFF];
      var size := len - if HasFlag(flags, FLAG_NODE) then VBN_SIZE else 0;
      ie := new u8[size](i => 0);
      forall i | 0 <= i < size { ie[i] := buf[off + i]; }
      var word := Memory(size, 2);
      ie[0], ie[1] := word[0], word[1];
      ie[FLAGS_OFF] := if HasFlag(flags, FLAG_NODE) then flags - FLAG_NODE else flags;
      DelVbnBytes(entries[i], PrevLen(entries, i), ie[..]);
    }
  }

  /** The entries up to k, and those behind it, lie in b as two runs. */
  ghost predicate HalfLies(b: seq<u8>, es: seq<Entry>, k: nat)
    requires k < |es|
  {
    && HEAD_SIZE <= |b| && b[BEGIN_OFF..HEAD_SIZE] == BeginBytes()
    && Lies(b, HEAD_SIZE, es[..k + 1], ENTRY_HEAD_SIZE) && Lies(b, Off(es, k + 1), es[k + 1..], ENTRY_HEAD_SIZE)
  }

  lemma {:induction false} FormedEnds(es: seq<Entry>, node: bool)
    requires Formed(es, node)
    ensures 0 < |es| && es[|es| - 1].end && es[|es| - 1].kv == KV([], [])
    ensures forall i | 0 <= i < |es| :: Encodable(es[i]) && es[i].node == node
    ensures forall i | 0 <= i < |es| - 1 :: !es[i].end
  {
  }

  lemma {:induction false} InitFacts(z: seq<u8>, large: bool)
    requires HEAD_SIZE + ENTRY_HEAD_SIZE + VBN_SIZE <= |z|
    ensures var e := EndEntry(large, 0); var m := EntryBytes(e, ENTRY_HEAD_SIZE);
            && HEAD_SIZE + |m| <= |z| && |BeginBytes()| == HEAD_SIZE - BEGIN_OFF && Formed([e], large)
            && var c := Patch(Patch(z, HEAD_SIZE, m), BEGIN_OFF, BeginBytes());
               Contains(c, HEAD_SIZE + |m|, [e]) && c[BEGIN_OFF..HEAD_SIZE] == BeginBytes()
  {
    hide Patch, EntryBytes, Lies;
    var e := EndEntry(large, 0);
    var m := EntryBytes(e, ENTRY_HEAD_SIZE);
    BeginLen();
    SumOne([e]);
    SumNone();
    assert [e][1..] == [];
    var b := Patch(z, HEAD_SIZE, m);
    PatchInside(z, HEAD_SIZE, m);
    PatchOutside(b, BEGIN_OFF, BeginBytes(), HEAD_SIZE, HEAD_SIZE + |m|);
    PatchInside(b, BEGIN_OFF, BeginBytes());
    LiesOne(Patch(b, BEGIN_OFF, BeginBytes()), HEAD_SIZE, e, ENTRY_HEAD_SIZE);
  }

  lemma {:induction false} SumNone()
    ensures SumLen([]) == 0
  {
  }

  lemma {:induction false} SizeFacts(b: seq<u8>, size: nat, es: seq<Entry>)
    requires Contains(b, size, es)
    ensures HEAD_SIZE <= size <= |b| && size - HEAD_SIZE == SumLen(es) && Off(es, 0) == HEAD_SIZE
  {
    assert es[..0] == [];
  }

  lemma {:induction false} RemoveFacts(b: seq<u8>, size: nat, es: seq<Entry>, node: bool, i: nat)
    requires Contains(b, size, es) && Formed(es, node) && i < |es| - 1
    ensures var off, len, n, p := Off(es, i), Len(es[i]), SumLen(es[i + 1..]), PrevLen(es, i);
            && PREV_OFF + 2 <= n && off + len + n <= |b| && HEAD_SIZE <= off && ENTRY_HEAD_SIZE <= len <= size
            && LittleEndian(b[off..off + 2]) == len && LittleEndian(b[off + PREV_OFF..off + PREV_OFF + 2]) == p < TWO_16
            && Lies(Patch(b, off + len + PREV_OFF, Memory(p, 2)), off + len, es[i + 1..], p)
            && Formed(es[i + 1..], node)
            && Contains(RemovedBytes(b, off, len, n, p), size - len, Delete(es, i)) && Formed(Delete(es, i), node)
  {
    hide Lies, SumLen, Patch, Memory, LittleEndian, Formed, BeginBytes;
    EntryAt(b, size, es, node, i);
    PrevLenBound(es, node, i);
    RemoveRun(b, es, i);
    SumLenRemove(es, i);
    OffNext(es, i);
    RemoveKeepsBegin(b, Off(es, i), Len(es[i]), SumLen(es[i + 1..]), PrevLen(es, i));
    FormedTail(es, node, i + 1);
    FormedDelete(es, node, i);
  }

  lemma {:induction false} RemoveKeepsBegin(b: seq<u8>, off: nat, len: nat, n: nat, p: nat)
    requires off + len + n <= |b| && PREV_OFF + 2 <= n && HEAD_SIZE <= off
    ensures RemovedBytes(b, off, len, n, p)[BEGIN_OFF..HEAD_SIZE] == b[BEGIN_OFF..HEAD_SIZE]
  {
    hide Patch;
    var b1 := Patch(b, off + len + PREV_OFF, Memory(p, 2));
    PatchOutside(b, off + len + PREV_OFF, Memory(p, 2), BEGIN_OFF, HEAD_SIZE);
    PatchOutside(b1, off, b1[off + len..off + len + n], BEGIN_OFF, HEAD_SIZE);
  }

  lemma {:induction false} InsertFacts(b: seq<u8>, size: nat, es: seq<Entry>, node: bool, i: nat, e: Entry, q: nat,
      ie: seq<u8>)
    requires Contains(b, size, es) && Formed(es, node) && i < |es| && RealSize(es) + Len(e) <= |b|
    requires Encodable(e) && e.node == node && !e.end && ie == EntryBytes(e, q)
    ensures var off, len, n, p := Off(es, i), Len(e), SumLen(es[i..]), PrevLen(es, i);
            && PREV_OFF + 2 <= n && off + len + n <= |b| && HEAD_SIZE <= off && ENTRY_HEAD_SIZE <= len == |ie|
                && len < TWO_16
            && LittleEndian(b[off + PREV_OFF..off + PREV_OFF + 2]) == p < TWO_16
            && ie[0] as int + 256 * ie[1] as int == len
            && Lies(Patch(b, off + PREV_OFF, Memory(len, 2)), off, es[i..], len)
            && Formed(es[i..], node)
            && Contains(InsertedBytes(b, off, n, EntryBytes(e, p)), size + len, Insert(es, i, e))
                && Formed(Insert(es, i, e), node)
  {
    hide Lies, SumLen, Patch, Memory, LittleEndian, Formed, BeginBytes, EntryBytes;
    EntryAt(b, size, es, node, i);
    PrevLenBound(es, node, i);
    InsertRun(b, es, i, e);
    SumLenInsert(es, i, e);
    LenBytes(e, q);
    FormedTail(es, node, i);
    FormedInsert(es, node, i, e);
    InsertKeepsBegin(b, Off(es, i), SumLen(es[i..]), EntryBytes(e, PrevLen(es, i)));
  }

  lemma {:induction false} LenBytes(e: Entry, q: nat)
    requires Encodable(e)
    ensures var ie := EntryBytes(e, q); |ie| == Len(e) >= ENTRY_HEAD_SIZE && ie[0] as int + 256 * ie[1] as int == Len(e)
  {
    hide EntryBytes, Memory, LittleEndian;
    var ie := EntryBytes(e, q);
    EntryFields(e, q);
    Word(Len(e));
    TwoBytes(ie[..2]);
  }

  /** Writing prev_len into an entry that lies in memory of its own. */
  lemma {:induction false} EntryPrev(e: Entry, q: nat, prev: nat, ie: seq<u8>)
    requires |ie| == Len(e) && prev < TWO_16 && PREV_OFF + 2 <= Len(e)
    requires ie == EntryBytes(e, q)[PREV_OFF := prev % 256][PREV_OFF + 1 := prev / 256]
    ensures ie == EntryBytes(e, prev)
  {
    hide EntryBytes;
    PatchPrev(e, q, prev);
    var m := Memory(prev, 2);
    assert m[1..] == Memory(prev / 256, 1);
    assert m == [prev % 256, prev / 256];
    assert Patch(EntryBytes(e, q), PREV_OFF, m) == ie;
  }

  lemma {:induction false} InsertKeepsBegin(b: seq<u8>, off: nat, n: nat, m: seq<u8>)
    requires off + n + |m| <= |b| && PREV_OFF + 2 <= n && HEAD_SIZE <= off
    ensures InsertedBytes(b, off, n, m)[BEGIN_OFF..HEAD_SIZE] == b[BEGIN_OFF..HEAD_SIZE]
  {
    hide Patch, Memory;
    var b1 := Patch(b, off + PREV_OFF, Memory(|m|, 2));
    var b2 := Patch(b1, off + |m|, b1[off..off + n]);
    PatchOutside(b, off + PREV_OFF, Memory(|m|, 2), BEGIN_OFF, HEAD_SIZE);
    PatchOutside(b1, off + |m|, b1[off..off + n], BEGIN_OFF, HEAD_SIZE);
    PatchOutside(b2, off, m, BEGIN_OFF, HEAD_SIZE);
  }

  lemma {:induction false} TailFacts(b: seq<u8>, size: nat, es: seq<Entry>, node: bool, k: nat, d: seq<u8>)
    requires Contains(b, size, es) && Formed(es, node) && k < |es| - 1 && |d| == |b|
    requires d[BEGIN_OFF..HEAD_SIZE] == BeginBytes()
    ensures var off, n := Off(es, k + 1), SumLen(es[k + 1..]);
            && PREV_OFF + 2 <= n && off + n == size <= |b| && HEAD_SIZE + n <= |d| && HEAD_SIZE <= off
            && var b1 := Patch(b, off + PREV_OFF, Memory(ENTRY_HEAD_SIZE, 2));
            && HalfLies(b1, es, k)
            && Contains(Patch(d, HEAD_SIZE, b1[off..off + n]), HEAD_SIZE + n, es[k + 1..]) && Formed(es[k + 1..], node)
  {
    hide Lies, SumLen, Patch, Memory, LittleEndian, Formed, BeginBytes;
    FormedTail(es, node, k + 1);
    SumLenSplit(es, k + 1);
    TailRun(b, es, k, d);
    var off, n := Off(es, k + 1), SumLen(es[k + 1..]);
    var b1 := Patch(b, off + PREV_OFF, Memory(ENTRY_HEAD_SIZE, 2));
    PatchOutside(b, off + PREV_OFF, Memory(ENTRY_HEAD_SIZE, 2), BEGIN_OFF, HEAD_SIZE);
    PatchOutside(d, HEAD_SIZE, b1[off..off + n], BEGIN_OFF, HEAD_SIZE);
  }

  lemma {:induction false} CutFacts(b: seq<u8>, size: nat, es: seq<Entry>, node: bool, k: nat)
    requires k < |es| - 1 && Formed(es, node) && HEAD_SIZE <= size == RealSize(es) <= |b| && HalfLies(b, es, k)
    ensures var off, len, p := Off(es, k), Len(es[k]), PrevLen(es, k);
            var n := ENTRY_HEAD_SIZE + if node then VBN_SIZE else 0;
            var last := size - n;
            && HEAD_SIZE <= off && off + len <= |b| && off + n <= |b| && n <= size && off <= last && 0 <= off - p
                && off - p + 2 <= |b|
            && LittleEndian(b[off..off + 2]) == len && LittleEndian(b[off + PREV_OFF..off + PREV_OFF + 2]) == p
            && LittleEndian(b[off - p..off - p + 2]) == p < TWO_16
            && LittleEndian(b[last..last + 2]) == n && HasFlag(b[last + FLAGS_OFF], FLAG_NODE) == node
            && (node ==> VBN_SIZE <= len && LittleEndian(b[off + len - VBN_SIZE..off + len]) == es[k].vbn)
            && Contains(CutBytes(b, off, last, n, node, es[k].vbn, p), n + off, CutEntries(es, k))
                && Formed(CutEntries(es, k), node)
  {
    hide Lies, SumLen, Patch, Memory, LittleEndian, Formed, BeginBytes;
    FormedEnds(es, node);
    CutFront(b, es, node, k);
    CutBack(b, size, es, node, k);
    FormedCut(es, node, k);
    var e := es[|es| - 1];
    var last := Off(es, |es| - 1);
    CutRun(b, es, k, if k + 1 == |es| - 1 then ENTRY_HEAD_SIZE else PrevLen(es, |es| - 1));
    CutKeepsBegin(b, Off(es, k), last, Len(e), node, es[k].vbn, PrevLen(es, k));
    SumLenAppend(es[..k], [e.(vbn := es[k].vbn)]);
    SumOne([e.(vbn := es[k].vbn)]);
    assert [e.(vbn := es[k].vbn)][1..] == [];
    SumNone();
  }

  /** Reading at the middle entry. */
  lemma {:induction false} CutFront(b: seq<u8>, es: seq<Entry>, node: bool, k: nat)
    requires k < |es| - 1 && Formed(es, node) && HalfLies(b, es, k)
    ensures var off, len, p := Off(es, k), Len(es[k]), PrevLen(es, k);
            && HEAD_SIZE <= off && off + len <= |b| && ENTRY_HEAD_SIZE <= len && 0 <= off - p && off - p + 2 <= |b|
            && LittleEndian(b[off..off + 2]) == len && LittleEndian(b[off + PREV_OFF..off + PREV_OFF + 2]) == p
            && LittleEndian(b[off - p..off - p + 2]) == p < TWO_16
            && (node ==> VBN_SIZE <= len && LittleEndian(b[off + len - VBN_SIZE..off + len]) == es[k].vbn)
  {
    hide Lies, SumLen, Patch, Memory, LittleEndian, BeginBytes;
    var l := es[..k + 1];
    PrevLenBound(es, node, k);
    FrontAt(b, es, node, k, k);
    if k > 0 {
      PrevLenBound(es, node, k - 1);
      FrontAt(b, es, node, k, k - 1);
      OffNext(es, k - 1);
    } else {
      BeginLen();
      FirstOff(es);
      assert b[BEGIN_OFF..HEAD_SIZE][..2] == b[BEGIN_OFF..BEGIN_OFF + 2];
    }
  }

  lemma {:induction false} FirstOff(es: seq<Entry>)
    ensures Off(es, 0) == HEAD_SIZE && PrevLen(es, 0) == ENTRY_HEAD_SIZE
  {
    assert es[..0] == [];
  }

  lemma {:induction false} FrontAt(b: seq<u8>, es: seq<Entry>, node: bool, k: nat, i: nat)
    requires i <= k < |es| - 1 && Formed(es, node) && HalfLies(b, es, k)
    ensures var off, len, p := Off(es, i), Len(es[i]), PrevLen(es, i);
            && HEAD_SIZE <= off && off + len <= |b| && ENTRY_HEAD_SIZE <= len
            && LittleEndian(b[off..off + 2]) == len && LittleEndian(b[off + PREV_OFF..off + PREV_OFF + 2]) == p
            && (node ==> VBN_SIZE <= len && LittleEndian(b[off + len - VBN_SIZE..off + len]) == es[i].vbn)
  {
    hide Lies, SumLen, Patch, Memory, LittleEndian, BeginBytes;
    var l := es[..k + 1];
    PrevLenBound(es, node, i);
    LiesSplit(b, HEAD_SIZE, l, ENTRY_HEAD_SIZE, i);
    assert l[..i] == es[..i] && l[i..][0] == es[i];
    assert Encodable(es[i]) && es[i].node == node;
    LiesHead(b, Off(es, i), l[i..], PrevLen(es, i));
  }

  /** Reading at END. */
  lemma {:induction false} CutBack(b: seq<u8>, size: nat, es: seq<Entry>, node: bool, k: nat)
    requires k < |es| - 1 && Formed(es, node) && HalfLies(b, es, k) && size == RealSize(es)
    ensures var last, n := Off(es, |es| - 1), Len(es[|es| - 1]);
            && n == (ENTRY_HEAD_SIZE + if node then VBN_SIZE else 0) && last + n == size
            && Off(es, k) <= last && last + n <= |b|
            && LittleEndian(b[last..last + 2]) == n && HasFlag(b[last + FLAGS_OFF], FLAG_NODE) == node
            && Lies(b, last, es[|es| - 1..], if k + 1 == |es| - 1 then ENTRY_HEAD_SIZE else PrevLen(es, |es| - 1))
  {
    hide Lies, SumLen, Patch, Memory, LittleEndian, BeginBytes;
    var j := |es| - 1;
    var t := es[k + 1..];
    var i := j - k - 1;
    FormedEnds(es, node);
    PrevLenBound(es, node, j);
    assert t[..i] == es[k + 1..j] && t[i..] == es[j..] && es[..k + 1] + t[..i] == es[..j];
    SumLenAppend(es[..k + 1], t[..i]);
    LiesSplit(b, Off(es, k + 1), t, ENTRY_HEAD_SIZE, i);
    assert LastLen(t[..i], ENTRY_HEAD_SIZE) == if i == 0 then ENTRY_HEAD_SIZE else PrevLen(es, j);
    LiesHead(b, Off(es, j), es[j..], if i == 0 then ENTRY_HEAD_SIZE else PrevLen(es, j));
    FlagsOf(es[j]);
    OffMono(es, k, j);
    SumLenSplit(es, j);
    SumOne(es[j..]);
    assert es[j..][1..] == [];
    SumNone();
  }

  lemma {:induction false} CutKeepsBegin(b: seq<u8>, off: nat, last: nat, n: nat, node: bool, v: Vbn, p: nat)
    requires off + n <= |b| && last + n <= |b| && PREV_OFF + 2 <= n && (node ==> VBN_SIZE <= n)
        && HEAD_SIZE <= off <= last
    ensures CutBytes(b, off, last, n, node, v, p)[BEGIN_OFF..HEAD_SIZE] == b[BEGIN_OFF..HEAD_SIZE]
  {
    hide Patch, Memory;
    var b1 := if node then Patch(b, last + n - VBN_SIZE, Memory(v, VBN_SIZE)) else b;
    var b2 := Patch(b1, last + PREV_OFF, Memory(p, 2));
    if node { PatchOutside(b, last + n - VBN_SIZE, Memory(v, VBN_SIZE), BEGIN_OFF, HEAD_SIZE); }
    PatchOutside(b1, last + PREV_OFF, Memory(p, 2), BEGIN_OFF, HEAD_SIZE);
    PatchOutside(b2, off, b2[last..last + n], BEGIN_OFF, HEAD_SIZE);
  }

  lemma {:induction false} VbnFacts(b: seq<u8>, size: nat, es: seq<Entry>, i: nat, v: Vbn)
    requires Contains(b, size, es) && Formed(es, true) && i < |es| && v < TWO_64
    ensures var off, n, us := Off(es, i), Len(es[i]), es[i := es[i].(vbn := v)];
            && VBN_SIZE <= n && off + n <= |b| && LittleEndian(b[off..off + 2]) == n
            && Contains(Patch(b, off + n - VBN_SIZE, Memory(v, VBN_SIZE)), size, us) && Formed(us, true)
  {
    hide Lies, SumLen, Patch, Memory, LittleEndian, BeginBytes;
    var off, n, us := Off(es, i), Len(es[i]), es[i := es[i].(vbn := v)];
    EntryAt(b, size, es, true, i);
    LiesAt(b, es, i);
    LiesPatchVbn(b, off, es[i..], PrevLen(es, i), v);
    var c := Patch(b, off + n - VBN_SIZE, Memory(v, VBN_SIZE));
    assert es[i..][0 := es[i].(vbn := v)] == us[i..] && us[..i] == es[..i];
    LiesRange(b, HEAD_SIZE, es[..i], ENTRY_HEAD_SIZE);
    PatchOutside(b, off + n - VBN_SIZE, Memory(v, VBN_SIZE), HEAD_SIZE, off);
    PatchOutside(b, off + n - VBN_SIZE, Memory(v, VBN_SIZE), BEGIN_OFF, HEAD_SIZE);
    LiesMoved(b, HEAD_SIZE, es[..i], ENTRY_HEAD_SIZE, c, HEAD_SIZE);
    LiesAt(c, us, i);
    SumLenUpdate(es, i, v);
  }

  lemma {:induction false} ChildFacts(e: Entry, v: Vbn)
    requires ENTRY_HEAD_SIZE <= Len(e)
    ensures Len(AddVbn(e, v)) == Len(e) + (if e.node then 0 else VBN_SIZE)
        && VBN_SIZE <= Len(AddVbn(e, v)) - ENTRY_HEAD_SIZE
    ensures Flags(AddVbn(e, v)) as int == Flags(e) as int + if e.node then 0 else FLAG_NODE as int
    ensures Len(DelVbn(e)) == Len(e) - (if e.node then VBN_SIZE else 0)
    ensures Flags(DelVbn(e)) as int == Flags(e) as int - if e.node then FLAG_NODE as int else 0
  {
  }

  /** The bytes of an entry that gained or lost its child. */
  lemma {:induction false} AddVbnBytes(e: Entry, prev: nat, v: Vbn, ie: seq<u8>)
    requires var b, f := EntryBytes(e, prev), AddVbn(e, v);
             && |ie| == Len(f)
             && (forall i | 2 <= i < |ie| - VBN_SIZE && i != FLAGS_OFF :: ie[i] == b[i])
             && ie[..2] == Memory(Len(f), 2) && ie[FLAGS_OFF] == Flags(f)
             && ie[|ie| - VBN_SIZE..] == Memory(v, VBN_SIZE)
    ensures ie == EntryBytes(AddVbn(e, v), prev)
  {
    hide Memory;
    var c := EntryBytes(AddVbn(e, v), prev);
    EntryFields(AddVbn(e, v), prev);
    SameFields(e, prev, AddVbn(e, v));
    assert c[|ie| - VBN_SIZE..|ie|] == c[|ie| - VBN_SIZE..];
    forall i | 0 <= i < |ie| ensures ie[i] == c[i] {
      if i < 2 { assert ie[..2][i] == c[..2][i]; }
      if i >= |ie| - VBN_SIZE { assert ie[|ie| - VBN_SIZE..][i - (|ie| - VBN_SIZE)]
          == c[|ie| - VBN_SIZE..][i - (|ie| - VBN_SIZE)]; }
    }
  }

  lemma {:induction false} DelVbnBytes(e: Entry, prev: nat, ie: seq<u8>)
    requires var b, f := EntryBytes(e, prev), DelVbn(e);
             && |ie| == Len(f)
             && (forall i | 2 <= i < |ie| && i != FLAGS_OFF :: ie[i] == b[i])
             && ie[..2] == Memory(Len(f), 2) && ie[FLAGS_OFF] == Flags(f)
    ensures ie == EntryBytes(DelVbn(e), prev)
  {
    hide Memory;
    var c := EntryBytes(DelVbn(e), prev);
    EntryFields(DelVbn(e), prev);
    EntryFields(e, prev);
    SameFields(e, prev, DelVbn(e));
    forall i | 0 <= i < |ie| ensures ie[i] == c[i] {
      if i < 2 { assert ie[..2][i] == c[..2][i]; }
    }
  }

  /** Entries with the same key and value differ in their length, their flags and their child only. */
  lemma {:induction false} SameFields(e: Entry, prev: nat, f: Entry)
    requires e.kv == f.kv
    ensures var n := ENTRY_HEAD_SIZE + |e.kv.key| + |e.kv.val|;
            && n <= Len(e) && n <= Len(f)
            && EntryBytes(e, prev)[2..FLAGS_OFF] == EntryBytes(f, prev)[2..FLAGS_OFF]
            && EntryBytes(e, prev)[ENTRY_HEAD_SIZE..n] == EntryBytes(f, prev)[ENTRY_HEAD_SIZE..n]
            && forall i | 2 <= i < n && i != FLAGS_OFF :: EntryBytes(e, prev)[i] == EntryBytes(f, prev)[i]
  {
    hide Memory;
    var n := ENTRY_HEAD_SIZE + |e.kv.key| + |e.kv.val|;
    HeadSame(e, prev, f);
    var b, c := EntryBytes(e, prev), EntryBytes(f, prev);
    assert b[..n] == Head(e, prev) + e.kv.key + e.kv.val;
    assert c[..n] == Head(f, prev) + e.kv.key + e.kv.val;
    forall i | 2 <= i < n && i != FLAGS_OFF ensures b[i] == c[i] {
      assert b[..n][i] == b[i] && c[..n][i] == c[i];
    }
  }

  lemma {:induction false} HeadSame(e: Entry, prev: nat, f: Entry)
    requires e.kv == f.kv
    ensures forall i | 2 <= i < FLAGS_OFF :: Head(e, prev)[i] == Head(f, prev)[i]
  {
    hide Memory;
  }

  // ---- the bytes determine the entries

  lemma {:induction false} EntryBytesInjective(e: Entry, f: Entry, p: nat, q: nat)
    requires Encodable(e) && Encodable(f) && EntryBytes(e, p) == EntryBytes(f, q)
    ensures e == f
  {
    hide EntryBytes, Memory, LittleEndian;
    EntryFields(e, p);
    EntryFields(f, q);
    FlagsOf(e);
    FlagsOf(f);
    Word(|e.kv.key|);
    Word(|f.kv.key|);
    Word(|e.kv.val|);
    Word(|f.kv.val|);
    LongWord(e.vbn);
    LongWord(f.vbn);
  }

  lemma {:induction false} LiesUnique(b: seq<u8>, off: nat, es: seq<Entry>, p: nat, fs: seq<Entry>, q: nat, node: bool,
      node': bool)
    requires Lies(b, off, es, p) && Lies(b, off, fs, q) && Formed(es, node) && Formed(fs, node') && p < TWO_16
        && q < TWO_16
    ensures es == fs
    decreases |es|
  {
    hide Lies, Formed, EntryBytes;
    FormedEnds(es, node);
    FormedEnds(fs, node');
    LiesHead(b, off, es, p);
    LiesHead(b, off, fs, q);
    EntryBytesInjective(es[0], fs[0], p, q);
    FormedFirst(es, node);
    FormedFirst(fs, node');
    if es[0].end {
      assert es == [es[0]] && fs == [fs[0]];
    } else {
      FormedTail(es, node, 1);
      FormedTail(fs, node', 1);
      LiesUnique(b, off + Len(es[0]), es[1..], Len(es[0]), fs[1..], Len(es[0]), node, node');
      assert es == [es[0]] + es[1..] && fs == [fs[0]] + fs[1..];
    }
  }

  lemma {:induction false} FormedFirst(es: seq<Entry>, node: bool)
    requires Formed(es, node)
    ensures es[0].end <==> |es| == 1
  {
  }

  /** A block's bytes are the encoding of one sequence of entries only. */
  lemma {:induction false} ContainsUnique(b: seq<u8>, size: nat, es: seq<Entry>, node: bool, size': nat, fs: seq<Entry>,
      node': bool)
    requires Contains(b, size, es) && Formed(es, node) && Contains(b, size', fs) && Formed(fs, node')
    ensures es == fs && size == size' && node == node'
  {
    hide Lies;
    LiesUnique(b, HEAD_SIZE, es, ENTRY_HEAD_SIZE, fs, ENTRY_HEAD_SIZE, node, node');
    FormedEnds(es, node);
    FormedEnds(fs, node');
  }

  /** Every block of an index tree has such a representation, and its splitting is the byte moves above. */
  lemma {:induction false} TreeBlockFormed(x: Tree, node: bool, k: nat, nv: Vbn)
    requires x.Node? && EntriesOk(x.es, node, x.cap) && |x.kids| == |x.es| && k < |x.es|
        && forall i | 0 <= i < |x.es| :: x.es[i].vbn < TWO_64
    ensures Formed(x.es, node) && RealSize(x.es) <= x.cap
    ensures LeftHalf(x, k).es == CutEntries(x.es, k) && RightHalf(x, k, nv).es == x.es[k + 1..]
  {
    forall i | 0 <= i < |x.es| ensures Encodable(x.es[i]) && x.es[i].node == node {
      assert EntryOk(x.es[i], node);
    }
  }
}
