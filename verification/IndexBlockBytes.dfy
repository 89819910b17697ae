/** The bytes of index entries: how a sequence of entries lies in a block. */
module IndexBlockBytes {
  import opened IndexLayout
  import opened Collate

  const TWO_16: nat := 65536

  const FLAG_NODE: u8 := 1
  const FLAG_END: u8 := 2
  const FLAG_BEGIN: u8 := 4

  // Offsets of the fields of an entry: len, prev_len, key_len, value_len, flags, then key, value, vbn.
  const PREV_OFF: nat := 2
  const KEY_LEN_OFF: nat := 4
  const VALUE_LEN_OFF: nat := 6
  const FLAGS_OFF: nat := 8

  function Flags(e: Entry): u8 {
    (if e.node then FLAG_NODE else 0) + (if e.end then FLAG_END else 0)
  }

  predicate Encodable(e: Entry) {
    Len(e) < TWO_16 && e.vbn < TWO_64 && (!e.node ==> e.vbn == 0)
  }

  function Head(e: Entry, prev: nat): (b: seq<u8>)
    ensures |b| == ENTRY_HEAD_SIZE
  {
    Memory(Len(e), 2) + Memory(prev, 2) + Memory(|e.kv.key|, 2) + Memory(|e.kv.val|, 2) + [Flags(e)]
  }

  /** An entry in memory; prev is the length of the entry before it. */
  function EntryBytes(e: Entry, prev: nat): (b: seq<u8>)
    ensures |b| == Len(e)
  {
    Head(e, prev) + e.kv.key + e.kv.val + if e.node then Memory(e.vbn, VBN_SIZE) else []
  }

  function Bytes(es: seq<Entry>, prev: nat): (b: seq<u8>)
    ensures |b| == SumLen(es)
  {
    if es == [] then [] else EntryBytes(es[0], prev) + Bytes(es[1..], Len(es[0]))
  }

  /** The length an entry after es records for the one before it. */
  function LastLen(es: seq<Entry>, prev: nat): nat {
    if es == [] then prev else Len(es[|es| - 1])
  }

  lemma {:induction false} BytesAppend(a: seq<Entry>, b: seq<Entry>, prev: nat)
    ensures Bytes(a + b, prev) == Bytes(a, prev) + Bytes(b, LastLen(a, prev))
  {
    if a == [] {
      assert a + b == b;
    } else {
      assert (a + b)[1..] == a[1..] + b;
      BytesAppend(a[1..], b, Len(a[0]));
      assert LastLen(a[1..], Len(a[0])) == LastLen(a, prev);
    }
  }

  // ---- patching bytes

  /** b with m written at position off. */
  function Patch(b: seq<u8>, off: nat, m: seq<u8>): (c: seq<u8>)
    requires off + |m| <= |b|
    ensures |c| == |b|
  {
    b[..off] + m + b[off + |m|..]
  }

  lemma {:induction false} PatchInside(b: seq<u8>, off: nat, m: seq<u8>)
    requires off + |m| <= |b|
    ensures Patch(b, off, m)[off..off + |m|] == m
  {
  }

  lemma {:induction false} PatchOutside(b: seq<u8>, off: nat, m: seq<u8>, x: nat, y: nat)
    requires off + |m| <= |b| && x <= y <= |b| && (y <= off || off + |m| <= x)
    ensures Patch(b, off, m)[x..y] == b[x..y]
  {
    var c := Patch(b, off, m);
    forall i | x <= i < y ensures c[i] == b[i] {
    }
  }

  // ---- entries in a buffer

  /** The entries es lie in buffer b from position off; the first records length prev before it. */
  ghost predicate Lies(b: seq<u8>, off: nat, es: seq<Entry>, prev: nat) {
    off + SumLen(es) <= |b| && b[off..off + SumLen(es)] == Bytes(es, prev)
  }

  lemma {:induction false} LiesSplit(b: seq<u8>, off: nat, es: seq<Entry>, prev: nat, i: nat)
    requires i <= |es|
    ensures Lies(b, off, es, prev) <==>
            Lies(b, off, es[..i], prev) && Lies(b, off + SumLen(es[..i]), es[i..], LastLen(es[..i], prev))
  {
    hide Bytes, SumLen;
    var l, r := es[..i], es[i..];
    var n, m := SumLen(l), SumLen(r);
    assert es == l + r;
    SumLenAppend(l, r);
    BytesAppend(l, r, prev);
    if off + n + m <= |b| {
      SliceSplit(b, off, n, m);
      AppendSplit(b[off..off + n], b[off + n..off + n + m], Bytes(l, prev), Bytes(r, LastLen(l, prev)));
    }
  }

  lemma {:induction false} SliceSplit(b: seq<u8>, off: nat, n: nat, m: nat)
    requires off + n + m <= |b|
    ensures b[off..off + n + m] == b[off..off + n] + b[off + n..off + n + m]
  {
  }

  lemma {:induction false} AppendSplit(a: seq<u8>, b: seq<u8>, c: seq<u8>, d: seq<u8>)
    requires |a| == |c|
    ensures a + b == c + d <==> a == c && b == d
  {
    assert (a + b)[..|a|] == a && (a + b)[|a|..] == b;
    assert (c + d)[..|c|] == c && (c + d)[|c|..] == d;
  }

  lemma {:induction false} LiesJoin(b: seq<u8>, off: nat, l: seq<Entry>, r: seq<Entry>, prev: nat)
    requires Lies(b, off, l, prev) && Lies(b, off + SumLen(l), r, LastLen(l, prev))
    ensures Lies(b, off, l + r, prev)
  {
    hide Lies;
    LiesSplit(b, off, l + r, prev, |l|);
    assert (l + r)[..|l|] == l && (l + r)[|l|..] == r;
  }

  lemma {:induction false} LiesMoved(b: seq<u8>, off: nat, es: seq<Entry>, prev: nat, c: seq<u8>, off': nat)
    requires Lies(b, off, es, prev) && off' + SumLen(es) <= |c|
    requires c[off'..off' + SumLen(es)] == b[off..off + SumLen(es)]
    ensures Lies(c, off', es, prev)
  {
  }

  lemma {:induction false} LiesOne(b: seq<u8>, off: nat, e: Entry, prev: nat)
    ensures Lies(b, off, [e], prev) <==> off + Len(e) <= |b| && b[off..off + Len(e)] == EntryBytes(e, prev)
  {
    assert [e][1..] == [];
    assert SumLen([e]) == Len(e) + SumLen([]);
    assert Bytes([e], prev) == EntryBytes(e, prev) + Bytes([], Len(e));
    assert Bytes([e], prev) == EntryBytes(e, prev);
  }

  lemma {:induction false} Word(v: nat)
    requires v < TWO_16
    ensures LittleEndian(Memory(v, 2)) == v
  {
    assert Pow256(0) == 1 && Pow256(1) == 256 && Pow256(2) == 65536;
    MemoryValue(v, 2);
  }

  lemma {:induction false} LongWord(v: nat)
    requires v < TWO_64
    ensures LittleEndian(Memory(v, VBN_SIZE)) == v
  {
    PowEight();
    MemoryValue(v, VBN_SIZE);
  }

  /** The fields of an entry are where the code looks for them. */
  lemma {:induction false} EntryFields(e: Entry, prev: nat)
    ensures var b, k, v := EntryBytes(e, prev), |e.kv.key|, |e.kv.val|;
            && b[..2] == Memory(Len(e), 2)
            && b[PREV_OFF..PREV_OFF + 2] == Memory(prev, 2)
            && b[KEY_LEN_OFF..KEY_LEN_OFF + 2] == Memory(k, 2)
            && b[VALUE_LEN_OFF..VALUE_LEN_OFF + 2] == Memory(v, 2)
            && b[FLAGS_OFF] == Flags(e)
    ensures var b, k, v := EntryBytes(e, prev), |e.kv.key|, |e.kv.val|;
            && b[ENTRY_HEAD_SIZE..ENTRY_HEAD_SIZE + k] == e.kv.key
            && b[ENTRY_HEAD_SIZE + k..ENTRY_HEAD_SIZE + k + v] == e.kv.val
            && (e.node ==> b[Len(e) - VBN_SIZE..Len(e)] == Memory(e.vbn, VBN_SIZE))
    ensures EntryBytes(e, prev)[PREV_OFF + 2..] == EntryBytes(e, 0)[PREV_OFF + 2..]
  {
    hide Memory;
    HeadFields(e, prev);
    HeadFields(e, 0);
    var h, k, v := Head(e, prev), e.kv.key, e.kv.val;
    var t: seq<u8> := if e.node then Memory(e.vbn, VBN_SIZE) else [];
    TailFields(h, k, v, t);
    TailFields(Head(e, 0), k, v, t);
    var b, c := EntryBytes(e, prev), EntryBytes(e, 0);
    forall i | PREV_OFF + 2 <= i < |b| ensures b[i] == c[i] {
      assert i < ENTRY_HEAD_SIZE ==> b[i] == h[i] && c[i] == Head(e, 0)[i];
    }
  }

  lemma {:induction false} TailFields(h: seq<u8>, k: seq<u8>, v: seq<u8>, t: seq<u8>)
    requires |h| == ENTRY_HEAD_SIZE
    ensures var b := h + k + v + t;
            && b[..ENTRY_HEAD_SIZE] == h
            && b[..2] == h[..2] && b[2..4] == h[2..4] && b[4..6] == h[4..6] && b[6..8] == h[6..8] && b[8] == h[8]
            && b[ENTRY_HEAD_SIZE..ENTRY_HEAD_SIZE + |k|] == k
            && b[ENTRY_HEAD_SIZE + |k|..ENTRY_HEAD_SIZE + |k| + |v|] == v
            && b[ENTRY_HEAD_SIZE + |k| + |v|..] == t
            && b[|b| - |t|..|b|] == t
  {
  }

  lemma {:induction false} HeadFields(e: Entry, prev: nat)
    ensures var h := Head(e, prev);
            && h[..2] == Memory(Len(e), 2)
            && h[2..4] == Memory(prev, 2)
            && h[4..6] == Memory(|e.kv.key|, 2)
            && h[6..8] == Memory(|e.kv.val|, 2)
            && h[8] == Flags(e)
            && h[4..] == Head(e, 0)[4..]
  {
    hide Memory;
  }

  /** What the code reads at the start of a run of entries. */
  lemma {:induction false} LiesHead(b: seq<u8>, off: nat, es: seq<Entry>, prev: nat)
    requires Lies(b, off, es, prev) && es != [] && Encodable(es[0]) && prev < TWO_16
    ensures var n := Len(es[0]);
            && ENTRY_HEAD_SIZE <= n && off + n <= |b|
            && LittleEndian(b[off..off + 2]) == n
            && LittleEndian(b[off + PREV_OFF..off + PREV_OFF + 2]) == prev
            && b[off + FLAGS_OFF] == Flags(es[0])
            && (es[0].node ==> VBN_SIZE <= n && LittleEndian(b[off + n - VBN_SIZE..off + n]) == es[0].vbn)
            && b[off..off + n] == EntryBytes(es[0], prev)
            && Lies(b, off + n, es[1..], n)
  {
    hide EntryBytes, Memory, LittleEndian, Head;
    var n := Len(es[0]);
    LiesSplit(b, off, es, prev, 1);
    assert es[..1] == [es[0]];
    LiesOne(b, off, es[0], prev);
    assert SumLen([es[0]]) == n + SumLen([]);
    EntryFields(es[0], prev);
    Word(n);
    Word(prev);
    if es[0].node { LongWord(es[0].vbn); }
    var c := b[off..off + n];
    assert c[..2] == b[off..off + 2] && c[2..4] == b[off + 2..off + 4] && c[8] == b[off + 8];
    if es[0].node { assert c[n - VBN_SIZE..n] == b[off + n - VBN_SIZE..off + n]; }
  }

  /** Patching the first entry, where that makes it another entry of the same length. */
  lemma {:induction false} LiesPatchFirst(b: seq<u8>, off: nat, es: seq<Entry>, prev: nat, at: nat, m: seq<u8>,
      e: Entry, q: nat)
    requires Lies(b, off, es, prev) && es != [] && Len(e) == Len(es[0]) && at + |m| <= Len(e)
    requires Patch(EntryBytes(es[0], prev), at, m) == EntryBytes(e, q)
    ensures off + at + |m| <= |b| && Lies(Patch(b, off + at, m), off, es[0 := e], q)
  {
    hide EntryBytes, Lies, Patch, Bytes;
    var n := Len(e);
    var us := es[0 := e];
    LiesRange(b, off, es, prev);
    SumOne(es);
    assert es[..1] == [es[0]] && us[..1] == [e] && us[1..] == es[1..];
    assert SumLen([es[0]]) == n && SumLen([e]) == n by { SumOne([es[0]]); SumOne([e]); }
    LiesSplit(b, off, es, prev, 1);
    LiesOne(b, off, es[0], prev);
    var c := Patch(b, off + at, m);
    PatchShift(b, off, n, at, m);
    LiesOne(c, off, e, q);
    PatchOutside(b, off + at, m, off + n, off + n + SumLen(es[1..]));
    LiesMoved(b, off + n, es[1..], n, c, off + n);
    LiesSplit(c, off, us, q, 1);
  }

  lemma {:induction false} LiesRange(b: seq<u8>, off: nat, es: seq<Entry>, prev: nat)
    requires Lies(b, off, es, prev)
    ensures off + SumLen(es) <= |b| && b[off..off + SumLen(es)] == Bytes(es, prev)
  {
  }

  /** Writing another length into the first entry's prev_len. */
  lemma {:induction false} LiesPatchPrev(b: seq<u8>, off: nat, es: seq<Entry>, prev: nat, q: nat)
    requires Lies(b, off, es, prev) && es != []
    ensures off + PREV_OFF + 2 <= |b| && Lies(Patch(b, off + PREV_OFF, Memory(q, 2)), off, es, q)
  {
    hide Lies, Patch;
    SumOne(es);
    PatchPrev(es[0], prev, q);
    LiesPatchFirst(b, off, es, prev, PREV_OFF, Memory(q, 2), es[0], q);
    assert es[0 := es[0]] == es;
  }

  lemma {:induction false} SumOne(es: seq<Entry>)
    requires es != []
    ensures SumLen(es) == Len(es[0]) + SumLen(es[1..]) && ENTRY_HEAD_SIZE <= Len(es[0])
  {
  }

  lemma {:induction false} PatchPrev(e: Entry, prev: nat, q: nat)
    ensures Patch(EntryBytes(e, prev), PREV_OFF, Memory(q, 2)) == EntryBytes(e, q)
  {
    hide EntryBytes, Memory;
    EntryFields(e, prev);
    EntryFields(e, q);
    var b, c := EntryBytes(e, prev), EntryBytes(e, q);
    assert c == c[..2] + c[2..4] + c[4..];
  }

  lemma {:induction false} PatchShift(b: seq<u8>, off: nat, n: nat, at: nat, m: seq<u8>)
    requires off + n <= |b| && at + |m| <= n
    ensures Patch(b, off + at, m)[off..off + n] == Patch(b[off..off + n], at, m)
  {
    var l, r := Patch(b, off + at, m)[off..off + n], Patch(b[off..off + n], at, m);
    forall i | 0 <= i < n ensures l[i] == r[i] {
      if i < at {
        assert l[i] == b[off + i] && r[i] == b[off..off + n][i];
      } else if i < at + |m| {
        assert l[i] == m[i - at] && r[i] == m[i - at];
      } else {
        assert l[i] == b[off + i] && r[i] == b[off..off + n][i];
      }
    }
  }

  /** SET_IE_VBN on the first entry. */
  lemma {:induction false} LiesPatchVbn(b: seq<u8>, off: nat, es: seq<Entry>, prev: nat, v: Vbn)
    requires Lies(b, off, es, prev) && es != [] && es[0].node
    ensures var n := Len(es[0]);
            VBN_SIZE <= n && off + n <= |b|
            && Lies(Patch(b, off + n - VBN_SIZE, Memory(v, VBN_SIZE)), off, es[0 := es[0].(vbn := v)], prev)
  {
    hide Lies, Patch;
    PatchVbn(es[0], prev, v);
    LiesPatchFirst(b, off, es, prev, Len(es[0]) - VBN_SIZE, Memory(v, VBN_SIZE), es[0].(vbn := v), prev);
  }

  lemma {:induction false} PatchVbn(e: Entry, prev: nat, v: Vbn)
    requires e.node
    ensures Patch(EntryBytes(e, prev), Len(e) - VBN_SIZE, Memory(v, VBN_SIZE)) == EntryBytes(e.(vbn := v), prev)
  {
    hide Memory, Head;
    assert Head(e.(vbn := v), prev) == Head(e, prev) by { HeadVbn(e, prev, v); }
  }

  lemma {:induction false} HeadVbn(e: Entry, prev: nat, v: Vbn)
    ensures Head(e.(vbn := v), prev) == Head(e, prev)
  {
  }
}
