/** What the byte moves of block editing do to the entries in the block. */
module IndexBlockEdit {
  import opened IndexLayout
  import opened IndexTreeEdit
  import opened Collate
  import opened IndexBlockBytes

  /** Byte offset of entry i. */
  function Off(es: seq<Entry>, i: nat): nat
    requires i <= |es|
  {
    HEAD_SIZE + SumLen(es[..i])
  }

  function PrevLen(es: seq<Entry>, i: nat): nat
    requires i <= |es|
  {
    LastLen(es[..i], ENTRY_HEAD_SIZE)
  }

  /** A run of entries that starts behind the BEGIN entry, seen from entry i. */
  lemma {:induction false} LiesAt(b: seq<u8>, es: seq<Entry>, i: nat)
    requires i <= |es|
    ensures Lies(b, HEAD_SIZE, es, ENTRY_HEAD_SIZE) <==>
            Lies(b, HEAD_SIZE, es[..i], ENTRY_HEAD_SIZE) && Lies(b, Off(es, i), es[i..], PrevLen(es, i))
    ensures Off(es, i) + SumLen(es[i..]) == RealSize(es)
  {
    LiesSplit(b, HEAD_SIZE, es, ENTRY_HEAD_SIZE, i);
    SumLenSplit(es, i);
  }

  /** From an entry to the next, and back. */
  lemma {:induction false} OffNext(es: seq<Entry>, i: nat)
    requires i < |es|
    ensures Off(es, i + 1) == Off(es, i) + Len(es[i]) && PrevLen(es, i + 1) == Len(es[i])
    ensures SumLen(es[i..]) == Len(es[i]) + SumLen(es[i + 1..])
  {
    SumLenAt(es, i);
    assert es[..i + 1][i] == es[i];
  }

  // ---- remove_ie

  function RemovedBytes(b: seq<u8>, off: nat, len: nat, n: nat, prev: nat): (c: seq<u8>)
    requires off + len + n <= |b| && PREV_OFF + 2 <= n
    ensures |c| == |b|
  {
    var b1 := Patch(b, off + len + PREV_OFF, Memory(prev, 2));
    Patch(b1, off, b1[off + len..off + len + n])
  }

  lemma {:induction false} RemoveRun(b: seq<u8>, es: seq<Entry>, i: nat)
    requires Lies(b, HEAD_SIZE, es, ENTRY_HEAD_SIZE) && i < |es| - 1
    ensures var n := SumLen(es[i + 1..]);
            && Off(es, i) + Len(es[i]) + n <= |b| && PREV_OFF + 2 <= n
            && Lies(Patch(b, Off(es, i) + Len(es[i]) + PREV_OFF, Memory(PrevLen(es, i), 2)), Off(es, i) + Len(es[i]),
                es[i + 1..], PrevLen(es, i))
            && Lies(RemovedBytes(b, Off(es, i), Len(es[i]), n, PrevLen(es, i)), HEAD_SIZE, Delete(es, i),
                ENTRY_HEAD_SIZE)
  {
    hide Lies, Patch, Memory;
    var off, len, p := Off(es, i), Len(es[i]), PrevLen(es, i);
    var next, t := off + len, es[i + 1..];
    var n := SumLen(t);
    OffNext(es, i);
    LiesAt(b, es, i + 1);
    LiesAt(b, es, i);
    LiesRange(b, next, t, len);
    LiesRange(b, HEAD_SIZE, es[..i], ENTRY_HEAD_SIZE);
    SumOne(t);
    LiesPatchPrev(b, next, t, len, p);
    var b1 := Patch(b, next + PREV_OFF, Memory(p, 2));
    var c := Patch(b1, off, b1[next..next + n]);
    PatchInside(b1, off, b1[next..next + n]);
    LiesMoved(b1, next, t, p, c, off);
    PatchOutside(b, next + PREV_OFF, Memory(p, 2), HEAD_SIZE, off);
    PatchOutside(b1, off, b1[next..next + n], HEAD_SIZE, off);
    LiesMoved(b, HEAD_SIZE, es[..i], ENTRY_HEAD_SIZE, c, HEAD_SIZE);
    LiesJoin(c, HEAD_SIZE, es[..i], t, ENTRY_HEAD_SIZE);
  }

  // ---- insert_ie

  function InsertedBytes(b: seq<u8>, off: nat, n: nat, m: seq<u8>): (c: seq<u8>)
    requires off + n + |m| <= |b| && PREV_OFF + 2 <= n
    ensures |c| == |b|
  {
    var b1 := Patch(b, off + PREV_OFF, Memory(|m|, 2));
    Patch(Patch(b1, off + |m|, b1[off..off + n]), off, m)
  }

  lemma {:induction false} InsertRun(b: seq<u8>, es: seq<Entry>, i: nat, e: Entry)
    requires Lies(b, HEAD_SIZE, es, ENTRY_HEAD_SIZE) && i < |es| && RealSize(es) + Len(e) <= |b|
    ensures var n, m := SumLen(es[i..]), EntryBytes(e, PrevLen(es, i));
            && Off(es, i) + n + |m| <= |b| && PREV_OFF + 2 <= n
            && Lies(Patch(b, Off(es, i) + PREV_OFF, Memory(Len(e), 2)), Off(es, i), es[i..], Len(e))
            && Lies(InsertedBytes(b, Off(es, i), n, m), HEAD_SIZE, Insert(es, i, e), ENTRY_HEAD_SIZE)
  {
    hide Lies, Patch, Memory, EntryBytes;
    var off, t, m := Off(es, i), es[i..], EntryBytes(e, PrevLen(es, i));
    var n := SumLen(t);
    LiesAt(b, es, i);
    LiesRange(b, off, t, PrevLen(es, i));
    LiesRange(b, HEAD_SIZE, es[..i], ENTRY_HEAD_SIZE);
    SumOne(t);
    LiesPatchPrev(b, off, t, PrevLen(es, i), Len(e));
    var b1 := Patch(b, off + PREV_OFF, Memory(|m|, 2));
    var b2 := Patch(b1, off + |m|, b1[off..off + n]);
    var c := Patch(b2, off, m);
    PatchInside(b1, off + |m|, b1[off..off + n]);
    PatchOutside(b2, off, m, off + |m|, off + |m| + n);
    LiesMoved(b1, off, t, Len(e), c, off + |m|);
    PatchInside(b2, off, m);
    LiesOne(c, off, e, PrevLen(es, i));
    SumOne([e]);
    PatchOutside(b, off + PREV_OFF, Memory(|m|, 2), HEAD_SIZE, off);
    PatchOutside(b1, off + |m|, b1[off..off + n], HEAD_SIZE, off);
    PatchOutside(b2, off, m, HEAD_SIZE, off);
    LiesMoved(b, HEAD_SIZE, es[..i], ENTRY_HEAD_SIZE, c, HEAD_SIZE);
    LiesJoin(c, off, [e], t, PrevLen(es, i));
    LiesJoin(c, HEAD_SIZE, es[..i], [e] + t, ENTRY_HEAD_SIZE);
    assert es[..i] + ([e] + t) == Insert(es, i, e);
  }

  // ---- copy_ib_tail

  /** Entries k + 1 and later, copied to the front of block d. */
  lemma {:induction false} TailRun(b: seq<u8>, es: seq<Entry>, k: nat, d: seq<u8>)
    requires Lies(b, HEAD_SIZE, es, ENTRY_HEAD_SIZE) && k < |es| - 1 && RealSize(es[k + 1..]) <= |d|
    ensures var off, n := Off(es, k + 1), SumLen(es[k + 1..]);
            && PREV_OFF + 2 <= n && off + n <= |b|
            && var b1 := Patch(b, off + PREV_OFF, Memory(ENTRY_HEAD_SIZE, 2));
            && Lies(b1, HEAD_SIZE, es[..k + 1], ENTRY_HEAD_SIZE)
            && Lies(b1, off, es[k + 1..], ENTRY_HEAD_SIZE)
            && Lies(Patch(d, HEAD_SIZE, b1[off..off + n]), HEAD_SIZE, es[k + 1..], ENTRY_HEAD_SIZE)
  {
    hide Lies, Patch, Memory;
    var off, t := Off(es, k + 1), es[k + 1..];
    var n := SumLen(t);
    LiesAt(b, es, k + 1);
    LiesRange(b, off, t, PrevLen(es, k + 1));
    LiesRange(b, HEAD_SIZE, es[..k + 1], ENTRY_HEAD_SIZE);
    SumOne(t);
    LiesPatchPrev(b, off, t, PrevLen(es, k + 1), ENTRY_HEAD_SIZE);
    var b1 := Patch(b, off + PREV_OFF, Memory(ENTRY_HEAD_SIZE, 2));
    PatchOutside(b, off + PREV_OFF, Memory(ENTRY_HEAD_SIZE, 2), HEAD_SIZE, off);
    LiesMoved(b, HEAD_SIZE, es[..k + 1], ENTRY_HEAD_SIZE, b1, HEAD_SIZE);
    PatchInside(d, HEAD_SIZE, b1[off..off + n]);
    LiesMoved(b1, off, t, ENTRY_HEAD_SIZE, Patch(d, HEAD_SIZE, b1[off..off + n]), HEAD_SIZE);
  }

  // ---- cut_ib_tail

  /** END, with the middle entry's child, over the middle entry. */
  function CutEntries(es: seq<Entry>, k: nat): seq<Entry>
    requires k < |es|
  {
    es[..k] + [es[|es| - 1].(vbn := es[k].vbn)]
  }

  /** The bytes after cut_ib_tail; last is the offset of END, whose length is n. */
  function CutBytes(b: seq<u8>, off: nat, last: nat, n: nat, node: bool, vbn: Vbn, prev: nat): (c: seq<u8>)
    requires off + n <= |b| && last + n <= |b| && PREV_OFF + 2 <= n && (node ==> VBN_SIZE <= n)
    ensures |c| == |b|
  {
    var b1 := if node then Patch(b, last + n - VBN_SIZE, Memory(vbn, VBN_SIZE)) else b;
    var b2 := Patch(b1, last + PREV_OFF, Memory(prev, 2));
    Patch(b2, off, b2[last..last + n])
  }

  lemma {:induction false} CutRun(b: seq<u8>, es: seq<Entry>, k: nat, q: nat)
    requires k < |es| - 1
    requires Lies(b, HEAD_SIZE, es[..k + 1], ENTRY_HEAD_SIZE)
    requires Lies(b, Off(es, |es| - 1), es[|es| - 1..], q)
    requires es[|es| - 1].node == es[k].node && (!es[k].node ==> es[k].vbn == es[|es| - 1].vbn)
    ensures var last, n := Off(es, |es| - 1), Len(es[|es| - 1]);
            && last + n <= |b| && Off(es, k) + n <= |b| && PREV_OFF + 2 <= n && (es[k].node ==> VBN_SIZE <= n)
            && Lies(CutBytes(b, Off(es, k), last, n, es[k].node, es[k].vbn, PrevLen(es, k)), HEAD_SIZE,
                CutEntries(es, k), ENTRY_HEAD_SIZE)
  {
    hide Lies, Patch, Memory, Len;
    var last, e := Off(es, |es| - 1), es[|es| - 1];
    assert es[|es| - 1..] == [e];
    OffMono(es, k, |es| - 1);
    CutPrefix(b, es, k);
    CutEnd(b, es[..k], Off(es, k), last, e, q, es[k].vbn, PrevLen(es, k));
  }

  lemma {:induction false} CutEnd(b: seq<u8>, l: seq<Entry>, off: nat, last: nat, e: Entry, q: nat, v: Vbn, p: nat)
    requires Lies(b, last, [e], q) && off <= last && (!e.node ==> v == e.vbn)
    requires Lies(b, HEAD_SIZE, l, ENTRY_HEAD_SIZE) && off == HEAD_SIZE + SumLen(l) && p == LastLen(l, ENTRY_HEAD_SIZE)
    ensures var n := Len(e);
            && last + n <= |b| && off + n <= |b| && PREV_OFF + 2 <= n && (e.node ==> VBN_SIZE <= n)
            && Lies(CutBytes(b, off, last, n, e.node, v, p), HEAD_SIZE, l + [e.(vbn := v)], ENTRY_HEAD_SIZE)
  {
    hide Lies, Patch, Memory;
    var n := Len(e);
    SumOne([e]);
    LiesRange(b, last, [e], q);
    var f := e.(vbn := v);
    SumOne([f]);
    var b1 := if e.node then Patch(b, last + n - VBN_SIZE, Memory(v, VBN_SIZE)) else b;
    assert Lies(b1, last, [f], q) by {
      if e.node { LiesPatchVbn(b, last, [e], q, v); assert [e][0 := f] == [f]; } else { assert f == e; }
    }
    if e.node { PatchOutside(b, last + n - VBN_SIZE, Memory(v, VBN_SIZE), HEAD_SIZE, off); }
    CutOver(b1, off, last, f, q, p);
    var c := CutBytes(b, off, last, n, e.node, v, p);
    LiesMoved(b, HEAD_SIZE, l, ENTRY_HEAD_SIZE, c, HEAD_SIZE);
    LiesJoin(c, HEAD_SIZE, l, [f], ENTRY_HEAD_SIZE);
  }

  lemma {:induction false} CutOver(b1: seq<u8>, off: nat, last: nat, f: Entry, q: nat, p: nat)
    requires Lies(b1, last, [f], q) && HEAD_SIZE <= off <= last
    ensures last + Len(f) <= |b1| && PREV_OFF + 2 <= Len(f)
    ensures var n := Len(f); var b2 := Patch(b1, last + PREV_OFF, Memory(p, 2));
        var c := Patch(b2, off, b2[last..last + n]);
            Lies(c, off, [f], p) && c[HEAD_SIZE..off] == b1[HEAD_SIZE..off]
  {
    hide Lies, Patch, Memory;
    var n := Len(f);
    SumOne([f]);
    LiesRange(b1, last, [f], q);
    LiesPatchPrev(b1, last, [f], q, p);
    var b2 := Patch(b1, last + PREV_OFF, Memory(p, 2));
    PatchInside(b2, off, b2[last..last + n]);
    LiesMoved(b2, last, [f], p, Patch(b2, off, b2[last..last + n]), off);
    PatchOutside(b1, last + PREV_OFF, Memory(p, 2), HEAD_SIZE, off);
    PatchOutside(b2, off, b2[last..last + n], HEAD_SIZE, off);
  }

  lemma {:induction false} CutPrefix(b: seq<u8>, es: seq<Entry>, k: nat)
    requires k < |es| && Lies(b, HEAD_SIZE, es[..k + 1], ENTRY_HEAD_SIZE)
    ensures Lies(b, HEAD_SIZE, es[..k], ENTRY_HEAD_SIZE) && Off(es, k) <= |b|
  {
    hide Lies;
    assert es[..k + 1][..k] == es[..k];
    LiesSplit(b, HEAD_SIZE, es[..k + 1], ENTRY_HEAD_SIZE, k);
    LiesRange(b, HEAD_SIZE, es[..k], ENTRY_HEAD_SIZE);
  }

  lemma {:induction false} OffMono(es: seq<Entry>, i: nat, j: nat)
    requires i <= j <= |es|
    ensures Off(es, i) <= Off(es, j)
    decreases j
  {
    if i < j {
      SumLenAt(es, j - 1);
      OffMono(es, i, j - 1);
    }
  }
}
