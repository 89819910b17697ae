/** Free extents: sorted, disjoint ranges of blocks. */
module Extents {
  import opened IndexLayout
  import opened IndexTreeEdit
  import opened Collate

  datatype Extent = Extent(addr: nat, len: nat)

  function End(e: Extent): nat { e.addr + e.len }

  predicate Spans(e: Extent, b: nat) { e.addr <= b < End(e) }

  predicate Overlap(e: Extent, f: Extent) { e.addr < End(f) && f.addr < End(e) }

  ghost predicate Free(s: seq<Extent>, b: nat) { exists i :: 0 <= i < |s| && Spans(s[i], b) }

  /** Not empty, sorted and disjoint. */
  ghost predicate Proper(s: seq<Extent>) {
    && (forall i | 0 <= i < |s| :: 0 < s[i].len && End(s[i]) < TWO_64)
    && (forall i, j | 0 <= i < j < |s| :: End(s[i]) <= s[j].addr)
  }

  /** No extent touches the next. */
  ghost predicate Coalesced(s: seq<Extent>) {
    forall i, j | 0 <= i < j < |s| :: End(s[i]) < s[j].addr
  }

  function Total(s: seq<Extent>): nat {
    if s == [] then 0 else s[0].len + Total(s[1..])
  }

  lemma {:induction false} TotalAppend(a: seq<Extent>, b: seq<Extent>)
    ensures Total(a + b) == Total(a) + Total(b)
  {
    if a == [] {
      assert a + b == b;
    } else {
      assert (a + b)[1..] == a[1..] + b;
      TotalAppend(a[1..], b);
    }
  }

  lemma {:induction false} TotalDelete(s: seq<Extent>, i: nat)
    requires i < |s|
    ensures Total(Delete(s, i)) + s[i].len == Total(s)
  {
    assert s == s[..i] + ([s[i]] + s[i + 1..]);
    TotalAppend(s[..i], [s[i]] + s[i + 1..]);
    TotalAppend([s[i]], s[i + 1..]);
    TotalAppend(s[..i], s[i + 1..]);
    assert Total([s[i]]) == s[i].len + Total([]);
  }

  lemma {:induction false} TotalInsert(s: seq<Extent>, p: nat, e: Extent)
    requires p <= |s|
    ensures Total(Insert(s, p, e)) == Total(s) + e.len
  {
    TotalDelete(Insert(s, p, e), p);
    assert Delete(Insert(s, p, e), p) == s;
  }

  lemma {:induction false} TotalAt(s: seq<Extent>, i: nat)
    requires i < |s|
    ensures s[i].len <= Total(s)
  {
    TotalDelete(s, i);
  }

  lemma {:induction false} InsertedIs(s: seq<Extent>, p: nat, e: Extent, j: nat)
    requires p <= |s| && j <= |s|
    ensures |Insert(s, p, e)| == |s| + 1
    ensures Insert(s, p, e)[j] == if j == p then e else s[if j < p then j else j - 1]
  {
  }

  /** Taking an extent out takes exactly its blocks out. */
  lemma {:induction false} DeleteExtent(s: seq<Extent>, i: nat)
    requires Proper(s) && i < |s|
    ensures Proper(Delete(s, i)) && (Coalesced(s) ==> Coalesced(Delete(s, i)))
    ensures forall b :: Free(Delete(s, i), b) <==> Free(s, b) && !Spans(s[i], b)
  {
    hide Free, Proper, Coalesced;
    forall b ensures Free(Delete(s, i), b) <==> Free(s, b) && !Spans(s[i], b) {
      DeleteFree(s, i, b);
    }
    DeleteProper(s, i);
  }

  lemma {:induction false} DeleteFree(s: seq<Extent>, i: nat, b: nat)
    requires Proper(s) && i < |s|
    ensures Free(Delete(s, i), b) <==> Free(s, b) && !Spans(s[i], b)
  {
    hide Delete;
    var t := Delete(s, i);
    DeleteIndex(s, i, 0);
    if Free(t, b) {
      var j :| 0 <= j < |t| && Spans(t[j], b);
      DeleteIndex(s, i, j);
      assert Spans(s[if j < i then j else j + 1], b);
    }
    if Free(s, b) && !Spans(s[i], b) {
      var j :| 0 <= j < |s| && Spans(s[j], b);
      DeleteIndex(s, i, if j < i then j else j - 1);
      assert Spans(t[if j < i then j else j - 1], b);
    }
  }

  lemma {:induction false} DeleteProper(s: seq<Extent>, i: nat)
    requires Proper(s) && i < |s|
    ensures Proper(Delete(s, i)) && (Coalesced(s) ==> Coalesced(Delete(s, i)))
  {
    hide Delete;
    var t := Delete(s, i);
    DeleteIndex(s, i, 0);
    forall j | 0 <= j < |t| ensures 0 < t[j].len && End(t[j]) < TWO_64 { DeleteIndex(s, i, j); }
    forall j, k | 0 <= j < k < |t| ensures End(t[j]) <= t[k].addr && (Coalesced(s) ==> End(t[j]) < t[k].addr) {
      DeleteIndex(s, i, j);
      DeleteIndex(s, i, k);
    }
  }

  /** Where an extent that overlaps no other belongs. */
  ghost predicate Place(s: seq<Extent>, p: nat, e: Extent) {
    && p <= |s|
    && (forall i | 0 <= i < p :: End(s[i]) <= e.addr)
    && (forall i | p <= i < |s| :: End(e) <= s[i].addr)
  }

  lemma {:induction false} InsertExtent(s: seq<Extent>, p: nat, e: Extent)
    requires Proper(s) && Place(s, p, e) && 0 < e.len && End(e) < TWO_64
    ensures Proper(Insert(s, p, e))
    ensures forall b :: Free(Insert(s, p, e), b) <==> Free(s, b) || Spans(e, b)
  {
    hide Free, Proper;
    forall b ensures Free(Insert(s, p, e), b) <==> Free(s, b) || Spans(e, b) {
      InsertFree(s, p, e, b);
    }
    InsertProper(s, p, e);
  }

  lemma {:induction false} InsertFree(s: seq<Extent>, p: nat, e: Extent, b: nat)
    requires p <= |s|
    ensures Free(Insert(s, p, e), b) <==> Free(s, b) || Spans(e, b)
  {
    hide Insert;
    var t := Insert(s, p, e);
    InsertedIs(s, p, e, p);
    if Free(t, b) {
      var j :| 0 <= j < |t| && Spans(t[j], b);
      InsertedIs(s, p, e, j);
      if j != p { assert Spans(s[if j < p then j else j - 1], b); }
    }
    if Free(s, b) {
      var j :| 0 <= j < |s| && Spans(s[j], b);
      InsertedIs(s, p, e, if j < p then j else j + 1);
      assert Spans(t[if j < p then j else j + 1], b);
    }
    if Spans(e, b) { assert Spans(t[p], b); }
  }

  lemma {:induction false} InsertProper(s: seq<Extent>, p: nat, e: Extent)
    requires Proper(s) && Place(s, p, e) && 0 < e.len && End(e) < TWO_64
    ensures Proper(Insert(s, p, e))
  {
    hide Insert;
    var t := Insert(s, p, e);
    InsertedIs(s, p, e, p);
    forall i, j | 0 <= i < j < |t| ensures End(t[i]) <= t[j].addr {
      InsertedIs(s, p, e, i);
      InsertedIs(s, p, e, j);
    }
    forall i | 0 <= i < |t| ensures 0 < t[i].len && End(t[i]) < TWO_64 {
      InsertedIs(s, p, e, i);
    }
  }

  /** Every extent that overlaps no other belongs somewhere. */
  lemma {:induction false} PlaceExists(s: seq<Extent>, e: Extent) returns (p: nat)
    requires Proper(s) && 0 < e.len && forall f | f in s :: !Overlap(f, e)
    ensures Place(s, p, e)
  {
    p := 0;
    while p < |s| && End(s[p]) <= e.addr
      invariant p <= |s| && forall i | 0 <= i < p :: End(s[i]) <= e.addr
    {
      p := p + 1;
    }
    if p < |s| {
      assert s[p] in s;
      assert !Overlap(s[p], e);
    }
  }

  // ---- extents as entries of the index

  function ToEntry(e: Extent): KV { KV(Encode(e.addr), Encode(e.len)) }

  function ToEntries(s: seq<Extent>): seq<KV> { seq(|s|, i requires 0 <= i < |s| => ToEntry(s[i])) }

  lemma {:induction false} EntryExtent(e: Extent)
    requires e.addr < TWO_64 && e.len < TWO_64
    ensures LittleEndian(ToEntry(e).key) == e.addr && LittleEndian(ToEntry(e).val) == e.len
    ensures 1 <= |ToEntry(e).key| <= U64_MAX_SIZE && 1 <= |ToEntry(e).val| <= U64_MAX_SIZE
  {
    EncodeRoundTrip(e.addr);
    EncodeRoundTrip(e.len);
    SizeU64(e.addr);
    SizeU64(e.len);
  }

  /** The table is proper exactly when the index holding it is sorted by the extent rule. */
  lemma {:induction false} ProperIsSorted(s: seq<Extent>)
    requires forall i | 0 <= i < |s| :: s[i].addr < TWO_64 && s[i].len < TWO_64
    ensures Proper(s) <==> Sorted(CrExtent, ToEntries(s))
  {
    hide Encode, LittleEndian;
    var c := ToEntries(s);
    forall i | 0 <= i < |s|
      ensures c[i] == ToEntry(s[i]) && (KeyOk(CrExtent, c[i]) <==> 0 < s[i].len && End(s[i]) < TWO_64)
      ensures LittleEndian(c[i].key) == s[i].addr && LittleEndian(c[i].val) == s[i].len && c[i].val != []
    {
      EntryExtent(s[i]);
    }
    if Proper(s) {
      forall i, j | 0 <= i < j < |c| ensures Precedes(CrExtent, c[i], c[j]) {
        assert End(s[i]) <= s[j].addr;
      }
    }
    if Sorted(CrExtent, c) {
      forall i, j | 0 <= i < j < |s| ensures End(s[i]) <= s[j].addr {
        assert Precedes(CrExtent, c[i], c[j]);
        assert KeyOk(CrExtent, c[i]) && KeyOk(CrExtent, c[j]);
      }
    }
  }

  /** A search by the extent rule compares equal exactly on overlap. */
  lemma {:induction false} EqualIsOverlap(e: Extent, q: Extent)
    requires 0 < e.len && End(e) < TWO_64 && 0 < q.len && End(q) < TWO_64
    ensures CollateSign(CrExtent, ToEntry(e), ToEntry(q).key, ToEntry(q).val) == 0 <==> Overlap(e, q)
    ensures CollateSign(CrExtent, ToEntry(e), ToEntry(q).key, ToEntry(q).val) < 0 <==> End(e) <= q.addr
  {
    hide Encode, LittleEndian;
    EntryExtent(e);
    EntryExtent(q);
  }

  /** Proper extents within a range are not longer than the range. */
  lemma {:induction false} TotalBound(s: seq<Extent>, lo: nat, hi: nat)
    requires Proper(s) && lo <= hi && forall i | 0 <= i < |s| :: lo <= s[i].addr && End(s[i]) <= hi
    ensures Total(s) <= hi - lo
    decreases |s|
  {
    if s != [] {
      var t := s[1..];
      forall i | 0 <= i < |t| ensures End(s[0]) <= t[i].addr && End(t[i]) <= hi { assert t[i] == s[i + 1]; }
      TotalBound(t, End(s[0]), hi);
    }
  }

  /** Extents all of whose blocks are below n end there. */
  lemma {:induction false} FreeEnds(s: seq<Extent>, n: nat)
    requires Proper(s) && forall b: nat :: Free(s, b) ==> b < n
    ensures Total(s) <= n
  {
    forall i | 0 <= i < |s| ensures End(s[i]) <= n {
      assert Spans(s[i], End(s[i]) - 1);
      assert Free(s, End(s[i]) - 1);
    }
    TotalBound(s, 0, n);
  }
}
