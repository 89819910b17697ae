/** On-disk layout of an index block, at the level of whole entries. */
module IndexLayout {
  type u8 = b: int | 0 <= b < 256
  type Vbn = nat

  // Byte sizes of the packed structures: index_block_t, index_entry_t and a block number.
  const HEAD_SIZE: nat := 33
  const ENTRY_HEAD_SIZE: nat := 9
  const VBN_SIZE: nat := 8

  // An ordinary index block, and the root block that lives inside the inode.
  const BLOCK_CAP: nat := 4096
  const ROOT_CAP: nat := 3722

  const KEY_MAX_SIZE: nat := 256
  const VALUE_MAX_SIZE: nat := 1024
  const TREE_MAX_DEPTH: nat := 16

  datatype KV = KV(key: seq<u8>, val: seq<u8>)

  /** One index entry.  `node` is INDEX_ENTRY_NODE (the entry carries the number of the child
      block whose keys are smaller), `end` is INDEX_ENTRY_END. */
  datatype Entry = Entry(kv: KV, node: bool, vbn: Vbn, end: bool)

  /** An index block: its allocated size and its entries, the END entry last. */
  datatype Block = Block(cap: nat, es: seq<Entry>)

  function Len(e: Entry): nat {
    ENTRY_HEAD_SIZE + |e.kv.key| + |e.kv.val| + if e.node then VBN_SIZE else 0
  }

  function SumLen(es: seq<Entry>): nat {
    if es == [] then 0 else Len(es[0]) + SumLen(es[1..])
  }

  function RealSize(es: seq<Entry>): nat {
    HEAD_SIZE + SumLen(es)
  }

  function EndEntry(node: bool, vbn: Vbn): Entry {
    Entry(KV([], []), node, vbn, true)
  }

  /** dump_ie_add_vbn and dump_ie_del_vbn. */
  function AddVbn(e: Entry, vbn: Vbn): Entry { e.(node := true, vbn := vbn) }

  function DelVbn(e: Entry): Entry { e.(node := false, vbn := 0) }

  lemma {:induction false} SumLenAppend(a: seq<Entry>, b: seq<Entry>)
    ensures SumLen(a + b) == SumLen(a) + SumLen(b)
  {
    if a == [] {
      assert a + b == b;
    } else {
      assert (a + b)[1..] == a[1..] + b;
      SumLenAppend(a[1..], b);
    }
  }

  lemma {:induction false} SumLenSplit(es: seq<Entry>, i: nat)
    requires i <= |es|
    ensures SumLen(es) == SumLen(es[..i]) + SumLen(es[i..])
  {
    assert es == es[..i] + es[i..];
    SumLenAppend(es[..i], es[i..]);
  }

  lemma {:induction false} SumLenAt(es: seq<Entry>, i: nat)
    requires i < |es|
    ensures SumLen(es[i..]) == Len(es[i]) + SumLen(es[i + 1..])
    ensures SumLen(es[..i + 1]) == SumLen(es[..i]) + Len(es[i])
    ensures SumLen(es) == SumLen(es[..i]) + Len(es[i]) + SumLen(es[i + 1..])
  {
    assert es[i..][1..] == es[i + 1..];
    SumLenSplit(es, i);
    assert es[..i + 1] == es[..i] + [es[i]];
    SumLenAppend(es[..i], [es[i]]);
    assert SumLen([es[i]]) == Len(es[i]) + SumLen([]);
  }

  lemma {:induction false} SumLenInsert(es: seq<Entry>, p: nat, e: Entry)
    requires p <= |es|
    ensures SumLen(es[..p] + [e] + es[p..]) == SumLen(es) + Len(e)
  {
    SumLenSplit(es, p);
    SumLenAppend(es[..p] + [e], es[p..]);
    SumLenAppend(es[..p], [e]);
    assert SumLen([e]) == Len(e) + SumLen([]);
  }

  lemma {:induction false} SumLenRemove(es: seq<Entry>, p: nat)
    requires p < |es|
    ensures SumLen(es[..p] + es[p + 1..]) == SumLen(es) - Len(es[p])
  {
    SumLenAt(es, p);
    SumLenAppend(es[..p], es[p + 1..]);
  }

  lemma {:induction false} SumLenUpdate(es: seq<Entry>, p: nat, v: Vbn)
    requires p < |es|
    ensures SumLen(es[p := es[p].(vbn := v)]) == SumLen(es)
  {
    var us := es[p := es[p].(vbn := v)];
    SumLenAt(es, p);
    SumLenAt(us, p);
    assert us[..p] == es[..p] && us[p + 1..] == es[p + 1..];
  }
}
