/** Byte strings as numbers and extents, and the orders on keys. */
module Collate {
  import opened IndexLayout

  const U64_MAX_SIZE: nat := 8
  const TWO_64: nat := 0x1_0000_0000_0000_0000

  // ---- byte strings as numbers

  function LittleEndian(b: seq<u8>): nat {
    if b == [] then 0 else b[0] + 256 * LittleEndian(b[1..])
  }

  function BigEndian(b: seq<u8>): nat {
    if b == [] then 0 else 256 * BigEndian(b[..|b| - 1]) + b[|b| - 1]
  }

  function Pow256(n: nat): (p: nat)
    ensures 0 < p
  {
    if n == 0 then 1 else 256 * Pow256(n - 1)
  }

  /** The n low bytes of u, lowest first: how a machine word lies in memory. */
  function Memory(u: nat, n: nat): (b: seq<u8>)
    ensures |b| == n
  {
    if n == 0 then [] else [u % 256] + Memory(u / 256, n - 1)
  }

  /** The shortest encoding, but at least one byte. */
  function Size(u: nat): nat {
    if u < 256 then 1 else 1 + Size(u / 256)
  }

  function Encode(u: nat): seq<u8> { Memory(u, Size(u)) }

  lemma {:induction false} LittleEndianBound(b: seq<u8>)
    ensures LittleEndian(b) < Pow256(|b|)
  {
    if b != [] { LittleEndianBound(b[1..]); }
  }

  lemma {:induction false} SizeBound(u: nat)
    ensures 1 <= Size(u) && u < Pow256(Size(u)) && (1 < Size(u) ==> Pow256(Size(u) - 1) <= u)
  {
    if u < 256 {
      assert Pow256(1) == 256 * Pow256(0);
    } else {
      SizeBound(u / 256);
      var n := Size(u / 256);
      assert Size(u) == n + 1;
      assert u == 256 * (u / 256) + u % 256;
      assert u < 256 * Pow256(n);
      if n > 1 {
        assert Pow256(n) == 256 * Pow256(n - 1);
      } else {
        assert Pow256(1) == 256 * Pow256(0);
      }
    }
  }

  lemma {:induction false} PowMono(m: nat, n: nat)
    requires m <= n
    ensures Pow256(m) <= Pow256(n)
    decreases n
  {
    if m < n { PowMono(m, n - 1); }
  }

  /** Numbers of eight bytes have encodings of at most eight bytes. */
  lemma {:induction false} SizeU64(u: nat)
    requires u < TWO_64
    ensures Size(u) <= U64_MAX_SIZE
  {
    SizeBound(u);
    PowEight();
    if Size(u) > 8 { PowMono(8, Size(u) - 1); }
  }

  lemma {:induction false} PowEight()
    ensures Pow256(8) == TWO_64
  {
    assert Pow256(0) == 1;
    assert Pow256(1) == 256;
    assert Pow256(2) == 65536;
    assert Pow256(3) == 16777216;
    assert Pow256(4) == 0x1_0000_0000;
    assert Pow256(5) == 0x100_0000_0000;
    assert Pow256(6) == 0x1_0000_0000_0000;
    assert Pow256(7) == 0x100_0000_0000_0000;
  }

  lemma {:induction false} MemoryValue(u: nat, n: nat)
    requires u < Pow256(n)
    ensures LittleEndian(Memory(u, n)) == u
  {
    if n > 0 {
      assert u == 256 * (u / 256) + u % 256;
      assert u / 256 < Pow256(n - 1);
      MemoryValue(u / 256, n - 1);
      assert Memory(u, n)[1..] == Memory(u / 256, n - 1);
    }
  }

  /** Decoding undoes encoding, and no byte string with the same value is shorter. */
  lemma {:induction false} EncodeRoundTrip(u: nat)
    ensures LittleEndian(Encode(u)) == u
    ensures forall b: seq<u8> | b != [] && LittleEndian(b) == u :: |Encode(u)| <= |b|
  {
    SizeBound(u);
    MemoryValue(u, Size(u));
    forall b: seq<u8> | b != [] && LittleEndian(b) == u
      ensures Size(u) <= |b|
    {
      LittleEndianBound(b);
      if |b| < Size(u) { PowMono(|b|, Size(u) - 1); }
    }
  }

  /** Zero bytes at the end of a little-endian string are padding. */
  lemma {:induction false} ZeroPadding(b: seq<u8>, n: nat)
    ensures LittleEndian(b + Memory(0, n)) == LittleEndian(b)
    decreases |b|, n
  {
    if b == [] {
      assert b + Memory(0, n) == Memory(0, n);
      if n > 0 {
        assert Memory(0, n)[1..] == Memory(0, n - 1);
        ZeroPadding([], n - 1);
        assert [] + Memory(0, n - 1) == Memory(0, n - 1);
      }
    } else {
      assert (b + Memory(0, n))[1..] == b[1..] + Memory(0, n);
      ZeroPadding(b[1..], n);
    }
  }

  /** Encoding undoes decoding for every string without padding. */
  lemma {:induction false} DecodeRoundTrip(b: seq<u8>)
    requires b != [] && (|b| == 1 || b[|b| - 1] != 0)
    ensures Encode(LittleEndian(b)) == b
  {
    var u := LittleEndian(b);
    if |b| == 1 {
      assert b == [b[0]] && b[1..] == [];
      assert Memory(u, 1) == [u % 256] + Memory(u / 256, 0);
    } else {
      var t := b[1..];
      if |t| == 1 { assert t[0] != 0 && LittleEndian(t) == t[0] + 256 * LittleEndian(t[1..]); }
      else { TopByte(t); PowMono(1, |t| - 1); assert Pow256(1) == 256 * Pow256(0); }
      assert 1 <= LittleEndian(t);
      DecodeRoundTrip(t);
      assert u / 256 == LittleEndian(t) && u % 256 == b[0];
      assert Encode(u) == [u % 256] + Memory(u / 256, Size(u / 256));
    }
  }

  lemma {:induction false} TopByte(b: seq<u8>)
    requires b != [] && b[|b| - 1] != 0
    ensures Pow256(|b| - 1) <= LittleEndian(b)
  {
    if |b| == 1 {
      assert LittleEndian(b) == b[0] + 256 * LittleEndian(b[1..]);
    } else {
      TopByte(b[1..]);
    }
  }

  /** os_bstr_to_u64. */
  method BstrToU64(b: seq<u8>) returns (u: nat)
    requires 0 < |b| <= U64_MAX_SIZE
    ensures u == LittleEndian(b) && u < TWO_64
  {
    // uc points at byte i of the word
    u := 0;
    var i: nat := 0;
    var weight: nat := 1;
    while i < |b|
      invariant 0 <= i <= |b| && weight == Pow256(i)
      invariant u == LittleEndian(b[..i])
      decreases |b| - i
    {
      LittleEndianSnoc(b[..i], b[i]);
      assert b[..i + 1] == b[..i] + [b[i]];
      u := u + b[i] * weight;
      weight := 256 * weight;
      i := i + 1;
    }
    assert b[..i] == b;
    LittleEndianBound(b);
    PowMono(|b|, 8);
    PowEight();
  }

  lemma {:induction false} LittleEndianSnoc(b: seq<u8>, c: u8)
    ensures LittleEndian(b + [c]) == LittleEndian(b) + c * Pow256(|b|)
  {
    if b == [] {
      assert b + [c] == [c] && [c][1..] == [];
    } else {
      assert (b + [c])[1..] == b[1..] + [c];
      LittleEndianSnoc(b[1..], c);
    }
  }

  lemma {:induction false} SizeOfMemory(u: nat, n: nat, p: nat)
    requires p < n && u < Pow256(n)
    requires forall j | p < j < n :: Memory(u, n)[j] == 0
    requires p == 0 || Memory(u, n)[p] != 0
    ensures Size(u) == p + 1
  {
    var m := Memory(u, n);
    assert m[1..] == Memory(u / 256, n - 1);
    if p == 0 {
      MemoryValue(u, n);
      AllZero(m[1..]);
    } else {
      MemoryZero(n - 1);
      assert u / 256 < Pow256(n - 1);
      assert forall j | p - 1 < j < n - 1 :: m[1..][j] == m[j + 1];
      SizeOfMemory(u / 256, n - 1, p - 1);
      if u < 256 { assert false; }
    }
  }

  lemma {:induction false} AllZero(b: seq<u8>)
    requires forall j | 0 <= j < |b| :: b[j] == 0
    ensures LittleEndian(b) == 0
  {
    if b != [] { AllZero(b[1..]); }
  }

  lemma {:induction false} MemoryZero(n: nat)
    ensures forall j | 0 <= j < n :: Memory(0, n)[j] == 0
  {
    if n > 0 { MemoryZero(n - 1); }
  }

  /** os_u64_size. */
  method U64Size(u: nat) returns (n: nat)
    requires u < TWO_64
    ensures n == Size(u) && 1 <= n <= U64_MAX_SIZE
  {
    PowEight();
    n := U64_MAX_SIZE;
    var pos: nat := U64_MAX_SIZE - 1;
    while pos > 0
      invariant n == pos + 1 && pos < 8
      invariant forall j | pos < j < 8 :: Memory(u, 8)[j] == 0
    {
      if Memory(u, 8)[pos] != 0 {
        break;
      }
      n := n - 1;
      pos := pos - 1;
    }
    SizeOfMemory(u, 8, pos);
  }

  /** os_u64_to_bstr: writes the encoding into buffer b from position at. */
  method U64ToBstr(u: nat, b: array<u8>, at: nat) returns (n: nat)
    requires u < TWO_64 && at + Size(u) <= b.Length
    modifies b
    ensures n == Size(u) && 1 <= n <= U64_MAX_SIZE
    ensures b[..] == old(b[..at]) + Encode(u) + old(b[at + n..])
  {
    n := U64Size(u);
    var word := Memory(u, 8);
    var pos := 0;
    while pos < n
      invariant 0 <= pos <= n
      invariant b[..at] == old(b[..at]) && b[at + pos..] == old(b[at + pos..])
      invariant forall j | 0 <= j < pos :: b[at + j] == word[j]
    {
      b[at + pos] := word[pos];
      pos := pos + 1;
    }
    MemoryPrefix(u, n, 8);
    assert forall j | 0 <= j < n :: b[at + j] == Encode(u)[j];
    assert b[..] == b[..at] + b[at..at + n] + b[at + n..];
    assert b[at..at + n] == Encode(u);
  }

  lemma {:induction false} MemoryPrefix(u: nat, m: nat, n: nat)
    requires m <= n
    ensures forall j | 0 <= j < m :: Memory(u, m)[j] == Memory(u, n)[j]
  {
    if m > 0 {
      MemoryPrefix(u / 256, m - 1, n - 1);
      forall j | 0 <= j < m ensures Memory(u, m)[j] == Memory(u, n)[j] {
        if j > 0 {
          assert Memory(u, m)[j] == Memory(u / 256, m - 1)[j - 1];
          assert Memory(u, n)[j] == Memory(u / 256, n - 1)[j - 1];
        }
      }
    }
  }

  // ---- extent pairs

  /** Header byte with the size of the address, address, length. */
  function EncodePair(pa: nat, len: nat): seq<u8>
    requires pa < TWO_64
  {
    SizeU64(pa);
    [Size(pa)] + Encode(pa) + Encode(len)
  }

  /** os_extent_to_extent_pair: returns the size written, 0 for an empty extent. */
  method ExtentToPair(pa: nat, len: nat, b: array<u8>) returns (n: nat)
    requires pa < TWO_64 && len < TWO_64 && 17 <= b.Length
    modifies b
    ensures len == 0 ==> n == 0 && b[..] == old(b[..])
    ensures len != 0 ==> 3 <= n <= 17 && b[..n] == EncodePair(pa, len) && b[n..] == old(b[n..])
  {
    if len == 0 {
      return 0;
    }
    ghost var was := b[..];
    SizeU64(pa);
    SizeU64(len);
    var paSize := U64ToBstr(pa, b, 1);
    b[0] := paSize;
    ghost var mid := b[..];
    assert mid[1..1 + paSize] == Encode(pa) && mid[1 + paSize..] == was[1 + paSize..];
    var lenSize := U64ToBstr(len, b, 1 + paSize);
    n := 1 + paSize + lenSize;
    assert b[..1 + paSize] == mid[..1 + paSize] == [paSize] + Encode(pa);
    assert b[1 + paSize..n] == Encode(len);
    assert b[..n] == b[..1 + paSize] + b[1 + paSize..n];
    assert b[n..] == mid[n..] == was[n..];
  }

  /** os_extent_pair_to_extent: the length, 0 for a pair that is too short. */
  function DecodePair(b: seq<u8>): (nat, nat)
    requires b != []
  {
    var paSize: int := b[0];
    if |b| <= paSize + 1 then (0, 0)
    else (LittleEndian(b[1..1 + paSize]), LittleEndian(b[1 + paSize..]))
  }

  method PairToExtent(b: seq<u8>) returns (pa: nat, len: nat)
    requires b != [] && (|b| > b[0] as int + 1 ==> 1 <= b[0] <= 8 && |b| - b[0] - 1 <= 8)
    ensures (pa, len) == DecodePair(b)
  {
    var paSize: int := b[0];
    if |b| <= paSize + 1 {
      return 0, 0;
    }
    pa := BstrToU64(b[1..1 + paSize]);
    len := BstrToU64(b[1 + paSize..]);
  }

  lemma {:induction false} PairRoundTrip(pa: nat, len: nat)
    requires pa < TWO_64 && 0 < len < TWO_64
    ensures |EncodePair(pa, len)| <= 17
    ensures DecodePair(EncodePair(pa, len)) == (pa, len)
  {
    SizeU64(pa);
    SizeU64(len);
    SizeBound(len);
    EncodeRoundTrip(pa);
    EncodeRoundTrip(len);
    var b := EncodePair(pa, len);
    assert b[1..1 + b[0]] == Encode(pa);
    assert b[1 + b[0]..] == Encode(len);
  }

  // ---- orders

  function Sign(a: int, b: int): int {
    if a > b then 1 else if a < b then -1 else 0
  }

  lemma {:induction false} BigEndianSkipZero(b: seq<u8>)
    requires b != [] && b[0] == 0
    ensures BigEndian(b) == BigEndian(b[1..])
  {
    if |b| > 1 {
      BigEndianSkipZero(b[..|b| - 1]);
      assert b[..|b| - 1][1..] == b[1..][..|b| - 2];
    } else {
      assert b[..0] == [] && b[1..] == [];
    }
  }

  lemma {:induction false} BigEndianHead(b: seq<u8>)
    requires b != []
    ensures BigEndian(b) == b[0] * Pow256(|b| - 1) + BigEndian(b[1..])
    ensures BigEndian(b[1..]) < Pow256(|b| - 1)
  {
    if |b| == 1 {
      assert b[..0] == [] && b[1..] == [];
    } else {
      var c := b[..|b| - 1];
      BigEndianHead(c);
      assert c[1..] == b[1..][..|b| - 2] && b[1..][|b| - 2] == b[|b| - 1];
      assert BigEndian(b[1..]) == 256 * BigEndian(c[1..]) + b[|b| - 1];
      assert 256 * (b[0] * Pow256(|c| - 1)) == b[0] * Pow256(|b| - 1);
    }
  }

  /** os_collate_binary compares byte strings of any lengths as big-endian numbers. */
  method CollateBinary(b1: seq<u8>, b2: seq<u8>) returns (r: int)
    ensures r == Sign(BigEndian(b1), BigEndian(b2))
    ensures (r < 0 <==> BigEndian(b1) < BigEndian(b2)) && (r > 0 <==> BigEndian(b1) > BigEndian(b2))
  {
    // discard the beginning 0
    var c1, c2 := b1, b2;
    while 0 < |c1| && c1[0] == 0
      invariant BigEndian(c1) == BigEndian(b1)
    {
      BigEndianSkipZero(c1);
      c1 := c1[1..];
    }
    while 0 < |c2| && c2[0] == 0
      invariant BigEndian(c2) == BigEndian(b2)
    {
      BigEndianSkipZero(c2);
      c2 := c2[1..];
    }
    if |c1| > |c2| {
      Longer(c1, c2);
      return 1;
    }
    if |c1| < |c2| {
      Longer(c2, c1);
      return -1;
    }
    while 0 < |c1|
      invariant |c1| == |c2|
      invariant Sign(BigEndian(c1), BigEndian(c2)) == Sign(BigEndian(b1), BigEndian(b2))
    {
      BigEndianHead(c1);
      BigEndianHead(c2);
      FirstByte(c1[0], c2[0], Pow256(|c1| - 1), BigEndian(c1[1..]), BigEndian(c2[1..]));
      if c1[0] > c2[0] {
        return 1;
      }
      if c1[0] < c2[0] {
        return -1;
      }
      c1 := c1[1..];
      c2 := c2[1..];
    }
    return 0;
  }

  lemma {:induction false} FirstByte(a: nat, b: nat, p: nat, x: nat, y: nat)
    requires x < p && y < p
    ensures a > b ==> a * p + x > b * p + y
    ensures a < b ==> a * p + x < b * p + y
    ensures a == b ==> Sign(a * p + x, b * p + y) == Sign(x, y)
  {
    if a > b { assert a * p >= (b + 1) * p == b * p + p; }
    if a < b { assert b * p >= (a + 1) * p == a * p + p; }
  }

  lemma {:induction false} Longer(a: seq<u8>, b: seq<u8>)
    requires |a| > |b| && a[0] != 0
    ensures BigEndian(a) > BigEndian(b)
  {
    BigEndianHead(a);
    assert a[0] * Pow256(|a| - 1) >= Pow256(|a| - 1);
    if b != [] {
      BigEndianHead(b);
      PowMono(|b|, |a| - 1);
      assert b[0] * Pow256(|b| - 1) <= 255 * Pow256(|b| - 1);
      assert Pow256(|b|) == 256 * Pow256(|b| - 1);
    }
  }

  /** os_collate_u64. */
  method CollateU64(b1: seq<u8>, b2: seq<u8>) returns (r: int)
    requires 0 < |b1| <= U64_MAX_SIZE && 0 < |b2| <= U64_MAX_SIZE
    ensures r == Sign(LittleEndian(b1), LittleEndian(b2))
    ensures (r < 0 <==> LittleEndian(b1) < LittleEndian(b2)) && (r > 0 <==> LittleEndian(b1) > LittleEndian(b2))
  {
    var u1 := BstrToU64(b1);
    var u2 := BstrToU64(b2);
    if u1 > u2 {
      return 1;
    }
    if u1 < u2 {
      return -1;
    }
    return 0;
  }

  /** A signed char, in upper case. */
  function Upper(c: u8): int {
    var i: int := c;
    if 97 <= i <= 122 then i - 32 else if i < 128 then i else i - 256
  }

  function AnsiSign(s1: seq<u8>, s2: seq<u8>): int {
    if s1 == [] || s2 == [] then Sign(|s1|, |s2|)
    else if Upper(s1[0]) != Upper(s2[0]) then Sign(Upper(s1[0]), Upper(s2[0]))
    else AnsiSign(s1[1..], s2[1..])
  }

  /** The same byte, or the same letter in its two cases. */
  predicate SameLetter(a: u8, b: u8) {
    || a == b
    || (65 <= a <= 90 && b as int == a as int + 32)
    || (65 <= b <= 90 && a as int == b as int + 32)
  }

  /** Bytes from 128 on come first, as they are negative; small letters count as capitals. */
  predicate LetterBefore(a: u8, b: u8) {
    if a >= 128 || b >= 128 then a >= 128 && (b < 128 || a < b)
    else (if 97 <= a <= 122 then a - 32 else a as int) < if 97 <= b <= 122 then b - 32 else b as int
  }

  predicate SameText(s: seq<u8>, t: seq<u8>) { |s| == |t| && forall i | 0 <= i < |s| :: SameLetter(s[i], t[i]) }

  /** Up to some place the strings are the same text, and there the first one ends, or has the lesser letter. */
  ghost predicate TextBefore(s: seq<u8>, t: seq<u8>) { exists i: nat :: DiffersAt(s, t, i) }

  predicate DiffersAt(s: seq<u8>, t: seq<u8>, i: nat) {
    && i <= |s| && i < |t|
    && (forall j | 0 <= j < i :: SameLetter(s[j], t[j]))
    && (i < |s| ==> LetterBefore(s[i], t[i]))
  }

  lemma {:induction false} UpperMeans(a: u8, b: u8)
    ensures Upper(a) == Upper(b) <==> SameLetter(a, b)
    ensures Upper(a) < Upper(b) <==> LetterBefore(a, b)
  {
  }

  /** What the comparison of strings means. */
  lemma {:induction false} AnsiMeans(s: seq<u8>, t: seq<u8>)
    ensures AnsiSign(s, t) == 0 <==> SameText(s, t)
    ensures AnsiSign(s, t) < 0 <==> TextBefore(s, t)
    ensures AnsiSign(s, t) > 0 <==> TextBefore(t, s)
  {
    hide Upper, SameLetter, LetterBefore;
    if s != [] && t != [] {
      UpperMeans(s[0], t[0]);
      UpperMeans(t[0], s[0]);
      TextStep(s, t);
      TextStep(t, s);
      AnsiMeans(s[1..], t[1..]);
    } else {
      if |s| < |t| { assert DiffersAt(s, t, 0); }
      if |t| < |s| { assert DiffersAt(t, s, 0); }
    }
  }

  lemma {:induction false} TextStep(s: seq<u8>, t: seq<u8>)
    requires s != [] && t != []
    ensures TextBefore(s, t) <==> LetterBefore(s[0], t[0]) || (SameLetter(s[0], t[0]) && TextBefore(s[1..], t[1..]))
    ensures SameText(s, t) <==> SameLetter(s[0], t[0]) && SameText(s[1..], t[1..])
  {
    hide SameLetter, LetterBefore;
    if TextBefore(s, t) {
      var i: nat :| DiffersAt(s, t, i);
      if i > 0 { assert DiffersAt(s[1..], t[1..], i - 1); }
    }
    if LetterBefore(s[0], t[0]) { assert DiffersAt(s, t, 0); }
    if SameLetter(s[0], t[0]) && TextBefore(s[1..], t[1..]) {
      var i: nat :| DiffersAt(s[1..], t[1..], i);
      forall j | 0 <= j < i + 1 ensures SameLetter(s[j], t[j]) {
        if j > 0 { assert SameLetter(s[1..][j - 1], t[1..][j - 1]); }
      }
      assert DiffersAt(s, t, i + 1);
    }
    if SameText(s[1..], t[1..]) && SameLetter(s[0], t[0]) {
      forall i | 0 <= i < |s| ensures SameLetter(s[i], t[i]) {
        if i > 0 { assert SameLetter(s[1..][i - 1], t[1..][i - 1]); }
      }
    }
  }

  /** os_collate_ansi_string. */
  method CollateAnsi(s1: seq<u8>, s2: seq<u8>) returns (r: int)
    ensures r == AnsiSign(s1, s2)
    ensures (r == 0 <==> SameText(s1, s2)) && (r < 0 <==> TextBefore(s1, s2)) && (r > 0 <==> TextBefore(s2, s1))
  {
    AnsiMeans(s1, s2);
    var i := 0;
    while i < |s1| && i < |s2|
      invariant 0 <= i <= |s1| && i <= |s2|
      invariant AnsiSign(s1[i..], s2[i..]) == AnsiSign(s1, s2)
    {
      var c1 := Upper(s1[i]);
      var c2 := Upper(s2[i]);
      if c1 > c2 {
        return 1;
      }
      if c1 < c2 {
        return -1;
      }
      assert s1[i..][1..] == s1[i + 1..] && s2[i..][1..] == s2[i + 1..];
      i := i + 1;
    }
    if |s1| - i > |s2| - i {
      return 1;
    }
    if |s1| - i < |s2| - i {
      return -1;
    }
    return 0;
  }

  lemma {:induction false} AnsiOrder(a: seq<u8>, b: seq<u8>, c: seq<u8>)
    ensures AnsiSign(b, a) == -AnsiSign(a, b)
    ensures AnsiSign(a, b) < 0 && AnsiSign(b, c) < 0 ==> AnsiSign(a, c) < 0
    ensures AnsiSign(a, b) > 0 && AnsiSign(b, c) > 0 ==> AnsiSign(a, c) > 0
  {
    if a != [] && b != [] {
      AnsiOrder(a[1..], b[1..], if c != [] then c[1..] else []);
    }
  }

  // Comparison of two extents, each an address and a length; the sums wrap around.
  function ExtentSign(addr1: nat, len1: nat, addr2: nat, len2: nat): int {
    if addr1 >= (addr2 + len2) % TWO_64 then 1
    else if (addr1 + len1) % TWO_64 <= addr2 then -1
    else 0
  }

  datatype CollateRule = CrBinary | CrAnsiString | CrU64 | CrExtent

  /** The order of a stored entry against a search key: negative, zero or positive. */
  function CollateSign(cr: CollateRule, a: KV, key: seq<u8>, val: seq<u8>): int {
    match cr
    case CrBinary => Sign(BigEndian(a.key), BigEndian(key))
    case CrAnsiString => AnsiSign(a.key, key)
    case CrU64 => Sign(LittleEndian(a.key), LittleEndian(key))
    case CrExtent =>
      if a.val == [] || val == [] then Sign(LittleEndian(a.key), LittleEndian(key))
      else ExtentSign(LittleEndian(a.key), LittleEndian(a.val), LittleEndian(key), LittleEndian(val))
  }

  /** Keys the rule is meant for: numbers of at most eight bytes, extents that are not empty and do
      not wrap around. */
  predicate KeyOk(cr: CollateRule, a: KV) {
    && a.key != []
    && (cr == CrU64 ==> |a.key| <= U64_MAX_SIZE)
    && (cr == CrExtent ==>
          && |a.key| <= U64_MAX_SIZE && 1 <= |a.val| <= U64_MAX_SIZE
          && 0 < LittleEndian(a.val) && LittleEndian(a.key) + LittleEndian(a.val) < TWO_64)
  }

  /** A key to search for: numbers of at most eight bytes.  Under the extent rule the length may be left out,
      and the range may be empty or wrap around. */
  predicate QueryOk(cr: CollateRule, key: seq<u8>, val: seq<u8>) {
    && key != []
    && (cr == CrU64 || cr == CrExtent ==> |key| <= U64_MAX_SIZE)
    && (cr == CrExtent ==> |val| <= U64_MAX_SIZE)
  }

  /** os_collate_extent. */
  method CollateExtent(k1: seq<u8>, v1: seq<u8>, k2: seq<u8>, v2: seq<u8>) returns (r: int)
    requires 0 < |k1| <= 8 && 0 < |k2| <= 8 && |v1| <= 8 && |v2| <= 8
    ensures r == CollateSign(CrExtent, KV(k1, v1), k2, v2)
  {
    if v2 == [] || v1 == [] {
      r := CollateU64(k1, k2);
      return;
    }
    var addr1 := BstrToU64(k1);
    var addr2 := BstrToU64(k2);
    var len1 := BstrToU64(v1);
    var len2 := BstrToU64(v2);
    if addr1 >= (addr2 + len2) % TWO_64 {
      return 1;
    }
    if (addr1 + len1) % TWO_64 <= addr2 {
      return -1;
    }
    return 0;
  }

  /** collate_key. */
  method CollateKey(cr: CollateRule, a: KV, key: seq<u8>, val: seq<u8>) returns (r: int)
    requires KeyOk(cr, a) && QueryOk(cr, key, val)
    ensures r == CollateSign(cr, a, key, val)
  {
    match cr
    case CrBinary => r := CollateBinary(a.key, key);
    case CrAnsiString => r := CollateAnsi(a.key, key);
    case CrU64 => r := CollateU64(a.key, key);
    case CrExtent => r := CollateExtent(a.key, a.val, key, val);
  }

  /** Under the string rule an entry compares equal exactly when its key is the same text. */
  lemma {:induction false} EqualIsSameText(c: seq<KV>, key: seq<u8>, val: seq<u8>)
    ensures forall a | a in c :: CollateSign(CrAnsiString, a, key, val) == 0 <==> SameText(a.key, key)
  {
    forall a | a in c ensures CollateSign(CrAnsiString, a, key, val) == 0 <==> SameText(a.key, key) {
      AnsiMeans(a.key, key);
    }
  }

  // ---- sorted contents

  predicate Precedes(cr: CollateRule, a: KV, b: KV) { CollateSign(cr, a, b.key, b.val) < 0 }

  ghost predicate Sorted(cr: CollateRule, s: seq<KV>) {
    && (forall i | 0 <= i < |s| :: KeyOk(cr, s[i]))
    && (forall i, j | 0 <= i < j < |s| :: Precedes(cr, s[i], s[j]))
  }

  /** The order is strict and has no cycles. */
  lemma {:induction false} SignFlip(cr: CollateRule, a: KV, b: KV)
    requires KeyOk(cr, a) && KeyOk(cr, b)
    ensures CollateSign(cr, b, a.key, a.val) == -CollateSign(cr, a, b.key, b.val)
  {
    if cr == CrAnsiString { AnsiOrder(a.key, b.key, []); }
  }

  lemma {:induction false} SignChain(cr: CollateRule, a: KV, b: KV, key: seq<u8>, val: seq<u8>)
    requires KeyOk(cr, a) && KeyOk(cr, b) && QueryOk(cr, key, val) && Precedes(cr, a, b)
    ensures CollateSign(cr, a, key, val) > 0 ==> CollateSign(cr, b, key, val) > 0
    ensures CollateSign(cr, b, key, val) < 0 ==> CollateSign(cr, a, key, val) < 0
  {
    if cr == CrAnsiString {
      AnsiOrder(a.key, b.key, key);
      AnsiOrder(b.key, a.key, key);
    }
  }

  /** Against any search key, sorted contents are a run of smaller entries, then equal ones (for
      extents: overlapping ones), then greater ones. */
  ghost predicate Run(cr: CollateRule, s: seq<KV>, key: seq<u8>, val: seq<u8>) {
    forall i, j | 0 <= i < j < |s| ::
      && (CollateSign(cr, s[i], key, val) > 0 ==> CollateSign(cr, s[j], key, val) > 0)
      && (CollateSign(cr, s[j], key, val) < 0 ==> CollateSign(cr, s[i], key, val) < 0)
  }

  lemma {:induction false} SortedRun(cr: CollateRule, s: seq<KV>, key: seq<u8>, val: seq<u8>)
    requires Sorted(cr, s) && QueryOk(cr, key, val)
    ensures Run(cr, s, key, val)
  {
    forall i, j | 0 <= i < j < |s|
      ensures CollateSign(cr, s[i], key, val) > 0 ==> CollateSign(cr, s[j], key, val) > 0
      ensures CollateSign(cr, s[j], key, val) < 0 ==> CollateSign(cr, s[i], key, val) < 0
    {
      assert Precedes(cr, s[i], s[j]);
      SignChain(cr, s[i], s[j], key, val);
    }
  }

  predicate Covers(key: seq<u8>, val: seq<u8>, x: nat) {
    LittleEndian(key) <= x < LittleEndian(key) + LittleEndian(val)
  }

  /** Under the extent rule an entry compares equal exactly when it shares an address with the
      queried extent. */
  lemma {:induction false} ExtentOverlap(a: KV, key: seq<u8>, val: seq<u8>)
    requires KeyOk(CrExtent, a) && KeyOk(CrExtent, KV(key, val))
    ensures CollateSign(CrExtent, a, key, val) == 0 <==> exists x :: Covers(a.key, a.val, x) && Covers(key, val, x)
  {
    hide LittleEndian;
    var x := if LittleEndian(a.key) < LittleEndian(key) then LittleEndian(key) else LittleEndian(a.key);
    if CollateSign(CrExtent, a, key, val) == 0 {
      assert Covers(a.key, a.val, x) && Covers(key, val, x);
    }
  }

  /** A queried range that runs over the last address is met only by entries that reach from before its wrapped end to
      beyond its beginning, not by those that share an address with it. */
  lemma {:induction false} WrappedQuery(a: KV, key: seq<u8>, val: seq<u8>)
    requires KeyOk(CrExtent, a) && QueryOk(CrExtent, key, val) && val != []
    requires TWO_64 <= LittleEndian(key) + LittleEndian(val)
    ensures CollateSign(CrExtent, a, key, val) == 0 <==>
              && LittleEndian(a.key) + TWO_64 < LittleEndian(key) + LittleEndian(val)
              && LittleEndian(key) < LittleEndian(a.key) + LittleEndian(a.val)
  {
    LittleEndianBound(key);
    LittleEndianBound(val);
    PowMono(|key|, 8);
    PowMono(|val|, 8);
    PowEight();
  }

  /** A number key finds the entry whatever padding either of them carries. */
  lemma {:induction false} PaddedKey(u: nat, b: seq<u8>, n: nat)
    requires u < TWO_64 && b == Encode(u) + Memory(0, n)
    ensures forall a: KV :: CollateSign(CrU64, a, b, []) == CollateSign(CrU64, a, Encode(u), [])
    ensures forall v :: CollateSign(CrU64, KV(Encode(u), v), b, []) == 0
  {
    ZeroPadding(Encode(u), n);
  }
}
