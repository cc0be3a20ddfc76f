/** The bloom filter policy over an arbitrary hash function: util/bloom.cc. */
module Bloom {
  import opened ByteStrings
  import opened Coding

  /** Any total 32-bit hash of byte strings. */
  type Hasher = Bytes -> nat

  /** Rotate right by 17 bits, in 32 bits. */
  function Delta(h: nat): nat {
    h % TWO_32 / 0x2_0000 + h % 0x2_0000 * 0x8000
  }

  // ----- bits of a byte -----

  function Bits(b: Byte): (s: seq<bool>)
    ensures |s| == 8
  {
    var n := b as int;
    [n % 2 == 1, n / 2 % 2 == 1, n / 4 % 2 == 1, n / 8 % 2 == 1, n / 16 % 2 == 1, n / 32 % 2 == 1, n / 64 % 2 == 1,
     n / 128 % 2 == 1]
  }

  function One(b: bool): nat {
    if b then 1 else 0
  }

  function Nibble(a: bool, b: bool, c: bool, d: bool): (n: nat)
    ensures n < 16
  {
    One(a) + 2 * One(b) + 4 * One(c) + 8 * One(d)
  }

  function Pack(s: seq<bool>): Byte
    requires |s| == 8
  {
    Nibble(s[0], s[1], s[2], s[3]) + 16 * Nibble(s[4], s[5], s[6], s[7])
  }

  lemma NibbleBits(a: bool, b: bool, c: bool, d: bool)
    ensures var n := Nibble(a, b, c, d);
      (n % 2 == 1) == a && (n / 2 % 2 == 1) == b && (n / 4 % 2 == 1) == c && (n / 8 % 2 == 1) == d
  {
  }

  lemma HalfOf(x: nat, y: nat)
    ensures (x + 2 * y) / 2 == x / 2 + y && (x + 2 * y) % 2 == x % 2
  {
  }

  lemma Halves(n: nat)
    ensures n / 4 == n / 2 / 2 && n / 8 == n / 4 / 2 && n / 16 == n / 8 / 2
    ensures n / 32 == n / 16 / 2 && n / 64 == n / 16 / 4 && n / 128 == n / 16 / 8
  {
  }

  lemma TwoNibbles(low: nat, high: nat)
    requires low < 16
    ensures var n := low + 16 * high;
      && n % 2 == low % 2 && n / 2 % 2 == low / 2 % 2 && n / 4 % 2 == low / 4 % 2 && n / 8 % 2 == low / 8 % 2
      && n / 16 == high && n / 32 == high / 2 && n / 64 == high / 4 && n / 128 == high / 8
  {
    Halves(low);
    Halves(low + 16 * high);
    HalfOf(low, 8 * high);
    HalfOf(low / 2, 4 * high);
    HalfOf(low / 4, 2 * high);
    HalfOf(low / 8, high);
  }

  lemma PackBits(s: seq<bool>)
    requires |s| == 8
    ensures Bits(Pack(s)) == s
  {
    hide Nibble;
    NibbleBits(s[0], s[1], s[2], s[3]);
    NibbleBits(s[4], s[5], s[6], s[7]);
    TwoNibbles(Nibble(s[0], s[1], s[2], s[3]), Nibble(s[4], s[5], s[6], s[7]));
  }

  predicate BitSet(b: Byte, i: nat)
    requires i < 8
  {
    Bits(b)[i]
  }

  /** `b | (1 << i)`. */
  function SetBit(b: Byte, i: nat): Byte
    requires i < 8
  {
    Pack(Bits(b)[i := true])
  }

  /** Setting a bit sets it and changes no other. */
  lemma SetBitSets(b: Byte, i: nat, j: nat)
    requires i < 8 && j < 8
    ensures BitSet(SetBit(b, i), j) == (i == j || BitSet(b, j))
  {
    hide Bits, Pack;
    PackBits(Bits(b)[i := true]);
  }

  // ----- the filter -----

  /** How many bits a filter for `n` keys has, and how many probes there are for a key. */
  datatype Policy = Policy(hash: Hasher, bitsPerKey: nat, k: nat)

  predicate PolicyOk(p: Policy) {
    1 <= p.k <= 30
  }

  function FilterBytes(p: Policy, n: nat): (size: nat)
    ensures 8 * size >= 64 && 8 * size >= n * p.bitsPerKey && (size == 8 || 8 * (size - 1) < n * p.bitsPerKey)
  {
    var bits := n * p.bitsPerKey;
    ((if bits < 64 then 64 else bits) + 7) / 8
  }

  /** Position `j` of the probe sequence of a key. */
  function Probe(p: Policy, key: Bytes, j: nat): nat {
    (p.hash(key) + j * Delta(p.hash(key))) % TWO_32
  }

  predicate ArrayBit(bytes: Bytes, pos: nat)
    requires pos < 8 * |bytes|
  {
    BitSet(bytes[pos / 8], pos % 8)
  }

  function SetArrayBit(bytes: Bytes, pos: nat): (r: Bytes)
    requires pos < 8 * |bytes|
    ensures |r| == |bytes|
  {
    bytes[pos / 8 := SetBit(bytes[pos / 8], pos % 8)]
  }

  lemma SetArrayBitSets(bytes: Bytes, pos: nat, q: nat)
    requires pos < 8 * |bytes| && q < 8 * |bytes|
    ensures ArrayBit(SetArrayBit(bytes, pos), q) == (pos == q || ArrayBit(bytes, q))
  {
    hide SetBit, BitSet;
    if pos / 8 == q / 8 {
      SetBitSets(bytes[pos / 8], pos % 8, q % 8);
      assert pos == 8 * (pos / 8) + pos % 8 && q == 8 * (q / 8) + q % 8;
    }
  }

  /** The bit of a filter array that a hash value selects. */
  function BitPos(h: nat, size: nat): (pos: nat)
    requires size > 0
    ensures pos < 8 * size
  {
    h % (8 * size)
  }

  /** Every probe of the key finds its bit set. */
  ghost predicate Covered(p: Policy, bytes: Bytes, key: Bytes, k: nat)
    requires |bytes| > 0
  {
    forall j :: 0 <= j < k ==> ProbeSet(p, bytes, key, j)
  }

  ghost predicate ProbeSet(p: Policy, bytes: Bytes, key: Bytes, j: nat)
    requires |bytes| > 0
  {
    ArrayBit(bytes, BitPos(Probe(p, key, j), |bytes|))
  }

  /** One of the first `k` probes of the key selects bit `pos`. */
  ghost predicate Hits(p: Policy, key: Bytes, size: nat, k: nat, pos: nat)
    requires size > 0
  {
    exists j :: 0 <= j < k && BitPos(Probe(p, key, j), size) == pos
  }

  ghost predicate AnyHits(p: Policy, keys: seq<Bytes>, size: nat, pos: nat)
    requires size > 0
  {
    exists i :: 0 <= i < |keys| && Hits(p, keys[i], size, p.k, pos)
  }

  /** The bits set are exactly those that the probes of the keys select. */
  ghost predicate BitsAre(p: Policy, keys: seq<Bytes>, bytes: Bytes)
    requires |bytes| > 0
  {
    forall pos :: 0 <= pos < 8 * |bytes| ==> (ArrayBit(bytes, pos) <==> AnyHits(p, keys, |bytes|, pos))
  }

  ghost predicate IsFilterOf(p: Policy, keys: seq<Bytes>, filter: Bytes) {
    var n := FilterBytes(p, |keys|);
    |filter| == n + 1 && filter[n] == p.k && BitsAre(p, keys, filter[..n])
  }

  lemma AddInWidth(x: nat, d: nat)
    ensures (x % TWO_32 + d) % TWO_32 == (x + d) % TWO_32
  {
  }

  lemma NextProbe(p: Policy, key: Bytes, j: nat)
    ensures (Probe(p, key, j) + Delta(p.hash(key))) % TWO_32 == Probe(p, key, j + 1)
  {
    var h, d := p.hash(key), Delta(p.hash(key));
    assert (j + 1) * d == j * d + d;
    AddInWidth(h + j * d, d);
  }

  /** CreateFilter appends a filter with exactly the bits that the probes of its keys select. */
  method CreateFilter(p: Policy, keys: seq<Bytes>, dst: Bytes) returns (dst': Bytes)
    requires PolicyOk(p)
    ensures |dst'| > |dst| && dst'[..|dst|] == dst
    ensures IsFilterOf(p, keys, dst'[|dst|..])
  {
    hide Bits;
    var bytes: Bytes := seq(FilterBytes(p, |keys|), i => 0);
    NoBits(p, bytes);
    var i := 0;
    while i < |keys|
      invariant 0 <= i <= |keys| && |bytes| == FilterBytes(p, |keys|) && BitsAre(p, keys[..i], bytes)
    {
      ghost var before := bytes;
      bytes := AddKey(p, bytes, keys[i]);
      OneKeyMore(p, keys, i, before, bytes);
      i := i + 1;
    }
    assert keys[..i] == keys;
    dst' := dst + bytes + [p.k];
    assert dst'[|dst|..] == bytes + [p.k] && (bytes + [p.k])[..|bytes|] == bytes;
  }

  lemma NoBits(p: Policy, bytes: Bytes)
    requires |bytes| > 0 && forall i :: 0 <= i < |bytes| ==> bytes[i] == 0
    ensures BitsAre(p, [], bytes)
  {
    assert Bits(0) == seq(8, i => false);
  }

  /** The bits are those from before and those of the first `k` probes of the key. */
  ghost predicate BitsAdded(p: Policy, key: Bytes, k: nat, before: Bytes, after: Bytes)
    requires |before| > 0
  {
    |after| == |before| &&
    forall pos :: 0 <= pos < 8 * |before| ==>
      (ArrayBit(after, pos) <==> ArrayBit(before, pos) || Hits(p, key, |before|, k, pos))
  }

  lemma OneKeyMore(p: Policy, keys: seq<Bytes>, i: nat, before: Bytes, after: Bytes)
    requires i < |keys| && |before| > 0 && BitsAre(p, keys[..i], before) && BitsAdded(p, keys[i], p.k, before, after)
    ensures BitsAre(p, keys[..i + 1], after)
  {
    hide Hits, ArrayBit;
    var earlier, now := keys[..i], keys[..i + 1];
    assert forall m :: 0 <= m < i ==> now[m] == earlier[m];
    forall pos | 0 <= pos < 8 * |after|
      ensures AnyHits(p, now, |after|, pos)
         <==> AnyHits(p, earlier, |after|, pos) || Hits(p, keys[i], |after|, p.k, pos)
    {
      assert now[i] == keys[i];
      if m :| 0 <= m < i && Hits(p, earlier[m], |after|, p.k, pos) {
        assert Hits(p, now[m], |after|, p.k, pos);
      }
    }
  }

  /** The inner loop of CreateFilter: set the bit of every probe of one key. */
  method AddKey(p: Policy, bytes: Bytes, key: Bytes) returns (bytes': Bytes)
    requires |bytes| > 0
    ensures BitsAdded(p, key, p.k, bytes, bytes')
  {
    hide SetArrayBit, Probe, ArrayBit, BitsAdded;
    bytes' := bytes;
    var h, j := p.hash(key) % TWO_32, 0;
    FirstProbe(p, key);
    NothingAdded(p, key, bytes);
    var delta := Delta(p.hash(key));
    while j < p.k
      invariant 0 <= j <= p.k && |bytes'| == |bytes| && h == Probe(p, key, j) && BitsAdded(p, key, j, bytes, bytes')
    {
      var pos := BitPos(h, |bytes'|);
      OneBitMore(p, key, j, bytes, bytes');
      NextProbe(p, key, j);
      bytes' := SetArrayBit(bytes', pos);
      h := (h + delta) % TWO_32;
      j := j + 1;
    }
  }

  lemma FirstProbe(p: Policy, key: Bytes)
    ensures Probe(p, key, 0) == p.hash(key) % TWO_32
  {
  }

  lemma NothingAdded(p: Policy, key: Bytes, bytes: Bytes)
    requires |bytes| > 0
    ensures BitsAdded(p, key, 0, bytes, bytes)
  {
  }

  lemma OneBitMore(p: Policy, key: Bytes, j: nat, before: Bytes, bytes: Bytes)
    requires |before| > 0 && BitsAdded(p, key, j, before, bytes)
    ensures BitsAdded(p, key, j + 1, before, SetArrayBit(bytes, BitPos(Probe(p, key, j), |bytes|)))
  {
    hide ArrayBit, SetArrayBit, BitPos, Probe;
    var bit := BitPos(Probe(p, key, j), |bytes|);
    forall pos | 0 <= pos < 8 * |before|
      ensures ArrayBit(SetArrayBit(bytes, bit), pos) <==> ArrayBit(before, pos) || Hits(p, key, |before|, j + 1, pos)
    {
      SetArrayBitSets(bytes, bit, pos);
      OneProbeMore(p, key, |before|, j, pos);
    }
  }

  lemma OneProbeMore(p: Policy, key: Bytes, size: nat, j: nat, pos: nat)
    requires size > 0
    ensures Hits(p, key, size, j + 1, pos) <==> Hits(p, key, size, j, pos) || BitPos(Probe(p, key, j), size) == pos
  {
    hide BitPos, Probe;
  }

  /** KeyMayMatch as a predicate: short filters match nothing, unknown encodings everything. */
  ghost predicate MayMatch(p: Policy, key: Bytes, filter: Bytes) {
    |filter| >= 2
    && (filter[|filter| - 1] > 30 || Covered(p, filter[..|filter| - 1], key, filter[|filter| - 1]))
  }

  /**
   A filter answers for a key what the bits of its keys say: each probe of the key must select a bit that some probe of
   some added key selects. So added keys match, and with no key added nothing does.
   */
  lemma MatchesIffProbesShared(p: Policy, keys: seq<Bytes>, filter: Bytes, key: Bytes)
    requires PolicyOk(p) && IsFilterOf(p, keys, filter)
    ensures MayMatch(p, key, filter)
       <==> forall j :: 0 <= j < p.k ==> AnyHits(p, keys, |filter| - 1, BitPos(Probe(p, key, j), |filter| - 1))
    ensures key in keys ==> MayMatch(p, key, filter)
    ensures keys == [] ==> !MayMatch(p, key, filter)
  {
    hide ArrayBit, BitPos, Probe;
    var bytes := filter[..|filter| - 1];
    forall j | 0 <= j < p.k
      ensures ProbeSet(p, bytes, key, j) <==> AnyHits(p, keys, |bytes|, BitPos(Probe(p, key, j), |bytes|))
    {
    }
    if i :| 0 <= i < |keys| && keys[i] == key {
      forall j | 0 <= j < p.k
        ensures ProbeSet(p, bytes, key, j)
      {
        assert Hits(p, keys[i], |bytes|, p.k, BitPos(Probe(p, key, j), |bytes|));
      }
    }
    if keys == [] {
      assert !ProbeSet(p, bytes, key, 0);
    }
  }

  /** KeyMayMatch: the loop over the probes. */
  method KeyMayMatch(p: Policy, key: Bytes, filter: Bytes) returns (r: bool)
    ensures r == MayMatch(p, key, filter)
  {
    hide Probe;
    if |filter| < 2 {
      return false;
    }
    var bytes := filter[..|filter| - 1];
    var k := filter[|filter| - 1];
    if k > 30 {
      return true;
    }
    var h, j := p.hash(key) % TWO_32, 0;
    FirstProbe(p, key);
    var delta := Delta(p.hash(key));
    while j < k
      invariant 0 <= j <= k && h == Probe(p, key, j) && Covered(p, bytes, key, j)
    {
      if !ArrayBit(bytes, BitPos(h, |bytes|)) {
        assert !ProbeSet(p, bytes, key, j);
        return false;
      }
      NextProbe(p, key, j);
      h := (h + delta) % TWO_32;
      j := j + 1;
    }
    return true;
  }
}
