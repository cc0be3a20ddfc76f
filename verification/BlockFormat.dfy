/** Prefix-compressed blocks: table/block_builder.cc and the decoding part of table/block.cc. */
module BlockFormat {
  import opened ByteStrings
  import opened Coding

  datatype KV = KV(key: Bytes, value: Bytes)

  /** `<shared><non_shared><value_size>`, the key without its shared prefix, and the value. */
  function EncodeEntry(shared: nat, e: KV): (s: Bytes)
    requires shared <= |e.key|
    ensures |s| >= 3
  {
    EncodeVarint(shared) + EncodeVarint(|e.key| - shared) + EncodeVarint(|e.value|) + e.key[shared..] + e.value
  }

  /** Three lengths and the position behind them, or an error. */
  datatype Header = BadEntry | Header(shared: nat, nonShared: nat, valueSize: nat, start: nat)

  /** DecodeEntry: the fast path for three one-byte lengths, and the general one; the data ends at `|data|`. */
  function DecodeEntry(data: Bytes, p: nat): (h: Header)
    requires p <= |data|
    ensures h.Header? ==> p < h.start && h.start + h.nonShared + h.valueSize <= |data|
  {
    if |data| - p < 3 then BadEntry
    else if data[p] < 128 && data[p + 1] < 128 && data[p + 2] < 128 then
      FitsIn(data, Header(data[p], data[p + 1], data[p + 2], p + 3))
    else DecodeLengths(data, p)
  }

  function DecodeLengths(data: Bytes, p: nat): (h: Header)
    requires p <= |data|
    ensures h.Header? ==> p < h.start && h.start + h.nonShared + h.valueSize <= |data|
  {
    match GetVarint32(data[p..])
    case Failed => BadEntry
    case Parsed(shared, rest1) =>
      match GetVarint32(rest1)
      case Failed => BadEntry
      case Parsed(nonShared, rest2) =>
        match GetVarint32(rest2)
        case Failed => BadEntry
        case Parsed(valueSize, rest3) =>
          VarintConsumes(data[p..], 5);
          VarintConsumes(rest1, 5);
          VarintConsumes(rest2, 5);
          FitsIn(data, Header(shared, nonShared, valueSize, |data| - |rest3|))
  }

  function FitsIn(data: Bytes, h: Header): Header
    requires h.Header?
  {
    if h.start + h.nonShared + h.valueSize <= |data| then h else BadEntry
  }

  function HeaderOf(shared: nat, e: KV, p: nat): Header
    requires shared <= |e.key|
  {
    Header(shared, |e.key| - shared, |e.value|, p + |EncodeEntry(shared, e)| - (|e.key| - shared) - |e.value|)
  }

  /** Three varints in a row. */
  lemma DecodeThree(data: Bytes, p: nat, x: nat, y: nat, z: nat, rest: Bytes)
    requires p <= |data| && x < TWO_32 && y < TWO_32 && z < TWO_32 && y + z <= |rest|
    requires data[p..] == EncodeVarint(x) + (EncodeVarint(y) + (EncodeVarint(z) + rest))
    ensures DecodeLengths(data, p) == Header(x, y, z, |data| - |rest|)
  {
    hide Varint, EncodeVarint, GetVarint32;
    Varint32RoundTrip(x, EncodeVarint(y) + (EncodeVarint(z) + rest));
    Varint32RoundTrip(y, EncodeVarint(z) + rest);
    Varint32RoundTrip(z, rest);
  }

  /** Decoding an encoded entry, whatever follows it, gives its lengths and the position of its key. */
  lemma DecodeEncoded(data: Bytes, p: nat, shared: nat, e: KV)
    requires shared <= |e.key| < TWO_32 && |e.value| < TWO_32 && p + |EncodeEntry(shared, e)| <= |data|
    requires data[p..p + |EncodeEntry(shared, e)|] == EncodeEntry(shared, e)
    ensures DecodeEntry(data, p) == HeaderOf(shared, e, p)
  {
    var a, b, c := EncodeVarint(shared), EncodeVarint(|e.key| - shared), EncodeVarint(|e.value|);
    var s, behind := EncodeEntry(shared, e), data[p + |EncodeEntry(shared, e)|..];
    var rest := e.key[shared..] + e.value + behind;
    assert data[p..] == s + behind;
    assert s + behind == a + (b + (c + rest));
    DecodeThree(data, p, shared, |e.key| - shared, |e.value|, rest);
    FastPathAgrees(data, p);
  }

  /** Three bytes below 128 are three varints. */
  lemma FastPathAgrees(data: Bytes, p: nat)
    requires p + 3 <= |data|
    ensures data[p] < 128 && data[p + 1] < 128 && data[p + 2] < 128 ==>
              DecodeLengths(data, p) == FitsIn(data, Header(data[p], data[p + 1], data[p + 2], p + 3))
  {
    assert data[p..][1..] == data[p + 1..] && data[p + 1..][1..] == data[p + 2..] &&
           data[p + 2..][1..] == data[p + 3..];
  }

  // ----- whole blocks -----

  /**
   What a block holds: its entries, where each starts (and the data ends), how much of each key is shared with the one
   before, and which entries are restart points.
   */
  datatype Layout = Layout(data: Bytes, entries: seq<KV>, offsets: seq<nat>, shared: seq<nat>, restarts: seq<nat>)

  /** Entry `i` is stored at its offset, with a prefix shared with the key before; the first one shares nothing. */
  ghost predicate EntryOk(l: Layout, i: nat) {
    && i < |l.entries| && i + 1 < |l.offsets| && i < |l.shared|
    && l.shared[i] <= |l.entries[i].key| && |l.entries[i].key| < TWO_32 && |l.entries[i].value| < TWO_32
    && (if i == 0 then l.shared[i] == 0
        else
          && l.shared[i] <= |l.entries[i - 1].key|
          && l.entries[i].key[..l.shared[i]] == l.entries[i - 1].key[..l.shared[i]])
    && l.offsets[i] < l.offsets[i + 1] <= |l.data|
    && l.data[l.offsets[i]..l.offsets[i + 1]] == EncodeEntry(l.shared[i], l.entries[i])
  }

  ghost predicate RestartOk(l: Layout, j: nat) {
    && j < |l.restarts|
    && (if j == 0 then l.restarts[j] == 0 else l.restarts[j - 1] < l.restarts[j] < |l.entries|)
    && (l.restarts[j] < |l.entries| && l.restarts[j] < |l.shared| ==> l.shared[l.restarts[j]] == 0)
  }

  ghost predicate LayoutOk(l: Layout) {
    && |l.offsets| == |l.entries| + 1 && |l.shared| == |l.entries| && |l.restarts| > 0
    && l.offsets[0] == 0 && l.offsets[|l.entries|] == |l.data| < TWO_32
    && (forall i :: 0 <= i < |l.entries| ==> EntryOk(l, i))
    && (forall j :: 0 <= j < |l.restarts| ==> RestartOk(l, j))
  }

  /** The data, the offsets of the restart points, and their number. */
  ghost predicate BlockOk(block: Bytes, l: Layout, points: seq<nat>) {
    && LayoutOk(l) && |points| == |l.restarts| < TWO_32 && InWidth(points)
    && (forall j :: 0 <= j < |points| ==> PointOk(l, points, j))
    && block == l.data + Fixed32Array(points) + EncodeFixed32(|points|)
  }

  ghost predicate PointOk(l: Layout, points: seq<nat>, j: nat) {
    j < |points| && j < |l.restarts| && l.restarts[j] < |l.offsets| && points[j] == l.offsets[l.restarts[j]]
  }

  /** NumRestarts and the bounds check of the Block constructor. */
  function NumRestarts(block: Bytes): nat
    requires |block| >= 4
  {
    DecodeFixed32(block[|block| - 4..])
  }

  lemma RestartCount(block: Bytes, l: Layout, points: seq<nat>)
    requires BlockOk(block, l, points)
    ensures |block| == |l.data| + 4 * |points| + 4 && NumRestarts(block) == |points|
  {
    assert block[|block| - 4..] == EncodeFixed32(|points|) + [];
    Fixed32RoundTrip(|points|, []);
  }

  /** GetRestartPoint reads the offset of the entry that starts the given restart block. */
  lemma RestartPointRead(block: Bytes, l: Layout, points: seq<nat>, j: nat)
    requires BlockOk(block, l, points) && j < |points|
    ensures |l.data| + 4 * j + 4 <= |block|
    ensures DecodeFixed32(block[|l.data| + 4 * j..]) == points[j]
  {
    Fixed32InArray(block, l.data, points, EncodeFixed32(|points|), j);
  }

  /** Offsets grow with the index. */
  lemma {:induction false} OffsetsGrow(l: Layout, i: nat, k: nat)
    requires LayoutOk(l) && i < k <= |l.entries|
    ensures l.offsets[i] < l.offsets[k]
    decreases k - i
  {
    assert EntryOk(l, k - 1);
    if i < k - 1 {
      OffsetsGrow(l, i, k - 1);
    }
  }

  lemma {:induction false} RestartsGrow(l: Layout, i: nat, k: nat)
    requires LayoutOk(l) && i < k < |l.restarts|
    ensures l.restarts[i] < l.restarts[k] < |l.entries|
    decreases k - i
  {
    assert RestartOk(l, k);
    if i < k - 1 {
      RestartsGrow(l, i, k - 1);
    }
  }

  /** Comparing offsets of restart points with the offset of an entry is comparing indices. */
  lemma RestartBefore(l: Layout, points: seq<nat>, j: nat, i: nat)
    requires LayoutOk(l) && |points| == |l.restarts| && j < |points| && PointOk(l, points, j) && i <= |l.entries|
    ensures points[j] < l.offsets[i] <==> l.restarts[j] < i
    ensures l.restarts[j] <= |l.entries|
  {
    assert RestartOk(l, j);
    if l.restarts[j] < i {
      OffsetsGrow(l, l.restarts[j], i);
    } else if i < l.restarts[j] {
      OffsetsGrow(l, i, l.restarts[j]);
    }
  }

  lemma EntryParts(shared: nat, e: KV)
    requires shared <= |e.key|
    ensures var s := EncodeEntry(shared, e);
      var m := |s| - |e.value|;
      && 0 < m - (|e.key| - shared) && s[m..] == e.value && s[m - (|e.key| - shared)..m] == e.key[shared..]
  {
    var head := EncodeVarint(shared) + EncodeVarint(|e.key| - shared) + EncodeVarint(|e.value|);
    var s, m := EncodeEntry(shared, e), |head| + |e.key| - shared;
    assert s == head + (e.key[shared..] + e.value) && |s| - |e.value| == m;
    assert |head| > 0 && s[m..] == e.value;
    assert s[|head|..m] == e.key[shared..];
  }

  lemma StoredEntryRead(data: Bytes, p: nat, q: nat, shared: nat, e: KV, previous: Bytes)
    requires shared <= |e.key| < TWO_32 && |e.value| < TWO_32
    requires p < q <= |data| && data[p..q] == EncodeEntry(shared, e)
    requires shared == 0 || (shared <= |previous| && e.key[..shared] == previous[..shared])
    ensures var h := DecodeEntry(data, p);
      && h.Header? && h.shared == shared <= |previous| && h.start + h.nonShared + h.valueSize == q
      && previous[..shared] + data[h.start..h.start + h.nonShared] == e.key
      && data[h.start + h.nonShared..q] == e.value
  {
    hide EncodeEntry, DecodeEntry;
    EntryParts(shared, e);
    DecodeEncoded(data, p, shared, e);
    var h := HeaderOf(shared, e, p);
    SliceOf(data, p, q, h.start + h.nonShared, q);
    SliceOf(data, p, q, h.start, h.start + h.nonShared);
    assert e.key == e.key[..shared] + e.key[shared..];
  }

  /** Decoding at the offset of an entry gives its key, from the key before it or from nothing at a restart point. */
  lemma EntryRoundTrip(l: Layout, i: nat, previous: Bytes)
    requires LayoutOk(l) && i < |l.entries|
    requires l.shared[i] == 0 || (i > 0 && previous == l.entries[i - 1].key)
    ensures l.offsets[i] < |l.data|
    ensures var h := DecodeEntry(l.data, l.offsets[i]);
      && h.Header? && h.shared <= |previous| && h.start + h.nonShared + h.valueSize == l.offsets[i + 1]
      && previous[..h.shared] + l.data[h.start..h.start + h.nonShared] == l.entries[i].key
      && l.data[h.start + h.nonShared..l.offsets[i + 1]] == l.entries[i].value
  {
    assert EntryOk(l, i);
    hide LayoutOk, EncodeEntry, DecodeEntry;
    StoredEntryRead(l.data, l.offsets[i], l.offsets[i + 1], l.shared[i], l.entries[i], previous);
  }

  lemma SliceOf(s: Bytes, p: nat, q: nat, m: nat, n: nat)
    requires p <= m <= n <= q <= |s|
    ensures s[m..n] == s[p..q][m - p..n - p]
  {
    var t := s[p..q];
    assert forall i :: 0 <= i < n - m ==> t[m - p..n - p][i] == s[m..n][i];
  }

  // ----- growing a layout -----

  function Extend(l: Layout, e: KV, shared: nat, restart: bool): Layout
    requires shared <= |e.key| && |l.offsets| > 0
  {
    Layout(l.data + EncodeEntry(shared, e), l.entries + [e], l.offsets + [|l.data| + |EncodeEntry(shared, e)|],
           l.shared + [shared], if restart then l.restarts + [|l.entries|] else l.restarts)
  }

  /** The key that the next entry may share a prefix with. */
  function LastKey(l: Layout): Bytes {
    if l.entries == [] then [] else l.entries[|l.entries| - 1].key
  }

  lemma ExtendKeepsLayout(l: Layout, e: KV, shared: nat, restart: bool)
    requires LayoutOk(l) && shared <= |e.key| < TWO_32 && |e.value| < TWO_32
    requires |l.data| + |EncodeEntry(shared, e)| < TWO_32
    requires shared <= |LastKey(l)| && e.key[..shared] == LastKey(l)[..shared]
    requires restart ==> shared == 0 && l.entries != []
    ensures LayoutOk(Extend(l, e, shared, restart))
  {
    var m := Extend(l, e, shared, restart);
    forall i | 0 <= i < |m.entries|
      ensures EntryOk(m, i)
    {
      if i < |l.entries| {
        assert EntryOk(l, i);
        assert m.data[m.offsets[i]..m.offsets[i + 1]] == l.data[l.offsets[i]..l.offsets[i + 1]];
      }
    }
    forall j | 0 <= j < |m.restarts|
      ensures RestartOk(m, j)
    {
      if j < |l.restarts| {
        assert RestartOk(l, j);
      } else if j > 0 {
        assert RestartOk(l, j - 1);
      }
    }
  }
}
