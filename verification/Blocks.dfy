/** Building and iterating blocks: table/block_builder.cc:38-106 and table/block.cc:76-262. */
module Blocks {
  import opened ByteStrings
  import opened Coding
  import opened BlockFormat

  type Compares = (Bytes, Bytes) -> int

  ghost predicate Ordered(cmp: Compares) {
    forall a, b, c :: Transitive(cmp, a, b, c)
  }

  ghost predicate Transitive(cmp: Compares, a: Bytes, b: Bytes, c: Bytes) {
    cmp(a, b) < 0 && cmp(b, c) < 0 ==> cmp(a, c) < 0
  }

  /** Keys are compared with any transitive order; nothing else about the comparator is used. */
  type Comparator = c: Compares | Ordered(c) witness (a, b) => 0

  ghost predicate InOrder(cmp: Comparator, entries: seq<KV>, i: int, j: int) {
    0 <= i < j < |entries| ==> cmp(entries[i].key, entries[j].key) < 0
  }

  ghost predicate StrictlyIncreasing(cmp: Comparator, entries: seq<KV>) {
    forall i, j :: InOrder(cmp, entries, i, j)
  }

  class BlockBuilder {
    const cmp: Comparator
    const interval: nat
    var buffer: Bytes
    var restarts: seq<nat>
    var counter: nat
    var lastKey: Bytes
    var finished: bool
    ghost var layout: Layout

    /** Restart points are exactly `interval` entries apart, and `counter` counts those since the last one. */
    ghost predicate Valid()
      reads this
    {
      && interval >= 1 && LayoutOk(layout) && StrictlyIncreasing(cmp, layout.entries)
      && |restarts| == |layout.restarts| && (forall j :: 0 <= j < |restarts| ==> PointOk(layout, restarts, j))
      && lastKey == LastKey(layout) && counter <= interval
      && counter == |layout.entries| - layout.restarts[|restarts| - 1]
      && (forall j :: 0 < j < |restarts| ==> EveryInterval(layout, interval, j))
      && (!finished ==> buffer == layout.data)
    }

    constructor (cmp: Comparator, interval: nat)
      requires interval >= 1
      ensures Valid() && !finished && layout.entries == [] && this.interval == interval && this.cmp == cmp
    {
      this.cmp := cmp;
      this.interval := interval;
      buffer, restarts, counter, lastKey, finished := [], [0], 0, [], false;
      layout := Layout([], [], [0], [], [0]);
    }

    /** The size of the block if it were finished now. */
    function CurrentSizeEstimate(): nat
      reads this`buffer, this`restarts
    {
      |buffer| + 4 * |restarts| + 4
    }

    lemma LastKeyIs()
      requires Valid()
      ensures lastKey == LastKey(layout)
    {
    }

    lemma BufferIsData()
      requires Valid() && !finished
      ensures LayoutOk(layout) && buffer == layout.data && StrictlyIncreasing(cmp, layout.entries)
    {
    }

    /** There are no more restart points than bytes of data, so their number fits 32 bits. */
    lemma FewRestarts()
      requires Valid() && !finished
      ensures |restarts| < TWO_32
    {
      var last := |restarts| - 1;
      RestartsSpread(layout, last);
      assert RestartOk(layout, last);
      RestartsAreOld(layout);
      OffsetsSpread(layout, |layout.entries|);
    }

    method Add(key: Bytes, value: Bytes)
      requires Valid() && !finished && |key| < TWO_32 && |value| < TWO_32
      requires |buffer| + |key| + |value| + 15 < TWO_32
      requires layout.entries == [] || cmp(lastKey, key) < 0
      modifies this
      ensures Valid() && !finished && layout.entries == old(layout.entries) + [KV(key, value)]
      ensures buffer == old(buffer) +
        EncodeEntry(if old(counter) < interval then CommonPrefix(old(lastKey), key) else 0, KV(key, value))
    {
      hide LayoutOk, EncodeEntry, CommonPrefix, StrictlyIncreasing, PointOk, EveryInterval;
      var shared := 0;
      ghost var restart := counter >= interval;
      if counter < interval {
        shared := SharedPrefix(lastKey, key);
      } else {
        restarts := restarts + [|buffer|];
        counter := 0;
      }
      ghost var l, e := layout, KV(key, value);
      EntryIsShort(shared, e);
      RestartsAreOld(l);
      ExtendKeepsLayout(l, e, shared, restart);
      AddedInOrder(cmp, l.entries, e);
      PutEntry(key, value, shared);
      layout := Extend(l, e, shared, restart);
      PointsStay(l, e, shared, restart, old(restarts), restarts);
      IntervalsStay(l, e, shared, restart, interval);
      assert lastKey[..shared] + key[shared..] == key;
      lastKey := lastKey[..shared] + key[shared..];
      counter := counter + 1;
    }

    /** The three lengths, the string delta and the value. */
    method PutEntry(key: Bytes, value: Bytes, shared: nat)
      requires shared <= |key|
      modifies this`buffer
      ensures buffer == old(buffer) + EncodeEntry(shared, KV(key, value))
    {
      AppendEntry(buffer, shared, KV(key, value));
      buffer := buffer + EncodeVarint(shared) + EncodeVarint(|key| - shared) + EncodeVarint(|value|);
      buffer := buffer + key[shared..] + value;
    }

    /** Append the restart array and its length. */
    method Finish() returns (block: Bytes)
      requires Valid() && !finished && |restarts| < TWO_32
      modifies this`buffer, this`finished
      ensures Valid() && finished && block == buffer && BlockOk(block, layout, restarts)
      ensures |block| == old(CurrentSizeEstimate())
    {
      PointsInWidth(layout, restarts);
      ghost var data := buffer;
      var i := 0;
      while i < |restarts|
        invariant 0 <= i <= |restarts| && InWidth(restarts[..i]) && buffer == data + Fixed32Array(restarts[..i])
      {
        assert restarts[..i + 1][..i] == restarts[..i];
        buffer := buffer + EncodeFixed32(restarts[i]);
        i := i + 1;
      }
      assert restarts[..|restarts|] == restarts;
      buffer := buffer + EncodeFixed32(|restarts|);
      finished := true;
      block := buffer;
    }
  }

  lemma {:induction false} RestartsSpread(l: Layout, j: nat)
    requires LayoutOk(l) && j < |l.restarts|
    ensures l.restarts[j] >= j
  {
    assert RestartOk(l, j);
    if j > 0 {
      RestartsSpread(l, j - 1);
    }
  }

  lemma {:induction false} OffsetsSpread(l: Layout, i: nat)
    requires LayoutOk(l) && i <= |l.entries|
    ensures l.offsets[i] >= i
  {
    if i > 0 {
      OffsetsSpread(l, i - 1);
      assert EntryOk(l, i - 1);
    }
  }

  ghost predicate EveryInterval(l: Layout, interval: nat, j: nat) {
    0 < j < |l.restarts| && l.restarts[j] == l.restarts[j - 1] + interval
  }

  /** The loop over the common prefix in Add. */
  method SharedPrefix(last: Bytes, key: Bytes) returns (shared: nat)
    ensures shared == CommonPrefix(last, key)
  {
    hide CommonPrefix;
    var minLength := if |last| < |key| then |last| else |key|;
    shared := 0;
    while shared < minLength && last[shared] == key[shared]
      invariant shared <= minLength && last[..shared] == key[..shared]
    {
      shared := shared + 1;
    }
    CommonPrefixIs(last, key, shared);
  }

  lemma EntryIsShort(shared: nat, e: KV)
    requires shared <= |e.key| < TWO_32 && |e.value| < TWO_32
    ensures |EncodeEntry(shared, e)| <= |e.key| + |e.value| + 15
  {
    Varint32RoundTrip(shared, []);
    Varint32RoundTrip(|e.key| - shared, []);
    Varint32RoundTrip(|e.value|, []);
  }

  lemma RestartsAreOld(l: Layout)
    requires LayoutOk(l)
    ensures l.entries == [] ==> l.restarts == [0]
    ensures |l.offsets| == |l.entries| + 1 && l.offsets[|l.entries|] == |l.data| < TWO_32 && |l.restarts| > 0
  {
    if |l.restarts| > 1 {
      assert RestartOk(l, 1);
    }
    assert RestartOk(l, 0);
  }

  lemma AddedInOrder(cmp: Comparator, entries: seq<KV>, e: KV)
    requires StrictlyIncreasing(cmp, entries)
    requires entries == [] || cmp(entries[|entries| - 1].key, e.key) < 0
    ensures StrictlyIncreasing(cmp, entries + [e])
  {
    var last := |entries| - 1;
    forall i, j
      ensures InOrder(cmp, entries + [e], i, j)
    {
      if 0 <= i < j <= last {
        assert InOrder(cmp, entries, i, j);
      } else if 0 <= i < last && j == last + 1 {
        assert InOrder(cmp, entries, i, last);
        assert Transitive(cmp, entries[i].key, entries[last].key, e.key);
      }
    }
  }

  lemma AppendEntry(data: Bytes, shared: nat, e: KV)
    requires shared <= |e.key|
    ensures data + EncodeVarint(shared) + EncodeVarint(|e.key| - shared) + EncodeVarint(|e.value|) + e.key[shared..]
            + e.value
         == data + EncodeEntry(shared, e)
  {
  }

  lemma PointsStay(l: Layout, e: KV, shared: nat, restart: bool, points: seq<nat>, points': seq<nat>)
    requires LayoutOk(l) && |points| == |l.restarts| && forall j :: 0 <= j < |points| ==> PointOk(l, points, j)
    requires shared <= |e.key| && points' == if restart then points + [|l.data|] else points
    ensures var m := Extend(l, e, shared, restart);
      |points'| == |m.restarts| && forall j :: 0 <= j < |points'| ==> PointOk(m, points', j)
  {
    var m := Extend(l, e, shared, restart);
    forall j | 0 <= j < |points'|
      ensures PointOk(m, points', j)
    {
      if j < |points| {
        assert PointOk(l, points, j) && RestartOk(l, j);
      }
    }
  }

  lemma IntervalsStay(l: Layout, e: KV, shared: nat, restart: bool, interval: nat)
    requires shared <= |e.key| && |l.offsets| > 0 && |l.restarts| > 0
    requires forall j :: 0 < j < |l.restarts| ==> EveryInterval(l, interval, j)
    requires restart ==> |l.entries| == l.restarts[|l.restarts| - 1] + interval
    ensures var m := Extend(l, e, shared, restart);
      forall j :: 0 < j < |m.restarts| ==> EveryInterval(m, interval, j)
  {
    var m := Extend(l, e, shared, restart);
    forall j | 0 < j < |m.restarts|
      ensures EveryInterval(m, interval, j)
    {
      if j < |l.restarts| {
        assert EveryInterval(l, interval, j);
      }
    }
  }

  lemma PointsInWidth(l: Layout, points: seq<nat>)
    requires LayoutOk(l) && |points| == |l.restarts| && forall j :: 0 <= j < |points| ==> PointOk(l, points, j)
    ensures InWidth(points)
  {
    forall j | 0 <= j < |points|
      ensures points[j] < TWO_32
    {
      assert PointOk(l, points, j) && RestartOk(l, j);
      if l.restarts[j] < |l.entries| {
        assert EntryOk(l, l.restarts[j]);
      }
    }
  }

  // ----- iteration -----

  /** The first entry that is not before the target. */
  ghost predicate IsLowerBound(cmp: Comparator, entries: seq<KV>, target: Bytes, i: nat) {
    && i <= |entries|
    && (forall m :: 0 <= m < i ==> cmp(entries[m].key, target) < 0)
    && (i < |entries| ==> cmp(entries[i].key, target) >= 0)
  }

  /** The iterator of a block that BlockBuilder has finished. */
  class BlockIter {
    const cmp: Comparator
    const block: Bytes
    const restarts: nat
    const numRestarts: nat
    ghost const layout: Layout
    ghost const points: seq<nat>
    var current: nat
    var restartIndex: nat
    var key: Bytes
    var valueStart: nat
    var valueSize: nat

    ghost predicate BlockFacts() {
      && BlockOk(block, layout, points) && StrictlyIncreasing(cmp, layout.entries)
      && restarts == |layout.data| && numRestarts == |points| > 0
    }

    function NextEntryOffset(): nat
      reads this
    {
      valueStart + valueSize
    }

    /** On entry `i`; past the last entry the iterator is not valid. */
    ghost predicate At(i: nat)
      requires BlockFacts()
      reads this
    {
      && i <= |layout.entries|
      && if i == |layout.entries| then current == restarts && restartIndex == numRestarts
         else
           && current == layout.offsets[i] && key == layout.entries[i].key && NextEntryOffset() == layout.offsets[i + 1]
           && valueStart <= NextEntryOffset() <= |block|
           && block[valueStart..valueStart + valueSize] == layout.entries[i].value
           && restartIndex < numRestarts && layout.restarts[restartIndex] <= i
           && (restartIndex + 1 < numRestarts ==> i <= layout.restarts[restartIndex + 1])
    }

    /** About to parse entry `j`: at a restart point, or behind the entry before. */
    ghost predicate Behind(j: nat)
      requires BlockFacts()
      reads this
    {
      && j <= |layout.entries| && NextEntryOffset() == layout.offsets[j]
      && restartIndex < numRestarts && layout.restarts[restartIndex] <= j
      && (j < |layout.entries| ==> layout.shared[j] == 0 || (j > 0 && key == layout.entries[j - 1].key))
    }

    /** NewIterator on the contents of a finished block. */
    constructor (cmp: Comparator, block: Bytes, ghost layout: Layout, ghost points: seq<nat>)
      requires BlockOk(block, layout, points) && StrictlyIncreasing(cmp, layout.entries)
      ensures BlockFacts() && At(|layout.entries|)
      ensures this.cmp == cmp && this.block == block && this.layout == layout && this.points == points
    {
      RestartCount(block, layout, points);
      var n := NumRestarts(block);
      this.cmp := cmp;
      this.block := block;
      restarts := |block| - (1 + n) * 4;
      numRestarts := n;
      this.layout := layout;
      this.points := points;
      current := |block| - (1 + n) * 4;
      restartIndex := n;
      key, valueStart, valueSize := [], 0, 0;
    }

    method GetRestartPoint(index: nat) returns (offset: nat)
      requires BlockFacts() && index < numRestarts
      ensures PointOk(layout, points, index) && offset == points[index]
    {
      RestartPointRead(block, layout, points, index);
      assert PointOk(layout, points, index);
      offset := DecodeFixed32(block[restarts + index * 4..]);
    }

    method SeekToRestartPoint(index: nat)
      requires BlockFacts() && index < numRestarts
      modifies this
      ensures Behind(layout.restarts[index])
    {
      key := [];
      restartIndex := index;
      valueStart := GetRestartPoint(index);
      valueSize := 0;
      assert RestartOk(layout, index);
      RestartBefore(layout, points, index, 0);
    }

    method ParseNextKey(ghost j: nat) returns (ok: bool)
      requires BlockFacts() && Behind(j)
      modifies this
      ensures ok == (j < |layout.entries|) && At(j)
      ensures ok ==> Behind(j + 1)
    {
      hide EntryOk, LayoutOk, DecodeEntry;
      current := NextEntryOffset();
      LayoutFacts(block, layout, points, j);
      if current >= restarts {
        current := restarts;
        restartIndex := numRestarts;
        return false;
      }
      EntryRoundTrip(layout, j, key);
      var h := DecodeEntry(block[..restarts], current);
      key := key[..h.shared] + block[h.start..h.start + h.nonShared];
      valueStart := h.start + h.nonShared;
      valueSize := h.valueSize;
      SkipRestarts(j);
      return true;
    }

    /** The loop that keeps the restart index up with the current entry. */
    method SkipRestarts(ghost j: nat)
      requires BlockFacts() && j < |layout.entries| && current == layout.offsets[j]
      requires restartIndex < numRestarts && layout.restarts[restartIndex] <= j
      modifies this`restartIndex
      ensures restartIndex < numRestarts && layout.restarts[restartIndex] <= j
      ensures restartIndex + 1 < numRestarts ==> j <= layout.restarts[restartIndex + 1]
    {
      while restartIndex + 1 < numRestarts
        invariant restartIndex < numRestarts && layout.restarts[restartIndex] <= j
        decreases numRestarts - restartIndex
      {
        var next := GetRestartPoint(restartIndex + 1);
        assert PointOk(layout, points, restartIndex + 1);
        RestartBefore(layout, points, restartIndex + 1, j);
        if next >= current {
          break;
        }
        restartIndex := restartIndex + 1;
      }
    }

    method Next(ghost i: nat)
      requires BlockFacts() && At(i) && current < restarts
      modifies this
      ensures At(i + 1)
    {
      LayoutFacts(block, layout, points, i);
      var ok := ParseNextKey(i + 1);
    }

    /** Back to a restart point before the current entry, and forward to the entry just before it. */
    method Prev(ghost i: nat)
      requires BlockFacts() && At(i) && current < restarts
      modifies this
      ensures At(if i == 0 then |layout.entries| else i - 1)
    {
      hide EntryOk;
      LayoutFacts(block, layout, points, i);
      var original := current;
      var start := GetRestartPoint(restartIndex);
      RestartBefore(layout, points, restartIndex, i);
      while start >= original
        invariant restartIndex < numRestarts && start == points[restartIndex] && original == layout.offsets[i]
        invariant PointOk(layout, points, restartIndex) && (start < original <==> layout.restarts[restartIndex] < i)
        invariant i < |layout.entries|
        decreases restartIndex
      {
        if restartIndex == 0 {
          assert RestartOk(layout, 0);
          current := restarts;
          restartIndex := numRestarts;
          return;
        }
        restartIndex := restartIndex - 1;
        start := GetRestartPoint(restartIndex);
        assert PointOk(layout, points, restartIndex);
        RestartBefore(layout, points, restartIndex, i);
      }
      ghost var j := layout.restarts[restartIndex];
      SeekToRestartPoint(restartIndex);
      OffsetsOrder(layout, j + 1, i);
      var ok := ParseNextKey(j);
      while ok && NextEntryOffset() < original
        invariant j < i && ok && At(j) && Behind(j + 1)
        invariant original == layout.offsets[i] && (layout.offsets[j + 1] < original <==> j + 1 < i)
        decreases i - j
      {
        ok := ParseNextKey(j + 1);
        j := j + 1;
        OffsetsOrder(layout, j + 1, i);
      }
    }

    method SeekToFirst()
      requires BlockFacts()
      modifies this
      ensures At(0)
    {
      assert RestartOk(layout, 0);
      SeekToRestartPoint(0);
      var ok := ParseNextKey(0);
    }

    method SeekToLast()
      requires BlockFacts()
      modifies this
      ensures At(if layout.entries == [] then 0 else |layout.entries| - 1)
    {
      hide EntryOk;
      ghost var n := |layout.entries|;
      ghost var j := layout.restarts[numRestarts - 1];
      SeekToRestartPoint(numRestarts - 1);
      LastRestart(layout);
      OffsetsOrder(layout, if j < n then j + 1 else n, n);
      var ok := ParseNextKey(j);
      while ok && NextEntryOffset() < restarts
        invariant j <= n && ok == (j < n) && At(j) && (ok ==> Behind(j + 1))
        invariant ok ==> (layout.offsets[j + 1] < restarts <==> j + 1 < n)
        invariant n > 0 ==> ok
        decreases n - j
      {
        ok := ParseNextKey(j + 1);
        j := j + 1;
        OffsetsOrder(layout, j + 1, n);
      }
    }

    /** Binary search over the restart points, then a linear search from the last one before the target. */
    method Seek(target: Bytes) returns (ghost i: nat)
      requires BlockFacts()
      modifies this
      ensures At(i) && IsLowerBound(cmp, layout.entries, target, i)
    {
      hide EntryOk, StrictlyIncreasing;
      var left: nat, right: nat := 0, numRestarts - 1;
      while left < right
        invariant left <= right < numRestarts
        invariant left > 0 ==> layout.restarts[left] < |layout.entries|
                               && cmp(layout.entries[layout.restarts[left]].key, target) < 0
        decreases right - left
      {
        var mid := (left + right + 1) / 2;
        var midKey := RestartKey(mid);
        if cmp(midKey, target) < 0 {
          left := mid;
        } else {
          right := mid - 1;
        }
      }
      SeekToRestartPoint(left);
      i := layout.restarts[left];
      BeforeRestart(cmp, layout, left, target);
      while true
        invariant i <= |layout.entries| && Behind(i)
        invariant forall m :: 0 <= m < i ==> cmp(layout.entries[m].key, target) < 0
        decreases |layout.entries| - i
      {
        var ok := ParseNextKey(i);
        if !ok || cmp(key, target) >= 0 {
          return;
        }
        i := i + 1;
      }
    }

    /** The full key stored at a restart point. */
    method RestartKey(index: nat) returns (k: Bytes)
      requires BlockFacts() && 0 < index < numRestarts
      ensures layout.restarts[index] < |layout.entries| && k == layout.entries[layout.restarts[index]].key
    {
      hide EntryOk, DecodeEntry;
      var offset := GetRestartPoint(index);
      assert RestartOk(layout, index);
      LayoutFacts(block, layout, points, layout.restarts[index]);
      EntryRoundTrip(layout, layout.restarts[index], []);
      var h := DecodeEntry(block[..restarts], offset);
      EntryStartsFresh(layout, layout.restarts[index]);
      k := block[h.start..h.start + h.nonShared];
    }
  }

  lemma LayoutFacts(block: Bytes, l: Layout, points: seq<nat>, i: nat)
    requires BlockOk(block, l, points) && i <= |l.entries|
    ensures |l.data| <= |block| && block[..|l.data|] == l.data
    ensures forall a, b :: 0 <= a <= b <= |l.data| ==> block[a..b] == l.data[a..b]
    ensures l.offsets[i] <= |l.data| && (l.offsets[i] < |l.data| <==> i < |l.entries|)
  {
    if i < |l.entries| {
      OffsetsGrow(l, i, |l.entries|);
    }
  }

  lemma OffsetsOrder(l: Layout, j: nat, i: nat)
    requires LayoutOk(l) && j <= i <= |l.entries|
    ensures l.offsets[j] < l.offsets[i] <==> j < i
  {
    if j < i {
      OffsetsGrow(l, j, i);
    }
  }

  lemma LastRestart(l: Layout)
    requires LayoutOk(l)
    ensures l.restarts[|l.restarts| - 1] <= |l.entries|
    ensures l.entries != [] ==> l.restarts[|l.restarts| - 1] < |l.entries|
  {
    assert RestartOk(l, |l.restarts| - 1);
  }

  /** At a restart point nothing is shared, so the stored key is the whole key. */
  lemma EntryStartsFresh(l: Layout, i: nat)
    requires LayoutOk(l) && i < |l.entries| && l.shared[i] == 0
    ensures l.offsets[i] < |l.data| && DecodeEntry(l.data, l.offsets[i]).Header?
    ensures DecodeEntry(l.data, l.offsets[i]).shared == 0
  {
    EntryRoundTrip(l, i, []);
  }

  /** All entries before a restart point whose key is before the target are before the target. */
  lemma BeforeRestart(cmp: Comparator, l: Layout, left: nat, target: Bytes)
    requires LayoutOk(l) && StrictlyIncreasing(cmp, l.entries) && left < |l.restarts|
    requires left > 0 ==> l.restarts[left] < |l.entries| && cmp(l.entries[l.restarts[left]].key, target) < 0
    ensures forall m :: 0 <= m < l.restarts[left] && m < |l.entries| ==> cmp(l.entries[m].key, target) < 0
    ensures l.restarts[left] <= |l.entries|
  {
    assert RestartOk(l, left);
    forall m | 0 <= m < l.restarts[left] && m < |l.entries|
      ensures cmp(l.entries[m].key, target) < 0
    {
      assert InOrder(cmp, l.entries, m, l.restarts[left]);
      assert Transitive(cmp, l.entries[m].key, l.entries[l.restarts[left]].key, target);
    }
  }
}
