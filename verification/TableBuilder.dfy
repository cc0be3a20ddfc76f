/** Building a table: table/table_builder.cc:76-253. */
module TableBuilders {
  import opened ByteStrings
  import opened Coding
  import opened Checksums
  import opened BlockFormat
  import opened Blocks
  import opened Separators
  import opened Bloom
  import opened FilterBlocks
  import opened TableFormat

  const TRAILER_SIZE: nat := 5

  /** More than any block with 32-bit offsets takes, with its restart array and trailer. */
  const MAX_BLOCK: nat := 0x40_0000_0000

  /** Index key `i` is right for its chunk and, if it exists, for the chunk or block under way behind it. */
  ghost predicate IndexOk(chunks: seq<Chunk>, open: seq<KV>, i: nat, e: KV) {
    && IndexedBy(chunks, i, e)
    && (i + 1 == |chunks| && open != [] ==> Separates(ChunkLast(chunks[i]), e.key, open[0].key))
  }

  /** The keys of the block under way are in the filter of its offset, or wait for it. */
  ghost predicate KeyFiltered(groups: seq<seq<Bytes>>, pending: seq<Bytes>, offset: nat, key: Bytes) {
    if offset / BASE < |groups| then UserKeyOf(key) in groups[offset / BASE]
    else offset / BASE == |groups| && UserKeyOf(key) in pending
  }

  ghost predicate AllFiltered(groups: seq<seq<Bytes>>, pending: seq<Bytes>, offset: nat, entries: seq<KV>) {
    forall e :: e in entries ==> KeyFiltered(groups, pending, offset, e.key)
  }

  ghost predicate SeparatorAdded(index: seq<KV>, index': seq<KV>, lastKey: Bytes, sep: Bytes, key: Bytes, h: Handle) {
    index' == index + [KV(sep, EncodeHandle(h))] && Separates(lastKey, sep, key)
  }

  ghost predicate SuccessorAdded(index: seq<KV>, index': seq<KV>, lastKey: Bytes, succ: Bytes, h: Handle) {
    index' == index + [KV(succ, EncodeHandle(h))] && CompareInternal(lastKey, succ) <= 0
  }

  /** What has been written, indexed and filtered so far is exactly what has been added. */
  ghost predicate ContentOk(file: Bytes, chunks: seq<Chunk>, added: seq<KV>, lastKey: Bytes, open: seq<KV>,
                            index: seq<KV>, pending: bool, handle: Handle, groups: seq<seq<Bytes>>, waiting: seq<Bytes>)
  {
    && |file| < TWO_64 && (forall c :: c in chunks ==> ChunkOk(file, c))
    && added == AllEntries(chunks) + open
    && IndexState(chunks, open, index, pending, handle) && KeysState(chunks, open, lastKey)
    && FilterState(chunks, open, |file|, groups, waiting)
  }

  /** One index entry for every chunk but, while an entry is pending, the last one. */
  ghost predicate IndexState(chunks: seq<Chunk>, open: seq<KV>, index: seq<KV>, pending: bool, handle: Handle) {
    && |chunks| == |index| + (if pending then 1 else 0)
    && (pending ==> open == [] && handle == HandleOf(chunks[|chunks| - 1]))
    && (!pending && open == [] ==> chunks == [])
    && forall i :: 0 <= i < |index| ==> IndexOk(chunks, open, i, index[i])
  }

  /** The last key added, and the order of the block under way behind the chunks. */
  ghost predicate KeysState(chunks: seq<Chunk>, open: seq<KV>, lastKey: Bytes) {
    && (forall c :: c in chunks ==> c.layout.entries != [])
    && (open != [] ==> lastKey == open[|open| - 1].key)
    && (open == [] && chunks != [] ==> lastKey == ChunkLast(chunks[|chunks| - 1]))
  }

  ghost predicate FilterState(chunks: seq<Chunk>, open: seq<KV>, offset: nat, groups: seq<seq<Bytes>>,
                              pending: seq<Bytes>)
  {
    && |groups| == offset / BASE
    && (forall c :: c in chunks ==> AllFiltered(groups, pending, c.offset, c.layout.entries))
    && AllFiltered(groups, pending, offset, open)
  }

  /** The block under construction is ordered by internal keys. */
  ghost predicate InternalOrder(b: BlockBuilder) {
    b.cmp == Internal()
  }

  /** One more data block, with the content of the block that was under way. */
  ghost predicate Closed(chunks: seq<Chunk>, chunks': seq<Chunk>, l: Layout, size: nat, c: Chunk) {
    chunks' == chunks + [c] && c.layout == l && |c.content| == size
  }

  class TableBuilder {
    const crc: Checksum
    const policy: Policy
    const interval: nat
    const blockSize: nat
    var file: Bytes
    var dataBlock: BlockBuilder
    var indexBlock: BlockBuilder
    var filterBlock: FilterBlockBuilder
    var lastKey: Bytes
    var pendingIndexEntry: bool
    var pendingHandle: Handle
    ghost var chunks: seq<Chunk>
    ghost var added: seq<KV>

    ghost function Repr(): set<object>
      reads this
    {
      {this, dataBlock, indexBlock, filterBlock}
    }

    ghost predicate Valid()
      reads this, dataBlock, indexBlock, filterBlock
    {
      && PolicyOk(policy) && interval >= 1 && dataBlock != indexBlock
      && filterBlock.policy == policy
      && dataBlock.Valid() && !dataBlock.finished && InternalOrder(dataBlock)
      && indexBlock.Valid() && !indexBlock.finished && InternalOrder(indexBlock)
      && filterBlock.Valid()
      && ContentOk(file, chunks, added, lastKey, dataBlock.layout.entries, indexBlock.layout.entries, pendingIndexEntry,
                   pendingHandle, filterBlock.groups, filterBlock.pending)
    }

    constructor (policy: Policy, interval: nat, blockSize: nat, crc: Checksum)
      requires PolicyOk(policy) && interval >= 1
      ensures Valid() && added == [] && fresh(Repr()) && this.policy == policy
    {
      this.policy, this.interval, this.blockSize, this.crc := policy, interval, blockSize, crc;
      file, lastKey, pendingIndexEntry, pendingHandle := [], [], false, Handle(0, 0);
      dataBlock := new BlockBuilder(Internal(), interval);
      indexBlock := new BlockBuilder(Internal(), 1);
      filterBlock := new FilterBlockBuilder(policy);
      chunks, added := [], [];
      new;
      filterBlock.StartBlock(0);
    }

    /** There is room for one more entry in the blocks, whose offsets have 32 bits. */
    ghost predicate Fits(key: Bytes, value: Bytes)
      reads this, dataBlock, indexBlock
    {
      && |key| < TWO_32 && |value| < TWO_32 && |dataBlock.buffer| + |key| + |value| + 15 < TWO_32
      && |lastKey| < TWO_32 && |indexBlock.buffer| + |lastKey| + 35 < TWO_32
    }

    /** The pending index entry, with a key that separates the last block from `key`. */
    method AddIndexEntry(key: Bytes)
      requires indexBlock.Valid() && !indexBlock.finished && InternalOrder(indexBlock)
      requires CompareInternal(lastKey, key) < 0 && |lastKey| < TWO_32 && |indexBlock.buffer| + |lastKey| + 35 < TWO_32
      requires pendingHandle.offset < TWO_64 && pendingHandle.size < TWO_64
      requires indexBlock.layout.entries != [] ==> CompareInternal(LastKey(indexBlock.layout), lastKey) < 0
      modifies indexBlock, this`pendingIndexEntry
      ensures indexBlock.Valid() && !indexBlock.finished && !pendingIndexEntry
      ensures exists sep :: SeparatorAdded(old(indexBlock.layout.entries), indexBlock.layout.entries, lastKey, sep, key,
                                           pendingHandle)
    {
      hide Internal, StrictlyIncreasing, LayoutOk;
      var sep := FindShortestInternalSeparator(lastKey, key);
      HandleRoundTrip(pendingHandle);
      InternalIs(indexBlock.lastKey, sep);
      CompareInternalIsOrdered(LastKey(indexBlock.layout), lastKey, sep);
      ghost var before := indexBlock.layout.entries;
      indexBlock.Add(sep, EncodeHandle(pendingHandle));
      pendingIndexEntry := false;
      assert SeparatorAdded(before, indexBlock.layout.entries, lastKey, sep, key, pendingHandle);
    }

    /** Keys must come in increasing order. A full block is flushed at once. */
    method Add(key: Bytes, value: Bytes)
      requires Valid() && Fits(key, value)
      requires added != [] ==> CompareInternal(lastKey, key) < 0
      requires |file| < TWO_64 - MAX_BLOCK
      modifies Repr()
      ensures Valid() && added == old(added) + [KV(key, value)] && lastKey == key
      ensures indexBlock == old(indexBlock) && filterBlock == old(filterBlock)
      ensures dataBlock == old(dataBlock) || fresh(dataBlock)
      ensures if dataBlock == old(dataBlock) then
                chunks == old(chunks) && dataBlock.CurrentSizeEstimate() < blockSize
                && dataBlock.layout.entries == old(dataBlock.layout.entries) + [KV(key, value)]
              else
                dataBlock.layout.entries == []
                && exists c :: chunks == old(chunks) + [c] && |c.content| >= blockSize
                               && c.layout.entries == old(dataBlock.layout.entries) + [KV(key, value)]
    {
      AddEntry(key, value);
      var estimate := dataBlock.CurrentSizeEstimate();
      if estimate >= blockSize {
        FilledIn();
        Flush();
      }
    }

    /** A block with entries has bytes. */
    lemma FilledIn()
      requires Valid() && dataBlock.layout.entries != []
      ensures |dataBlock.buffer| > 0
    {
      hide ContentOk, LayoutOk;
      dataBlock.BufferIsData();
      RestartsAreOld(dataBlock.layout);
      OffsetsSpread(dataBlock.layout, |dataBlock.layout.entries|);
    }

    method AddEntry(key: Bytes, value: Bytes)
      requires Valid() && Fits(key, value)
      requires added != [] ==> CompareInternal(lastKey, key) < 0
      modifies Repr()
      ensures Valid() && added == old(added) + [KV(key, value)] && lastKey == key
      ensures indexBlock == old(indexBlock) && filterBlock == old(filterBlock) && dataBlock == old(dataBlock)
      ensures dataBlock.layout.entries == old(dataBlock.layout.entries) + [KV(key, value)]
      ensures file == old(file) && chunks == old(chunks)
    {
      hide Internal, ContentOk, BlockBuilder.Valid, FilterBlockBuilder.Valid, EncodeEntry, CommonPrefix, LayoutOk;
      ghost var open, index, waiting := dataBlock.layout.entries, indexBlock.layout.entries, filterBlock.pending;
      ghost var pending, handle, last := pendingIndexEntry, pendingHandle, lastKey;
      ContentFacts(file, chunks, added, lastKey, open, index, pending, handle, filterBlock.groups, waiting);
      if pendingIndexEntry {
        AddIndexEntry(key);
      }
      filterBlock.AddKey(UserKeyOf(key));
      dataBlock.LastKeyIs();
      InternalIs(dataBlock.lastKey, key);
      AddKeepsContent(file, chunks, added, last, open, index, indexBlock.layout.entries, pending, handle,
                      filterBlock.groups, waiting, filterBlock.pending, KV(key, value));
      lastKey := key;
      dataBlock.Add(key, value);
      added := added + [KV(key, value)];
    }

    /** The block under way, if it has entries, becomes a data block of the file; its index entry waits. */
    method Flush()
      requires Valid() && |file| < TWO_64 - MAX_BLOCK
      modifies Repr()
      ensures Valid() && added == old(added) && lastKey == old(lastKey) && dataBlock.layout.entries == []
      ensures |file| <= |old(file)| + MAX_BLOCK
      ensures indexBlock == old(indexBlock) && filterBlock == old(filterBlock)
      ensures indexBlock.layout == old(indexBlock.layout) && indexBlock.restarts == old(indexBlock.restarts)
      ensures indexBlock.buffer == old(indexBlock.buffer)
      ensures dataBlock == old(dataBlock) || fresh(dataBlock)
      ensures old(dataBlock.buffer) == [] ==> dataBlock == old(dataBlock) && chunks == old(chunks)
      ensures old(dataBlock.buffer) != [] ==>
                fresh(dataBlock)
                && exists c ::
                     Closed(old(chunks), chunks, old(dataBlock.layout), old(dataBlock.CurrentSizeEstimate()), c)
    {
      if |dataBlock.buffer| == 0 {
        dataBlock.BufferIsData();
        NoEntries(dataBlock.layout);
      } else {
        FlushBlock();
      }
    }

    method FlushBlock()
      requires Valid() && |file| < TWO_64 - MAX_BLOCK && |dataBlock.buffer| > 0
      modifies this`file, this`pendingHandle, this`pendingIndexEntry, this`chunks, this`dataBlock, dataBlock,
          filterBlock
      ensures Valid() && dataBlock.layout.entries == [] && fresh(dataBlock) && |file| <= |old(file)| + MAX_BLOCK
      ensures exists c :: Closed(old(chunks), chunks, old(dataBlock.layout), old(dataBlock.CurrentSizeEstimate()), c)
    {
      hide Internal, ContentOk, InternalOrder, BlockBuilder.Valid, FilterBlockBuilder.Valid, BlockOk,
          StrictlyIncreasing;
      ghost var before, handle, groups, waiting := file, pendingHandle, filterBlock.groups, filterBlock.pending;
      ghost var open, index := dataBlock.layout.entries, indexBlock.layout.entries;
      ContentFacts(file, chunks, added, lastKey, open, index, pendingIndexEntry, handle, groups, waiting);
      ghost var c := CloseBlock();
      StartFilter();
      FlushKeepsContent(before, file, chunks, added, lastKey, open, index, pendingIndexEntry, handle, groups, waiting,
                        filterBlock.groups, filterBlock.pending, c);
      StartNextBlock(c);
      assert Closed(old(chunks), chunks, old(dataBlock.layout), old(dataBlock.CurrentSizeEstimate()), c);
    }

    /** The index entry of the finished block waits for the first key of the next one. */
    method StartNextBlock(ghost c: Chunk)
      requires PolicyOk(policy) && interval >= 1 && filterBlock.policy == policy && filterBlock.Valid()
      requires indexBlock.Valid() && !indexBlock.finished && InternalOrder(indexBlock)
      requires ContentOk(file, chunks + [c], added, lastKey, [], indexBlock.layout.entries, true, pendingHandle,
                         filterBlock.groups, filterBlock.pending)
      modifies this`pendingIndexEntry, this`chunks, this`dataBlock
      ensures Valid() && dataBlock.layout.entries == [] && fresh(dataBlock) && chunks == old(chunks) + [c]
    {
      hide ContentOk, Internal;
      pendingIndexEntry := true;
      chunks := chunks + [c];
      dataBlock := new BlockBuilder(Internal(), interval);
    }

    method StartFilter()
      requires filterBlock.Valid() && |filterBlock.groups| <= |file| / BASE
      modifies filterBlock
      ensures filterBlock.Valid() && |filterBlock.groups| == |file| / BASE
      ensures FilterMoved(old(filterBlock.groups), old(filterBlock.pending), filterBlock.groups, filterBlock.pending)
    {
      hide FilterBlockBuilder.Valid;
      filterBlock.StartBlock(|file|);
    }

    /** Finish the data block and append it to the file. */
    method CloseBlock() returns (ghost c: Chunk)
      requires dataBlock.Valid() && !dataBlock.finished && InternalOrder(dataBlock) && |dataBlock.buffer| > 0
      modifies this`file, this`pendingHandle, dataBlock
      ensures c.offset == |old(file)| && c.layout == old(dataBlock.layout) && c.layout.entries != []
      ensures BlockOk(c.content, c.layout, c.points) && StrictlyIncreasing(Internal(), c.layout.entries)
      ensures pendingHandle == HandleOf(c) && |file| == |old(file)| + |c.content| + TRAILER_SIZE
      ensures |c.content| + TRAILER_SIZE < MAX_BLOCK && |c.content| == old(dataBlock.CurrentSizeEstimate())
      ensures old(file) <= file && file[|old(file)|..|old(file)| + |c.content|] == c.content
    {
      hide Internal, BlockBuilder.Valid, BlockOk, StrictlyIncreasing;
      dataBlock.BufferIsData();
      dataBlock.FewRestarts();
      SomeEntries(dataBlock.layout);
      ghost var l, points, offset := dataBlock.layout, dataBlock.restarts, |file|;
      var content := dataBlock.Finish();
      BlockIsSmall(content, l, points);
      WriteRawBlock(content);
      c := Chunk(offset, content, l, points);
    }

    /** The index entry of the last block, with a key behind all others. */
    method AddLastIndexEntry()
      requires indexBlock.Valid() && !indexBlock.finished && InternalOrder(indexBlock)
      requires |lastKey| < TWO_32 && |indexBlock.buffer| + |lastKey| + 35 < TWO_32
      requires pendingHandle.offset < TWO_64 && pendingHandle.size < TWO_64
      requires indexBlock.layout.entries != [] ==> CompareInternal(LastKey(indexBlock.layout), lastKey) < 0
      modifies indexBlock, this`pendingIndexEntry
      ensures indexBlock.Valid() && !indexBlock.finished && !pendingIndexEntry
      ensures exists succ :: SuccessorAdded(old(indexBlock.layout.entries), indexBlock.layout.entries, lastKey, succ,
                                            pendingHandle)
    {
      hide Internal, StrictlyIncreasing, LayoutOk;
      var succ := FindShortInternalSuccessor(lastKey);
      HandleRoundTrip(pendingHandle);
      InternalIs(indexBlock.lastKey, succ);
      CompareInternalIsOrdered(LastKey(indexBlock.layout), lastKey, succ);
      ghost var before := indexBlock.layout.entries;
      indexBlock.Add(succ, EncodeHandle(pendingHandle));
      pendingIndexEntry := false;
      assert SuccessorAdded(before, indexBlock.layout.entries, lastKey, succ, pendingHandle);
    }

    /**
     The last data block, the filter block and the index block. Looking a key up in what results finds what a linear
     search over everything added finds; see TableFormat.Table.InternalGet.
     */
    method Finish()
      returns (index: Bytes, filter: Bytes, ghost l: Layout, ghost points: seq<nat>, ghost groups: seq<seq<Bytes>>)
      requires Valid() && |file| < TWO_64 - 4 * MAX_BLOCK
      requires |lastKey| < TWO_32 && |indexBlock.buffer| + |lastKey| + 35 < TWO_32
      modifies Repr()
      ensures |filter| < TWO_32 ==> TableOk(file, chunks, index, l, points, policy, filter, groups)
      ensures AllEntries(chunks) == old(added)
    {
      Flush();
      index, filter, l, points, groups := FinishBlocks();
      AppendBlocks(index, filter, l, points, groups);
    }

    /** Close the filter block and the index block. */
    method FinishBlocks()
      returns (index: Bytes, filter: Bytes, ghost l: Layout, ghost points: seq<nat>, ghost groups: seq<seq<Bytes>>)
      requires Valid() && dataBlock.layout.entries == []
      requires |lastKey| < TWO_32 && |indexBlock.buffer| + |lastKey| + 35 < TWO_32
      modifies this`pendingIndexEntry, indexBlock, filterBlock
      ensures |filter| < TWO_32 ==> TableOk(file, chunks, index, l, points, policy, filter, groups)
      ensures AllEntries(chunks) == added && BlockOk(index, l, points) && |file| < TWO_64
    {
      hide Internal, ContentOk, BlockBuilder.Valid, FilterBlockBuilder.Valid, BlockOk, StrictlyIncreasing;
      ghost var entries, waiting, groups0 := indexBlock.layout.entries, filterBlock.pending, filterBlock.groups;
      ghost var pending, handle := pendingIndexEntry, pendingHandle;
      ContentFacts(file, chunks, added, lastKey, [], entries, pending, handle, groups0, waiting);
      filter := filterBlock.Finish();
      groups := filterBlock.groups;
      if pendingIndexEntry {
        AddLastIndexEntry();
      }
      indexBlock.BufferIsData();
      indexBlock.FewRestarts();
      l, points := indexBlock.layout, indexBlock.restarts;
      index := indexBlock.Finish();
      FinishedTable(file, chunks, added, lastKey, entries, pending, handle, groups0, waiting, index, l, points, policy,
                    filter, groups);
    }

    method AppendBlocks(index: Bytes, filter: Bytes, ghost l: Layout, ghost points: seq<nat>,
                        ghost groups: seq<seq<Bytes>>)
      requires |filter| < TWO_32 ==> TableOk(file, chunks, index, l, points, policy, filter, groups)
      requires BlockOk(index, l, points) && |file| < TWO_64 - 3 * MAX_BLOCK
      modifies this`file, this`pendingHandle
      ensures |filter| < TWO_32 ==> TableOk(file, chunks, index, l, points, policy, filter, groups)
    {
      ghost var data := file;
      BlockIsSmall(index, l, points);
      WriteRawBlock(filter);
      WriteRawBlock(index);
      if |filter| < TWO_32 {
        LongerFile(data, file, chunks);
      }
    }

    /** Append contents, type and checksum; the handle is where they start and how long they are. */
    method WriteRawBlock(contents: Bytes)
      modifies this`file, this`pendingHandle
      ensures pendingHandle == Handle(|old(file)|, |contents|) && |file| == |old(file)| + |contents| + TRAILER_SIZE
      ensures old(file) <= file && file[|old(file)|..|old(file)| + |contents|] == contents
    {
      pendingHandle := Handle(|file|, |contents|);
      file := file + contents;
      var sum := crc.extend(crc.extend(0, contents), [0]);
      file := file + ([0] + EncodeFixed32(Mask(sum)));
    }
  }

  /** What StartBlock does to the groups and the waiting keys. */
  ghost predicate FilterMoved(groups: seq<seq<Bytes>>, pending: seq<Bytes>, groups': seq<seq<Bytes>>,
                              pending': seq<Bytes>)
  {
    && groups <= groups'
    && if |groups| == |groups'| then groups' == groups && pending' == pending
       else pending' == [] && groups'[|groups|] == pending
  }

  lemma ContentFacts(file: Bytes, chunks: seq<Chunk>, added: seq<KV>, lastKey: Bytes, open: seq<KV>, index: seq<KV>,
                     pending: bool, handle: Handle, groups: seq<seq<Bytes>>, waiting: seq<Bytes>)
    requires ContentOk(file, chunks, added, lastKey, open, index, pending, handle, groups, waiting)
    ensures added == [] ==> open == [] && !pending
    ensures pending ==> open == [] && added != [] && handle.offset < TWO_64 && handle.size < TWO_64
    ensures pending && index != [] ==> CompareInternal(index[|index| - 1].key, lastKey) < 0
    ensures open != [] ==> lastKey == open[|open| - 1].key
    ensures |groups| == |file| / BASE && |file| < TWO_64
  {
    if pending {
      var c := chunks[|chunks| - 1];
      assert c in chunks && ChunkOk(file, c);
      if index != [] {
        var i := |index| - 1;
        assert IndexOk(chunks, open, i, index[i]);
        assert c.layout.entries[0] in c.layout.entries;
        EntryUpToLast(file, c, c.layout.entries[0]);
        CompareInternalIsOrdered(index[i].key, FirstKey(c), ChunkLast(c));
      }
    }
  }

  lemma AddKeepsContent(file: Bytes, chunks: seq<Chunk>, added: seq<KV>, lastKey: Bytes, open: seq<KV>, index: seq<KV>,
                        index': seq<KV>, pending: bool, handle: Handle, groups: seq<seq<Bytes>>, waiting: seq<Bytes>,
                        waiting': seq<Bytes>, e: KV)
    requires ContentOk(file, chunks, added, lastKey, open, index, pending, handle, groups, waiting)
    requires if pending then exists sep :: SeparatorAdded(index, index', lastKey, sep, e.key, handle)
             else index' == index
    requires waiting' == waiting + [UserKeyOf(e.key)]
    ensures ContentOk(file, chunks, added + [e], e.key, open + [e], index', false, handle, groups, waiting')
  {
    hide IndexState, KeysState, FilterState, AllEntries, ChunkOk;
    AddKeepsIndex(chunks, open, index, index', pending, handle, lastKey, e);
    AddKeepsKeys(chunks, open, lastKey, e);
    AddKeepsFilter(chunks, open, |file|, groups, waiting, waiting', e);
    assert AllEntries(chunks) + open + [e] == AllEntries(chunks) + (open + [e]);
  }

  lemma FlushKeepsContent(file: Bytes, file': Bytes, chunks: seq<Chunk>, added: seq<KV>, lastKey: Bytes, open: seq<KV>,
                          index: seq<KV>, pending: bool, handle: Handle, groups: seq<seq<Bytes>>, waiting: seq<Bytes>,
                          groups': seq<seq<Bytes>>, waiting': seq<Bytes>, c: Chunk)
    requires ContentOk(file, chunks, added, lastKey, open, index, pending, handle, groups, waiting)
    requires c.layout.entries == open != [] && c.offset == |file| && file <= file' && |file'| < TWO_64
    requires BlockOk(c.content, c.layout, c.points) && StrictlyIncreasing(Internal(), c.layout.entries)
    requires |file| + |c.content| <= |file'| && file'[|file|..|file| + |c.content|] == c.content
    requires |groups'| == |file'| / BASE && FilterMoved(groups, waiting, groups', waiting')
    ensures ContentOk(file', chunks + [c], added, lastKey, [], index, true, HandleOf(c), groups', waiting')
  {
    hide IndexState, KeysState, FilterState, AllEntries, ChunkOk, BlockOk, StrictlyIncreasing, Internal;
    FlushKeepsIndex(chunks, open, index, pending, handle, c);
    FlushKeepsKeys(chunks, open, lastKey, c);
    FlushKeepsFilter(chunks, open, |file|, groups, waiting, |file'|, groups', waiting', c);
    FlushKeepsChunks(file, file', chunks, c);
    AllEntriesOfOne(chunks, c);
    assert AllEntries(chunks + [c]) + [] == added;
  }

  /** After an entry is added no index entry is pending, and the separators fit the block under way. */
  lemma AddKeepsIndex(chunks: seq<Chunk>, open: seq<KV>, index: seq<KV>, index': seq<KV>, pending: bool, handle: Handle,
                      lastKey: Bytes, e: KV)
    requires IndexState(chunks, open, index, pending, handle) && KeysState(chunks, open, lastKey)
    requires if pending then exists sep :: SeparatorAdded(index, index', lastKey, sep, e.key, handle)
             else index' == index
    ensures IndexState(chunks, open + [e], index', false, handle)
  {
    forall i | 0 <= i < |index'|
      ensures IndexOk(chunks, open + [e], i, index'[i])
    {
      if i < |index| {
        assert IndexOk(chunks, open, i, index[i]) && index'[i] == index[i];
        assert i + 1 == |chunks| ==> !pending && open != [];
      } else {
        var sep :| SeparatorAdded(index, index', lastKey, sep, e.key, handle);
        assert chunks[i] in chunks;
      }
    }
  }

  lemma AddKeepsKeys(chunks: seq<Chunk>, open: seq<KV>, lastKey: Bytes, e: KV)
    requires KeysState(chunks, open, lastKey)
    ensures KeysState(chunks, open + [e], e.key)
  {
  }

  lemma AddKeepsFilter(chunks: seq<Chunk>, open: seq<KV>, offset: nat, groups: seq<seq<Bytes>>, before: seq<Bytes>,
                       pending: seq<Bytes>, e: KV)
    requires pending == before + [UserKeyOf(e.key)] && FilterState(chunks, open, offset, groups, before)
    ensures FilterState(chunks, open + [e], offset, groups, pending)
  {
    forall c | c in chunks
      ensures AllFiltered(groups, pending, c.offset, c.layout.entries)
    {
      MorePending(groups, before, pending, c.offset, c.layout.entries);
    }
    MorePending(groups, before, pending, offset, open);
  }

  lemma MorePending(groups: seq<seq<Bytes>>, pending: seq<Bytes>, pending': seq<Bytes>, offset: nat, entries: seq<KV>)
    requires AllFiltered(groups, pending, offset, entries) && forall k :: k in pending ==> k in pending'
    ensures AllFiltered(groups, pending', offset, entries)
  {
    forall e | e in entries
      ensures KeyFiltered(groups, pending', offset, e.key)
    {
      assert KeyFiltered(groups, pending, offset, e.key);
    }
  }

  lemma NoEntries(l: Layout)
    requires LayoutOk(l) && l.data == []
    ensures l.entries == []
  {
    if l.entries != [] {
      OffsetsGrow(l, 0, |l.entries|);
    }
  }

  lemma SomeEntries(l: Layout)
    requires LayoutOk(l) && l.data != []
    ensures l.entries != []
  {
  }

  lemma BlockIsSmall(content: Bytes, l: Layout, points: seq<nat>)
    requires BlockOk(content, l, points)
    ensures |content| + TRAILER_SIZE < MAX_BLOCK
  {
    RestartCount(content, l, points);
  }

  lemma FlushKeepsIndex(chunks: seq<Chunk>, open: seq<KV>, index: seq<KV>, pending: bool, handle: Handle, c: Chunk)
    requires IndexState(chunks, open, index, pending, handle) && c.layout.entries == open != []
    ensures IndexState(chunks + [c], [], index, true, HandleOf(c))
  {
    forall i | 0 <= i < |index|
      ensures IndexOk(chunks + [c], [], i, index[i])
    {
      assert IndexOk(chunks, open, i, index[i]);
    }
  }

  lemma FlushKeepsKeys(chunks: seq<Chunk>, open: seq<KV>, lastKey: Bytes, c: Chunk)
    requires KeysState(chunks, open, lastKey) && c.layout.entries == open != []
    ensures KeysState(chunks + [c], [], lastKey)
  {
  }

  /** StartBlock leaves every key where the offset of its block looks for it. */
  lemma FlushKeepsFilter(chunks: seq<Chunk>, open: seq<KV>, offset: nat, groups: seq<seq<Bytes>>, pending: seq<Bytes>,
                         offset': nat, groups': seq<seq<Bytes>>, pending': seq<Bytes>, c: Chunk)
    requires FilterState(chunks, open, offset, groups, pending) && c.layout.entries == open && c.offset == offset
    requires |groups'| == offset' / BASE && FilterMoved(groups, pending, groups', pending')
    ensures FilterState(chunks + [c], [], offset', groups', pending')
  {
    forall d | d in chunks + [c]
      ensures AllFiltered(groups', pending', d.offset, d.layout.entries)
    {
      assert AllFiltered(groups, pending, d.offset, d.layout.entries);
      forall e | e in d.layout.entries
        ensures KeyFiltered(groups', pending', d.offset, e.key)
      {
        assert KeyFiltered(groups, pending, d.offset, e.key);
      }
    }
  }

  lemma FlushKeepsChunks(file: Bytes, file': Bytes, chunks: seq<Chunk>, c: Chunk)
    requires forall d :: d in chunks ==> ChunkOk(file, d)
    requires file <= file' && |file'| < TWO_64 && c.offset == |file| && c.layout.entries != []
    requires BlockOk(c.content, c.layout, c.points) && StrictlyIncreasing(Internal(), c.layout.entries)
    requires |file| + |c.content| <= |file'| && file'[|file|..|file| + |c.content|] == c.content
    ensures forall d :: d in chunks + [c] ==> ChunkOk(file', d)
  {
    hide Internal, BlockOk, StrictlyIncreasing;
    forall d | d in chunks + [c]
      ensures ChunkOk(file', d)
    {
      if d in chunks {
        assert ChunkOk(file, d);
        assert file'[..|file|] == file;
        PrefixSlice(file', |file|, d.offset, d.offset + |d.content|);
      }
    }
  }

  lemma AllEntriesOfOne(chunks: seq<Chunk>, c: Chunk)
    ensures AllEntries(chunks + [c]) == AllEntries(chunks) + c.layout.entries
  {
    assert (chunks + [c])[..|chunks|] == chunks;
  }

  lemma FinishedTable(file: Bytes, chunks: seq<Chunk>, added: seq<KV>, lastKey: Bytes, entries: seq<KV>, pending: bool,
                      handle: Handle, groups0: seq<seq<Bytes>>, waiting: seq<Bytes>, index: Bytes, l: Layout,
                      points: seq<nat>, policy: Policy, filter: Bytes, groups: seq<seq<Bytes>>)
    requires ContentOk(file, chunks, added, lastKey, [], entries, pending, handle, groups0, waiting)
    requires if pending then exists succ :: SuccessorAdded(entries, l.entries, lastKey, succ, handle)
             else l.entries == entries
    requires BlockOk(index, l, points) && StrictlyIncreasing(Internal(), l.entries)
    requires groups == if waiting == [] then groups0 else groups0 + [waiting]
    requires |filter| < TWO_32 ==> FilterBlockOk(policy, filter, groups)
    ensures AllEntries(chunks) == added
    ensures |filter| < TWO_32 ==> TableOk(file, chunks, index, l, points, policy, filter, groups)
  {
    hide Internal, BlockOk, StrictlyIncreasing, FilterBlockOk, AllEntries, ChunkOk;
    assert AllEntries(chunks) + [] == AllEntries(chunks);
    FinishedIndex(chunks, lastKey, entries, l.entries, pending, handle);
    LastIsLast(chunks, lastKey);
    FinishedFilter(chunks, |file|, groups0, waiting, groups);
    forall i | 0 <= i < |chunks|
      ensures ChunkOk(file, chunks[i])
    {
      assert chunks[i] in chunks;
    }
  }

  lemma FinishedIndex(chunks: seq<Chunk>, lastKey: Bytes, index: seq<KV>, index': seq<KV>, pending: bool,
                      handle: Handle)
    requires IndexState(chunks, [], index, pending, handle) && KeysState(chunks, [], lastKey)
    requires if pending then exists succ :: SuccessorAdded(index, index', lastKey, succ, handle) else index' == index
    ensures |index'| == |chunks| && forall i :: 0 <= i < |chunks| ==> IndexedBy(chunks, i, index'[i])
  {
    forall i | 0 <= i < |chunks|
      ensures IndexedBy(chunks, i, index'[i])
    {
      if i < |index| {
        assert IndexOk(chunks, [], i, index[i]) && index'[i] == index[i];
      } else {
        var succ :| SuccessorAdded(index, index', lastKey, succ, handle);
        assert chunks[i] in chunks;
      }
    }
  }

  /** Keys that were still waiting are in the last filter. */
  lemma FinishedFilter(chunks: seq<Chunk>, offset: nat, groups: seq<seq<Bytes>>, pending: seq<Bytes>,
                       groups': seq<seq<Bytes>>)
    requires FilterState(chunks, [], offset, groups, pending) && KeysState(chunks, [], LastOf(chunks))
    requires groups' == if pending == [] then groups else groups + [pending]
    ensures forall i :: 0 <= i < |chunks| ==> Filtered(groups', chunks[i])
  {
    forall i | 0 <= i < |chunks|
      ensures Filtered(groups', chunks[i])
    {
      var c := chunks[i];
      assert c in chunks && AllFiltered(groups, pending, c.offset, c.layout.entries);
      forall e | e in c.layout.entries
        ensures c.offset / BASE < |groups'| && UserKeyOf(e.key) in groups'[c.offset / BASE]
      {
        assert KeyFiltered(groups, pending, c.offset, e.key);
      }
      assert c.layout.entries[0] in c.layout.entries;
    }
  }

  lemma LastIsLast(chunks: seq<Chunk>, lastKey: Bytes)
    requires KeysState(chunks, [], lastKey)
    ensures KeysState(chunks, [], LastOf(chunks))
  {
  }

  function LastOf(chunks: seq<Chunk>): Bytes {
    if chunks != [] && chunks[|chunks| - 1].layout.entries != [] then ChunkLast(chunks[|chunks| - 1]) else []
  }

  lemma LongerFile(file: Bytes, file': Bytes, chunks: seq<Chunk>)
    requires file <= file' && |file'| < TWO_64 && forall i :: 0 <= i < |chunks| ==> ChunkOk(file, chunks[i])
    ensures forall i :: 0 <= i < |chunks| ==> ChunkOk(file', chunks[i])
  {
    hide Internal, BlockOk, StrictlyIncreasing;
    forall i | 0 <= i < |chunks|
      ensures ChunkOk(file', chunks[i])
    {
      var d := chunks[i];
      assert ChunkOk(file, d) && file'[..|file|] == file;
      PrefixSlice(file', |file|, d.offset, d.offset + |d.content|);
    }
  }
}
