/**
 What a finished table holds and why looking a key up through its index and filter finds what a linear search finds
 (table/table_builder.cc:36-62, table/table.cc:216-244, db/memtable.cc:108-138).
 */
module TableFormat {
  import opened Options
  import opened ByteStrings
  import opened Coding
  import opened BlockFormat
  import opened Blocks
  import opened Separators
  import opened Bloom
  import opened FilterBlocks

  lemma InternalIsOrdered()
    ensures Ordered(CompareInternal)
  {
    forall a, b, c
      ensures Transitive(CompareInternal, a, b, c)
    {
      CompareInternalIsOrdered(a, b, c);
    }
  }

  /** The internal key comparator, as blocks use it. */
  function Internal(): Comparator {
    InternalIsOrdered();
    CompareInternal
  }

  lemma InternalIs(a: Bytes, b: Bytes)
    ensures Internal()(a, b) == CompareInternal(a, b)
  {
  }

  lemma InternalInOrder(entries: seq<KV>, i: nat, j: nat)
    requires StrictlyIncreasing(Internal(), entries) && i < j < |entries|
    ensures CompareInternal(entries[i].key, entries[j].key) < 0
  {
    hide Internal;
    assert InOrder(Internal(), entries, i, j);
    InternalIs(entries[i].key, entries[j].key);
  }

  /** The first entry that is not before the lookup key. */
  predicate LowerBound(entries: seq<KV>, k: Bytes, i: nat) {
    && i <= |entries|
    && (forall m :: 0 <= m < i ==> CompareInternal(entries[m].key, k) < 0)
    && (i < |entries| ==> CompareInternal(entries[i].key, k) >= 0)
  }

  lemma LowerBoundIs(entries: seq<KV>, k: Bytes, i: nat)
    requires IsLowerBound(Internal(), entries, k, i)
    ensures LowerBound(entries, k, i)
  {
    hide Internal;
    forall m | 0 <= m < i
      ensures CompareInternal(entries[m].key, k) < 0
    {
      InternalIs(entries[m].key, k);
    }
    if i < |entries| {
      InternalIs(entries[i].key, k);
    }
  }

  /** A finished data block in the file. */
  datatype Chunk = Chunk(offset: nat, content: Bytes, layout: Layout, points: seq<nat>)

  datatype Handle = Handle(offset: nat, size: nat)

  function HandleOf(c: Chunk): Handle {
    Handle(c.offset, |c.content|)
  }

  function EncodeHandle(h: Handle): Bytes {
    EncodeVarint(h.offset) + EncodeVarint(h.size)
  }

  /** BlockHandle::DecodeFrom. */
  function DecodeHandle(s: Bytes): Option<Handle> {
    match GetVarint64(s)
    case Failed => None
    case Parsed(offset, rest) =>
      match GetVarint64(rest)
      case Failed => None
      case Parsed(size, _) => Some(Handle(offset, size))
  }

  lemma HandleRoundTrip(h: Handle)
    requires h.offset < TWO_64 && h.size < TWO_64
    ensures DecodeHandle(EncodeHandle(h)) == Some(h) && |EncodeHandle(h)| <= 20
  {
    Varint64RoundTrip(h.offset, EncodeVarint(h.size));
    Varint64RoundTrip(h.size, []);
    assert EncodeVarint(h.size) + [] == EncodeVarint(h.size);
  }

  ghost predicate ChunkOk(file: Bytes, c: Chunk) {
    && BlockOk(c.content, c.layout, c.points) && StrictlyIncreasing(Internal(), c.layout.entries)
    && c.layout.entries != []
    && c.offset + |c.content| <= |file| < TWO_64 && file[c.offset..c.offset + |c.content|] == c.content
  }

  function FirstKey(c: Chunk): Bytes
    requires c.layout.entries != []
  {
    c.layout.entries[0].key
  }

  function ChunkLast(c: Chunk): Bytes
    requires c.layout.entries != []
  {
    c.layout.entries[|c.layout.entries| - 1].key
  }

  /** The index entry of a chunk: a key not before its last key and before the user keys of the next chunk. */
  ghost predicate IndexedBy(chunks: seq<Chunk>, i: nat, e: KV) {
    && i < |chunks| && chunks[i].layout.entries != [] && e.value == EncodeHandle(HandleOf(chunks[i]))
    && CompareInternal(ChunkLast(chunks[i]), e.key) <= 0
    && (i + 1 < |chunks| ==>
          chunks[i + 1].layout.entries != [] && Separates(ChunkLast(chunks[i]), e.key, FirstKey(chunks[i + 1])))
  }

  /** Every key of a chunk is in the filter that its offset selects. */
  ghost predicate Filtered(groups: seq<seq<Bytes>>, c: Chunk) {
    && c.offset / BASE < |groups|
    && forall e :: e in c.layout.entries ==> UserKeyOf(e.key) in groups[c.offset / BASE]
  }

  /** A finished table: its data blocks, its index block and its filter block. */
  ghost predicate TableOk(file: Bytes, chunks: seq<Chunk>, index: Bytes, l: Layout, points: seq<nat>, p: Policy,
                          filter: Bytes, groups: seq<seq<Bytes>>)
  {
    && (forall i :: 0 <= i < |chunks| ==> ChunkOk(file, chunks[i]))
    && BlockOk(index, l, points) && StrictlyIncreasing(Internal(), l.entries) && |l.entries| == |chunks|
    && (forall i :: 0 <= i < |chunks| ==> IndexedBy(chunks, i, l.entries[i]))
    && FilterBlockOk(p, filter, groups) && |filter| < TWO_32
    && (forall i :: 0 <= i < |chunks| ==> Filtered(groups, chunks[i]))
  }

  /** All entries of a table, in file order. */
  function AllEntries(chunks: seq<Chunk>): seq<KV> {
    if chunks == [] then [] else AllEntries(chunks[..|chunks| - 1]) + chunks[|chunks| - 1].layout.entries
  }

  /** The first entry not before the lookup key, if it has the user key that is looked for. */
  function LinearSearch(entries: seq<KV>, k: Bytes): Option<KV> {
    if entries == [] then None
    else if CompareInternal(entries[0].key, k) < 0 then LinearSearch(entries[1..], k)
    else Matching(Some(entries[0]), k)
  }

  /** SaveValue keeps a reported entry only if it has the right user key. */
  function Matching(r: Option<KV>, k: Bytes): Option<KV> {
    if r.Some? && UserKeyOf(r.value.key) == UserKeyOf(k) then r else None
  }

  /** A linear search passes over a part that is before the key. */
  lemma {:induction false} SearchSkips(before: seq<KV>, rest: seq<KV>, k: Bytes)
    requires forall e :: e in before ==> CompareInternal(e.key, k) < 0
    ensures LinearSearch(before + rest, k) == LinearSearch(rest, k)
  {
    hide CompareInternal, Matching;
    if before == [] {
      assert before + rest == rest;
    } else {
      assert (before + rest)[1..] == before[1..] + rest;
      SearchSkips(before[1..], rest, k);
    }
  }

  lemma {:induction false} AllEntriesConcat(xs: seq<Chunk>, ys: seq<Chunk>)
    ensures AllEntries(xs + ys) == AllEntries(xs) + AllEntries(ys)
    decreases |ys|
  {
    if ys == [] {
      assert xs + ys == xs;
    } else {
      assert (xs + ys)[..|xs + ys| - 1] == xs + ys[..|ys| - 1];
      AllEntriesConcat(xs, ys[..|ys| - 1]);
    }
  }

  lemma {:induction false} InAllEntries(chunks: seq<Chunk>, e: KV)
    requires e in AllEntries(chunks)
    ensures exists i :: 0 <= i < |chunks| && e in chunks[i].layout.entries
  {
    if e in chunks[|chunks| - 1].layout.entries {
    } else {
      InAllEntries(chunks[..|chunks| - 1], e);
      var i :| 0 <= i < |chunks| - 1 && e in chunks[..|chunks| - 1][i].layout.entries;
      assert e in chunks[i].layout.entries;
    }
  }

  /** Every entry of a chunk is at or before its last one. */
  lemma EntryUpToLast(file: Bytes, c: Chunk, e: KV)
    requires ChunkOk(file, c) && e in c.layout.entries
    ensures CompareInternal(e.key, ChunkLast(c)) <= 0
  {
    hide Internal, BlockOk;
    var entries := c.layout.entries;
    var i :| 0 <= i < |entries| && entries[i] == e;
    if i < |entries| - 1 {
      InternalInOrder(entries, i, |entries| - 1);
    } else {
      CompareIsTotal(UserKeyOf(e.key), UserKeyOf(e.key), UserKeyOf(e.key));
    }
  }

  /** A chunk whose index key is before the lookup key holds only entries before it. */
  lemma ChunkBefore(file: Bytes, chunks: seq<Chunk>, i: nat, index: KV, k: Bytes)
    requires i < |chunks| && ChunkOk(file, chunks[i]) && IndexedBy(chunks, i, index) &&
             CompareInternal(index.key, k) < 0
    ensures forall e :: e in chunks[i].layout.entries ==> CompareInternal(e.key, k) < 0
  {
    hide CompareInternal;
    forall e | e in chunks[i].layout.entries
      ensures CompareInternal(e.key, k) < 0
    {
      EntryUpToLast(file, chunks[i], e);
      CompareInternalIsOrdered(ChunkLast(chunks[i]), index.key, k);
      CompareInternalIsOrdered(e.key, ChunkLast(chunks[i]), k);
    }
  }

  /** All chunks before position `i` of the index search are before the lookup key. */
  lemma ChunksBefore(file: Bytes, chunks: seq<Chunk>, entries: seq<KV>, i: nat, k: Bytes)
    requires |entries| == |chunks| && LowerBound(entries, k, i)
    requires forall j :: 0 <= j < |chunks| ==> ChunkOk(file, chunks[j]) && IndexedBy(chunks, j, entries[j])
    ensures forall e :: e in AllEntries(chunks[..i]) ==> CompareInternal(e.key, k) < 0
  {
    hide CompareInternal;
    forall e | e in AllEntries(chunks[..i])
      ensures CompareInternal(e.key, k) < 0
    {
      InAllEntries(chunks[..i], e);
      var j :| 0 <= j < i && e in chunks[..i][j].layout.entries;
      ChunkBefore(file, chunks, j, entries[j], k);
    }
  }

  /** A lower bound inside a block is where the linear search stops. */
  lemma SearchStops(entries: seq<KV>, rest: seq<KV>, j: nat, k: Bytes)
    requires LowerBound(entries, k, j) && j < |entries|
    ensures LinearSearch(entries + rest, k) == Matching(Some(entries[j]), k)
  {
    hide CompareInternal, Matching;
    var before, behind := entries[..j], entries[j..] + rest;
    forall e | e in before
      ensures CompareInternal(e.key, k) < 0
    {
      var m :| 0 <= m < j && entries[m] == e;
    }
    SearchSkips(before, behind, k);
    assert entries + rest == before + behind;
    assert behind[0] == entries[j];
  }

  /** If the block runs out, the next block starts with another user key, and the linear search finds nothing. */
  lemma SearchRunsOut(file: Bytes, chunks: seq<Chunk>, i: nat, index: KV, k: Bytes)
    requires i < |chunks| && ChunkOk(file, chunks[i]) && IndexedBy(chunks, i, index)
    requires CompareInternal(index.key, k) >= 0
    requires LowerBound(chunks[i].layout.entries, k, |chunks[i].layout.entries|)
    ensures LinearSearch(AllEntries(chunks[i..]), k) == None
  {
    hide Compare, BlockOk, StrictlyIncreasing;
    var c, rest := chunks[i], chunks[i + 1..];
    var entries := c.layout.entries;
    assert chunks[i..] == [c] + rest && AllEntries([c]) == entries by {
      assert [c][..0] == [];
    }
    AllEntriesConcat([c], rest);
    SearchSkips(entries, AllEntries(rest), k);
    if rest == [] {
    } else {
      CompareInternalIsOrdered(k, index.key, k);
      CompareInternalIsOrdered(index.key, k, index.key);
      LookupStaysInBlock(ChunkLast(c), index.key, FirstKey(chunks[i + 1]), k);
      CompareIsTotal(UserKeyOf(k), UserKeyOf(FirstKey(chunks[i + 1])), UserKeyOf(k));
      FirstOfAll(rest);
    }
  }

  lemma {:induction false} FirstOfAll(chunks: seq<Chunk>)
    requires chunks != [] && chunks[0].layout.entries != []
    ensures AllEntries(chunks) != [] && AllEntries(chunks)[0] == chunks[0].layout.entries[0]
  {
    assert chunks == [chunks[0]] + chunks[1..];
    AllEntriesConcat([chunks[0]], chunks[1..]);
    assert [chunks[0]][..0] == [] && AllEntries([chunks[0]]) == chunks[0].layout.entries;
  }

  lemma AnswerInBlock(c: Chunk, rest: seq<Chunk>, j: nat, k: Bytes)
    requires LowerBound(c.layout.entries, k, j) && j < |c.layout.entries|
    ensures LinearSearch(AllEntries([c] + rest), k) == Matching(Some(c.layout.entries[j]), k)
  {
    hide LinearSearch, LowerBound, Matching;
    assert [c][..0] == [] && AllEntries([c]) == c.layout.entries;
    AllEntriesConcat([c], rest);
    SearchStops(c.layout.entries, AllEntries(rest), j, k);
  }

  /** What the block that the index names answers is what a linear search over the whole table answers. */
  lemma BlockAnswers(file: Bytes, chunks: seq<Chunk>, index: seq<KV>, i: nat, j: nat, k: Bytes)
    requires |index| == |chunks| && LowerBound(index, k, i)
    requires forall m :: 0 <= m < |chunks| ==> ChunkOk(file, chunks[m]) && IndexedBy(chunks, m, index[m])
    requires i < |chunks| ==> LowerBound(chunks[i].layout.entries, k, j)
    ensures LinearSearch(AllEntries(chunks), k)
         == if i < |chunks| && j < |chunks[i].layout.entries|
            then Matching(Some(chunks[i].layout.entries[j]), k) else None
  {
    hide LinearSearch, AllEntries, ChunkOk, IndexedBy, Matching, CompareInternal;
    ChunksBefore(file, chunks, index, i, k);
    AllEntriesConcat(chunks[..i], chunks[i..]);
    assert chunks == chunks[..i] + chunks[i..];
    SearchSkips(AllEntries(chunks[..i]), AllEntries(chunks[i..]), k);
    if i < |chunks| {
      if j < |chunks[i].layout.entries| {
        assert chunks[i..] == [chunks[i]] + chunks[i + 1..];
        AnswerInBlock(chunks[i], chunks[i + 1..], j, k);
      } else {
        SearchRunsOut(file, chunks, i, index[i], k);
      }
    } else {
      NothingInNone(k);
    }
  }

  lemma NothingInNone(k: Bytes)
    ensures LinearSearch(AllEntries([]), k) == None
  {
  }

  // ----- looking up -----

  class Table {
    const file: Bytes
    const index: Bytes
    const filter: FilterBlockReader
    ghost const chunks: seq<Chunk>
    ghost const layout: Layout
    ghost const points: seq<nat>
    ghost const groups: seq<seq<Bytes>>

    ghost predicate Valid() {
      && TableOk(file, chunks, index, layout, points, filter.policy, filter.data, groups) && filter.Valid()
      && |filter.data| >= 5 && filter.offset == LastWord(filter.data) <= |filter.data| - 5
      && filter.num == (|filter.data| - 5 - LastWord(filter.data)) / 4
      && (filter.num > 0 ==> filter.baseLg == filter.data[|filter.data| - 1] as nat)
    }

    /** Open a finished table; the footer and the metaindex block have led to its index and filter. */
    constructor (file: Bytes, index: Bytes, filter: FilterBlockReader, ghost chunks: seq<Chunk>, ghost layout: Layout,
                 ghost points: seq<nat>, ghost groups: seq<seq<Bytes>>)
      requires TableOk(file, chunks, index, layout, points, filter.policy, filter.data, groups) && filter.Valid()
      requires |filter.data| >= 5 && filter.offset == LastWord(filter.data) <= |filter.data| - 5
      requires filter.num == (|filter.data| - 5 - LastWord(filter.data)) / 4
      requires filter.num > 0 ==> filter.baseLg == filter.data[|filter.data| - 1] as nat
      ensures Valid() && this.chunks == chunks
    {
      this.file, this.index, this.filter := file, index, filter;
      this.chunks, this.layout, this.points, this.groups := chunks, layout, points, groups;
    }

    /** InternalGet: seek in the index, ask the filter, seek in the block; report the entry there, if there is one. */
    method InternalGet(k: Bytes) returns (r: Option<KV>)
      requires Valid()
      ensures Matching(r, k) == LinearSearch(AllEntries(chunks), k)
    {
      hide LinearSearch, AllEntries, FilterMayMatch, IsLowerBound, LowerBound, Internal, DecodeHandle, CompareInternal;
      hide EncodeHandle, StrictlyIncreasing, FilterBlockOk, FilterIndex, FilterBlockReader.Valid, BlockOk;
      var iiter := new BlockIter(Internal(), index, layout, points);
      ghost var i := iiter.Seek(k);
      LowerBoundIs(layout.entries, k, i);
      IndexPosition(index, layout, points, i);
      if iiter.current >= iiter.restarts {
        BlockAnswers(file, chunks, layout.entries, i, 0, k);
        return None;
      }
      ghost var c := chunks[i];
      var value := index[iiter.valueStart..iiter.valueStart + iiter.valueSize];
      assert ChunkOk(file, c) && IndexedBy(chunks, i, layout.entries[i]);
      HandleRoundTrip(HandleOf(c));
      var handle := DecodeHandle(value).value;
      var mayMatch := filter.KeyMayMatch(handle.offset, UserKeyOf(k));
      var block := new BlockIter(Internal(), file[handle.offset..handle.offset + handle.size], c.layout, c.points);
      ghost var j := block.Seek(k);
      LowerBoundIs(c.layout.entries, k, j);
      IndexPosition(c.content, c.layout, c.points, j);
      BlockAnswers(file, chunks, layout.entries, i, j, k);
      if !mayMatch {
        FilterIsRight(i, j, k);
        return None;
      }
      if block.current < block.restarts {
        r := Some(KV(block.key, block.block[block.valueStart..block.valueStart + block.valueSize]));
      } else {
        r := None;
      }
    }

    /** A key that the filter rules out is not in the block. */
    lemma FilterIsRight(i: nat, j: nat, k: Bytes)
      requires Valid() && i < |chunks|
      requires !FilterMayMatch(filter.policy, filter.data, filter.offset, filter.num,
                               FilterIndex(chunks[i].offset, filter.baseLg), UserKeyOf(k))
      ensures j < |chunks[i].layout.entries| ==> Matching(Some(chunks[i].layout.entries[j]), k) == None
    {
      if j < |chunks[i].layout.entries| {
        var e := chunks[i].layout.entries[j];
        assert Filtered(groups, chunks[i]);
        if UserKeyOf(e.key) == UserKeyOf(k) {
          KeysOfGroupMatch(filter.policy, filter.data, groups, chunks[i].offset, UserKeyOf(k));
        }
      }
    }
  }

  /** Past the last entry the offset is where the restarts begin; before, it is smaller. */
  lemma IndexPosition(block: Bytes, l: Layout, points: seq<nat>, i: nat)
    requires BlockOk(block, l, points) && i <= |l.entries|
    ensures l.offsets[i] < |l.data| <==> i < |l.entries|
  {
    LayoutFacts(block, l, points, i);
  }
}
