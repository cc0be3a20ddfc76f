/**
 TwoLevelIterator: an index whose values name blocks, seen as one sorted run (table/two_level_iterator.cc). Tables
 use it over their blocks, and levels use it over their files.
 */
module TwoLevel {
  import opened DbFormat
  import opened VersionGet
  import opened Versions
  import opened Iterators

  // ----- runs in pieces -----

  function Flat(bs: seq<seq<Entry>>): seq<Entry> {
    if bs == [] then [] else Flat(bs[..|bs| - 1]) + bs[|bs| - 1]
  }

  /** Where block `i` starts in the whole run. */
  function Start(bs: seq<seq<Entry>>, i: nat): nat
    requires i <= |bs|
  {
    |Flat(bs[..i])|
  }

  lemma PrefixOfPrefix<T>(s: seq<T>, i: nat, j: nat)
    requires i <= j <= |s|
    ensures s[..j][..i] == s[..i]
  {
  }

  lemma {:induction false} BlockIsAtStart(bs: seq<seq<Entry>>, i: nat)
    requires i < |bs|
    ensures Start(bs, i + 1) == Start(bs, i) + |bs[i]| <= |Flat(bs)|
    ensures Flat(bs)[Start(bs, i)..Start(bs, i + 1)] == bs[i]
    decreases |bs|
  {
    var last := |bs| - 1;
    var front := bs[..last];
    if i == last {
      assert bs[..i + 1] == bs;
    } else {
      PrefixOfPrefix(bs, i, last);
      PrefixOfPrefix(bs, i + 1, last);
      BlockIsAtStart(front, i);
      assert Flat(bs) == Flat(front) + bs[last];
      assert Flat(bs)[Start(bs, i)..Start(bs, i + 1)] == Flat(front)[Start(bs, i)..Start(bs, i + 1)];
    }
  }

  lemma StartOfAll(bs: seq<seq<Entry>>)
    ensures Start(bs, |bs|) == |Flat(bs)| && Start(bs, 0) == 0
  {
    assert bs[..|bs|] == bs && bs[..0] == [];
  }

  lemma {:induction false} StartsGrow(bs: seq<seq<Entry>>, i: nat, j: nat)
    requires i <= j <= |bs|
    ensures Start(bs, i) <= Start(bs, j)
    decreases j
  {
    if i < j {
      StartsGrow(bs, i, j - 1);
      BlockIsAtStart(bs, j - 1);
    }
  }

  /** The block that holds position `p` of the whole run. */
  lemma {:induction false} BlockOf(bs: seq<seq<Entry>>, p: nat) returns (i: nat)
    requires p < |Flat(bs)|
    ensures i < |bs| && Start(bs, i) <= p < Start(bs, i + 1) == Start(bs, i) + |bs[i]|
    ensures Flat(bs)[p] == bs[i][p - Start(bs, i)]
    decreases |bs|
  {
    var last := |bs| - 1;
    var front := bs[..last];
    assert Flat(bs) == Flat(front) + bs[last];
    if p < |Flat(front)| {
      i := BlockOf(front, p);
      PrefixOfPrefix(bs, i, last);
      PrefixOfPrefix(bs, i + 1, last);
    } else {
      i := last;
      StartOfAll(bs);
    }
  }

  // ----- the index -----

  function IndexSeek(keys: seq<InternalKey>, target: InternalKey): (i: nat)
    ensures i <= |keys|
    ensures forall j :: 0 <= j < i ==> Compare(keys[j], target) < 0
    ensures i < |keys| ==> Compare(keys[i], target) >= 0
  {
    if keys == [] || Compare(keys[0], target) >= 0 then 0 else 1 + IndexSeek(keys[1..], target)
  }

  /** Each index key is at or after every key of its block, and before every key of the later ones. */
  ghost predicate Separates(keys: seq<InternalKey>, bs: seq<seq<Entry>>) {
    |keys| == |bs| && forall i, j :: SeparatesAt(keys, bs, i, j)
  }

  ghost predicate SeparatesAt(keys: seq<InternalKey>, bs: seq<seq<Entry>>, i: int, j: int)
    requires |keys| == |bs|
  {
    0 <= i <= j < |bs| ==>
      && (forall e :: e in bs[i] ==> Compare(KeyOf(e), keys[j]) <= 0)
      && (i < j ==> forall e :: e in bs[j] ==> Compare(keys[i], KeyOf(e)) < 0)
  }

  lemma CompareChains(a: InternalKey, b: InternalKey, c: InternalKey)
    ensures Compare(a, b) <= 0 && Compare(b, c) < 0 ==> Compare(a, c) < 0
    ensures Compare(a, b) >= 0 && Compare(c, a) > 0 ==> Compare(c, b) > 0
  {
  }

  /** Seeking in the index and then in one block finds the place in the whole run. */
  lemma SeekInOneBlock(keys: seq<InternalKey>, bs: seq<seq<Entry>>, target: InternalKey)
    requires Separates(keys, bs)
    ensures var i := IndexSeek(keys, target);
      SeekIndex(Flat(bs), target) == if i == |bs| then |Flat(bs)| else Start(bs, i) + SeekIndex(bs[i], target)
  {
    hide Compare, Flat;
    var all := Flat(bs);
    var i := IndexSeek(keys, target);
    StartOfAll(bs);
    if i < |bs| {
      BlockIsAtStart(bs, i);
    }
    var p := if i == |bs| then |all| else Start(bs, i) + SeekIndex(bs[i], target);
    forall q | 0 <= q < p ensures Compare(KeyOf(all[q]), target) < 0 {
      var b := BlockOf(bs, q);
      if b > i {
        StartsGrow(bs, i + 1, b);
      }
      if b < i {
        assert SeparatesAt(keys, bs, b, b);
        CompareChains(KeyOf(all[q]), keys[b], target);
      }
    }
    if p < |all| {
      var b := BlockOf(bs, p);
      if b < i {
        StartsGrow(bs, b + 1, i);
      }
      if b > i {
        assert SeparatesAt(keys, bs, i, b);
        CompareChains(keys[i], target, KeyOf(all[p]));
        CompareFlips(keys[i], KeyOf(all[p]));
      }
      assert Compare(KeyOf(all[p]), target) >= 0;
    }
  }

  lemma CompareFlips(a: InternalKey, b: InternalKey)
    ensures Compare(a, b) < 0 <==> Compare(b, a) > 0
  {
  }

  /** A level of disjoint files, indexed by their largest keys as LevelFileNumIterator does. */
  ghost function LargestKeys(fs: Level): seq<InternalKey> {
    seq(|fs|, i requires 0 <= i < |fs| => Largest(fs[i]))
  }

  function Runs(fs: Level): seq<seq<Entry>> {
    seq(|fs|, i requires 0 <= i < |fs| => fs[i].entries)
  }

  lemma LevelIsSeparated(fs: Level)
    requires Disjoint(fs)
    ensures Separates(LargestKeys(fs), Runs(fs))
  {
    forall i, j ensures SeparatesAt(LargestKeys(fs), Runs(fs), i, j) {
      if 0 <= i <= j < |fs| {
        assert FilesInOrder(fs, i, j);
        forall e | e in fs[i].entries ensures Compare(KeyOf(e), Largest(fs[j])) <= 0 {
          SortedBounds(fs[i], e);
          SortedBounds(fs[j], First(fs[j]));
        }
        forall e | i < j && e in fs[j].entries ensures Compare(Largest(fs[i]), KeyOf(e)) < 0 {
          SortedBounds(fs[j], e);
        }
      }
    }
  }

  class IndexIterator {
    const keys: seq<InternalKey>
    const handles: seq<nat>
    var pos: nat

    constructor (keys: seq<InternalKey>, handles: seq<nat>)
      requires |keys| == |handles|
      ensures this.keys == keys && this.handles == handles && pos == |keys|
    {
      this.keys, this.handles, pos := keys, handles, |keys|;
    }

    predicate Valid()
      reads this
    {
      pos < |keys|
    }

    method Seek(target: InternalKey)
      modifies `pos
      ensures pos == IndexSeek(keys, target)
    {
      pos := IndexSeek(keys, target);
    }

    method SeekToFirst()
      modifies `pos
      ensures pos == 0
    {
      pos := 0;
    }

    method SeekToLast()
      modifies `pos
      ensures pos == if keys == [] then 0 else |keys| - 1
    {
      pos := if keys == [] then 0 else |keys| - 1;
    }

    method Next()
      requires Valid()
      modifies `pos
      ensures pos == old(pos) + 1
    {
      pos := pos + 1;
    }

    method Prev()
      requires Valid()
      modifies `pos
      ensures pos == if old(pos) == 0 then |keys| else old(pos) - 1
    {
      pos := if pos == 0 then |keys| else pos - 1;
    }
  }

  /** Its operations move the position exactly as those of InternalIterator do over the whole run. */
  class TwoLevelIterator {
    const index: IndexIterator
    /** block_function: what the block or file behind a handle holds. */
    const block: nat -> seq<Entry>
    var data: InternalIterator?
    var handle: nat

    ghost function Blocks(): (bs: seq<seq<Entry>>)
      ensures |bs| == |index.handles|
    {
      seq(|index.handles|, i requires 0 <= i < |index.handles| => block(index.handles[i]))
    }

    /** The whole run. */
    ghost function Entries(): seq<Entry> {
      Flat(Blocks())
    }

    ghost predicate Loaded()
      reads this, index, data
    {
      && |index.keys| == |index.handles|
      && (data != null ==> data.entries == block(handle) && data.pos <= |data.entries|)
      && (index.Valid() ==> data != null && handle == index.handles[index.pos])
      && (!index.Valid() ==> data == null)
    }

    /** Between calls, the data iterator is at an entry or there is none. */
    ghost predicate Usable()
      reads this, index, data
    {
      Loaded() && (data != null ==> data.Valid())
    }

    /** The position in the whole run, that of the block end included; its length marks an invalid iterator. */
    ghost function Position(): nat
      requires Loaded()
      reads this, index, data
    {
      if data == null then |Entries()| else Start(Blocks(), index.pos) + data.pos
    }

    constructor (index: IndexIterator, block: nat -> seq<Entry>)
      requires |index.keys| == |index.handles| && !index.Valid()
      ensures Usable() && this.index == index && this.block == block && data == null
    {
      this.index, this.block, data, handle := index, block, null, 0;
    }

    predicate Valid()
      reads this, data
    {
      data != null && data.Valid()
    }

    /** The entry under a valid iterator is the one at its position. */
    lemma AtPosition()
      requires Usable() && Valid()
      ensures Position() < |Entries()| && Entries()[Position()] == data.entries[data.pos]
    {
      BlockIsAtStart(Blocks(), index.pos);
    }

    /** InitDataBlock: the block of the current index entry, kept when it is already loaded. */
    method InitDataBlock()
      requires |index.keys| == |index.handles|
      requires data != null ==> data.entries == block(handle) && data.pos <= |data.entries|
      modifies this
      ensures Loaded()
      ensures data == old(data) || data == null || fresh(data)
    {
      if !index.Valid() {
        data := null;
      } else {
        var h := index.handles[index.pos];
        if data == null || h != handle {
          data := new InternalIterator(block(h));
          handle := h;
        }
      }
    }

    /** Where going backward stands: one before the block when the data iterator ran off its front, -1 at the front. */
    ghost function BackPosition(): int
      requires Loaded()
      reads this, index, data
    {
      if data == null then -1 else Start(Blocks(), index.pos) + if data.Valid() then data.pos else -1
    }

    ghost function DataSet(): set<object>
      reads this
    {
      if data == null then {} else {data}
    }

    method SkipEmptyDataBlocksForward()
      requires Loaded()
      modifies this, index, DataSet()
      ensures Usable() && Position() == old(Position())
      ensures data == old(data) || data == null || fresh(data)
    {
      hide Flat;
      while data == null || !data.Valid()
        invariant Loaded() && Position() == old(Position())
        invariant data == old(data) || data == null || fresh(data)
        decreases data != null, |index.keys| - index.pos
      {
        if !index.Valid() {
          return;
        }
        ghost var i := index.pos;
        BlockIsAtStart(Blocks(), i);
        StartOfAll(Blocks());
        index.Next();
        InitDataBlock();
        if data != null {
          data.SeekToFirst();
        }
      }
    }

    method SkipEmptyDataBlocksBackward()
      requires Loaded()
      modifies this, index, DataSet()
      ensures data == old(data) || data == null || fresh(data)
      ensures Usable() && Position() == if old(BackPosition()) < 0 then |Entries()| else old(BackPosition())
    {
      hide Flat;
      while data == null || !data.Valid()
        invariant Loaded() && BackPosition() == old(BackPosition())
        invariant data == old(data) || data == null || fresh(data)
        decreases data != null, index.pos
      {
        if !index.Valid() {
          return;
        }
        StartOfAll(Blocks());
        if index.pos > 0 {
          BlockIsAtStart(Blocks(), index.pos - 1);
        }
        index.Prev();
        InitDataBlock();
        if data != null {
          data.SeekToLast();
        }
      }
    }

    method Seek(target: InternalKey)
      requires Usable() && Separates(index.keys, Blocks())
      modifies this, index, DataSet()
      ensures Usable() && Position() == SeekIndex(Entries(), target)
      ensures data == old(data) || data == null || fresh(data)
    {
      hide Flat, Separates, Compare;
      SeekInOneBlock(index.keys, Blocks(), target);
      index.Seek(target);
      InitDataBlock();
      if data != null {
        data.Seek(target);
      }
      SkipEmptyDataBlocksForward();
    }

    method SeekToFirst()
      requires Usable()
      modifies this, index, DataSet()
      ensures Usable() && Position() == 0
      ensures data == old(data) || data == null || fresh(data)
    {
      StartOfAll(Blocks());
      index.SeekToFirst();
      InitDataBlock();
      if data != null {
        data.SeekToFirst();
      }
      SkipEmptyDataBlocksForward();
    }

    method SeekToLast()
      requires Usable()
      modifies this, index, DataSet()
      ensures Usable() && Position() == if Entries() == [] then 0 else |Entries()| - 1
      ensures data == old(data) || data == null || fresh(data)
    {
      StartOfAll(Blocks());
      index.SeekToLast();
      InitDataBlock();
      if data != null {
        BlockIsAtStart(Blocks(), index.pos);
        data.SeekToLast();
      }
      SkipEmptyDataBlocksBackward();
    }

    method Next()
      requires Usable() && Valid()
      modifies this, index, DataSet()
      ensures Usable() && Position() == old(Position()) + 1
      ensures data == old(data) || data == null || fresh(data)
    {
      data.Next();
      SkipEmptyDataBlocksForward();
    }

    method Prev()
      requires Usable() && Valid()
      modifies this, index, DataSet()
      ensures Usable() && Position() == if old(Position()) == 0 then |Entries()| else old(Position()) - 1
      ensures data == old(data) || data == null || fresh(data)
    {
      data.Prev();
      SkipEmptyDataBlocksBackward();
    }
  }
}
