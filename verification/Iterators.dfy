/** The iterator interface the engine's iterators are built from and offer (include/leveldb/iterator.h). */
module Iterators {
  import opened DbFormat
  import opened VersionGet

  datatype Direction = Forward | Reverse

  /** The internal iterator: a position in a sorted run; the run's length marks an invalid position. */
  class InternalIterator {
    const entries: seq<Entry>
    var pos: nat

    constructor (es: seq<Entry>)
      ensures entries == es && pos == |es|
    {
      entries, pos := es, |es|;
    }

    predicate Valid()
      reads this
    {
      pos < |entries|
    }

    method Seek(target: InternalKey)
      modifies this`pos
      ensures pos == SeekIndex(entries, target)
    {
      pos := SeekIndex(entries, target);
    }

    method SeekToFirst()
      modifies this`pos
      ensures pos == 0
    {
      pos := 0;
    }

    method SeekToLast()
      modifies this`pos
      ensures pos == if entries == [] then 0 else |entries| - 1
    {
      pos := if entries == [] then 0 else |entries| - 1;
    }

    method Next()
      requires Valid()
      modifies this`pos
      ensures pos == old(pos) + 1
    {
      pos := pos + 1;
    }

    method Prev()
      requires Valid()
      modifies this`pos
      ensures pos == if old(pos) == 0 then |entries| else old(pos) - 1
    {
      pos := if pos == 0 then |entries| else pos - 1;
    }
  }

  /** The position of an internal iterator, with -1 for the invalid one reached by stepping back. */
  function Reached(es: seq<Entry>, pos: nat): int {
    if pos < |es| then pos else -1
  }
}
