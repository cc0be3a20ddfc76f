/**
 The chained hash table of the block cache (util/cache.cc:70-146). Handles are named by their addresses; each field of
 a handle is a map from addresses, so a store through one pointer is seen through every other.
 */
module HandleTables {
  import opened ByteStrings
  import opened Sequences

  const NIL: int := -1

  /** The bucket of a hash; the sizes are powers of two, for which `hash & (size - 1)` is the remainder. */
  function BucketOf(hash: nat, size: nat): (b: nat)
    requires size > 0
    ensures b < size
  {
    hash % size
  }

  /** The part of a handle that never changes. */
  datatype Item = Item(key: Bytes, hash: nat, value: nat, charge: nat)

  predicate Matches(item: Item, key: Bytes, hash: nat) {
    item.hash == hash && item.key == key
  }

  predicate ChainLink(nextHash: map<nat, int>, c: seq<nat>, i: nat)
    requires i < |c|
  {
    c[i] in nextHash && nextHash[c[i]] == if i + 1 < |c| then c[i + 1] else NIL
  }

  /** `c` is the chain of addresses that starts at the pointer `head`. */
  predicate ChainOk(nextHash: map<nat, int>, head: int, c: seq<nat>) {
    && head == (if c == [] then NIL else c[0])
    && (forall i :: 0 <= i < |c| ==> ChainLink(nextHash, c, i))
    && NoRepeats(c)
  }

  /** The handles of a bucket hash into it and are members. */
  predicate BucketOk(items: map<nat, Item>, members: set<nat>, size: nat, b: nat, c: seq<nat>)
    requires size > 0
  {
    forall i :: 0 <= i < |c| ==> c[i] in members && c[i] in items && BucketOf(items[c[i]].hash, size) == b
  }

  /** No two members have the same key and hash. */
  predicate Identified(items: map<nat, Item>, members: set<nat>) {
    && (forall e :: e in members ==> e in items)
    && forall e, f :: e in members && f in members && items[e].hash == items[f].hash && items[e].key == items[f].key
         ==> e == f
  }

  ghost predicate TableOk(items: map<nat, Item>, nextHash: map<nat, int>, list: seq<int>, buckets: seq<seq<nat>>,
                          members: set<nat>)
  {
    && |list| == |buckets| > 0
    && (forall b :: 0 <= b < |list| ==> ChainOk(nextHash, list[b], buckets[b]))
    && (forall b :: 0 <= b < |list| ==> BucketOk(items, members, |list|, b, buckets[b]))
    && Identified(items, members)
    && (forall e :: e in members ==> e in buckets[BucketOf(items[e].hash, |list|)])
  }

  /** All members but one; NIL takes none away. */
  function Without(members: set<nat>, e: int): set<nat> {
    set f | f in members && f != e
  }

  /** A member with the given key and hash, or NIL if there is none. */
  predicate IsLookup(items: map<nat, Item>, members: set<nat>, key: Bytes, hash: nat, e: int) {
    if e == NIL then forall f :: f in members && f in items ==> !Matches(items[f], key, hash)
    else e >= 0 && e in members && e in items && Matches(items[e], key, hash)
  }

  /** Handles in other buckets are other handles. */
  lemma OtherBucket(items: map<nat, Item>, nextHash: map<nat, int>, list: seq<int>, buckets: seq<seq<nat>>,
                    members: set<nat>, b: nat, c: nat, e: nat)
    requires TableOk(items, nextHash, list, buckets, members) && b < |list| && c < |list| && b != c && e in buckets[b]
    ensures e !in buckets[c]
  {
    assert BucketOk(items, members, |list|, b, buckets[b]) && BucketOk(items, members, |list|, c, buckets[c]);
  }

  /** The slot that FindPointer returns: the bucket's own pointer, or the next_hash field of a handle. */
  datatype Slot = Head | After(e: nat)

  function ReadSlot(nextHash: map<nat, int>, head: int, s: Slot): int
    requires s.After? ==> s.e in nextHash
  {
    if s.Head? then head else nextHash[s.e]
  }

  /** The slot in front of position `i` of a chain. */
  function SlotAt(c: seq<nat>, i: nat): Slot
    requires i <= |c|
  {
    if i == 0 then Head else After(c[i - 1])
  }

  function Replaced(c: seq<nat>, i: nat, e: nat): seq<nat>
    requires i <= |c|
  {
    if i < |c| then c[i := e] else c + [e]
  }

  /** `*slot = e` for the slot at position `i` of a chain: its effect on the next_hash fields and on the bucket. */
  function NextStored(nextHash: map<nat, int>, slot: Slot, e: int): map<nat, int> {
    if slot.Head? then nextHash else nextHash[slot.e := e]
  }

  function HeadStored(list: seq<int>, b: nat, slot: Slot, e: int): seq<int>
    requires b < |list|
  {
    if slot.Head? then list[b := e] else list
  }

  /** Storing a new handle in the slot at `i` replaces the handle there, or lengthens the chain. */
  lemma ReplaceInChain(nextHash: map<nat, int>, list: seq<int>, b: nat, c: seq<nat>, i: nat, e: nat)
    requires b < |list| && ChainOk(nextHash, list[b], c) && i <= |c| && e !in c && (i < |c| ==> c[i] in nextHash)
    ensures var n := nextHash[e := if i < |c| then nextHash[c[i]] else NIL];
      ChainOk(NextStored(n, SlotAt(c, i), e), HeadStored(list, b, SlotAt(c, i), e)[b], Replaced(c, i, e))
  {
    var c' := Replaced(c, i, e);
    var next' := NextStored(nextHash[e := if i < |c| then nextHash[c[i]] else NIL], SlotAt(c, i), e);
    assert i < |c| ==> ChainLink(nextHash, c, i);
    forall j | 0 <= j < |c'|
      ensures ChainLink(next', c', j)
    {
      assert j < |c| ==> ChainLink(nextHash, c, j);
    }
  }

  /** Storing the successor in the slot at `i` takes the handle there out of the chain. */
  lemma RemoveFromChain(nextHash: map<nat, int>, list: seq<int>, b: nat, c: seq<nat>, i: nat)
    requires b < |list| && ChainOk(nextHash, list[b], c) && i < |c| && c[i] in nextHash
    ensures var n := nextHash[c[i]];
      ChainOk(NextStored(nextHash, SlotAt(c, i), n), HeadStored(list, b, SlotAt(c, i), n)[b], Removed(c, i))
  {
    var c' := Removed(c, i);
    assert ChainLink(nextHash, c, i);
    forall j | 0 <= j < |c'|
      ensures ChainLink(NextStored(nextHash, SlotAt(c, i), nextHash[c[i]]), c', j)
    {
      assert ChainLink(nextHash, c, if j < i then j else j + 1);
    }
  }

  /** A chain does not notice stores to handles that are not on it. */
  lemma ChainElsewhere(nextHash: map<nat, int>, nextHash': map<nat, int>, head: int, c: seq<nat>)
    requires ChainOk(nextHash, head, c)
    requires forall e :: e in c && e in nextHash ==> e in nextHash' && nextHash'[e] == nextHash[e]
    ensures ChainOk(nextHash', head, c)
  {
    forall i | 0 <= i < |c|
      ensures ChainLink(nextHash', c, i)
    {
      assert ChainLink(nextHash, c, i);
    }
  }

  lemma PushOnChain(nextHash: map<nat, int>, head: int, c: seq<nat>, e: nat)
    requires ChainOk(nextHash, head, c) && e !in c
    ensures ChainOk(nextHash[e := head], e, [e] + c)
  {
    var c', next' := [e] + c, nextHash[e := head];
    forall i | 0 <= i < |c'|
      ensures ChainLink(next', c', i)
    {
      assert i > 0 ==> ChainLink(nextHash, c, i - 1);
    }
  }

  /** Changing one bucket, and the pointers of handles that only this bucket holds, leaves the other buckets alone. */
  lemma OneBucketChanges(items: map<nat, Item>, nextHash: map<nat, int>, nextHash': map<nat, int>, list: seq<int>,
                         list': seq<int>, buckets: seq<seq<nat>>, members: set<nat>, members': set<nat>, b: nat,
                         head: int, c: seq<nat>, touched: set<nat>)
    requires TableOk(items, nextHash, list, buckets, members) && b < |list| && list' == list[b := head]
    requires ChainOk(nextHash', head, c) && BucketOk(items, members', |list|, b, c) && Identified(items, members')
    requires forall e :: e in nextHash && e !in touched ==> e in nextHash' && nextHash'[e] == nextHash[e]
    requires forall e :: e in touched ==> e in buckets[b] || e !in members
    requires forall e :: e in members && e !in buckets[b] ==> e in members'
    requires forall e :: e in members' ==> if BucketOf(items[e].hash, |list|) == b then e in c else e in members
    ensures TableOk(items, nextHash', list', buckets[b := c], members')
  {
    forall d | 0 <= d < |list'|
      ensures ChainOk(nextHash', list'[d], buckets[b := c][d])
      ensures BucketOk(items, members', |list'|, d, buckets[b := c][d])
    {
      if d != b {
        assert ChainOk(nextHash, list[d], buckets[d]) && BucketOk(items, members, |list|, d, buckets[d]);
        forall e | e in buckets[d]
          ensures e !in touched && e !in buckets[b]
        {
          OtherBucket(items, nextHash, list, buckets, members, d, b, e);
        }
        ChainElsewhere(nextHash, nextHash', list[d], buckets[d]);
      }
    }
  }

  /** The table looks only at the items of its members. */
  lemma SameItemsSameTable(items: map<nat, Item>, items': map<nat, Item>, nextHash: map<nat, int>, list: seq<int>,
                           buckets: seq<seq<nat>>, members: set<nat>)
    requires TableOk(items, nextHash, list, buckets, members)
    requires forall e :: e in members && e in items ==> e in items' && items'[e] == items[e]
    ensures TableOk(items', nextHash, list, buckets, members)
  {
    forall b | 0 <= b < |list|
      ensures BucketOk(items', members, |list|, b, buckets[b])
    {
      assert BucketOk(items, members, |list|, b, buckets[b]);
    }
  }

  /** There are never more members than buckets, so chains stay short on average. */
  class HandleTable {
    var list: seq<int>
    var elems: nat
    var nextHash: map<nat, int>
    ghost var buckets: seq<seq<nat>>
    ghost var members: set<nat>

    ghost predicate Valid(items: map<nat, Item>)
      reads this
    {
      TableOk(items, nextHash, list, buckets, members) && elems == |members| <= |list|
    }

    constructor ()
      ensures Valid(map[]) && members == {}
    {
      list, elems, nextHash, buckets, members := [NIL, NIL, NIL, NIL], 0, map[], [[], [], [], []], {};
    }

    /** The slot that points to the matching handle, or the one at the end of the chain. */
    method FindPointer(items: map<nat, Item>, key: Bytes, hash: nat) returns (slot: Slot, e: int, ghost i: nat)
      requires Valid(items)
      ensures var c := buckets[BucketOf(hash, |list|)];
        && i <= |c| && slot == SlotAt(c, i) && e == (if i < |c| then c[i] else NIL)
      ensures IsLookup(items, members, key, hash, e)
    {
      var b := BucketOf(hash, |list|);
      ghost var c := buckets[b];
      assert ChainOk(nextHash, list[b], c) && BucketOk(items, members, |list|, b, c);
      slot, e, i := Head, list[b], 0;
      while e != NIL && !Matches(items[e], key, hash)
        invariant 0 <= i <= |c| && slot == SlotAt(c, i) && e == if i < |c| then c[i] else NIL
        invariant forall j :: 0 <= j < i ==> !Matches(items[c[j]], key, hash)
        decreases |c| - i
      {
        assert ChainLink(nextHash, c, i);
        slot := After(e);
        e := nextHash[e];
        i := i + 1;
      }
      assert BucketOk(items, members, |list|, b, c);
      if e == NIL {
        forall f | f in members
          ensures !Matches(items[f], key, hash)
        {
          assert f in buckets[BucketOf(items[f].hash, |list|)];
        }
      }
    }

    method Lookup(items: map<nat, Item>, key: Bytes, hash: nat) returns (e: int)
      requires Valid(items)
      ensures IsLookup(items, members, key, hash, e)
    {
      ghost var i;
      var slot;
      slot, e, i := FindPointer(items, key, hash);
    }

    method WriteSlot(b: nat, slot: Slot, e: int)
      requires b < |list|
      modifies this`list, this`nextHash
      ensures list == HeadStored(old(list), b, slot, e) && nextHash == NextStored(old(nextHash), slot, e)
      ensures |list| == |old(list)|
    {
      if slot.Head? {
        list := list[b := e];
      } else {
        nextHash := nextHash[slot.e := e];
      }
    }

    /** Insert a new handle; a handle with the same key leaves the table and is returned. */
    method Insert(items: map<nat, Item>, e: nat) returns (found: int)
      requires Valid(items) && e in items && e !in members
      modifies this
      ensures Valid(items) && IsLookup(items, old(members), items[e].key, items[e].hash, found)
      ensures members == Without(old(members), found) + {e}
    {
      hide TableOk, IsLookup, Replaced, NextStored, HeadStored;
      var slot;
      ghost var i;
      slot, found, i := FindPointer(items, items[e].key, items[e].hash);
      NotEmpty(items, nextHash, list, buckets, members);
      var b := BucketOf(items[e].hash, |list|);
      InsertKeepsTable(items, nextHash, list, buckets, members, b, i, e, found);
      nextHash := nextHash[e := if found == NIL then NIL else nextHash[found]];
      buckets := buckets[b := Replaced(buckets[b], i, e)];
      members := Without(members, found) + {e};
      WriteSlot(b, slot, e);
      if found == NIL {
        elems := elems + 1;
        if elems > |list| {
          Resize(items);
        }
      }
    }

    /** Take the handle with the given key out of the table, if there is one. */
    method Remove(items: map<nat, Item>, key: Bytes, hash: nat) returns (found: int)
      requires Valid(items)
      modifies this
      ensures Valid(items) && IsLookup(items, old(members), key, hash, found)
      ensures members == Without(old(members), found)
    {
      hide TableOk, IsLookup, Removed, NextStored, HeadStored;
      var slot;
      ghost var i;
      slot, found, i := FindPointer(items, key, hash);
      if found != NIL {
        NotEmpty(items, nextHash, list, buckets, members);
        var b := BucketOf(hash, |list|);
        RemoveKeepsTable(items, nextHash, list, buckets, members, b, i);
        assert Without(members, found) == members - {buckets[b][i]};
        buckets := buckets[b := Removed(buckets[b], i)];
        members := Without(members, found);
        elems := elems - 1;
        WriteSlot(b, slot, nextHash[found]);
      } else {
        assert Without(members, found) == members;
      }
    }

    /** A power of two that is large enough, and every handle pushed onto its chain in the new array. */
    method Resize(items: map<nat, Item>)
      requires TableOk(items, nextHash, list, buckets, members) && elems == |members|
      modifies this
      ensures Valid(items) && members == old(members) && |list| >= 4 && |list| >= elems
    {
      hide TableOk, Unmoved;
      var newLength := 4;
      while newLength < elems
        invariant newLength >= 4
        decreases elems - newLength
      {
        newLength := newLength * 2;
      }
      var newList := seq(newLength, b => NIL);
      ghost var newBuckets: seq<seq<nat>> := seq(newLength, b => []);
      ghost var moved: set<nat> := {};
      var count, i := 0, 0;
      EmptyTableOk(items, nextHash, newList, newBuckets);
      NotEmpty(items, nextHash, list, buckets, members);
      AllUnmoved(items, nextHash, list, buckets, members);
      while i < |list|
        invariant i <= |list| == |buckets| && list == old(list) && members == old(members) && elems == old(elems)
        invariant buckets == old(buckets) && |newList| == newLength == |newBuckets| && count == |moved|
        invariant TableOk(items, nextHash, newList, newBuckets, moved)
        invariant Unmoved(items, nextHash, list, buckets, members, moved, i)
      {
        count, newList, newBuckets, moved := MoveChain(items, i, count, newList, newBuckets, moved);
        i := i + 1;
      }
      AllMoved(items, nextHash, list, buckets, members, moved);
      list := newList;
      buckets := newBuckets;
    }

    /** The inner loop of Resize: push the handles of one old chain onto their new chains. */
    method MoveChain(items: map<nat, Item>, i: nat, count: nat, list1: seq<int>, ghost buckets1: seq<seq<nat>>,
                     ghost moved1: set<nat>)
      returns (count': nat, list': seq<int>, ghost buckets': seq<seq<nat>>, ghost moved: set<nat>)
      requires i < |list| == |buckets| && |list1| > 0 && count == |moved1|
      requires TableOk(items, nextHash, list1, buckets1, moved1)
      requires Unmoved(items, nextHash, list, buckets, members, moved1, i)
      modifies this`nextHash
      ensures TableOk(items, nextHash, list', buckets', moved) && |list'| == |list1| == |buckets'| && count' == |moved|
      ensures Unmoved(items, nextHash, list, buckets, members, moved, i + 1)
    {
      hide TableOk, Moving;
      count', list', buckets', moved := count, list1, buckets1, moved1;
      ghost var c, k := buckets[i], 0;
      var h := list[i];
      NotEmpty(items, nextHash, list1, buckets1, moved1);
      StartMoving(items, nextHash, list, buckets, members, moved, i);
      while h != NIL
        invariant k <= |c| && |list'| == |list1| == |buckets'| && count' == |moved|
        invariant h == (if k < |c| then c[k] else NIL)
        invariant TableOk(items, nextHash, list', buckets', moved)
        invariant Moving(items, nextHash, list, buckets, members, moved, i, k)
        decreases |c| - k
      {
        MovingOne(items, nextHash, list, buckets, members, moved, i, k);
        var next := nextHash[h];
        var b := BucketOf(items[h].hash, |list'|);
        PushKeepsTable(items, nextHash, list', buckets', moved, h);
        MovedOne(items, nextHash, list, buckets, members, moved, i, k, list'[b]);
        nextHash := nextHash[h := list'[b]];
        buckets' := buckets'[b := [h] + buckets'[b]];
        list' := list'[b := h];
        moved := moved + {h};
        h := next;
        count' := count' + 1;
        k := k + 1;
      }
      EndMoving(items, nextHash, list, buckets, members, moved, i, k);
    }
  }

  /** The chains from `i` on are still as they were, and exactly the members of the chains before have been moved. */
  ghost predicate Unmoved(items: map<nat, Item>, nextHash: map<nat, int>, list: seq<int>, buckets: seq<seq<nat>>,
                          members: set<nat>, moved: set<nat>, i: nat)
  {
    Moving(items, nextHash, list, buckets, members, moved, i, 0)
  }

  /** The same in the middle of chain `i`, of which the first `k` handles have been moved. */
  ghost predicate Moving(items: map<nat, Item>, nextHash: map<nat, int>, list: seq<int>, buckets: seq<seq<nat>>,
                         members: set<nat>, moved: set<nat>, i: nat, k: nat)
  {
    && |list| == |buckets| > 0 && i <= |list| && Identified(items, members)
    && (forall b :: i < b < |list| ==> ChainOk(nextHash, list[b], buckets[b]))
    && (forall b :: i <= b < |list| ==> BucketOk(items, members, |list|, b, buckets[b]))
    && (i < |list| ==> ChainFrom(nextHash, list[i], buckets[i], k))
    && (forall e :: e in members && BucketOf(items[e].hash, |list|) >= i ==>
        e in buckets[BucketOf(items[e].hash, |list|)])
    && (forall e :: e in moved <==>
          && e in members
          && (BucketOf(items[e].hash, |list|) < i ||
              (BucketOf(items[e].hash, |list|) == i < |list| && e in buckets[i][..k])))
  }

  /** The rest of a chain from position `k`, as the links give it. */
  ghost predicate ChainFrom(nextHash: map<nat, int>, head: int, c: seq<nat>, k: nat) {
    && k <= |c| && (k == 0 ==> head == if c == [] then NIL else c[0])
    && (forall j :: k <= j < |c| ==> ChainLink(nextHash, c, j))
    && NoRepeats(c)
  }

  lemma EmptyTableOk(items: map<nat, Item>, nextHash: map<nat, int>, list: seq<int>, buckets: seq<seq<nat>>)
    requires |list| == |buckets| > 0
    requires forall b :: 0 <= b < |list| ==> list[b] == NIL && buckets[b] == []
    ensures TableOk(items, nextHash, list, buckets, {})
  {
  }

  lemma AllUnmoved(items: map<nat, Item>, nextHash: map<nat, int>, list: seq<int>, buckets: seq<seq<nat>>,
                   members: set<nat>)
    requires TableOk(items, nextHash, list, buckets, members)
    ensures Unmoved(items, nextHash, list, buckets, members, {}, 0)
  {
    assert ChainOk(nextHash, list[0], buckets[0]);
  }

  lemma AllMoved(items: map<nat, Item>, nextHash: map<nat, int>, list: seq<int>, buckets: seq<seq<nat>>,
                 members: set<nat>, moved: set<nat>)
    requires Unmoved(items, nextHash, list, buckets, members, moved, |list|)
    ensures moved == members
  {
  }

  lemma StartMoving(items: map<nat, Item>, nextHash: map<nat, int>, list: seq<int>, buckets: seq<seq<nat>>,
                    members: set<nat>, moved: set<nat>, i: nat)
    requires i < |list| && Unmoved(items, nextHash, list, buckets, members, moved, i)
    ensures Moving(items, nextHash, list, buckets, members, moved, i, 0)
    ensures list[i] == if buckets[i] == [] then NIL else buckets[i][0]
  {
  }

  lemma MovingOne(items: map<nat, Item>, nextHash: map<nat, int>, list: seq<int>, buckets: seq<seq<nat>>,
                  members: set<nat>, moved: set<nat>, i: nat, k: nat)
    requires i < |list| && Moving(items, nextHash, list, buckets, members, moved, i, k) && k < |buckets[i]|
    ensures var h := buckets[i][k];
      && h in nextHash && h in items && h in members && h !in moved && moved <= members && Identified(items, members)
      && nextHash[h] == if k + 1 < |buckets[i]| then buckets[i][k + 1] else NIL
  {
    assert ChainLink(nextHash, buckets[i], k);
    assert BucketOk(items, members, |list|, i, buckets[i]);
  }

  lemma MovedOne(items: map<nat, Item>, nextHash: map<nat, int>, list: seq<int>, buckets: seq<seq<nat>>,
                 members: set<nat>, moved: set<nat>, i: nat, k: nat, n: int)
    requires i < |list| && Moving(items, nextHash, list, buckets, members, moved, i, k) && k < |buckets[i]|
    ensures var h := buckets[i][k];
      Moving(items, nextHash[h := n], list, buckets, members, moved + {h}, i, k + 1)
  {
    var c, h := buckets[i], buckets[i][k];
    var next' := nextHash[h := n];
    assert BucketOk(items, members, |list|, i, c);
    forall b | i < b < |list|
      ensures ChainOk(next', list[b], buckets[b])
    {
      assert BucketOk(items, members, |list|, b, buckets[b]);
      ChainElsewhere(nextHash, next', list[b], buckets[b]);
    }
    forall j | k + 1 <= j < |c|
      ensures ChainLink(next', c, j)
    {
      assert ChainLink(nextHash, c, j);
    }
    assert c[..k + 1] == c[..k] + [h];
  }

  lemma EndMoving(items: map<nat, Item>, nextHash: map<nat, int>, list: seq<int>, buckets: seq<seq<nat>>,
                  members: set<nat>, moved: set<nat>, i: nat, k: nat)
    requires i < |list| && Moving(items, nextHash, list, buckets, members, moved, i, k) && k == |buckets[i]|
    ensures Unmoved(items, nextHash, list, buckets, members, moved, i + 1)
  {
    assert buckets[i][..k] == buckets[i];
    if i + 1 < |list| {
      assert ChainOk(nextHash, list[i + 1], buckets[i + 1]);
    }
  }

  /** Pushing a new handle onto the front of its chain. */
  lemma PushKeepsTable(items: map<nat, Item>, nextHash: map<nat, int>, list: seq<int>, buckets: seq<seq<nat>>,
                       members: set<nat>, e: nat)
    requires TableOk(items, nextHash, list, buckets, members) && e in items && e !in members
    requires Identified(items, members + {e})
    ensures |list| > 0
    ensures var b := BucketOf(items[e].hash, |list|);
      TableOk(items, nextHash[e := list[b]], list[b := e], buckets[b := [e] + buckets[b]], members + {e})
  {
    var b := BucketOf(items[e].hash, |list|);
    var c, c' := buckets[b], [e] + buckets[b];
    BucketFacts(items, nextHash, list, buckets, members, b);
    PushOnChain(nextHash, list[b], c, e);
    assert BucketOk(items, members, |list|, b, c);
    assert BucketOk(items, members + {e}, |list|, b, c');
    OneBucketChanges(items, nextHash, nextHash[e := list[b]], list, list[b := e], buckets, members, members + {e}, b, e,
                     c', {e});
  }

  lemma BucketFacts(items: map<nat, Item>, nextHash: map<nat, int>, list: seq<int>, buckets: seq<seq<nat>>,
                    members: set<nat>, b: nat)
    requires TableOk(items, nextHash, list, buckets, members) && b < |list|
    ensures ChainOk(nextHash, list[b], buckets[b]) && forall e :: e in buckets[b] ==> e in nextHash && e in members
  {
    forall e | e in buckets[b]
      ensures e in nextHash && e in members
    {
      var j :| 0 <= j < |buckets[b]| && buckets[b][j] == e;
      assert ChainLink(nextHash, buckets[b], j);
      assert BucketOk(items, members, |list|, b, buckets[b]);
    }
  }

  lemma NotEmpty(items: map<nat, Item>, nextHash: map<nat, int>, list: seq<int>, buckets: seq<seq<nat>>,
                 members: set<nat>)
    requires TableOk(items, nextHash, list, buckets, members)
    ensures |list| == |buckets| > 0
  {
  }

  lemma ReplacedBucketOk(items: map<nat, Item>, members: set<nat>, size: nat, b: nat, c: seq<nat>, i: nat, e: nat,
                         found: int)
    requires size > 0 && BucketOk(items, members, size, b, c) && i <= |c| && e in items &&
             BucketOf(items[e].hash, size) == b
    requires found == (if i < |c| then c[i] else NIL) && NoRepeats(c)
    ensures BucketOk(items, Without(members, found) + {e}, size, b, Replaced(c, i, e))
    ensures e in Replaced(c, i, e) && forall f :: f in c && f != found ==> f in Replaced(c, i, e)
  {
    var c' := Replaced(c, i, e);
    assert c'[i] == e;
    forall f | f in c && f != found
      ensures f in c'
    {
      var j :| 0 <= j < |c| && c[j] == f;
      assert c'[j] == f;
    }
  }

  /** Replacing a handle by one with the same key leaves no two members with the same key. */
  lemma InsertedMembers(items: map<nat, Item>, members: set<nat>, e: nat, found: int)
    requires Identified(items, members) && e in items && e !in members
    requires IsLookup(items, members, items[e].key, items[e].hash, found)
    ensures Identified(items, Without(members, found) + {e})
    ensures |Without(members, found) + {e}| == |members| + if found == NIL then 1 else 0
  {
    if found == NIL {
      assert Without(members, found) == members;
    } else {
      assert Without(members, found) == members - {found as nat};
    }
  }

  lemma InsertKeepsTable(items: map<nat, Item>, nextHash: map<nat, int>, list: seq<int>, buckets: seq<seq<nat>>,
                         members: set<nat>, b: nat, i: nat, e: nat, found: int)
    requires TableOk(items, nextHash, list, buckets, members) && b < |list| && i <= |buckets[b]|
    requires e in items && e !in members && b == BucketOf(items[e].hash, |list|)
    requires found == if i < |buckets[b]| then buckets[b][i] else NIL
    requires IsLookup(items, members, items[e].key, items[e].hash, found)
    ensures found != NIL ==> found >= 0 && found in nextHash
    ensures var n := nextHash[e := if found == NIL then NIL else nextHash[found]];
      var slot, members' := SlotAt(buckets[b], i), Without(members, found) + {e};
      && TableOk(items, NextStored(n, slot, e), HeadStored(list, b, slot, e), buckets[b := Replaced(buckets[b], i, e)],
                 members')
      && |members'| == |members| + if found == NIL then 1 else 0
  {
    hide Identified, IsLookup, ChainOk, BucketOk, BucketOf, Replaced, NextStored, HeadStored, Without;
    var c, c' := buckets[b], Replaced(buckets[b], i, e);
    BucketFacts(items, nextHash, list, buckets, members, b);
    ChainNoRepeats(nextHash, list[b], c);
    ReplaceInChain(nextHash, list, b, c, i, e);
    ReplacedBucketOk(items, members, |list|, b, c, i, e, found);
    InsertedMembers(items, members, e, found);
    var n := nextHash[e := if found == NIL then NIL else nextHash[found]];
    var slot, members' := SlotAt(c, i), Without(members, found) + {e};
    var touched := if i > 0 then {e, c[i - 1]} else {e};
    StoreTouches(nextHash, list, b, c, i, e, if found == NIL then NIL else nextHash[found]);
    InsertedBuckets(items, nextHash, list, buckets, members, b, i, e, found);
    hide TableOk;
    OneBucketChanges(items, nextHash, NextStored(n, slot, e), list, HeadStored(list, b, slot, e), buckets, members,
                     members', b, HeadStored(list, b, slot, e)[b], c', touched);
  }

  /** The new handle is the only new member, and the replaced one the only member that its bucket loses. */
  lemma InsertedBuckets(items: map<nat, Item>, nextHash: map<nat, int>, list: seq<int>, buckets: seq<seq<nat>>,
                        members: set<nat>, b: nat, i: nat, e: nat, found: int)
    requires TableOk(items, nextHash, list, buckets, members) && b < |list| && i <= |buckets[b]|
    requires e in items && e !in members && b == BucketOf(items[e].hash, |list|)
    requires found == if i < |buckets[b]| then buckets[b][i] else NIL
    requires var c' := Replaced(buckets[b], i, e);
      e in c' && forall f :: f in buckets[b] && f != found ==> f in c'
    ensures var members' := Without(members, found) + {e};
      && (forall f :: f in members && f !in buckets[b] ==> f in members')
      && forall f :: f in members' ==>
           f in items && if BucketOf(items[f].hash, |list|) == b then f in Replaced(buckets[b], i, e) else f in members
  {
    hide BucketOf, Replaced, ChainOk, BucketOk;
  }

  lemma StoreTouches(nextHash: map<nat, int>, list: seq<int>, b: nat, c: seq<nat>, i: nat, e: nat, next: int)
    requires b < |list| && i <= |c|
    ensures var n := NextStored(nextHash[e := next], SlotAt(c, i), e);
      forall f :: f in nextHash && f != e && (i > 0 ==> f != c[i - 1]) ==> f in n && n[f] == nextHash[f]
    ensures var list' := HeadStored(list, b, SlotAt(c, i), e); list' == list[b := list'[b]]
  {
  }

  lemma ChainNoRepeats(nextHash: map<nat, int>, head: int, c: seq<nat>)
    requires ChainOk(nextHash, head, c)
    ensures NoRepeats(c)
  {
  }

  lemma RemovedBucketOk(items: map<nat, Item>, members: set<nat>, size: nat, b: nat, c: seq<nat>, i: nat)
    requires size > 0 && BucketOk(items, members, size, b, c) && i < |c|
    requires NoRepeats(c)
    ensures BucketOk(items, members - {c[i]}, size, b, Removed(c, i))
    ensures forall f :: f in c && f != c[i] ==> f in Removed(c, i)
  {
    var c' := Removed(c, i);
    forall j | 0 <= j < |c'|
      ensures c'[j] in members - {c[i]} && c'[j] in items && BucketOf(items[c'[j]].hash, size) == b
    {
      var k := if j < i then j else j + 1;
      assert c'[j] == c[k] && c[k] in members && c[k] != c[i];
    }
    forall f | f in c && f != c[i]
      ensures f in c'
    {
      var k :| 0 <= k < |c| && c[k] == f;
      assert c'[if k < i then k else k - 1] == f;
    }
  }

  lemma RemoveKeepsTable(items: map<nat, Item>, nextHash: map<nat, int>, list: seq<int>, buckets: seq<seq<nat>>,
                         members: set<nat>, b: nat, i: nat)
    requires TableOk(items, nextHash, list, buckets, members) && b < |list| && i < |buckets[b]|
    ensures var c := buckets[b];
      && c[i] in nextHash && |members - {c[i]}| == |members| - 1
      && var slot, n := SlotAt(c, i), nextHash[c[i]];
        TableOk(items, NextStored(nextHash, slot, n), HeadStored(list, b, slot, n), buckets[b := Removed(c, i)],
                members - {c[i]})
  {
    var c, c' := buckets[b], Removed(buckets[b], i);
    BucketFacts(items, nextHash, list, buckets, members, b);
    RemoveFromChain(nextHash, list, b, c, i);
    RemovedBucketOk(items, members, |list|, b, c, i);
    var slot, n, members' := SlotAt(c, i), nextHash[c[i]], members - {c[i]};
    var touched := if i > 0 then {c[i - 1]} else {};
    OneBucketChanges(items, nextHash, NextStored(nextHash, slot, n), list, HeadStored(list, b, slot, n), buckets,
                     members, members', b, HeadStored(list, b, slot, n)[b], c', touched);
  }
}
