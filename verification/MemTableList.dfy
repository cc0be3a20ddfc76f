/** The skip list and its iterator as objects, used by one thread (db/skiplist.h:154-381). */
module MemTableList {
  import opened SkipLists

  class SkipList {
    var arena: Arena
    var maxHeight: nat
    ghost var linked: seq<set<nat>>

    ghost predicate Valid()
      reads this
    {
      && ListOk(arena, linked) && 1 <= maxHeight <= MAX_HEIGHT
      && forall l :: maxHeight <= l < MAX_HEIGHT ==> linked[l] == {}
    }

    ghost function Contents(): set<Key>
      requires Valid()
      reads this
    {
      KeysOf(arena, linked[0])
    }

    constructor ()
      ensures Valid() && Contents() == {}
    {
      arena := [Node(0.0, seq(MAX_HEIGHT, l => NIL))];
      maxHeight := 1;
      linked := seq(MAX_HEIGHT, l => {});
    }

    /** The first node at or after `key`, and for every level the last node before it. */
    method FindGreaterOrEqual(key: Key) returns (n: int, prev: seq<nat>)
      requires Valid()
      ensures IsFirstAtOrAfter(arena, linked[0], key, n)
      ensures |prev| == MAX_HEIGHT
      ensures forall l :: 0 <= l < maxHeight && key !in Contents() ==> PrevOk(arena, linked, prev, l, key)
    {
      hide ListOk, IsFirstAtOrAfter, PrevOk;
      var x: nat := HEAD;
      var level := maxHeight - 1;
      prev := seq(MAX_HEIGHT, l => HEAD);
      StartSearch(arena, linked, AtOrAfter(key), level);
      while true
        invariant 0 <= level < maxHeight && |prev| == MAX_HEIGHT
        invariant SearchOk(arena, linked, Search(AtOrAfter(key), x, level)) && x < |arena|
        invariant forall l :: level < l < maxHeight && key !in Contents() ==> PrevOk(arena, linked, prev, l, key)
        decreases level, |Behind(arena, linked[level], x)|
      {
        ghost var r := Search(AtOrAfter(key), x, level);
        LoadOk(arena, linked, r);
        StepKeepsSearch(arena, linked, r);
        var next := arena[x].next[level];
        if next != NIL && arena[next].key < key {
          StepShrinks(arena, linked, level, x, next);
          x := next;
        } else {
          var updated: seq<nat> := prev[level := x];
          forall l | level < l < maxHeight && key !in Contents()
            ensures PrevOk(arena, linked, updated, l, key)
          {
            PrevElsewhere(arena, linked, prev, level, x, l, key);
          }
          prev := updated;
          if key !in Contents() {
            StoppedIsPrev(arena, linked, key, prev, level);
          }
          if level == 0 {
            FinishedSearchAnswers(arena, linked, r);
            return next, prev;
          }
          level := level - 1;
        }
      }
    }

    /** The last node before `key`, or the head. */
    method FindLessThan(key: Key) returns (x: nat)
      requires Valid()
      ensures IsLastBefore(arena, linked[0], key, x)
    {
      hide ListOk, IsLastBefore;
      var level := maxHeight - 1;
      x := HEAD;
      StartSearch(arena, linked, Before(key), level);
      while true
        invariant 0 <= level < maxHeight
        invariant SearchOk(arena, linked, Search(Before(key), x, level)) && x < |arena|
        decreases level, |Behind(arena, linked[level], x)|
      {
        ghost var r := Search(Before(key), x, level);
        LoadOk(arena, linked, r);
        StepKeepsSearch(arena, linked, r);
        var next := arena[x].next[level];
        if next == NIL || arena[next].key >= key {
          if level == 0 {
            FinishedSearchAnswers(arena, linked, r);
            return;
          }
          level := level - 1;
        } else {
          StepShrinks(arena, linked, level, x, next);
          x := next;
        }
      }
    }

    /** The last node, or the head of an empty list. */
    method FindLast() returns (x: nat)
      requires Valid()
      ensures IsLastNode(arena, linked[0], x)
    {
      hide ListOk, IsLastNode;
      var level := maxHeight - 1;
      x := HEAD;
      StartSearch(arena, linked, Last, level);
      while true
        invariant 0 <= level < maxHeight
        invariant SearchOk(arena, linked, Search(Last, x, level)) && x < |arena|
        decreases level, |Behind(arena, linked[level], x)|
      {
        ghost var r := Search(Last, x, level);
        LoadOk(arena, linked, r);
        StepKeepsSearch(arena, linked, r);
        var next := arena[x].next[level];
        if next == NIL {
          if level == 0 {
            FinishedSearchAnswers(arena, linked, r);
            return;
          }
          level := level - 1;
        } else {
          StepShrinks(arena, linked, level, x, next);
          x := next;
        }
      }
    }

    /** One more level for every lucky draw. */
    method RandomHeight() returns (height: nat)
      ensures 1 <= height <= MAX_HEIGHT
    {
      height := 1;
      var more: bool := *;
      while height < MAX_HEIGHT && more
        invariant 1 <= height <= MAX_HEIGHT
        decreases MAX_HEIGHT - height
      {
        height := height + 1;
        more := *;
      }
    }

    method Insert(key: Key)
      requires Valid() && key !in Contents()
      modifies this
      ensures Valid() && Contents() == old(Contents()) + {key}
    {
      var n: int, prev: seq<nat> := FindGreaterOrEqual(key);
      var height := RandomHeight();
      ghost var low := maxHeight;
      if height > maxHeight {
        for i := maxHeight to height
          invariant |prev| == MAX_HEIGHT && maxHeight == low
          invariant forall l :: 0 <= l < low ==> PrevOk(arena, linked, prev, l, key)
          invariant forall l :: low <= l < i ==> prev[l] == HEAD
        {
          var updated: seq<nat> := prev[i := HEAD];
          forall l | 0 <= l < low
            ensures PrevOk(arena, linked, updated, l, key)
          {
            PrevElsewhere(arena, linked, prev, i, HEAD, l, key);
          }
          prev := updated;
        }
        maxHeight := height;
      }
      EmptyLevelsFit(arena, linked, prev, low, height, key);
      ghost var keys := Contents();
      var x := |arena|;
      ghost var before := arena;
      arena := arena + [Node(key, seq(height, l => NIL))];
      NewNodeKeepsList(before, arena, linked, prev, height, key);
      LinkNode(x, prev, height, key, keys);
    }

    /** The loop at the end of Insert: link the node bottom up. */
    method LinkNode(x: nat, prev: seq<nat>, height: nat, key: Key, ghost keys: set<Key>)
      requires Valid() && Contents() == keys && key !in keys && height <= maxHeight
      requires InsertionOk(arena, linked, Inserting(x, prev, height, 0, false)) && arena[x].key == key
      modifies this`arena, this`linked
      ensures Valid() && Contents() == keys + {key}
    {
      hide PrevOk, LevelOk, KeysDiffer;
      var level := 0;
      while level < height
        invariant 0 <= level <= height && ListOk(arena, linked)
        invariant InsertionOk(arena, linked, Inserting(x, prev, height, level, false)) && arena[x].key == key
        invariant forall l :: maxHeight <= l < MAX_HEIGHT ==> linked[l] == {}
        invariant KeysOf(arena, linked[0]) == if level == 0 then keys else keys + {key}
      {
        ghost var i := Inserting(x, prev, height, level, false);
        ghost var a, ls := arena, linked;
        CopyKeepsList(arena, linked, i);
        PrevIsLinked(arena, linked, i);
        arena := SetNext(arena, x, level, arena[prev[level]].next[level]);
        assert arena == Copy(a, i);
        i := i.(copied := true);
        PublishKeepsList(arena, linked, i);
        PublishKeepsInsertion(arena, linked, i);
        arena := SetNext(arena, prev[level], level, x);
        linked := Linked(linked, i);
        StoresKeepKeys(a, ls, arena, linked, x, level, key);
        level := level + 1;
      }
    }

    method Contains(key: Key) returns (found: bool)
      requires Valid()
      ensures found == (key in Contents())
    {
      var n, prev := FindGreaterOrEqual(key);
      found := n != NIL && arena[n].key == key;
      LevelNodes(arena, linked);
    }
  }

  lemma StartSearch(a: Arena, linked: seq<set<nat>>, t: Target, level: nat)
    requires ListOk(a, linked) && level < MAX_HEIGHT
    ensures SearchOk(a, linked, Search(t, HEAD, level)) && |linked| == MAX_HEIGHT && a != []
  {
  }

  lemma StepShrinks(a: Arena, linked: seq<set<nat>>, level: nat, x: nat, n: nat)
    requires ListOk(a, linked) && level < MAX_HEIGHT && (x == HEAD || x in linked[level])
    requires x < |a| && level < |a[x].next| && n == a[x].next[level]
    ensures n < |a| && |Behind(a, linked[level], n)| < |Behind(a, linked[level], x)|
  {
    assert LevelOk(a, level, linked[level]) && LinkOk(a, level, linked[level], x);
    FewerBehind(a, level, linked[level], x, n);
  }

  lemma LevelNodes(a: Arena, linked: seq<set<nat>>)
    requires ListOk(a, linked)
    ensures forall y :: y in linked[0] ==> 0 < y < |a|
  {
    assert LevelOk(a, 0, linked[0]);
  }

  /** Changing an entry of `prev` leaves what is known about other levels. */
  lemma PrevElsewhere(a: Arena, linked: seq<set<nat>>, prev: seq<nat>, level: nat, x: nat, l: nat, key: Key)
    requires PrevOk(a, linked, prev, l, key) && level < |prev| && l != level
    ensures PrevOk(a, linked, prev[level := x], l, key)
  {
  }

  /** Where a search for an absent key leaves a level is where the key fits. */
  lemma StoppedIsPrev(a: Arena, linked: seq<set<nat>>, key: Key, prev: seq<nat>, level: nat)
    requires ListOk(a, linked) && level < MAX_HEIGHT == |prev| && key !in KeysOf(a, linked[0])
    requires SearchOk(a, linked, Search(AtOrAfter(key), prev[level], level))
    requires prev[level] < |a| && level < |a[prev[level]].next|
    requires var n := a[prev[level]].next[level]; n == NIL || (0 <= n < |a| && a[n].key >= key)
    ensures PrevOk(a, linked, prev, level, key)
  {
    var p := prev[level];
    assert LevelOk(a, level, linked[level]) && LinkOk(a, level, linked[level], p);
    SubsetsBelow(linked, level);
    forall y | y in linked[level] && After(a, p, y)
      ensures key < a[y].key
    {
      assert a[y].key in KeysOf(a, linked[0]);
    }
  }

  /** Above the list every node goes right behind the head. */
  lemma EmptyLevelsFit(a: Arena, linked: seq<set<nat>>, prev: seq<nat>, low: nat, height: nat, key: Key)
    requires ListOk(a, linked) && |prev| == MAX_HEIGHT && height <= MAX_HEIGHT
    requires forall l :: 0 <= l < low ==> PrevOk(a, linked, prev, l, key)
    requires forall l :: low <= l < MAX_HEIGHT ==> linked[l] == {}
    requires forall l :: low <= l < height ==> prev[l] == HEAD
    ensures forall l :: 0 <= l < height ==> PrevOk(a, linked, prev, l, key)
  {
    forall l | low <= l < height
      ensures PrevOk(a, linked, prev, l, key)
    {
      assert LevelOk(a, l, linked[l]);
    }
  }

  lemma NewNodeKeepsList(a: Arena, a': Arena, linked: seq<set<nat>>, prev: seq<nat>, height: nat, key: Key)
    requires ListOk(a, linked) && |prev| == MAX_HEIGHT && 1 <= height <= MAX_HEIGHT
    requires a' == a + [Node(key, seq(height, l => NIL))] && key !in KeysOf(a, linked[0])
    requires forall l :: 0 <= l < height ==> PrevOk(a, linked, prev, l, key)
    ensures ListOk(a', linked) && InsertionOk(a', linked, Inserting(|a|, prev, height, 0, false))
    ensures KeysOf(a', linked[0]) == KeysOf(a, linked[0])
  {
    forall l | 0 <= l < MAX_HEIGHT
      ensures LevelOk(a', l, linked[l]) && |a| !in linked[l]
    {
      LevelUnchanged(a, a', l, linked[l]);
      assert LevelOk(a, l, linked[l]);
    }
    forall l | 0 <= l < height
      ensures PrevOk(a', linked, prev, l, key)
    {
      assert PrevOk(a, linked, prev, l, key);
    }
    forall y | y in linked[0]
      ensures a'[y].key != key
    {
      assert a[y].key in KeysOf(a, linked[0]);
    }
  }

  lemma StoresKeepKeys(a: Arena, linked: seq<set<nat>>, a': Arena, linked': seq<set<nat>>, x: nat, level: nat, key: Key)
    requires |a'| == |a| && forall y :: 0 <= y < |a| ==> a'[y].key == a[y].key
    requires level < |linked| && linked' == linked[level := linked[level] + {x}]
    requires x < |a| && a[x].key == key && (level > 0 ==> x in linked[0])
    ensures KeysOf(a', linked'[0]) == if level == 0 then KeysOf(a, linked[0]) + {key} else KeysOf(a, linked[0])
  {
    forall k
      ensures k in KeysOf(a', linked'[0]) <==> k in KeysOf(a, linked[0]) || (level == 0 && k == key)
    {
      if y :| y in linked[0] && y < |a| && a[y].key == k {
        assert y in linked'[0] && a'[y].key == k;
      }
      if level == 0 && k == key {
        assert x in linked'[0] && a'[x].key == k;
      }
    }
  }

  /** The iterator stands on a linked node, or is not valid. */
  class Iterator {
    const list: SkipList
    var node: int

    ghost predicate Valid()
      reads this, list
    {
      list.Valid() && (node == NIL || node in list.linked[0])
    }

    constructor (list: SkipList)
      requires list.Valid()
      ensures Valid() && node == NIL && this.list == list
    {
      this.list := list;
      node := NIL;
    }

    method Seek(target: Key)
      requires Valid()
      modifies this`node
      ensures Valid() && IsFirstAtOrAfter(list.arena, list.linked[0], target, node)
    {
      var prev;
      node, prev := list.FindGreaterOrEqual(target);
    }

    /** The first node behind the current one. */
    method Next()
      requires Valid() && node != NIL
      modifies this`node
      ensures Valid() && LevelOk(list.arena, 0, list.linked[0])
      ensures IsNext(list.arena, 0, list.linked[0], old(node), node)
    {
      LevelNodes(list.arena, list.linked);
      assert LevelOk(list.arena, 0, list.linked[0]) && LinkOk(list.arena, 0, list.linked[0], node);
      node := list.arena[node].next[0];
    }

    /** The last node before the current one; not valid if there is none. */
    method Prev()
      requires Valid() && node != NIL
      modifies this`node
      ensures Valid() && old(node) in list.linked[0] && 0 <= old(node) < |list.arena|
      ensures IsLastBefore(list.arena, list.linked[0], list.arena[old(node)].key, if node == NIL then HEAD else node)
    {
      LevelNodes(list.arena, list.linked);
      var x := list.FindLessThan(list.arena[node].key);
      node := if x == HEAD then NIL else x;
    }

    method SeekToFirst()
      requires Valid()
      modifies this`node
      ensures Valid() && LevelOk(list.arena, 0, list.linked[0])
      ensures IsNext(list.arena, 0, list.linked[0], HEAD, node)
    {
      assert LevelOk(list.arena, 0, list.linked[0]) && LinkOk(list.arena, 0, list.linked[0], HEAD);
      node := list.arena[HEAD].next[0];
    }

    method SeekToLast()
      requires Valid()
      modifies this`node
      ensures Valid() && IsLastNode(list.arena, list.linked[0], if node == NIL then HEAD else node)
    {
      LevelNodes(list.arena, list.linked);
      var x := list.FindLast();
      node := if x == HEAD then NIL else x;
    }
  }
}
