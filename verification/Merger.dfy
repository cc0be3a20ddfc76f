/**
 MergingIterator: several sorted children seen as one sorted run, in both directions (table/merger.cc). The children
 hold pairwise distinct internal keys, as memtables and tables of one database do.
 */
module Merger {
  import opened DbFormat
  import opened VersionGet
  import opened Iterators

  ghost predicate Distinct(children: seq<InternalIterator>) {
    forall i, j :: 0 <= i < j < |children| ==> children[i] != children[j]
  }

  /** Any two entries of the children are ordered, unless they are the same entry of the same child. */
  ghost predicate KeysDistinct(children: seq<InternalIterator>) {
    && (forall i :: 0 <= i < |children| ==> Sorted(children[i].entries))
    && forall i, j :: EntriesDistinct(children, i, j)
  }

  ghost predicate EntriesDistinct(children: seq<InternalIterator>, i: int, j: int) {
    0 <= i < |children| && 0 <= j < |children| && i != j ==>
      forall a, b :: a in children[i].entries && b in children[j].entries ==> Before(a, b) || Before(b, a)
  }

  ghost predicate InUnion(children: seq<InternalIterator>, e: Entry) {
    exists i :: 0 <= i < |children| && e in children[i].entries
  }

  // ----- the cursor on the sorted union -----

  /** `n` comes directly after `e` in the sorted union. */
  ghost predicate IsSuccessor(children: seq<InternalIterator>, e: Entry, n: Entry) {
    InUnion(children, n) && Before(e, n) && forall u :: InUnion(children, u) && Before(e, u) ==> !Before(u, n)
  }

  ghost predicate HasNoSuccessor(children: seq<InternalIterator>, e: Entry) {
    forall u :: InUnion(children, u) ==> !Before(e, u)
  }

  ghost predicate IsPredecessor(children: seq<InternalIterator>, e: Entry, n: Entry) {
    InUnion(children, n) && Before(n, e) && forall u :: InUnion(children, u) && Before(u, e) ==> !Before(n, u)
  }

  ghost predicate HasNoPredecessor(children: seq<InternalIterator>, e: Entry) {
    forall u :: InUnion(children, u) ==> !Before(u, e)
  }

  ghost predicate IsFirstAtOrAfter(children: seq<InternalIterator>, target: InternalKey, n: Entry) {
    && InUnion(children, n) && Compare(KeyOf(n), target) >= 0
    && forall u :: InUnion(children, u) && Compare(KeyOf(u), target) >= 0 ==> !Before(u, n)
  }

  ghost predicate NoneAtOrAfter(children: seq<InternalIterator>, target: InternalKey) {
    forall u :: InUnion(children, u) ==> Compare(KeyOf(u), target) < 0
  }

  ghost predicate IsFirst(children: seq<InternalIterator>, n: Entry) {
    InUnion(children, n) && forall u :: InUnion(children, u) ==> !Before(u, n)
  }

  ghost predicate IsLast(children: seq<InternalIterator>, n: Entry) {
    InUnion(children, n) && forall u :: InUnion(children, u) ==> !Before(n, u)
  }

  ghost predicate UnionEmpty(children: seq<InternalIterator>) {
    forall u :: !InUnion(children, u)
  }

  // ----- positions in the sorted union -----

  ghost predicate IsUnion(children: seq<InternalIterator>, u: seq<Entry>) {
    Sorted(u) && forall e :: e in u <==> InUnion(children, e)
  }

  ghost function IndexOf(u: seq<Entry>, e: Entry): (i: nat)
    requires e in u
    ensures i < |u| && u[i] == e
  {
    var i :| 0 <= i < |u| && u[i] == e;
    i
  }

  lemma IndexIs(u: seq<Entry>, i: nat)
    requires Sorted(u) && i < |u|
    ensures IndexOf(u, u[i]) == i
  {
    var j := IndexOf(u, u[i]);
    assert InOrder(u, i, j) && InOrder(u, j, i);
  }

  lemma BeforeByIndex(u: seq<Entry>, i: nat, j: nat)
    requires Sorted(u) && i < |u| && j < |u|
    ensures Before(u[i], u[j]) <==> i < j
  {
    assert InOrder(u, i, j) && InOrder(u, j, i);
  }

  lemma MemberOfUnion(children: seq<InternalIterator>, u: seq<Entry>, i: nat)
    requires IsUnion(children, u) && i < |u|
    ensures InUnion(children, u[i])
  {
    assert u[i] in u;
  }

  lemma SuccessorIsNext(children: seq<InternalIterator>, u: seq<Entry>, e: Entry, n: Entry)
    requires IsUnion(children, u) && e in u && IsSuccessor(children, e, n)
    ensures n in u && IndexOf(u, n) == IndexOf(u, e) + 1
  {
    var i, j := IndexOf(u, e), IndexOf(u, n);
    assert i + 1 < |u| ==> u[i + 1] in u;
    BeforeByIndex(u, i, j);
    if i + 1 < j {
      BeforeByIndex(u, i, i + 1);
      BeforeByIndex(u, i + 1, j);
    }
  }

  lemma NoSuccessorIsLast(children: seq<InternalIterator>, u: seq<Entry>, e: Entry)
    requires IsUnion(children, u) && e in u && HasNoSuccessor(children, e)
    ensures IndexOf(u, e) + 1 == |u|
  {
    var i := IndexOf(u, e);
    if i + 1 < |u| {
      assert u[i + 1] in u;
      BeforeByIndex(u, i, i + 1);
    }
  }

  lemma PredecessorIsPrevious(children: seq<InternalIterator>, u: seq<Entry>, e: Entry, n: Entry)
    requires IsUnion(children, u) && e in u && IsPredecessor(children, e, n)
    ensures n in u && IndexOf(u, n) + 1 == IndexOf(u, e)
  {
    var i, j := IndexOf(u, e), IndexOf(u, n);
    assert j + 1 < |u| ==> u[j + 1] in u;
    BeforeByIndex(u, j, i);
    if j + 1 < i {
      BeforeByIndex(u, j, j + 1);
      BeforeByIndex(u, j + 1, i);
    }
  }

  lemma NoPredecessorIsFirst(children: seq<InternalIterator>, u: seq<Entry>, e: Entry)
    requires IsUnion(children, u) && e in u && HasNoPredecessor(children, e)
    ensures IndexOf(u, e) == 0
  {
    var i := IndexOf(u, e);
    if i > 0 {
      assert u[0] in u;
      BeforeByIndex(u, 0, i);
    }
  }

  lemma FirstIsAtZero(children: seq<InternalIterator>, u: seq<Entry>, n: Entry)
    requires IsUnion(children, u) && IsFirst(children, n)
    ensures n in u && IndexOf(u, n) == 0
  {
    NoPredecessorIsFirst(children, u, n);
  }

  lemma LastIsAtEnd(children: seq<InternalIterator>, u: seq<Entry>, n: Entry)
    requires IsUnion(children, u) && IsLast(children, n)
    ensures n in u && IndexOf(u, n) + 1 == |u|
  {
    NoSuccessorIsLast(children, u, n);
  }

  lemma EmptyUnion(children: seq<InternalIterator>, u: seq<Entry>)
    requires IsUnion(children, u) && UnionEmpty(children)
    ensures u == []
  {
    if u != [] {
      MemberOfUnion(children, u, 0);
    }
  }

  lemma SoughtIsAtIndex(children: seq<InternalIterator>, u: seq<Entry>, target: InternalKey, n: Entry)
    requires IsUnion(children, u) && IsFirstAtOrAfter(children, target, n)
    ensures n in u && IndexOf(u, n) == SeekIndex(u, target)
  {
    var i, j := IndexOf(u, n), SeekIndex(u, target);
    assert j <= i;
    assert u[j] in u;
    BeforeByIndex(u, j, i);
  }

  lemma NoneIsPastEnd(children: seq<InternalIterator>, u: seq<Entry>, target: InternalKey)
    requires IsUnion(children, u) && NoneAtOrAfter(children, target)
    ensures SeekIndex(u, target) == |u|
  {
    var j := SeekIndex(u, target);
    if j < |u| {
      MemberOfUnion(children, u, j);
    }
  }

  // ----- positions of one child -----

  /** Everything before `pos` is before `e`, everything from `pos` on is after `e` or is `e`. */
  ghost predicate AtOrAfter(es: seq<Entry>, pos: int, e: Entry) {
    && (forall i :: 0 <= i < pos && i < |es| ==> Before(es[i], e))
    && (forall i :: pos <= i < |es| && 0 <= i ==> es[i] == e || Before(e, es[i]))
  }

  /** The forward position past `e`: everything before it is at or before `e`, everything from it on is after `e`. */
  ghost predicate After(es: seq<Entry>, pos: int, e: Entry) {
    && (forall i :: 0 <= i < pos && i < |es| ==> es[i] == e || Before(es[i], e))
    && (forall i :: pos <= i < |es| && 0 <= i ==> Before(e, es[i]))
  }

  /** The backward position before `e`: everything up to it is before `e`, everything past it is at or after `e`. */
  ghost predicate UpTo(es: seq<Entry>, pos: nat, e: Entry) {
    AtOrAfter(es, Reached(es, pos) + 1, e)
  }

  lemma SortedAt(es: seq<Entry>, i: int, j: int)
    requires Sorted(es) && 0 <= i < j < |es|
    ensures Before(es[i], es[j])
  {
    assert InOrder(es, i, j);
  }

  lemma OwnPosition(es: seq<Entry>, p: int)
    requires Sorted(es) && 0 <= p < |es|
    ensures AtOrAfter(es, p, es[p]) && After(es, p + 1, es[p])
  {
    forall i | 0 <= i < |es|
      ensures i < p ==> Before(es[i], es[p])
      ensures p < i ==> Before(es[p], es[i])
    {
      assert InOrder(es, i, p) && InOrder(es, p, i);
    }
  }

  /** One step of a child from an entry takes it past the entry. */
  lemma StepsPast(es: seq<Entry>, p: nat)
    requires Sorted(es) && p < |es|
    ensures After(es, p + 1, es[p]) && UpTo(es, if p == 0 then |es| else p - 1, es[p])
  {
    OwnPosition(es, p);
  }

  /** Seeking a child to the key of an entry of another child. */
  lemma SeekOther(es: seq<Entry>, e: Entry)
    requires Sorted(es) && forall a :: a in es ==> Before(a, e) || Before(e, a)
    ensures AtOrAfter(es, SeekIndex(es, KeyOf(e)), e) && After(es, SeekIndex(es, KeyOf(e)), e)
    ensures e !in es
  {
    var p := SeekIndex(es, KeyOf(e));
    forall i | 0 <= i < |es|
      ensures i < p ==> Before(es[i], e)
      ensures p <= i ==> Before(e, es[i])
    {
      assert es[i] in es;
      if p < i {
        SortedAt(es, p, i);
        assert es[p] in es;
      }
    }
  }

  /** Over the same `union`, each operation moves Position() as the operation of an InternalIterator moves its `pos`. */
  class MergingIterator {
    const children: seq<InternalIterator>
    ghost const union: seq<Entry>
    var current: int
    var direction: Direction

    ghost predicate Wired()
      reads this
    {
      Distinct(children) && KeysDistinct(children) && IsUnion(children, union) && -1 <= current < |children|
    }

    /** Where every child stands relative to the current entry, by direction. */
    ghost predicate Placed(e: Entry)
      reads this, children
    {
      forall i :: 0 <= i < |children| ==>
        (if i == current then children[i].Valid() && children[i].entries[children[i].pos] == e
         else if direction.Forward? then After(children[i].entries, children[i].pos, e)
         else UpTo(children[i].entries, children[i].pos, e))
    }

    ghost predicate Valid()
      reads this, children
    {
      Wired() && (current >= 0 ==> children[current].Valid() && Placed(Current()))
    }

    function Current(): Entry
      requires 0 <= current < |children| && children[current].Valid()
      reads this, children
    {
      children[current].entries[children[current].pos]
    }

    predicate IsValid()
      reads this
    {
      current >= 0
    }

    /** Where the iterator stands in the union; its length when the iterator is not valid. */
    ghost function Position(): (p: nat)
      requires Valid()
      reads this, children
      ensures if IsValid() then p < |union| && union[p] == Current() else p == |union|
    {
      if current < 0 then |union|
      else
        CurrentInUnion();
        IndexOf(union, Current())
    }

    lemma CurrentInUnion()
      requires Valid() && IsValid()
      ensures Current() in union
    {
      HeadInUnion(children, current);
    }

    constructor (cs: seq<InternalIterator>, ghost u: seq<Entry>)
      requires Distinct(cs) && KeysDistinct(cs) && IsUnion(cs, u)
      ensures Valid() && !IsValid() && children == cs && union == u
    {
      children, union, current, direction := cs, u, -1, Forward;
    }

    /** The child with the smallest key; the first one on a tie. */
    method FindSmallest()
      requires Wired()
      modifies this`current
      ensures -1 <= current < |children|
      ensures current < 0 ==> forall i :: 0 <= i < |children| ==> !children[i].Valid()
      ensures current >= 0 ==> children[current].Valid()
      ensures current >= 0 ==> forall i :: 0 <= i < |children| && children[i].Valid() && i != current ==>
                Before(Current(), children[i].entries[children[i].pos])
    {
      var smallest := -1;
      for i := 0 to |children|
        invariant -1 <= smallest < i
        invariant smallest < 0 ==> forall j :: 0 <= j < i ==> !children[j].Valid()
        invariant smallest >= 0 ==> children[smallest].Valid()
        invariant smallest >= 0 ==> forall j :: 0 <= j < i && children[j].Valid() && j != smallest ==>
                    Before(children[smallest].entries[children[smallest].pos], children[j].entries[children[j].pos])
      {
        var child := children[i];
        if child.Valid() {
          if smallest < 0 {
            smallest := i;
          } else {
            HeadsDiffer(children, smallest, i);
            var best := children[smallest];
            if Compare(KeyOf(child.entries[child.pos]), KeyOf(best.entries[best.pos])) < 0 {
              smallest := i;
            }
          }
        }
      }
      current := smallest;
    }

    /** The child with the largest key; scanned from the back. */
    method FindLargest()
      requires Wired()
      modifies this`current
      ensures -1 <= current < |children|
      ensures current < 0 ==> forall i :: 0 <= i < |children| ==> !children[i].Valid()
      ensures current >= 0 ==> children[current].Valid()
      ensures current >= 0 ==> forall i :: 0 <= i < |children| && children[i].Valid() && i != current ==>
                Before(children[i].entries[children[i].pos], Current())
    {
      var largest := -1;
      var i := |children|;
      while i > 0
        invariant 0 <= i <= |children| && -1 <= largest < |children| && (largest >= 0 ==> i <= largest)
        invariant largest < 0 ==> forall j :: i <= j < |children| ==> !children[j].Valid()
        invariant largest >= 0 ==> children[largest].Valid()
        invariant largest >= 0 ==> forall j :: i <= j < |children| && children[j].Valid() && j != largest ==>
                    Before(children[j].entries[children[j].pos], children[largest].entries[children[largest].pos])
      {
        i := i - 1;
        var child := children[i];
        if child.Valid() {
          if largest < 0 {
            largest := i;
          } else {
            HeadsDiffer(children, largest, i);
            var best := children[largest];
            if Compare(KeyOf(child.entries[child.pos]), KeyOf(best.entries[best.pos])) > 0 {
              largest := i;
            }
          }
        }
      }
      current := largest;
    }

    method SeekToFirst()
      requires Valid()
      modifies this, children
      ensures Valid()
      ensures IsValid() ==> IsFirst(children, Current())
      ensures !IsValid() ==> UnionEmpty(children)
      ensures Position() == 0
    {
      for i := 0 to |children|
        invariant Wired()
        invariant forall j :: 0 <= j < i ==> children[j].pos == 0
      {
        children[i].SeekToFirst();
      }
      FindSmallest();
      direction := Forward;
      if current >= 0 {
        StartIsFirst(children, current);
        SmallestPlaces(children, current);
        FirstIsAtZero(children, union, Current());
      } else {
        EmptyUnion(children, union);
      }
    }

    method SeekToLast()
      requires Valid()
      modifies this, children
      ensures Valid()
      ensures IsValid() ==> IsLast(children, Current())
      ensures !IsValid() ==> UnionEmpty(children)
      ensures Position() == if union == [] then 0 else |union| - 1
    {
      for i := 0 to |children|
        invariant Wired()
        invariant forall j :: 0 <= j < i ==> AtEnd(children[j])
      {
        children[i].SeekToLast();
      }
      FindLargest();
      direction := Reverse;
      if current >= 0 {
        EndIsLast(children, current);
        LargestPlaces(children, current);
        LastIsAtEnd(children, union, Current());
      } else {
        EmptyUnion(children, union);
      }
    }

    method Seek(target: InternalKey)
      requires Valid()
      modifies this, children
      ensures Valid()
      ensures IsValid() ==> IsFirstAtOrAfter(children, target, Current())
      ensures !IsValid() ==> NoneAtOrAfter(children, target)
      ensures Position() == SeekIndex(union, target)
    {
      for i := 0 to |children|
        invariant Wired()
        invariant forall j :: 0 <= j < i ==> children[j].pos == SeekIndex(children[j].entries, target)
      {
        children[i].Seek(target);
      }
      FindSmallest();
      direction := Forward;
      if current >= 0 {
        SeekBelow(children, target, current);
        SmallestPlaces(children, current);
        SoughtIsAtIndex(children, union, target, Current());
      } else {
        NoneIsPastEnd(children, union, target);
      }
    }

    /** Direction switch of Next: move every other child past the current key. */
    method PositionOthersAfter()
      requires Valid() && IsValid()
      modifies children`pos
      ensures Wired() && children[current].Valid() && Current() == old(Current())
      ensures forall i :: 0 <= i < |children| && i != current ==>
                After(children[i].entries, children[i].pos, Current())
    {
      ghost var e := Current();
      for i := 0 to |children|
        invariant Wired() && children[current].Valid() && Current() == e
        invariant forall j :: 0 <= j < i && j != current ==> After(children[j].entries, children[j].pos, e)
      {
        if i != current {
          var child := children[i];
          var key := KeyOf(children[current].entries[children[current].pos]);
          OtherChild(children, i, current, e);
          SeekOther(child.entries, e);
          child.Seek(key);
          // The source would step over an entry equal to the current key; distinct keys leave none.
          assert !(child.Valid() && Compare(key, KeyOf(child.entries[child.pos])) == 0);
        }
      }
    }

    /** Direction switch of Prev: move every other child to its last entry before the current key. */
    method PositionOthersBefore()
      requires Valid() && IsValid()
      modifies children`pos
      ensures Wired() && children[current].Valid() && Current() == old(Current())
      ensures forall i :: 0 <= i < |children| && i != current ==>
                UpTo(children[i].entries, children[i].pos, Current())
    {
      ghost var e := Current();
      for i := 0 to |children|
        invariant Wired() && children[current].Valid() && Current() == e
        invariant forall j :: 0 <= j < i && j != current ==> UpTo(children[j].entries, children[j].pos, e)
      {
        if i != current {
          var child := children[i];
          OtherChild(children, i, current, e);
          SeekOther(child.entries, e);
          child.Seek(KeyOf(children[current].entries[children[current].pos]));
          if child.Valid() {
            child.Prev();
          } else {
            child.SeekToLast();
          }
        }
      }
    }

    /** Moves to the next entry of the union, whatever the direction so far. */
    method Next()
      requires Valid() && IsValid()
      modifies this, children
      ensures Valid()
      ensures IsValid() ==> IsSuccessor(children, old(Current()), Current())
      ensures !IsValid() ==> HasNoSuccessor(children, old(Current()))
      ensures Position() == old(Position()) + 1
    {
      hide IsUnion, After, UpTo, IsSuccessor, HasNoSuccessor, InUnion, SmallestHead, PassedBelow;
      ghost var e := Current();
      CurrentInUnion();
      if direction != Forward {
        PositionOthersAfter();
        direction := Forward;
      }
      StepsPast(children[current].entries, children[current].pos);
      children[current].Next();
      FindSmallest();
      assert forall i :: 0 <= i < |children| ==> After(children[i].entries, children[i].pos, e);
      if current >= 0 {
        AfterBelow(children, e, current);
        SmallestPlaces(children, current);
        SuccessorIsNext(children, union, e, Current());
      } else {
        NothingAfter(children, e);
        NoSuccessorIsLast(children, union, e);
      }
    }

    method Prev()
      requires Valid() && IsValid()
      modifies this, children
      ensures Valid()
      ensures IsValid() ==> IsPredecessor(children, old(Current()), Current())
      ensures !IsValid() ==> HasNoPredecessor(children, old(Current()))
      ensures Position() == if old(Position()) == 0 then |union| else old(Position()) - 1
    {
      hide IsUnion, After, UpTo, IsPredecessor, HasNoPredecessor, InUnion, LargestHead, PassedAbove;
      ghost var e := Current();
      CurrentInUnion();
      if direction != Reverse {
        PositionOthersBefore();
        direction := Reverse;
      }
      StepsPast(children[current].entries, children[current].pos);
      children[current].Prev();
      FindLargest();
      assert forall i :: 0 <= i < |children| ==> UpTo(children[i].entries, children[i].pos, e);
      if current >= 0 {
        UpToAbove(children, e, current);
        LargestPlaces(children, current);
        PredecessorIsPrevious(children, union, e, Current());
      } else {
        NothingBefore(children, e);
        NoPredecessorIsFirst(children, union, e);
      }
    }
  }

  ghost predicate AtEnd(child: InternalIterator)
    reads child
  {
    Reached(child.entries, child.pos) == |child.entries| - 1
  }

  lemma OtherChild(children: seq<InternalIterator>, i: int, c: int, e: Entry)
    requires KeysDistinct(children) && 0 <= i < |children| && 0 <= c < |children| && i != c
    requires e in children[c].entries
    ensures forall a :: a in children[i].entries ==> Before(a, e) || Before(e, a)
  {
    assert EntriesDistinct(children, i, c);
  }

  lemma HeadsDiffer(children: seq<InternalIterator>, i: int, j: int)
    requires KeysDistinct(children) && 0 <= i < |children| && 0 <= j < |children| && i != j
    requires children[i].Valid() && children[j].Valid()
    ensures var a, b := children[i].entries[children[i].pos], children[j].entries[children[j].pos];
            Before(a, b) || Before(b, a)
  {
    assert EntriesDistinct(children, i, j);
    assert children[i].entries[children[i].pos] in children[i].entries;
    assert children[j].entries[children[j].pos] in children[j].entries;
  }

  /** What FindSmallest leaves behind. */
  ghost predicate SmallestHead(children: seq<InternalIterator>, c: int)
    reads children
  {
    && 0 <= c < |children| && children[c].Valid()
    && forall i :: 0 <= i < |children| && children[i].Valid() && i != c ==>
         Before(children[c].entries[children[c].pos], children[i].entries[children[i].pos])
  }

  ghost predicate LargestHead(children: seq<InternalIterator>, c: int)
    reads children
  {
    && 0 <= c < |children| && children[c].Valid()
    && forall i :: 0 <= i < |children| && children[i].Valid() && i != c ==>
         Before(children[i].entries[children[i].pos], children[c].entries[children[c].pos])
  }

  /** Everything a child has already passed is before `n`. */
  ghost predicate PassedBelow(children: seq<InternalIterator>, n: Entry)
    reads children
  {
    forall i, k :: 0 <= i < |children| && 0 <= k < children[i].pos && k < |children[i].entries| ==>
      Before(children[i].entries[k], n)
  }

  /** Everything a child has already passed going back is after `n`. */
  ghost predicate PassedAbove(children: seq<InternalIterator>, n: Entry)
    reads children
  {
    forall i, k :: 0 <= i < |children| && Reached(children[i].entries, children[i].pos) < k < |children[i].entries| ==>
      Before(n, children[i].entries[k])
  }

  lemma SmallestPlaces(children: seq<InternalIterator>, c: int)
    requires KeysDistinct(children) && SmallestHead(children, c)
    requires PassedBelow(children, children[c].entries[children[c].pos])
    ensures forall i :: 0 <= i < |children| && i != c ==>
              After(children[i].entries, children[i].pos, children[c].entries[children[c].pos])
  {
    var n := children[c].entries[children[c].pos];
    forall i | 0 <= i < |children| && i != c
      ensures After(children[i].entries, children[i].pos, n)
    {
      var es, pos := children[i].entries, children[i].pos;
      forall k | pos < k < |es|
        ensures Before(n, es[k])
      {
        SortedAt(es, pos, k);
      }
    }
  }

  lemma LargestPlaces(children: seq<InternalIterator>, c: int)
    requires KeysDistinct(children) && LargestHead(children, c)
    requires PassedAbove(children, children[c].entries[children[c].pos])
    ensures forall i :: 0 <= i < |children| && i != c ==>
              UpTo(children[i].entries, children[i].pos, children[c].entries[children[c].pos])
  {
    var n := children[c].entries[children[c].pos];
    forall i | 0 <= i < |children| && i != c
      ensures UpTo(children[i].entries, children[i].pos, n)
    {
      var es, q := children[i].entries, Reached(children[i].entries, children[i].pos);
      forall k | 0 <= k < q
        ensures Before(es[k], n)
      {
        SortedAt(es, k, q);
      }
    }
  }

  lemma InUnionAt(children: seq<InternalIterator>, u: Entry) returns (i: int, k: int)
    requires InUnion(children, u)
    ensures 0 <= i < |children| && 0 <= k < |children[i].entries| && children[i].entries[k] == u
  {
    i :| 0 <= i < |children| && u in children[i].entries;
    k :| 0 <= k < |children[i].entries| && children[i].entries[k] == u;
  }

  /** What a child has not passed yet is not before the smallest head. */
  lemma RestNotBelow(children: seq<InternalIterator>, c: int, i: int, k: int)
    requires KeysDistinct(children) && SmallestHead(children, c)
    requires 0 <= i < |children| && children[i].pos <= k < |children[i].entries|
    ensures !Before(children[i].entries[k], children[c].entries[children[c].pos])
  {
    var es, pos := children[i].entries, children[i].pos;
    if pos < k {
      SortedAt(es, pos, k);
    }
  }

  lemma RestNotAbove(children: seq<InternalIterator>, c: int, i: int, k: int)
    requires KeysDistinct(children) && LargestHead(children, c)
    requires 0 <= i < |children| && 0 <= k <= Reached(children[i].entries, children[i].pos)
    ensures !Before(children[c].entries[children[c].pos], children[i].entries[k])
  {
    var es, pos := children[i].entries, children[i].pos;
    if k < pos {
      SortedAt(es, k, pos);
    }
  }

  lemma HeadInUnion(children: seq<InternalIterator>, c: int)
    requires 0 <= c < |children| && children[c].Valid()
    ensures InUnion(children, children[c].entries[children[c].pos])
  {
    assert children[c].entries[children[c].pos] in children[c].entries;
  }

  lemma SplitByTarget(a: Entry, n: Entry, target: InternalKey)
    requires Before(a, n) || Before(n, a)
    requires Compare(KeyOf(a), target) < 0 <= Compare(KeyOf(n), target)
    ensures Before(a, n)
  {
  }

  /** After a seek, what each child passed is before the target and so before the smallest head. */
  lemma SeekBelow(children: seq<InternalIterator>, target: InternalKey, c: int)
    requires KeysDistinct(children) && SmallestHead(children, c)
    requires forall i :: 0 <= i < |children| ==> children[i].pos == SeekIndex(children[i].entries, target)
    ensures PassedBelow(children, children[c].entries[children[c].pos])
    ensures IsFirstAtOrAfter(children, target, children[c].entries[children[c].pos])
  {
    var n := children[c].entries[children[c].pos];
    HeadInUnion(children, c);
    forall i, k | 0 <= i < |children| && 0 <= k < children[i].pos && k < |children[i].entries|
      ensures Before(children[i].entries[k], n)
    {
      if i == c {
        SortedAt(children[c].entries, k, children[c].pos);
      } else {
        assert EntriesDistinct(children, i, c);
        assert children[i].entries[k] in children[i].entries && n in children[c].entries;
        SplitByTarget(children[i].entries[k], n, target);
      }
    }
    forall u | InUnion(children, u) && Compare(KeyOf(u), target) >= 0
      ensures !Before(u, n)
    {
      var i, k := InUnionAt(children, u);
      RestNotBelow(children, c, i, k);
    }
  }

  lemma AfterBelow(children: seq<InternalIterator>, e: Entry, c: int)
    requires KeysDistinct(children) && SmallestHead(children, c)
    requires forall i :: 0 <= i < |children| ==> After(children[i].entries, children[i].pos, e)
    ensures PassedBelow(children, children[c].entries[children[c].pos])
    ensures IsSuccessor(children, e, children[c].entries[children[c].pos])
  {
    var n := children[c].entries[children[c].pos];
    HeadInUnion(children, c);
    assert Before(e, n);
    forall u | InUnion(children, u) && Before(e, u)
      ensures !Before(u, n)
    {
      var i, k := InUnionAt(children, u);
      if children[i].pos <= k {
        RestNotBelow(children, c, i, k);
      }
    }
  }

  lemma NothingAfter(children: seq<InternalIterator>, e: Entry)
    requires forall i :: 0 <= i < |children| ==> !children[i].Valid()
    requires forall i :: 0 <= i < |children| ==> After(children[i].entries, children[i].pos, e)
    ensures HasNoSuccessor(children, e)
  {
    forall u | InUnion(children, u)
      ensures !Before(e, u)
    {
      var i, k := InUnionAt(children, u);
    }
  }

  lemma NothingBefore(children: seq<InternalIterator>, e: Entry)
    requires forall i :: 0 <= i < |children| ==> !children[i].Valid()
    requires forall i :: 0 <= i < |children| ==> UpTo(children[i].entries, children[i].pos, e)
    ensures HasNoPredecessor(children, e)
  {
    forall u | InUnion(children, u)
      ensures !Before(u, e)
    {
      var i, k := InUnionAt(children, u);
    }
  }

  lemma UpToAbove(children: seq<InternalIterator>, e: Entry, c: int)
    requires KeysDistinct(children) && LargestHead(children, c)
    requires forall i :: 0 <= i < |children| ==> UpTo(children[i].entries, children[i].pos, e)
    ensures PassedAbove(children, children[c].entries[children[c].pos])
    ensures IsPredecessor(children, e, children[c].entries[children[c].pos])
  {
    var n := children[c].entries[children[c].pos];
    HeadInUnion(children, c);
    assert Before(n, e);
    forall u | InUnion(children, u) && Before(u, e)
      ensures !Before(n, u)
    {
      var i, k := InUnionAt(children, u);
      if k <= Reached(children[i].entries, children[i].pos) {
        RestNotAbove(children, c, i, k);
      }
    }
  }

  /** All children at their first entries: the smallest head is the first of the union. */
  lemma StartIsFirst(children: seq<InternalIterator>, c: int)
    requires KeysDistinct(children) && SmallestHead(children, c)
    requires forall i :: 0 <= i < |children| ==> children[i].pos == 0
    ensures PassedBelow(children, children[c].entries[children[c].pos])
    ensures IsFirst(children, children[c].entries[children[c].pos])
  {
    HeadInUnion(children, c);
    forall u | InUnion(children, u)
      ensures !Before(u, children[c].entries[children[c].pos])
    {
      var i, k := InUnionAt(children, u);
      RestNotBelow(children, c, i, k);
    }
  }

  lemma EndIsLast(children: seq<InternalIterator>, c: int)
    requires KeysDistinct(children) && LargestHead(children, c)
    requires forall i :: 0 <= i < |children| ==> AtEnd(children[i])
    ensures PassedAbove(children, children[c].entries[children[c].pos])
    ensures IsLast(children, children[c].entries[children[c].pos])
  {
    HeadInUnion(children, c);
    forall u | InUnion(children, u)
      ensures !Before(children[c].entries[children[c].pos], u)
    {
      var i, k := InUnionAt(children, u);
      RestNotAbove(children, c, i, k);
    }
  }
}
