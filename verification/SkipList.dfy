/**
 The skip list of the memtable (db/skiplist.h): the list invariant after every single pointer store of an insertion,
 and searches that run at the same time without locks.
 */
module SkipLists {
  /**
   The list touches keys only through its comparator. A run compares finitely many keys, and every finite total order
   embeds in the real numbers.
   */
  type Key = real

  const MAX_HEIGHT: nat := 12

  /** The arena: nodes are named by their index, node 0 is the head, and NIL is the null pointer. */
  const HEAD: nat := 0
  const NIL: int := -1

  datatype Node = Node(key: Key, next: seq<int>)

  type Arena = seq<Node>

  /** `y` comes after `x` in the order of keys; everything comes after the head. */
  predicate After(a: Arena, x: nat, y: nat)
    requires x < |a| && y < |a|
  {
    x == HEAD || a[x].key < a[y].key
  }

  /** A set of node names that may be linked at a level: in the arena, high enough, and not the head. */
  ghost predicate NodesOk(a: Arena, level: nat, linked: set<nat>) {
    a != [] && level < |a[HEAD].next| && forall y :: y in linked ==> 0 < y < |a| && level < |a[y].next|
  }

  /** The link of `x` at `level` leads to the first linked node after it. */
  ghost predicate LinkOk(a: Arena, level: nat, linked: set<nat>, x: nat)
    requires NodesOk(a, level, linked) && (x == HEAD || x in linked)
  {
    IsNext(a, level, linked, x, a[x].next[level])
  }

  ghost predicate IsNext(a: Arena, level: nat, linked: set<nat>, x: nat, n: int)
    requires NodesOk(a, level, linked) && (x == HEAD || x in linked)
  {
    if n == NIL then forall y :: y in linked ==> !After(a, x, y)
    else
      && n >= 0 && n in linked && After(a, x, n)
      && forall y :: y in linked && After(a, x, y) ==> y == n || a[n].key < a[y].key
  }

  /** A level is a strictly sorted chain of exactly the linked nodes. */
  ghost predicate LevelOk(a: Arena, level: nat, linked: set<nat>) {
    && NodesOk(a, level, linked)
    && forall x :: x == HEAD || x in linked ==> LinkOk(a, level, linked, x)
  }

  ghost predicate KeysDiffer(a: Arena, linked: set<nat>) {
    forall y, z :: y in linked && z in linked && y < |a| && z < |a| && a[y].key == a[z].key ==> y == z
  }

  /** Every level is a sorted chain, and the nodes of a level are nodes of the level below. */
  ghost predicate ListOk(a: Arena, linked: seq<set<nat>>) {
    && |linked| == MAX_HEIGHT && a != [] && |a[HEAD].next| == MAX_HEIGHT
    && (forall l :: 0 <= l < MAX_HEIGHT ==> LevelOk(a, l, linked[l]))
    && (forall l :: 0 <= l < MAX_HEIGHT - 1 ==> linked[l + 1] <= linked[l])
    && KeysDiffer(a, linked[0])
  }

  // ----- pointer stores -----

  /** One pointer store. */
  function SetNext(a: Arena, x: nat, level: nat, n: int): Arena
    requires x < |a| && level < |a[x].next|
  {
    a[x := a[x].(next := a[x].next[level := n])]
  }

  /** A level does not notice changes to nodes that it does not link, nor to links of other levels. */
  lemma LevelUnchanged(a: Arena, a': Arena, level: nat, linked: set<nat>)
    requires LevelOk(a, level, linked) && |a| <= |a'|
    requires forall x :: x == HEAD || x in linked ==>
               a'[x].key == a[x].key && level < |a'[x].next| && a'[x].next[level] == a[x].next[level]
    ensures LevelOk(a', level, linked)
  {
    forall x | x == HEAD || x in linked
      ensures LinkOk(a', level, linked, x)
    {
      assert LinkOk(a, level, linked, x);
    }
  }

  /** Where a new key belongs at a level: after `p` and before the node that follows `p`. */
  ghost predicate Fits(a: Arena, level: nat, linked: set<nat>, p: nat, key: Key)
    requires NodesOk(a, level, linked) && (p == HEAD || p in linked)
  {
    && (p == HEAD || a[p].key < key)
    && forall y :: y in linked && After(a, p, y) ==> key < a[y].key
  }

  /** The other nodes keep their links: whoever comes before the new node comes before `p` or is `p`. */
  lemma OthersKeepLink(a: Arena, level: nat, linked: set<nat>, p: nat, x: nat, y: nat)
    requires NodesOk(a, level, linked) && (p == HEAD || p in linked) && (y == HEAD || y in linked) && y != p
    requires 0 < x < |a| && KeysDiffer(a, linked) && Fits(a, level, linked, p, a[x].key)
    requires LinkOk(a, level, linked, y) && After(a, y, x)
    ensures a[y].next[level] != NIL && a[a[y].next[level]].key < a[x].key
  {
    if y != HEAD {
      assert !After(a, p, y);
    }
  }

  lemma OtherLinkStays(a: Arena, a': Arena, level: nat, linked: set<nat>, p: nat, x: nat, y: nat)
    requires LevelOk(a, level, linked) && KeysDiffer(a, linked) && (p == HEAD || p in linked)
    requires 0 < x < |a| && x !in linked && level < |a[x].next| && Fits(a, level, linked, p, a[x].key)
    requires a' == SetNext(a, p, level, x) && (y == HEAD || y in linked) && y != p
    ensures LinkOk(a', level, linked + {x}, y)
  {
    assert LinkOk(a, level, linked, y);
    if After(a, y, x) {
      OthersKeepLink(a, level, linked, p, x, y);
    }
  }

  /** Storing the new node behind `p`, after its own link has been copied from `p`, extends the chain by the node. */
  lemma PublishKeepsLevel(a: Arena, a': Arena, level: nat, linked: set<nat>, p: nat, x: nat)
    requires LevelOk(a, level, linked) && KeysDiffer(a, linked) && (p == HEAD || p in linked)
    requires 0 < x < |a| && x !in linked && level < |a[x].next|
    requires Fits(a, level, linked, p, a[x].key)
    requires a[x].next[level] == a[p].next[level] && a' == SetNext(a, p, level, x)
    ensures LevelOk(a', level, linked + {x})
  {
    assert LinkOk(a, level, linked, p);
    forall y | y == HEAD || y in linked + {x}
      ensures LinkOk(a', level, linked + {x}, y)
    {
      if y != p && y != x {
        OtherLinkStays(a, a', level, linked, p, x, y);
      }
    }
  }

  // ----- an insertion, store by store -----

  /**
   The new node `x` is linked at the levels below `level`; at the others, up to `height`, it still has to go behind
   `prev`. `copied` says that its own link at `level` has been set.
   */
  datatype Insertion = Idle | Inserting(x: nat, prev: seq<nat>, height: nat, level: nat, copied: bool)

  /** What the writer's search leaves in `prev`: the last linked node before the key at this level. */
  ghost predicate PrevOk(a: Arena, linked: seq<set<nat>>, prev: seq<nat>, level: nat, key: Key) {
    && level < |prev| && level < |linked| && NodesOk(a, level, linked[level])
    && (prev[level] == HEAD || prev[level] in linked[level])
    && Fits(a, level, linked[level], prev[level], key)
  }

  ghost predicate InsertionOk(a: Arena, linked: seq<set<nat>>, i: Insertion)
    requires ListOk(a, linked)
  {
    i.Inserting? ==>
      && 0 < i.x < |a| && i.level <= i.height && 1 <= i.height <= MAX_HEIGHT && |a[i.x].next| == i.height &&
          |i.prev| == MAX_HEIGHT
      && (forall l :: 0 <= l < i.level ==> i.x in linked[l])
      && (forall l :: i.level <= l < MAX_HEIGHT ==> i.x !in linked[l])
      && (forall l :: i.level <= l < i.height ==> PrevOk(a, linked, i.prev, l, a[i.x].key))
      && (forall y :: y in linked[0] && y != i.x ==> a[y].key != a[i.x].key)
      && (i.copied ==>
            && i.level < i.height && i.prev[i.level] < |a| && i.level < |a[i.prev[i.level]].next|
            && a[i.x].next[i.level] == a[i.prev[i.level]].next[i.level])
  }

  /** The node is allocated and the places where it goes are known; readers cannot see it yet. */
  ghost predicate Begins(a: Arena, a': Arena, linked: seq<set<nat>>, i: Insertion, key: Key) {
    && i.Inserting? && i.level == 0 && !i.copied && 1 <= i.height <= MAX_HEIGHT && |i.prev| == MAX_HEIGHT
    && i.x == |a| && a' == a + [Node(key, seq(i.height, l => NIL))]
    && (forall l :: 0 <= l < MAX_HEIGHT ==> PrevOk(a, linked, i.prev, l, key))
    && |linked| > 0 && (forall y :: y in linked[0] && y < |a| ==> a[y].key != key)
  }

  lemma BeginKeepsList(a: Arena, a': Arena, linked: seq<set<nat>>, i: Insertion, key: Key)
    requires ListOk(a, linked) && Begins(a, a', linked, i, key)
    ensures ListOk(a', linked) && InsertionOk(a', linked, i)
  {
    forall l | 0 <= l < MAX_HEIGHT
      ensures LevelOk(a', l, linked[l]) && PrevOk(a', linked, i.prev, l, key)
    {
      LevelUnchanged(a, a', l, linked[l]);
      assert PrevOk(a, linked, i.prev, l, key);
    }
  }

  /** `x->NoBarrier_SetNext(i, prev[i]->NoBarrier_Next(i))`. */
  function Copy(a: Arena, i: Insertion): Arena
    requires i.Inserting? && i.x < |a| && i.level < |a[i.x].next| && i.level < |i.prev|
    requires i.prev[i.level] < |a| && i.level < |a[i.prev[i.level]].next|
  {
    SetNext(a, i.x, i.level, a[i.prev[i.level]].next[i.level])
  }

  lemma PrevIsLinked(a: Arena, linked: seq<set<nat>>, i: Insertion)
    requires ListOk(a, linked) && i.Inserting? && InsertionOk(a, linked, i) && i.level < i.height
    ensures i.prev[i.level] < |a| && i.level < |a[i.prev[i.level]].next| && i.prev[i.level] != i.x
  {
    assert PrevOk(a, linked, i.prev, i.level, a[i.x].key);
    assert LevelOk(a, i.level, linked[i.level]);
  }

  lemma CopyKeepsList(a: Arena, linked: seq<set<nat>>, i: Insertion)
    requires ListOk(a, linked) && i.Inserting? && InsertionOk(a, linked, i) && i.level < i.height && !i.copied
    ensures i.prev[i.level] < |a| && i.level < |a[i.prev[i.level]].next|
    ensures ListOk(Copy(a, i), linked) && InsertionOk(Copy(a, i), linked, i.(copied := true))
  {
    PrevIsLinked(a, linked, i);
    var a' := Copy(a, i);
    forall l | 0 <= l < MAX_HEIGHT
      ensures LevelOk(a', l, linked[l])
    {
      assert l < i.level ==> l != i.level;
      LevelUnchanged(a, a', l, linked[l]);
    }
    forall l | i.level <= l < i.height
      ensures PrevOk(a', linked, i.prev, l, a'[i.x].key)
    {
      assert PrevOk(a, linked, i.prev, l, a[i.x].key);
    }
  }

  /** `prev[i]->SetNext(i, x)`: the node becomes visible at its next level. */
  function Publish(a: Arena, i: Insertion): Arena
    requires i.Inserting? && i.level < |i.prev| && i.prev[i.level] < |a| && i.level < |a[i.prev[i.level]].next|
  {
    SetNext(a, i.prev[i.level], i.level, i.x)
  }

  function Linked(linked: seq<set<nat>>, i: Insertion): seq<set<nat>>
    requires i.Inserting? && i.level < |linked|
  {
    linked[i.level := linked[i.level] + {i.x}]
  }

  lemma SubsetsBelow(linked: seq<set<nat>>, l: nat)
    requires |linked| == MAX_HEIGHT && l < MAX_HEIGHT
    requires forall m :: 0 <= m < MAX_HEIGHT - 1 ==> linked[m + 1] <= linked[m]
    ensures linked[l] <= linked[0]
  {
    if l > 0 {
      SubsetsBelow(linked, l - 1);
      assert linked[l - 1 + 1] <= linked[l - 1];
    }
  }

  lemma PublishKeepsList(a: Arena, linked: seq<set<nat>>, i: Insertion)
    requires ListOk(a, linked) && i.Inserting? && InsertionOk(a, linked, i) && i.copied
    ensures i.prev[i.level] < |a| && i.level < |a[i.prev[i.level]].next|
    ensures ListOk(Publish(a, i), Linked(linked, i))
  {
    hide LinkOk;
    PrevIsLinked(a, linked, i);
    var a', linked', p := Publish(a, i), Linked(linked, i), i.prev[i.level];
    assert PrevOk(a, linked, i.prev, i.level, a[i.x].key);
    forall l | 0 <= l < MAX_HEIGHT
      ensures LevelOk(a', l, linked'[l])
    {
      if l == i.level {
        SubsetsBelow(linked, l);
        PublishKeepsLevel(a, a', l, linked[l], p, i.x);
      } else {
        LevelUnchanged(a, a', l, linked[l]);
      }
    }
    forall l | 0 <= l < MAX_HEIGHT - 1
      ensures linked'[l + 1] <= linked'[l]
    {
      assert linked[l + 1] <= linked[l];
      assert l + 1 == i.level ==> i.x in linked[l];
    }
  }

  lemma PublishKeepsInsertion(a: Arena, linked: seq<set<nat>>, i: Insertion)
    requires ListOk(a, linked) && i.Inserting? && InsertionOk(a, linked, i) && i.copied
    requires i.prev[i.level] < |a| && i.level < |a[i.prev[i.level]].next|
    requires ListOk(Publish(a, i), Linked(linked, i))
    ensures InsertionOk(Publish(a, i), Linked(linked, i), i.(level := i.level + 1, copied := false))
  {
    var a', linked' := Publish(a, i), Linked(linked, i);
    forall l | i.level + 1 <= l < i.height
      ensures PrevOk(a', linked', i.prev, l, a'[i.x].key)
    {
      assert PrevOk(a, linked, i.prev, l, a[i.x].key);
    }
  }

  // ----- searches -----

  /** What a search looks for: FindGreaterOrEqual, FindLessThan and FindLast. */
  datatype Target = AtOrAfter(key: Key) | Before(key: Key) | Last

  predicate Passes(t: Target, key: Key) {
    t.Last? || key < t.key
  }

  datatype Search = Search(target: Target, x: nat, level: nat)

  ghost predicate SearchOk(a: Arena, linked: seq<set<nat>>, r: Search)
    requires ListOk(a, linked)
  {
    && r.level < MAX_HEIGHT
    && (r.x == HEAD || (r.x in linked[r.level] && r.x < |a| && Passes(r.target, a[r.x].key)))
  }

  /** The load of one search step. */
  function Load(a: Arena, r: Search): int
    requires r.x < |a| && r.level < |a[r.x].next|
  {
    a[r.x].next[r.level]
  }

  predicate GoesOn(a: Arena, r: Search, n: int) {
    0 <= n < |a| && Passes(r.target, a[n].key)
  }

  lemma LoadOk(a: Arena, linked: seq<set<nat>>, r: Search)
    requires ListOk(a, linked) && SearchOk(a, linked, r)
    ensures r.x < |a| && r.level < |a[r.x].next| && IsNext(a, r.level, linked[r.level], r.x, Load(a, r))
    ensures Load(a, r) == NIL || (0 <= Load(a, r) < |a| && Load(a, r) in linked[r.level])
  {
    assert LevelOk(a, r.level, linked[r.level]);
    assert LinkOk(a, r.level, linked[r.level], r.x);
  }

  /** A step along the level or down keeps the search on a linked node that passes. */
  lemma StepKeepsSearch(a: Arena, linked: seq<set<nat>>, r: Search)
    requires ListOk(a, linked) && SearchOk(a, linked, r)
    ensures r.x < |a| && r.level < |a[r.x].next|
    ensures GoesOn(a, r, Load(a, r)) ==> SearchOk(a, linked, r.(x := Load(a, r)))
    ensures r.level > 0 ==> SearchOk(a, linked, r.(level := r.level - 1))
  {
    LoadOk(a, linked, r);
    if r.level > 0 {
      assert linked[r.level - 1 + 1] <= linked[r.level - 1];
    }
  }

  /** The first linked node at or after `key`, or NIL. */
  ghost predicate IsFirstAtOrAfter(a: Arena, linked: set<nat>, key: Key, n: int) {
    (forall y :: y in linked ==> y < |a|) &&
    if n == NIL then forall y :: y in linked ==> a[y].key < key
    else n >= 0 && n in linked && a[n].key >= key && forall y :: y in linked && a[y].key >= key ==> a[n].key <= a[y].key
  }

  /** The last linked node before `key`, or the head. */
  ghost predicate IsLastBefore(a: Arena, linked: set<nat>, key: Key, x: nat) {
    (forall y :: y in linked ==> y < |a|) &&
    if x == HEAD then forall y :: y in linked ==> a[y].key >= key
    else x in linked && a[x].key < key && forall y :: y in linked && a[y].key < key ==> a[y].key <= a[x].key
  }

  ghost predicate IsLastNode(a: Arena, linked: set<nat>, x: nat) {
    (forall y :: y in linked ==> y < |a|) &&
    if x == HEAD then linked == {}
    else x in linked && forall y :: y in linked ==> a[y].key <= a[x].key
  }

  /** What the search returns is right for the list as it is at its last load of a bottom link. */
  ghost predicate Answers(a: Arena, linked: set<nat>, r: Search, n: int) {
    match r.target
    case AtOrAfter(key) => IsFirstAtOrAfter(a, linked, key, n)
    case Before(key) => IsLastBefore(a, linked, key, r.x)
    case Last => IsLastNode(a, linked, r.x)
  }

  lemma FinishedSearchAnswers(a: Arena, linked: seq<set<nat>>, r: Search)
    requires ListOk(a, linked) && SearchOk(a, linked, r) && r.level == 0
    ensures r.x < |a| && r.level < |a[r.x].next|
    ensures !GoesOn(a, r, Load(a, r)) ==> Answers(a, linked[0], r, Load(a, r))
  {
    LoadOk(a, linked, r);
    var n := Load(a, r);
    if !GoesOn(a, r, n) {
      forall y | y in linked[0] && After(a, r.x, y)
        ensures n != NIL && !Passes(r.target, a[y].key)
      {
        assert y == n || a[n].key < a[y].key;
      }
      if r.x == HEAD && n != NIL {
        assert After(a, r.x, n);
      }
    }
  }

  // ----- the list, one writer and any number of readers -----

  datatype Lists = Lists(arena: Arena, maxHeight: nat, linked: seq<set<nat>>, insertion: Insertion,
                         searches: seq<Search>)

  ghost predicate HeightsOk(s: Lists) {
    && 1 <= s.maxHeight <= MAX_HEIGHT && |s.linked| == MAX_HEIGHT
    && (forall l :: s.maxHeight <= l < MAX_HEIGHT ==> s.linked[l] == {})
    && (s.insertion.Inserting? ==> s.insertion.height <= s.maxHeight)
  }

  ghost predicate Ok(s: Lists) {
    && ListOk(s.arena, s.linked) && InsertionOk(s.arena, s.linked, s.insertion) && HeightsOk(s)
    && forall j :: 0 <= j < |s.searches| ==> SearchOk(s.arena, s.linked, s.searches[j])
  }

  /** The writer has searched, drawn a height, stored the new list height and allocated the node. */
  ghost predicate BeginStep(s: Lists, s': Lists, key: Key) {
    && s.insertion.Idle? && s'.insertion.Inserting? && Begins(s.arena, s'.arena, s.linked, s'.insertion, key)
    && var height := s'.insertion.height;
      s' == s.(arena := s'.arena, insertion := s'.insertion,
               maxHeight := if height > s.maxHeight then height else s.maxHeight)
  }

  /** The insertion has a next level, and the nodes it is about to touch exist. */
  predicate AtLevel(a: Arena, i: Insertion) {
    && i.Inserting? && i.level < i.height && i.level < |i.prev| && i.prev[i.level] < |a|
    && i.level < |a[i.prev[i.level]].next| && i.x < |a| && i.level < |a[i.x].next|
  }

  predicate CopyStep(s: Lists, s': Lists) {
    && AtLevel(s.arena, s.insertion) && !s.insertion.copied
    && s' == s.(arena := Copy(s.arena, s.insertion), insertion := s.insertion.(copied := true))
  }

  predicate PublishStep(s: Lists, s': Lists) {
    && AtLevel(s.arena, s.insertion) && s.insertion.copied && s.insertion.level < |s.linked|
    && var i := s.insertion;
      s' == s.(arena := Publish(s.arena, i), linked := Linked(s.linked, i),
               insertion := i.(level := i.level + 1, copied := false))
  }

  predicate EndStep(s: Lists, s': Lists) {
    && s.insertion.Inserting? && s.insertion.level == s.insertion.height
    && s' == s.(insertion := Idle)
  }

  /** A reader starts at the head, at the list height it has seen; the height may be out of date. */
  predicate StartStep(s: Lists, s': Lists, t: Target, level: nat) {
    level < s.maxHeight && s' == s.(searches := s.searches + [Search(t, HEAD, level)])
  }

  /** One load of a reader: along the level, or down. */
  ghost predicate SearchStep(s: Lists, s': Lists, j: nat) {
    && j < |s.searches|
    && var r := s.searches[j];
      && r.x < |s.arena| && r.level < |s.arena[r.x].next|
      && var n := Load(s.arena, r);
        if GoesOn(s.arena, r, n) then s' == s.(searches := s.searches[j := r.(x := n)])
        else r.level > 0 && s' == s.(searches := s.searches[j := r.(level := r.level - 1)])
  }

  /** The last load of a reader: the search ends with the loaded node `n`. */
  ghost predicate FinishStep(s: Lists, s': Lists, j: nat, n: int) {
    && j < |s.searches|
    && var r := s.searches[j];
      && r.level == 0 && r.x < |s.arena| && r.level < |s.arena[r.x].next|
      && n == Load(s.arena, r) && !GoesOn(s.arena, r, n)
      && s' == s.(searches := s.searches[..j] + s.searches[j + 1..])
  }

  ghost predicate Next(s: Lists, s': Lists) {
    || (exists key :: BeginStep(s, s', key)) || CopyStep(s, s') || PublishStep(s, s') || EndStep(s, s')
    || (exists t, level :: StartStep(s, s', t, level))
    || (exists j :: SearchStep(s, s', j))
    || (exists j, n :: FinishStep(s, s', j, n))
  }

  /** Searches do not notice stores: nodes keep their keys and stay linked. */
  lemma SearchesStay(s: Lists, s': Lists)
    requires Ok(s) && ListOk(s'.arena, s'.linked) && s'.searches == s.searches && |s.arena| <= |s'.arena|
    requires forall x :: 0 <= x < |s.arena| ==> s'.arena[x].key == s.arena[x].key
    requires forall l :: 0 <= l < MAX_HEIGHT ==> s.linked[l] <= s'.linked[l]
    ensures forall j :: 0 <= j < |s'.searches| ==> SearchOk(s'.arena, s'.linked, s'.searches[j])
  {
    forall j | 0 <= j < |s'.searches|
      ensures SearchOk(s'.arena, s'.linked, s'.searches[j])
    {
      assert SearchOk(s.arena, s.linked, s.searches[j]);
      assert LevelOk(s.arena, s.searches[j].level, s.linked[s.searches[j].level]);
    }
  }

  lemma StoresKeepOk(s: Lists, s': Lists, key: Key)
    requires Ok(s) && (BeginStep(s, s', key) || CopyStep(s, s') || PublishStep(s, s') || EndStep(s, s'))
    ensures Ok(s')
  {
    hide LevelOk, KeysDiffer;
    if BeginStep(s, s', key) {
      BeginKeepsList(s.arena, s'.arena, s.linked, s'.insertion, key);
    } else if CopyStep(s, s') {
      PrevIsLinked(s.arena, s.linked, s.insertion);
      CopyKeepsList(s.arena, s.linked, s.insertion);
    } else if PublishStep(s, s') {
      PublishKeepsList(s.arena, s.linked, s.insertion);
      PublishKeepsInsertion(s.arena, s.linked, s.insertion);
    }
    SearchesStay(s, s');
  }

  lemma SearchKeepsOk(s: Lists, s': Lists, j: nat)
    requires Ok(s) && SearchStep(s, s', j)
    ensures Ok(s')
  {
    hide LevelOk, KeysDiffer;
    StepKeepsSearch(s.arena, s.linked, s.searches[j]);
  }

  lemma NextKeepsOk(s: Lists, s': Lists)
    requires Ok(s) && Next(s, s')
    ensures Ok(s')
  {
    hide ListOk, HeightsOk;
    if key :| BeginStep(s, s', key) {
      StoresKeepOk(s, s', key);
    } else if CopyStep(s, s') || PublishStep(s, s') || EndStep(s, s') {
      StoresKeepOk(s, s', 0.0);
    } else if j :| SearchStep(s, s', j) {
      SearchKeepsOk(s, s', j);
    } else {
      StartsKeepOk(s, s');
    }
  }

  lemma StartsKeepOk(s: Lists, s': Lists)
    requires Ok(s)
    requires (exists t, level :: StartStep(s, s', t, level)) || exists j, n :: FinishStep(s, s', j, n)
    ensures Ok(s')
  {
    hide LevelOk, KeysDiffer;
  }

  /** The constructor: a head of full height with null links. */
  predicate Empty(s: Lists) {
    && s.maxHeight == 1 && s.insertion.Idle? && s.searches == []
    && s.linked == seq(MAX_HEIGHT, l => {}) && |s.arena| == 1 && s.arena[HEAD].next == seq(MAX_HEIGHT, l => NIL)
  }

  ghost predicate IsRun(run: seq<Lists>) {
    run != [] && Empty(run[0]) && forall i :: 0 <= i < |run| - 1 ==> Next(run[i], run[i + 1])
  }

  lemma {:induction false} RunKeepsOk(run: seq<Lists>, i: nat)
    requires IsRun(run) && i < |run|
    ensures Ok(run[i])
  {
    if i > 0 {
      hide Ok;
      RunKeepsOk(run, i - 1);
      assert Next(run[i - 1], run[i - 1 + 1]);
      NextKeepsOk(run[i - 1], run[i]);
    }
  }

  /** Whatever the writer stores meanwhile, a search ends with the right node of the list at its last load. */
  lemma EverySearchAnswers(run: seq<Lists>, i: nat, j: nat, n: int)
    requires IsRun(run) && i < |run| - 1 && FinishStep(run[i], run[i + 1], j, n)
    ensures Ok(run[i]) && Answers(run[i].arena, run[i].linked[0], run[i].searches[j], n)
  {
    RunKeepsOk(run, i);
    FinishedSearchAnswers(run[i].arena, run[i].linked, run[i].searches[j]);
  }

  ghost function Keys(s: Lists): set<Key>
    requires Ok(s)
  {
    KeysOf(s.arena, s.linked[0])
  }

  ghost function KeysOf(a: Arena, linked: set<nat>): set<Key> {
    set y | y in linked && y < |a| :: a[y].key
  }

  /** Nodes keep their keys, and what is linked stays linked. */
  lemma StepGrows(s: Lists, s': Lists)
    requires Next(s, s') && |s.linked| == MAX_HEIGHT
    ensures |s.arena| <= |s'.arena| && |s'.linked| == MAX_HEIGHT && s.linked[0] <= s'.linked[0]
    ensures forall x :: 0 <= x < |s.arena| ==> s'.arena[x].key == s.arena[x].key
  {
    hide PrevOk;
  }

  lemma StepKeepsKeys(s: Lists, s': Lists)
    requires Ok(s) && Next(s, s')
    ensures Ok(s') && Keys(s) <= Keys(s')
    ensures EndStep(s, s') ==> s.arena[s.insertion.x].key in Keys(s')
  {
    NextKeepsOk(s, s');
    StepGrows(s, s');
    hide LevelOk, KeysDiffer, Next;
    if EndStep(s, s') {
      assert s.insertion.x in s.linked[0];
    }
  }

  /** An insertion that has ended is seen by every search from then on. */
  lemma {:induction false} InsertedKeysStay(run: seq<Lists>, i: nat, j: nat)
    requires IsRun(run) && i < |run| - 1 && i < j < |run| && EndStep(run[i], run[i + 1])
    ensures Ok(run[i]) && Ok(run[j]) && run[i].arena[run[i].insertion.x].key in Keys(run[j])
    decreases j
  {
    hide Ok, Keys, EndStep;
    RunKeepsOk(run, i);
    InsertedNode(run[i], run[i + 1]);
    RunKeepsOk(run, j);
    RunKeepsOk(run, j - 1);
    assert Next(run[j - 1], run[j - 1 + 1]);
    StepKeepsKeys(run[j - 1], run[j]);
    if i + 1 < j {
      InsertedKeysStay(run, i, j - 1);
    }
  }

  lemma InsertedNode(s: Lists, s': Lists)
    requires Ok(s) && EndStep(s, s')
    ensures s.insertion.Inserting? && s.insertion.x < |s.arena|
  {
  }

  // ----- levels as chains -----

  /** How many linked nodes come after `x`. */
  ghost function Behind(a: Arena, linked: set<nat>, x: nat): set<nat>
    requires x < |a|
  {
    set y | y in linked && y < |a| && After(a, x, y)
  }

  lemma FewerBehind(a: Arena, level: nat, linked: set<nat>, x: nat, n: nat)
    requires NodesOk(a, level, linked) && (x == HEAD || x in linked) && n in linked && After(a, x, n)
    ensures |Behind(a, linked, n)| < |Behind(a, linked, x)|
  {
    assert n in Behind(a, linked, x) && n !in Behind(a, linked, n);
    assert Behind(a, linked, n) <= Behind(a, linked, x) - {n};
    Smaller(Behind(a, linked, n), Behind(a, linked, x) - {n});
  }

  lemma {:induction false} Smaller(xs: set<nat>, ys: set<nat>)
    requires xs <= ys
    ensures |xs| <= |ys|
  {
    if x :| x in xs {
      Smaller(xs - {x}, ys - {x});
    }
  }

  /** Following the links of a level from `x` to the null pointer. */
  ghost function Chain(a: Arena, level: nat, linked: set<nat>, x: nat): seq<nat>
    requires LevelOk(a, level, linked) && (x == HEAD || x in linked)
    decreases |Behind(a, linked, x)|
  {
    assert LinkOk(a, level, linked, x);
    var n := a[x].next[level];
    if n == NIL then []
    else
      FewerBehind(a, level, linked, x, n);
      [n] + Chain(a, level, linked, n)
  }

  predicate InKeyOrder(a: Arena, c: seq<nat>) {
    && (forall i :: 0 <= i < |c| ==> c[i] < |a|)
    && forall i, j :: 0 <= i < j < |c| ==> a[c[i]].key < a[c[j]].key
  }

  /** A level visits exactly the linked nodes behind `x`, in strictly increasing order of keys. */
  lemma {:induction false} ChainIsSorted(a: Arena, level: nat, linked: set<nat>, x: nat)
    requires LevelOk(a, level, linked) && (x == HEAD || x in linked)
    ensures InKeyOrder(a, Chain(a, level, linked, x))
    ensures forall y :: y in Chain(a, level, linked, x) <==> y in linked && After(a, x, y)
    decreases |Behind(a, linked, x)|
  {
    hide InKeyOrder;
    assert LinkOk(a, level, linked, x);
    var n := a[x].next[level];
    NoneInOrder(a);
    if n != NIL {
      FewerBehind(a, level, linked, x, n);
      ChainIsSorted(a, level, linked, n);
      ChainFromNext(a, level, linked, x, n, Chain(a, level, linked, n));
    }
  }

  lemma NoneInOrder(a: Arena)
    ensures InKeyOrder(a, [])
  {
  }

  lemma ChainFromNext(a: Arena, level: nat, linked: set<nat>, x: nat, n: nat, rest: seq<nat>)
    requires NodesOk(a, level, linked) && (x == HEAD || x in linked) && IsNext(a, level, linked, x, n)
    requires InKeyOrder(a, rest) && forall y :: y in rest <==> y in linked && After(a, n, y)
    ensures InKeyOrder(a, [n] + rest)
    ensures forall y :: y in [n] + rest <==> y in linked && After(a, x, y)
  {
    forall y
      ensures y in [n] + rest <==> y in linked && After(a, x, y)
    {
      if y in linked && After(a, x, y) {
        assert y == n || After(a, n, y);
      }
    }
    forall i | 0 <= i < |rest|
      ensures a[n].key < a[rest[i]].key
    {
      assert rest[i] in rest;
    }
  }

  predicate IsSubsequence(xs: seq<nat>, ys: seq<nat>) {
    xs == [] || (ys != [] && if xs[0] == ys[0] then IsSubsequence(xs[1..], ys[1..]) else IsSubsequence(xs, ys[1..]))
  }

  lemma {:induction false} SortedSubset(a: Arena, xs: seq<nat>, ys: seq<nat>)
    requires InKeyOrder(a, xs) && InKeyOrder(a, ys) && forall x :: x in xs ==> x in ys
    ensures IsSubsequence(xs, ys)
    decreases |ys|
  {
    if xs != [] {
      assert xs[0] in ys;
      forall x | x in (if xs[0] == ys[0] then xs[1..] else xs)
        ensures x in ys[1..]
      {
        assert x in ys;
        var i :| 0 <= i < |xs| && xs[i] == x;
        var j :| 0 <= j < |ys| && ys[j] == x;
        var k :| 0 <= k < |ys| && ys[k] == xs[0];
      }
      SortedSubset(a, if xs[0] == ys[0] then xs[1..] else xs, ys[1..]);
    }
  }

  /** In every state of every run, each level is a sorted subsequence of the level below. */
  lemma LevelsAreSubsequences(run: seq<Lists>, i: nat, level: nat)
    requires IsRun(run) && i < |run| && level + 1 < MAX_HEIGHT
    ensures var s := run[i];
      && ListOk(s.arena, s.linked)
      && InKeyOrder(s.arena, Chain(s.arena, level, s.linked[level], HEAD))
      && IsSubsequence(Chain(s.arena, level + 1, s.linked[level + 1], HEAD),
          Chain(s.arena, level, s.linked[level], HEAD))
  {
    RunKeepsOk(run, i);
    var s := run[i];
    ChainIsSorted(s.arena, level, s.linked[level], HEAD);
    ChainIsSorted(s.arena, level + 1, s.linked[level + 1], HEAD);
    SortedSubset(s.arena, Chain(s.arena, level + 1, s.linked[level + 1], HEAD),
                 Chain(s.arena, level, s.linked[level], HEAD));
  }
}
