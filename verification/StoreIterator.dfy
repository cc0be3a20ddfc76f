/**
 The iterator over the whole store: NewInternalIterator merges the memtables, the files of level 0 and one concatenation
 per deeper level (db/db_impl.cc:1062-1087, db/version_set.cc:230-246), and DBIter reads the result. Together they show
 the history of writes.
 */
module StoreIterator {
  import opened UserKeys
  import opened DbFormat
  import opened Multimap
  import opened Versions
  import opened Inputs
  import opened InstallEdits
  import opened Database
  import opened Iterators
  import opened Merger
  import opened TwoLevel
  import DbIter

  // ----- the sorted list of a set of entries -----

  ghost function Pick(es: set<Entry>): (e: Entry)
    requires es != {}
    ensures e in es
  {
    var e :| e in es;
    e
  }

  ghost function SortedOf(es: set<Entry>): (r: seq<Entry>)
    ensures forall e :: e in r <==> e in es
  {
    if es == {} then [] else Insert(SortedOf(es - {Pick(es)}), Pick(es))
  }

  lemma {:induction false} SortedOfIsSorted(es: set<Entry>)
    requires UniqueSequences(es)
    ensures Sorted(SortedOf(es))
  {
    if es != {} {
      var rest := es - {Pick(es)};
      SortedOfIsSorted(rest);
      InsertKeepsSorted(SortedOf(rest), Pick(es));
    }
  }

  // ----- runs that can be merged -----

  ghost predicate Ordered(xs: seq<seq<Entry>>, i: int, j: int) {
    0 <= i < |xs| && 0 <= j < |xs| && i != j ==>
      forall a, b :: a in xs[i] && b in xs[j] ==> Before(a, b) || Before(b, a)
  }

  ghost predicate Mergeable(xs: seq<seq<Entry>>) {
    (forall i :: 0 <= i < |xs| ==> Sorted(xs[i])) && forall i, j :: Ordered(xs, i, j)
  }

  ghost function Held(xs: seq<seq<Entry>>): set<Entry> {
    set i, e | 0 <= i < |xs| && e in xs[i] :: e
  }

  lemma HeldByBoth(xs: seq<seq<Entry>>, ys: seq<seq<Entry>>)
    ensures Held(xs + ys) == Held(xs) + Held(ys)
  {
    forall e
      ensures e in Held(xs + ys) <==> e in Held(xs) || e in Held(ys)
    {
      if e in Held(xs) {
        var i :| 0 <= i < |xs| && e in xs[i];
        assert (xs + ys)[i] == xs[i];
      }
      if e in Held(ys) {
        var i :| 0 <= i < |ys| && e in ys[i];
        assert (xs + ys)[|xs| + i] == ys[i];
      }
    }
  }

  /** A newer layer goes with an older one. */
  lemma LayersMergeable(xs: seq<seq<Entry>>, ys: seq<seq<Entry>>)
    requires Mergeable(xs) && Mergeable(ys) && NewerThan(Held(xs), Held(ys))
    ensures Mergeable(xs + ys) && Held(xs + ys) == Held(xs) + Held(ys)
  {
    HeldByBoth(xs, ys);
    var all := xs + ys;
    forall i, j
      ensures Ordered(all, i, j)
    {
      if 0 <= i < |xs| && 0 <= j < |xs| {
        assert Ordered(xs, i, j);
      } else if |xs| <= i < |all| && |xs| <= j < |all| {
        assert Ordered(ys, i - |xs|, j - |xs|);
      } else if 0 <= i < |all| && 0 <= j < |all| {
        forall a, b | a in all[i] && b in all[j]
          ensures Before(a, b) || Before(b, a)
        {
          assert (a in Held(xs) && b in Held(ys)) || (a in Held(ys) && b in Held(xs));
        }
      }
    }
  }

  lemma OneRun(run: seq<Entry>)
    requires Sorted(run)
    ensures Mergeable([run]) && Held([run]) == Elements(run)
  {
    assert [run][0] == run;
  }

  lemma NoRuns()
    ensures Mergeable([]) && Held([]) == {}
  {
  }

  lemma Level0Mergeable(fs: Level)
    requires LevelOk(0, fs)
    ensures Mergeable(Runs(fs)) && Held(Runs(fs)) == LevelEntries(fs)
  {
    var xs := Runs(fs);
    forall i, j
      ensures Ordered(xs, i, j)
    {
      if 0 <= i < |xs| && 0 <= j < |xs| && i != j {
        assert fs[i] in fs && fs[j] in fs && fs[i].number != fs[j].number;
        assert forall e :: e in xs[i] ==> e in FileEntries(fs[i]);
        assert forall e :: e in xs[j] ==> e in FileEntries(fs[j]);
      }
    }
    forall e
      ensures e in Held(xs) <==> e in LevelEntries(fs)
    {
      if e in LevelEntries(fs) {
        var f :| f in fs && e in f.entries;
        var i :| 0 <= i < |fs| && fs[i] == f;
        assert e in xs[i];
      }
    }
  }

  /** A sorted level as one run, as the concatenating iterator shows it. */
  lemma {:induction false} LevelRunSorted(fs: Level)
    requires Disjoint(fs)
    ensures Sorted(Flat(Runs(fs))) && Elements(Flat(Runs(fs))) == LevelEntries(fs)
  {
    if fs != [] {
      var n := |fs| - 1;
      var front, last := fs[..n], fs[n];
      PrefixDisjoint(fs, n);
      LevelRunSorted(front);
      assert fs == front + [last] && Runs(fs) == Runs(front) + [last.entries];
      assert Runs(fs)[..n] == Runs(front);
      forall a, b | a in Flat(Runs(front)) && b in last.entries
        ensures Before(a, b)
      {
        assert a in LevelEntries(front);
        var f :| f in front && a in f.entries;
        var i :| 0 <= i < n && front[i] == f;
        DisjointBefore(fs, i, n, a, b);
      }
      AppendSorted(Flat(Runs(front)), last.entries);
      LevelWithLast(front, last);
    }
  }

  lemma LevelWithLast(front: Level, last: File)
    ensures LevelEntries(front + [last]) == LevelEntries(front) + FileEntries(last)
  {
    var fs := front + [last];
    assert last in fs && forall f :: f in front ==> f in fs;
  }

  lemma AppendSorted(xs: seq<Entry>, ys: seq<Entry>)
    requires Sorted(xs) && Sorted(ys) && forall a, b :: a in xs && b in ys ==> Before(a, b)
    ensures Sorted(xs + ys)
  {
    var all := xs + ys;
    forall i, j
      ensures InOrder(all, i, j)
    {
      if 0 <= i < j < |xs| {
        assert InOrder(xs, i, j);
      } else if |xs| <= i < j < |all| {
        assert InOrder(ys, i - |xs|, j - |xs|);
      } else if 0 <= i < j < |all| {
        assert all[i] in xs && all[j] in ys;
      }
    }
  }

  // ----- the runs of the store -----

  /** AddIterators from level `l` on: nothing for an empty level. */
  function DeepRuns(v: Version, l: nat): seq<seq<Entry>>
    decreases |v| - l
  {
    if l >= |v| then []
    else (if v[l] == [] then [] else [Flat(Runs(v[l]))]) + DeepRuns(v, l + 1)
  }

  function MemRuns(s: DbState): seq<seq<Entry>> {
    [s.mem] + if s.imm.Some? then [s.imm.value] else []
  }

  function StoreRuns(s: DbState): seq<seq<Entry>>
    requires |s.current| == NUM_LEVELS
  {
    MemRuns(s) + (Runs(s.current[0]) + DeepRuns(s.current, 1))
  }

  lemma {:induction false} DeepMergeable(v: Version, l: nat)
    requires VersionOk(v) && 1 <= l
    ensures Mergeable(DeepRuns(v, l)) && Held(DeepRuns(v, l)) == EntriesFrom(v, l)
    decreases |v| - l
  {
    hide Mergeable, NewerThan;
    if l >= |v| {
      NoRuns();
    } else {
      DeepMergeable(v, l + 1);
      if v[l] == [] {
        assert LevelEntries(v[l]) == {};
        assert [] + DeepRuns(v, l + 1) == DeepRuns(v, l + 1);
      } else {
        assert LevelOk(l, v[l]);
        LevelRunSorted(v[l]);
        OneRun(Flat(Runs(v[l])));
        LevelNewerThanDeeper(v, l);
        LayersMergeable([Flat(Runs(v[l]))], DeepRuns(v, l + 1));
      }
    }
  }

  lemma VersionMergeable(v: Version)
    requires VersionOk(v)
    ensures var xs := Runs(v[0]) + DeepRuns(v, 1); Mergeable(xs) && Held(xs) == Entries(v)
  {
    hide Mergeable, NewerThan;
    assert LevelOk(0, v[0]);
    Level0Mergeable(v[0]);
    DeepMergeable(v, 1);
    LevelNewerThanDeeper(v, 0);
    LayersMergeable(Runs(v[0]), DeepRuns(v, 1));
  }

  lemma MemMergeable(s: DbState)
    requires LayersOk(s)
    ensures Mergeable(MemRuns(s)) && Held(MemRuns(s)) == Elements(s.mem) + Elements(Immutable(s))
    ensures NewerThan(Held(MemRuns(s)), Entries(s.current))
  {
    OneRun(s.mem);
    if s.imm.Some? {
      OneRun(s.imm.value);
      LayersMergeable([s.mem], [s.imm.value]);
    } else {
      assert [s.mem] + [] == [s.mem];
    }
  }

  /** The children NewInternalIterator collects hold exactly the entries of the store, in runs that can be merged. */
  lemma StoreMergeable(s: DbState)
    requires LayersOk(s)
    ensures |s.current| == NUM_LEVELS && Mergeable(StoreRuns(s)) && Held(StoreRuns(s)) == AllEntries(s)
  {
    hide Mergeable;
    MemMergeable(s);
    VersionMergeable(s.current);
    LayersMergeable(MemRuns(s), Runs(s.current[0]) + DeepRuns(s.current, 1));
  }

  // ----- the iterator -----

  /** The children of a merging iterator over these runs. */
  ghost predicate ChildrenOver(children: seq<InternalIterator>, xs: seq<seq<Entry>>) {
    |children| == |xs| && Merger.Distinct(children) && forall i :: 0 <= i < |xs| ==> children[i].entries == xs[i]
  }

  lemma MergeableChildren(children: seq<InternalIterator>, xs: seq<seq<Entry>>)
    requires ChildrenOver(children, xs) && Mergeable(xs)
    ensures KeysDistinct(children)
    ensures UniqueSequences(Held(xs)) ==> IsUnion(children, SortedOf(Held(xs)))
  {
    forall i, j
      ensures EntriesDistinct(children, i, j)
    {
      assert Ordered(xs, i, j);
    }
    if UniqueSequences(Held(xs)) {
      SortedOfIsSorted(Held(xs));
      forall e
        ensures e in Held(xs) <==> InUnion(children, e)
      {
        if e in Held(xs) {
          var i :| 0 <= i < |xs| && e in xs[i];
          assert e in children[i].entries;
        }
      }
    }
  }

  lemma OneMoreChild(children: seq<InternalIterator>, xs: seq<seq<Entry>>, child: InternalIterator, run: seq<Entry>)
    requires ChildrenOver(children, xs) && child !in children && child.entries == run
    ensures ChildrenOver(children + [child], xs + [run])
  {
  }

  method AddLevel0(fs: Level, list: seq<InternalIterator>, ghost xs: seq<seq<Entry>>)
    returns (children: seq<InternalIterator>)
    requires ChildrenOver(list, xs)
    ensures ChildrenOver(children, xs + Runs(fs))
  {
    hide ChildrenOver;
    children := list;
    assert xs + Runs(fs)[..0] == xs;
    for i := 0 to |fs|
      invariant ChildrenOver(children, xs + Runs(fs)[..i])
    {
      var child := new InternalIterator(fs[i].entries);
      OneMoreChild(children, xs + Runs(fs)[..i], child, fs[i].entries);
      children := children + [child];
      assert xs + Runs(fs)[..i + 1] == xs + Runs(fs)[..i] + [fs[i].entries];
    }
    assert Runs(fs)[..|fs|] == Runs(fs);
  }

  lemma NextDeepRun(v: Version, level: nat, done: seq<seq<Entry>>, xs: seq<seq<Entry>>)
    requires level < |v|
    ensures done + DeepRuns(v, level)
         == (if v[level] == [] then done else done + [Flat(Runs(v[level]))]) + DeepRuns(v, level + 1)
    ensures xs + (done + [Flat(Runs(v[level]))]) == xs + done + [Flat(Runs(v[level]))]
  {
    hide Flat, Runs;
    if v[level] == [] {
      assert [] + DeepRuns(v, level + 1) == DeepRuns(v, level + 1);
    }
  }

  method AddDeepLevels(v: Version, list: seq<InternalIterator>, ghost xs: seq<seq<Entry>>)
    returns (children: seq<InternalIterator>)
    requires |v| == NUM_LEVELS && ChildrenOver(list, xs)
    ensures ChildrenOver(children, xs + DeepRuns(v, 1))
  {
    hide ChildrenOver, Flat, Runs, DeepRuns;
    children := list;
    ghost var done: seq<seq<Entry>> := [];
    assert xs + done == xs && done + DeepRuns(v, 1) == DeepRuns(v, 1);
    for level := 1 to NUM_LEVELS
      invariant ChildrenOver(children, xs + done) && DeepRuns(v, 1) == done + DeepRuns(v, level)
    {
      NextDeepRun(v, level, done, xs);
      if v[level] != [] {
        ghost var run := Flat(Runs(v[level]));
        var child := new InternalIterator(Flat(Runs(v[level])));
        OneMoreChild(children, xs + done, child, run);
        children := children + [child];
        done := done + [run];
      }
    }
    NoDeepRuns(v);
    assert done + [] == done;
  }

  lemma NoDeepRuns(v: Version)
    ensures DeepRuns(v, |v|) == []
  {
  }

  /** Version::AddIterators: the files of level 0 one by one, a concatenation for every other level that has files. */
  method AddIterators(v: Version, list: seq<InternalIterator>, ghost xs: seq<seq<Entry>>)
    returns (children: seq<InternalIterator>)
    requires |v| == NUM_LEVELS && ChildrenOver(list, xs)
    ensures ChildrenOver(children, xs + (Runs(v[0]) + DeepRuns(v, 1)))
  {
    hide ChildrenOver, Runs, DeepRuns;
    children := AddLevel0(v[0], list, xs);
    children := AddDeepLevels(v, children, xs + Runs(v[0]));
    assert xs + Runs(v[0]) + DeepRuns(v, 1) == xs + (Runs(v[0]) + DeepRuns(v, 1));
  }

  /** NewInternalIterator: one sorted run of all entries of the store, seen through a merging iterator. */
  method NewInternalIterator(s: DbState) returns (it: MergingIterator)
    requires LayersOk(s)
    ensures fresh(it) && it.Valid() && !it.IsValid()
    ensures Sorted(it.union) && Elements(it.union) == AllEntries(s)
  {
    hide LayersOk, ChildrenOver, Mergeable, KeysDistinct, IsUnion;
    StoreMergeable(s);
    var first := new InternalIterator(s.mem);
    var list := [first];
    assert ChildrenOver(list, [s.mem]) by {
      FirstChild(first, s.mem);
    }
    if s.imm.Some? {
      var second := new InternalIterator(s.imm.value);
      OneMoreChild(list, [s.mem], second, s.imm.value);
      list := list + [second];
    } else {
      assert [s.mem] + [] == [s.mem];
    }
    var children := AddIterators(s.current, list, MemRuns(s));
    UniqueAll(s);
    MergeableChildren(children, StoreRuns(s));
    OverIsDistinct(children, StoreRuns(s));
    SortedOfIsSorted(AllEntries(s));
    it := new MergingIterator(children, SortedOf(AllEntries(s)));
    assert Elements(it.union) == AllEntries(s);
  }

  lemma FirstChild(child: InternalIterator, run: seq<Entry>)
    requires child.entries == run
    ensures ChildrenOver([child], [run])
  {
  }

  lemma OverIsDistinct(children: seq<InternalIterator>, xs: seq<seq<Entry>>)
    requires ChildrenOver(children, xs)
    ensures Merger.Distinct(children)
  {
  }

  // ----- what DBIter shows of it -----

  /** The value of a key in the history, for a snapshot. */
  ghost function HistoryValue(s: DbState, snap: nat, k: UserKey): ReadResult {
    Read(s.history, k, snap)
  }

  /**
   The union that NewInternalIterator puts together, folded as DBIter folds it, is the history: for every live snapshot
   and the latest state, the next, previous, first and last keys DBIter goes to are those of the multimap of all writes.
   */
  lemma UnionShowsHistory(s: DbState, es: seq<Entry>, snap: nat)
    requires Database.Ok(s) && Sorted(es) && Elements(es) == AllEntries(s)
    requires snap in s.snapshots || snap >= s.lastSequence
    ensures forall k :: DbIter.Value(es, snap, k) == HistoryValue(s, snap, k)
  {
    forall k
      ensures DbIter.Value(es, snap, k) == HistoryValue(s, snap, k)
    {
      assert Read(AllEntries(s), k, snap) == Read(s.history, k, snap);
    }
  }
}
