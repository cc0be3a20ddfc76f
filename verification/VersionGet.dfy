/** Point lookups through a version: Version::Get and the helpers it calls (db/version_set.cc:256-422). */
module VersionGet {
  import opened UserKeys
  import opened DbFormat
  import opened Multimap
  import opened Versions

  /** The Saver of a lookup; corrupt keys are not part of this model. */
  datatype SaverState = NotSaved | SavedValue(value: Value) | SavedDeletion

  /** What a table lookup hands to SaveValue: the first entry at or after `key`. */
  function SeekIndex(es: seq<Entry>, key: InternalKey): (i: nat)
    ensures i <= |es|
    ensures forall j :: 0 <= j < i ==> Compare(KeyOf(es[j]), key) < 0
    ensures i < |es| ==> Compare(KeyOf(es[i]), key) >= 0
  {
    if es == [] || Compare(KeyOf(es[0]), key) >= 0 then 0 else 1 + SeekIndex(es[1..], key)
  }

  function SaveValue(userKey: UserKey, e: Entry): SaverState {
    if e.key != userKey then NotSaved
    else match e.op
      case Put(v) => SavedValue(v)
      case Delete => SavedDeletion
  }

  function TableGet(f: File, k: UserKey, snap: nat): SaverState {
    var i := SeekIndex(f.entries, LookupKey(k, snap));
    if i < |f.entries| then SaveValue(k, f.entries[i]) else NotSaved
  }

  /** `s` is the answer of the entries `es` alone: the newest visible entry, or that there is none. */
  ghost predicate Answers(es: set<Entry>, k: UserKey, snap: nat, s: SaverState) {
    match s
    case NotSaved => NothingVisible(es, k, snap)
    case SavedValue(v) => exists e :: Newest(es, k, snap, e) && e.op == Put(v)
    case SavedDeletion => exists e :: Newest(es, k, snap, e) && e.op == Delete
  }

  /** The first entry at or after the lookup key decides for the whole sorted run. */
  lemma RunAnswers(es: seq<Entry>, k: UserKey, snap: nat)
    requires Sorted(es)
    ensures var i := SeekIndex(es, LookupKey(k, snap));
            Answers((set e | e in es), k, snap, if i < |es| then SaveValue(k, es[i]) else NotSaved)
  {
    var i := SeekIndex(es, LookupKey(k, snap));
    var all := set e | e in es;
    forall e | Visible(all, k, snap, e)
      ensures i < |es| && es[i].key == k && e.sn <= es[i].sn
    {
      var j :| 0 <= j < |es| && es[j] == e;
      assert i <= j;
      assert InOrder(es, i, j);
    }
    if i < |es| && es[i].key == k {
      assert Newest(all, k, snap, es[i]) by {
        assert Visible(all, k, snap, es[i]);
      }
    }
  }

  /** Insertion of one file into a list ordered newest first. */
  function InsertNewestFirst(fs: Level, f: File): (r: Level)
    ensures forall g :: g in r <==> g == f || g in fs
    ensures |r| == |fs| + 1
  {
    if fs == [] || f.number > fs[0].number then [f] + fs
    else [fs[0]] + InsertNewestFirst(fs[1..], f)
  }

  predicate NewestFirst(fs: Level) {
    forall i, j :: 0 <= i < j < |fs| ==> fs[i].number > fs[j].number
  }

  lemma {:induction false} InsertKeepsOrder(fs: Level, f: File)
    requires NewestFirst(fs) && forall g :: g in fs ==> g.number != f.number
    ensures NewestFirst(InsertNewestFirst(fs, f))
  {
    if fs != [] && f.number < fs[0].number {
      InsertKeepsOrder(fs[1..], f);
      var r := InsertNewestFirst(fs[1..], f);
      forall i | 0 <= i < |r|
        ensures fs[0].number > r[i].number
      {
        assert r[i] in r;
        assert r[i] == f || r[i] in fs[1..];
      }
    }
  }

  /** Level 0: the files that may hold `k`, newest first. */
  method OverlappingNewestFirst(files: Level, k: UserKey) returns (tmp: Level)
    requires DistinctNumbers(files)
    ensures forall f :: f in tmp <==> f in files && Smallest(f).user <= k <= Largest(f).user
    ensures NewestFirst(tmp)
  {
    tmp := [];
    for i := 0 to |files|
      invariant forall f :: f in tmp <==> f in files[..i] && Smallest(f).user <= k <= Largest(f).user
      invariant NewestFirst(tmp)
    {
      var f := files[i];
      assert files[..i + 1] == files[..i] + [f];
      if k >= Smallest(f).user && k <= Largest(f).user {
        InsertKeepsOrder(tmp, f);
        tmp := InsertNewestFirst(tmp, f);
      }
    }
    assert files[..|files|] == files;
  }

  ghost predicate EarlierIsNewer(files: Level) {
    forall i, j :: 0 <= i < j < |files| ==> NewerThan(FileEntries(files[i]), FileEntries(files[j]))
  }

  lemma InLevelPrefix(fs: Level, i: nat, e: Entry)
    requires i < |fs|
    ensures e in LevelEntries(fs[..i + 1]) <==> e in LevelEntries(fs[..i]) || e in FileEntries(fs[i])
  {
    assert fs[..i + 1] == fs[..i] + [fs[i]];
  }

  lemma NothingVisibleSoFar(files: Level, i: nat, k: UserKey, snap: nat)
    requires i < |files|
    requires NothingVisible(LevelEntries(files[..i]), k, snap)
    requires NothingVisible(FileEntries(files[i]), k, snap)
    ensures NothingVisible(LevelEntries(files[..i + 1]), k, snap)
  {
    var prefix := LevelEntries(files[..i + 1]);
    forall e
      ensures !Visible(prefix, k, snap, e)
    {
      InLevelPrefix(files, i, e);
      assert !Visible(LevelEntries(files[..i]), k, snap, e) && !Visible(FileEntries(files[i]), k, snap, e);
    }
  }

  /** The loop over the files chosen in one level: stop at the first file that answers. */
  method SearchFiles(files: Level, k: UserKey, snap: nat) returns (s: SaverState)
    requires EarlierIsNewer(files)
    ensures Answers(LevelEntries(files), k, snap, s)
  {
    for i := 0 to |files|
      invariant NothingVisible(LevelEntries(files[..i]), k, snap)
    {
      s := TableGet(files[i], k, snap);
      RunAnswers(files[i].entries, k, snap);
      assert (set e | e in files[i].entries) == FileEntries(files[i]);
      if s != NotSaved {
        ghost var e :| Newest(FileEntries(files[i]), k, snap, e) && SaveValue(k, e) == s;
        FirstAnswerIsNewest(files, i, k, snap, e);
        return;
      }
      NothingVisibleSoFar(files, i, k, snap);
    }
    assert files[..|files|] == files;
    s := NotSaved;
  }

  lemma FirstAnswerIsNewest(files: Level, i: nat, k: UserKey, snap: nat, e: Entry)
    requires EarlierIsNewer(files) && i < |files|
    requires NothingVisible(LevelEntries(files[..i]), k, snap)
    requires Newest(FileEntries(files[i]), k, snap, e)
    ensures Newest(LevelEntries(files), k, snap, e)
  {
    assert Visible(LevelEntries(files), k, snap, e);
    forall f | Visible(LevelEntries(files), k, snap, f)
      ensures f.sn <= e.sn
    {
      var j := FileHolding(files, f);
      assert f in FileEntries(files[j]);
      assert j < i ==> files[..i][j] == files[j];
      assert j < i ==> f in LevelEntries(files[..i]);
      assert !Visible(LevelEntries(files[..i]), k, snap, f);
      assert j == i ==> Visible(FileEntries(files[i]), k, snap, f);
    }
  }

  /** The files of level `l` that Get reads: all overlapping ones in level 0, at most one deeper down. */
  method FilesToSearch(l: nat, files: Level, k: UserKey, snap: nat) returns (chosen: Level)
    requires LevelOk(l, files)
    ensures EarlierIsNewer(chosen)
    ensures forall f :: f in chosen ==> f in files
    ensures forall s :: Answers(LevelEntries(chosen), k, snap, s) ==> Answers(LevelEntries(files), k, snap, s)
  {
    if l == 0 {
      chosen := OverlappingNewestFirst(files, k);
      forall i, j | 0 <= i < j < |chosen|
        ensures NewerThan(FileEntries(chosen[i]), FileEntries(chosen[j]))
      {
        assert chosen[i] in chosen && chosen[j] in chosen;
      }
      forall e
        ensures Visible(LevelEntries(files), k, snap, e) <==> Visible(LevelEntries(chosen), k, snap, e)
      {
        if Visible(LevelEntries(files), k, snap, e) {
          var i := FileHolding(files, e);
          SortedBounds(files[i], e);
        }
      }
      SameVisibleSameAnswers(LevelEntries(chosen), LevelEntries(files), k, snap);
    } else {
      var index := FindFile(files, LookupKey(k, snap));
      if index >= |files| || k < Smallest(files[index]).user {
        chosen := [];
        NothingVisibleInLevel(files, index, k, snap);
      } else {
        chosen := [files[index]];
        OneFileDecides(files, index, k, snap);
      }
    }
  }

  lemma SameVisibleSameAnswers(xs: set<Entry>, ys: set<Entry>, k: UserKey, snap: nat)
    requires forall e :: Visible(xs, k, snap, e) <==> Visible(ys, k, snap, e)
    ensures forall s :: Answers(xs, k, snap, s) ==> Answers(ys, k, snap, s)
  {
    assert forall e :: Newest(xs, k, snap, e) <==> Newest(ys, k, snap, e);
  }

  lemma NothingVisibleInLevel(files: Level, index: nat, k: UserKey, snap: nat)
    requires Disjoint(files) && index <= |files|
    requires forall i :: 0 <= i < index ==> Compare(Largest(files[i]), LookupKey(k, snap)) < 0
    requires index < |files| ==> k < Smallest(files[index]).user
    ensures NothingVisible(LevelEntries(files), k, snap)
  {
    forall e | Visible(LevelEntries(files), k, snap, e)
      ensures false
    {
      var i := FileHolding(files, e);
      SortedBounds(files[i], e);
      if index < i {
        DisjointBefore(files, index, i, First(files[index]), e);
      }
    }
  }

  lemma OneFileDecides(files: Level, index: nat, k: UserKey, snap: nat)
    requires Disjoint(files) && index < |files|
    requires forall i :: 0 <= i < index ==> Compare(Largest(files[i]), LookupKey(k, snap)) < 0
    requires Compare(Largest(files[index]), LookupKey(k, snap)) >= 0
    ensures forall s :: Answers(LevelEntries([files[index]]), k, snap, s) ==> Answers(LevelEntries(files), k, snap, s)
  {
    var chosen := LevelEntries([files[index]]);
    assert forall e :: e in chosen <==> e in files[index].entries;
    forall e | Visible(LevelEntries(files), k, snap, e)
      ensures Visible(chosen, k, snap, e) || (Last(files[index]).key == k && Last(files[index]).sn > e.sn)
    {
      var i := FileHolding(files, e);
      SortedBounds(files[i], e);
      if index < i {
        DisjointBefore(files, index, i, Last(files[index]), e);
      }
    }
    forall e | Newest(chosen, k, snap, e)
      ensures Newest(LevelEntries(files), k, snap, e)
    {
      assert files[index] in files;
      forall f | Visible(LevelEntries(files), k, snap, f)
        ensures f.sn <= e.sn
      {
        if !Visible(chosen, k, snap, f) {
          assert Visible(chosen, k, snap, Last(files[index]));
        }
      }
    }
    if NothingVisible(chosen, k, snap) {
      assert !Visible(chosen, k, snap, Last(files[index]));
    }
  }

  /**
   Version::Get. Levels are searched in order and the first hit is final; the result is the newest entry of the
   whole version that the snapshot can see.
   */
  method Get(v: Version, k: UserKey, snap: nat) returns (r: ReadResult)
    requires VersionOk(v)
    ensures r == Read(Entries(v), k, snap)
  {
    for level := 0 to |v|
      invariant Read(Entries(v), k, snap) == Read(EntriesFrom(v, level), k, snap)
    {
      UniqueInVersion(v, level);
      if |v[level]| == 0 {
        assert LevelEntries(v[level]) == {};
        assert {} + EntriesFrom(v, level + 1) == EntriesFrom(v, level + 1);
        continue;
      }
      var files := FilesToSearch(level, v[level], k, snap);
      var s := SearchFiles(files, k, snap);
      assert Answers(LevelEntries(v[level]), k, snap, s);
      if s != NotSaved {
        HitIsFinal(v, level, k, snap, s);
        return if s.SavedValue? then Found(s.value) else NotFound;
      }
      InvisibleLayer(LevelEntries(v[level]), EntriesFrom(v, level + 1), k, snap);
    }
    ReadAbsent({}, k, snap);
    r := NotFound;
  }

  lemma HitIsFinal(v: Version, level: nat, k: UserKey, snap: nat, s: SaverState)
    requires VersionOk(v) && level < |v|
    requires Answers(LevelEntries(v[level]), k, snap, s) && s != NotSaved
    ensures Read(EntriesFrom(v, level), k, snap) == if s.SavedValue? then Found(s.value) else NotFound
  {
    UniqueInVersion(v, level);
    LevelNewerThanDeeper(v, level);
    var e :| Newest(LevelEntries(v[level]), k, snap, e) && SaveValue(k, e) == s;
    ShallowWins(LevelEntries(v[level]), EntriesFrom(v, level + 1), k, snap, e);
    ReadNewest(EntriesFrom(v, level), k, snap, e);
  }
}
