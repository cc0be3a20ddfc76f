/**
 The three ways a version changes (a flushed table, a moved file, a compaction) and why each keeps the version
 invariant (db/db_impl.cc:491-535, 718-728, 860-876; db/version_set.cc:491-516).
 */
module VersionSteps {
  import opened DbFormat
  import opened Multimap
  import opened Versions
  import opened Inputs
  import opened Compaction
  import opened CompactionReads

  /** A file number names one file at one level, and every number is below the next one to hand out. */
  ghost predicate NumbersOk(v: Version, next: nat) {
    && (forall m, f :: 0 <= m < |v| && f in v[m] ==> f.number < next)
    && (forall m, f, n, g :: DifferentNumbers(v, m, f, n, g))
  }

  ghost predicate DifferentNumbers(v: Version, m: int, f: File, n: int, g: File) {
    0 <= m < |v| && 0 <= n < |v| && f in v[m] && g in v[n] && f.number == g.number ==> m == n && f == g
  }

  ghost predicate Apart(f: File, g: File) {
    Before(Last(f), First(g)) || Before(Last(g), First(f))
  }

  ghost predicate PairwiseApart(fs: Level) {
    forall f, g :: f in fs && g in fs && f != g ==> Apart(f, g)
  }

  /** Files that do not overlap, listed by smallest key, are disjoint and sorted. */
  lemma ApartAndSortedIsDisjoint(fs: Level)
    requires PairwiseApart(fs) && SortedBySmallest(fs)
    ensures Disjoint(fs)
  {
    forall i, j
      ensures FilesInOrder(fs, i, j)
    {
      if 0 <= i < j < |fs| {
        assert BySmallest(fs[i], fs[j]);
        SmallestToLargest(fs[i]);
        SmallestToLargest(fs[j]);
        assert fs[i] != fs[j];
        assert Apart(fs[i], fs[j]);
      }
    }
  }

  lemma DisjointIsApart(fs: Level)
    requires Disjoint(fs)
    ensures PairwiseApart(fs)
  {
    forall f, g | f in fs && g in fs && f != g
      ensures Apart(f, g)
    {
      var i :| 0 <= i < |fs| && fs[i] == f;
      var j :| 0 <= j < |fs| && fs[j] == g;
      assert FilesInOrder(fs, i, j) && FilesInOrder(fs, j, i);
    }
  }

  /** Distinct files with distinct numbers, listed strictly in order. */
  lemma SortedHasDistinctNumbers(fs: Level)
    requires SortedBySmallest(fs)
    requires forall f, g :: f in fs && g in fs && f.number == g.number ==> f == g
    ensures DistinctNumbers(fs)
  {
    forall i, j | 0 <= i < j < |fs|
      ensures fs[i].number != fs[j].number
    {
      assert BySmallest(fs[i], fs[j]);
      assert fs[i] in fs && fs[j] in fs;
    }
  }

  /** The output files of one run follow each other. */
  lemma {:induction false} CutFilesAreDisjoint(fs: Level)
    requires Sorted(Concat(fs))
    ensures Disjoint(fs)
  {
    if fs != [] {
      var n := |fs| - 1;
      var init, last := fs[..n], fs[n];
      var head := Concat(init);
      forall i, j
        ensures InOrder(head, i, j)
      {
        assert InOrder(Concat(fs), i, j);
      }
      CutFilesAreDisjoint(init);
      forall i, j
        ensures FilesInOrder(fs, i, j)
      {
        if 0 <= i < j < n {
          assert FilesInOrder(init, i, j);
        } else if 0 <= i < j == n {
          assert Last(fs[i]) in LevelEntries(init) by {
            assert init[i] == fs[i] && fs[i] in init && Last(fs[i]) in fs[i].entries;
          }
          InConcat(init, Last(fs[i]));
          var k :| 0 <= k < |head| && head[k] == Last(fs[i]);
          assert InOrder(Concat(fs), k, |head|);
          assert Concat(fs)[|head|] == First(last);
        }
      }
    }
  }

  lemma {:induction false} KeptIsSorted(v: Version, level: nat, input: seq<Entry>, n: nat, snap: nat)
    requires Sorted(input) && n <= |input|
    ensures Sorted(Kept(v, level, input, n, snap))
  {
    if n > 0 {
      KeptIsSorted(v, level, input, n - 1, snap);
      var init, all := Kept(v, level, input, n - 1, snap), Kept(v, level, input, n, snap);
      forall i, j
        ensures InOrder(all, i, j)
      {
        if 0 <= i < j < |init| {
          assert InOrder(init, i, j);
        } else if 0 <= i < |init| {
          InKept(v, level, input, n - 1, snap, init[i]);
          var k :| 0 <= k < n - 1 && input[k] == init[i];
          assert InOrder(input, k, n - 1);
        }
      }
    }
  }

  // ----- a file that stays behind in the next level is wholly before or wholly after the inputs -----

  ghost predicate OutsideOf(g: File, input: seq<Entry>) {
    (forall e :: e in input ==> Before(Last(g), e)) || (forall e :: e in input ==> Before(e, First(g)))
  }

  lemma StaysOutside(v: Version, c: CompactionInputs, input: seq<Entry>, g: File)
    requires VersionOk(v) && InputsOk(v, c) && IsMergeOf(input, c)
    requires Stays(v, c, c.level + 1, g)
    ensures OutsideOf(g, input)
  {
    forall e | e in input
      ensures c.smallest.user > Largest(g).user ==> Before(Last(g), e)
      ensures c.smallest.user <= Largest(g).user ==> Before(e, First(g))
    {
      var m, h := InputOrigin(v, c, input, e);
      SortedBounds(h, e);
      StaysOutsideFile(v, c, g, m, h);
    }
  }

  lemma StaysOutsideFile(v: Version, c: CompactionInputs, g: File, m: nat, h: File)
    requires VersionOk(v) && InputsOk(v, c) && Stays(v, c, c.level + 1, g) && Taken(c, m, h)
    ensures c.smallest.user > Largest(g).user ==> Before(Last(g), First(h))
    ensures c.smallest.user <= Largest(g).user ==> Before(Last(h), First(g))
  {
    assert !Overlaps(g, At(c.smallest.user), At(c.largest.user));
    SmallestToLargest(g);
    SmallestToLargest(h);
    if m == c.level && h in c.inputs0 {
      assert c.smallest.user <= Smallest(h).user && Largest(h).user <= c.largest.user;
    } else {
      DisjointIsApart(v[c.level + 1]);
      assert Apart(g, h);
    }
  }

  ghost predicate EntriesAmong(outputs: Level, input: seq<Entry>) {
    forall f, e :: f in outputs && e in f.entries ==> e in input
  }

  /** New files in the next level: disjoint, holding nothing but input entries, with numbers of their own. */
  ghost predicate OutputsOk(v: Version, c: CompactionInputs, input: seq<Entry>, outputs: Level) {
    && Disjoint(outputs) && EntriesAmong(outputs, input)
    && (forall f, g :: f in outputs && g in outputs && f.number == g.number ==> f == g)
    && (forall m, f, g :: Stays(v, c, m, f) && g in outputs ==> f.number != g.number)
  }

  lemma OutputApart(outputs: Level, input: seq<Entry>, f: File, g: File)
    requires EntriesAmong(outputs, input) && f in outputs && OutsideOf(g, input)
    ensures Apart(f, g)
  {
    assert First(f) in input && Last(f) in input;
  }

  lemma NextLevelOk(v: Version, c: CompactionInputs, input: seq<Entry>, outputs: Level, v': Version)
    requires VersionOk(v) && InputsOk(v, c) && IsMergeOf(input, c)
    requires OutputsOk(v, c, input, outputs) && Installed(v, c, outputs, v')
    ensures LevelOk(c.level + 1, v'[c.level + 1])
  {
    var l := c.level + 1;
    var old', fs := v[l], v'[l];
    DisjointIsApart(old');
    DisjointIsApart(outputs);
    forall f, g | f in fs && g in fs
      ensures f != g ==> Apart(f, g)
      ensures f.number == g.number ==> f == g
    {
      assert InstalledAt(v, c, outputs, l, f) && InstalledAt(v, c, outputs, l, g);
      if Stays(v, c, l, f) && Stays(v, c, l, g) {
        SameNumberSameFile(old', f, g);
      } else if Stays(v, c, l, f) {
        StaysOutside(v, c, input, f);
        OutputApart(outputs, input, g, f);
      } else if Stays(v, c, l, g) {
        StaysOutside(v, c, input, g);
        OutputApart(outputs, input, f, g);
      }
    }
    ApartAndSortedIsDisjoint(fs);
    SortedHasDistinctNumbers(fs);
  }

  lemma SameNumberSameFile(fs: Level, f: File, g: File)
    requires DistinctNumbers(fs) && f in fs && g in fs
    ensures f.number == g.number ==> f == g
  {
    var i :| 0 <= i < |fs| && fs[i] == f;
    var j :| 0 <= j < |fs| && fs[j] == g;
  }

  /** Removing files from a level keeps it well formed. */
  lemma SubLevelOk(l: nat, old': Level, fs: Level)
    requires LevelOk(l, old') && SortedBySmallest(fs) && forall f :: f in fs ==> f in old'
    ensures LevelOk(l, fs)
  {
    forall f, g | f in fs && g in fs
      ensures f.number == g.number ==> f == g
    {
      SameNumberSameFile(old', f, g);
    }
    SortedHasDistinctNumbers(fs);
    if l > 0 {
      DisjointIsApart(old');
      ApartAndSortedIsDisjoint(fs);
    }
  }

  /** Where an entry of the new version was in the old one. */
  lemma Origin(v: Version, c: CompactionInputs, input: seq<Entry>, outputs: Level, v': Version, m: nat, e: Entry)
    requires InputsOk(v, c) && IsMergeOf(input, c) && EntriesAmong(outputs, input)
    requires Installed(v, c, outputs, v') && m < |v| && e in LevelEntries(v'[m])
    ensures e in LevelEntries(v[m]) || (m == c.level + 1 && e in LevelEntries(v[c.level]))
    ensures m == c.level ==> exists f :: Holds(v, c.level, f, e) && Stays(v, c, c.level, f)
    ensures m == c.level + 1 && e !in LevelEntries(v[m]) ==> e in LevelEntries(c.inputs0)
  {
    var f :| f in v'[m] && e in f.entries;
    assert InstalledAt(v, c, outputs, m, f);
    if Stays(v, c, m, f) {
      assert Holds(v, m, f, e);
      HeldIsEntry(v, m, f, e);
    } else {
      var n, g := InputOrigin(v, c, input, e);
      HeldIsEntry(v, n, g, e);
    }
  }

  lemma LayersStayOrdered(v: Version, c: CompactionInputs, input: seq<Entry>, outputs: Level, v': Version,
                          l: nat, m: nat, a: Entry, b: Entry)
    requires VersionOk(v) && InputsOk(v, c) && IsMergeOf(input, c) && EntriesAmong(outputs, input)
    requires Installed(v, c, outputs, v') && l < m < |v|
    requires a in LevelEntries(v'[l]) && b in LevelEntries(v'[m]) && a.key == b.key
    ensures a.sn > b.sn
  {
    Origin(v, c, input, outputs, v', l, a);
    Origin(v, c, input, outputs, v', m, b);
    if a in LevelEntries(v[l]) && b in LevelEntries(v[m]) {
      DeeperIsOlder(v, l, m, a, b);
    } else if a !in LevelEntries(v[l]) {
      DeeperIsOlder(v, c.level, m, a, b);
    } else if l < c.level {
      DeeperIsOlder(v, l, c.level, a, b);
    } else {
      var f :| Holds(v, c.level, f, a) && Stays(v, c, c.level, f);
      var g :| g in c.inputs0 && b in g.entries;
      NewerIsLeft(v[c.level], c.inputs0, f, g, a, b);
    }
  }

  lemma OwnLevelOk(v: Version, c: CompactionInputs, outputs: Level, v': Version)
    requires VersionOk(v) && Installed(v, c, outputs, v')
    ensures LevelOk(c.level, v'[c.level])
  {
    forall f | f in v'[c.level]
      ensures f in v[c.level]
    {
      assert InstalledAt(v, c, outputs, c.level, f);
    }
    SubLevelOk(c.level, v[c.level], v'[c.level]);
  }

  /** A compaction or a move, seen as taking inputs and installing outputs, keeps the version invariant. */
  lemma InstallKeepsVersion(v: Version, c: CompactionInputs, input: seq<Entry>, outputs: Level, v': Version)
    requires VersionOk(v) && InputsOk(v, c) && IsMergeOf(input, c)
    requires OutputsOk(v, c, input, outputs) && Installed(v, c, outputs, v')
    ensures VersionOk(v')
  {
    NextLevelOk(v, c, input, outputs, v');
    OwnLevelOk(v, c, outputs, v');
    forall l | 0 <= l < |v'|
      ensures LevelOk(l, v'[l])
    {
    }
    forall l, m, a, b | 0 <= l < m < |v'| && a in LevelEntries(v'[l]) && b in LevelEntries(v'[m]) && a.key == b.key
      ensures a.sn > b.sn
    {
      LayersStayOrdered(v, c, input, outputs, v', l, m, a, b);
    }
    forall l, m
      ensures LevelsInOrder(v', l, m)
    {
    }
  }

  /** Numbers stay unique when outputs bring fresh ones or, for a move, the number of the file moved. */
  lemma InstallKeepsNumbers(v: Version, c: CompactionInputs, input: seq<Entry>, outputs: Level, v': Version,
                            next: nat, next': nat)
    requires NumbersOk(v, next) && next <= next' && Installed(v, c, outputs, v')
    requires OutputsOk(v, c, input, outputs) && forall f :: f in outputs ==> f.number < next'
    ensures NumbersOk(v', next')
  {
    forall m, f | 0 <= m < |v'| && f in v'[m]
      ensures f.number < next'
    {
      assert InstalledAt(v, c, outputs, m, f);
    }
    forall m, f, n, g
      ensures DifferentNumbers(v', m, f, n, g)
    {
      assert DifferentNumbers(v, m, f, n, g);
      if 0 <= m < |v'| && 0 <= n < |v'| && f in v'[m] && g in v'[n] {
        assert InstalledAt(v, c, outputs, m, f) && InstalledAt(v, c, outputs, n, g);
      }
    }
  }

  // ----- the three steps -----

  lemma NumberOfOutput(outputs: Level, next: nat, f: File) returns (i: nat)
    requires NumberedFrom(outputs, next) && f in outputs
    ensures i < |outputs| && outputs[i] == f && f.number == next + i
  {
    i :| 0 <= i < |outputs| && outputs[i] == f;
  }

  lemma CutFilesAreOutputs(v: Version, c: CompactionInputs, input: seq<Entry>, smallestSnapshot: nat, outputs: Level,
                           next: nat)
    requires Sorted(input) && Concat(outputs) == Kept(v, c.level, input, |input|, smallestSnapshot)
    requires NumbersOk(v, next) && NumberedFrom(outputs, next)
    ensures OutputsOk(v, c, input, outputs)
  {
    KeptIsSorted(v, c.level, input, |input|, smallestSnapshot);
    CutFilesAreDisjoint(outputs);
    forall f, e | f in outputs && e in f.entries
      ensures e in input
    {
      InConcat(outputs, e);
      InKept(v, c.level, input, |input|, smallestSnapshot, e);
    }
    forall f, g | f in outputs && g in outputs && f.number == g.number
      ensures f == g
    {
      var i := NumberOfOutput(outputs, next, f);
      var j := NumberOfOutput(outputs, next, g);
    }
    forall m, f, g | Stays(v, c, m, f) && g in outputs
      ensures f.number != g.number
    {
      var i := NumberOfOutput(outputs, next, g);
    }
  }

  /** A compaction step: the outputs of the merge loop, with fresh numbers, replace its inputs. */
  lemma CompactionKeepsVersion(v: Version, c: CompactionInputs, input: seq<Entry>, smallestSnapshot: nat,
                               outputs: Level, v': Version, next: nat)
    requires Compacts(v, c, input, smallestSnapshot, outputs, v')
    requires NumbersOk(v, next) && NumberedFrom(outputs, next)
    ensures VersionOk(v') && NumbersOk(v', next + |outputs|)
  {
    CutFilesAreOutputs(v, c, input, smallestSnapshot, outputs, next);
    InstallKeepsVersion(v, c, input, outputs, v');
    forall f | f in outputs
      ensures f.number < next + |outputs|
    {
      var i := NumberOfOutput(outputs, next, f);
    }
    InstallKeepsNumbers(v, c, input, outputs, v', next, next + |outputs|);
  }

  ghost predicate TrivialMove(c: CompactionInputs) {
    |c.inputs0| == 1 && c.inputs1 == []
  }

  lemma MovedFileIsOutput(v: Version, c: CompactionInputs, f: File, next: nat)
    requires InputsOk(v, c) && c.inputs0 == [f] && c.inputs1 == [] && NumbersOk(v, next)
    ensures IsMergeOf(f.entries, c)
    ensures OutputsOk(v, c, f.entries, [f])
  {
    assert forall e :: e in LevelEntries([f]) <==> e in f.entries;
    assert f in c.inputs0;
    assert Disjoint([f]);
    forall m, g | Stays(v, c, m, g)
      ensures g.number != f.number
    {
      assert DifferentNumbers(v, m, g, c.level, f);
    }
  }

  /** Moving the only input file to the next level keeps the invariant and all entries. */
  lemma MoveKeepsVersion(v: Version, c: CompactionInputs, v': Version, next: nat)
    requires VersionOk(v) && InputsOk(v, c) && TrivialMove(c) && Installed(v, c, c.inputs0, v')
    requires NumbersOk(v, next)
    ensures VersionOk(v') && NumbersOk(v', next)
    ensures Entries(v') == Entries(v)
  {
    var f := c.inputs0[0];
    assert c.inputs0 == [f];
    MovedFileIsOutput(v, c, f, next);
    InstallKeepsVersion(v, c, f.entries, [f], v');
    InstallKeepsNumbers(v, c, f.entries, [f], v', next, next);
    MovedEntries(v, c, f, v');
  }

  lemma MovedEntries(v: Version, c: CompactionInputs, f: File, v': Version)
    requires InputsOk(v, c) && c.inputs0 == [f] && IsMergeOf(f.entries, c) && Installed(v, c, [f], v')
    ensures Entries(v') == Entries(v)
  {
    ConcatAppend([], f);
    assert [] + [f] == [f] && [] + f.entries == f.entries;
    forall e
      ensures e in Entries(v') <==> e in Entries(v)
    {
      EntriesSplit(v, c, f.entries, e);
      EntriesAfter(v, c, [f], v', e);
    }
  }

  /** `v'` is `v` with one table added at `level`. */
  ghost predicate TableAdded(v: Version, level: nat, f: File, v': Version) {
    && |v'| == |v| == NUM_LEVELS && level < |v|
    && (forall m :: 0 <= m < |v| && m != level ==> v'[m] == v[m])
    && (forall g :: g in v'[level] <==> g in v[level] || g == f)
    && SortedBySmallest(v'[level])
  }

  /** Nothing in levels 0 to `level` overlaps the user keys of `f`. */
  ghost predicate ClearDownTo(v: Version, level: nat, f: File) {
    forall m, g :: 0 <= m <= level && m < |v| && g in v[m] ==> !Overlaps(g, At(Smallest(f).user), At(Largest(f).user))
  }

  lemma ClearSharesNoKey(v: Version, level: nat, f: File, m: nat, g: File)
    requires ClearDownTo(v, level, f) && m <= level && m < |v| && g in v[m]
    ensures Apart(f, g)
    ensures forall a, b :: a in f.entries && b in g.entries ==> a.key != b.key
  {
    SmallestToLargest(f);
    SmallestToLargest(g);
    assert !Overlaps(g, At(Smallest(f).user), At(Largest(f).user));
    forall a, b | a in f.entries && b in g.entries
      ensures a.key != b.key
    {
      SortedBounds(f, a);
      SortedBounds(g, b);
    }
  }

  lemma AddedEntries(v: Version, level: nat, f: File, v': Version, e: Entry)
    requires TableAdded(v, level, f, v')
    ensures e in Entries(v') <==> e in Entries(v) || e in f.entries
  {
    if e in Entries(v') {
      var m, g := EntryIsHeld(v', e);
      if g in v[m] {
        HeldIsEntry(v, m, g, e);
      }
    } else if e in Entries(v) {
      var m, g := EntryIsHeld(v, e);
      HeldIsEntry(v', m, g, e);
    } else if e in f.entries {
      HeldIsEntry(v', level, f, e);
    }
  }

  /**
   A flush: the table is newer than everything stored, its number is fresh, and it goes to level 0 or to a level
   it can reach without overlapping anything on the way.
   */
  lemma FlushKeepsVersion(v: Version, level: nat, f: File, v': Version, next: nat)
    requires VersionOk(v) && NumbersOk(v, next) && f.number == next
    requires TableAdded(v, level, f, v')
    requires NewerThan(FileEntries(f), Entries(v))
    requires level > 0 ==> ClearDownTo(v, level, f)
    ensures VersionOk(v') && NumbersOk(v', next + 1)
  {
    FlushedLevelOk(v, level, f, v', next);
    forall l, m, a, b | 0 <= l < m < |v'| && a in LevelEntries(v'[l]) && b in LevelEntries(v'[m]) && a.key == b.key
      ensures a.sn > b.sn
    {
      FlushedLayersOrdered(v, level, f, v', l, m, a, b);
    }
    forall l, m
      ensures LevelsInOrder(v', l, m)
    {
    }
    FlushedNumbersOk(v, level, f, v', next);
  }

  lemma FlushedNumbersOk(v: Version, level: nat, f: File, v': Version, next: nat)
    requires NumbersOk(v, next) && f.number == next && TableAdded(v, level, f, v')
    ensures NumbersOk(v', next + 1)
  {
    forall m, g, n, h
      ensures DifferentNumbers(v', m, g, n, h)
    {
      assert DifferentNumbers(v, m, g, n, h);
    }
  }

  lemma FlushedLevelOk(v: Version, level: nat, f: File, v': Version, next: nat)
    requires VersionOk(v) && NumbersOk(v, next) && f.number == next
    requires TableAdded(v, level, f, v')
    requires NewerThan(FileEntries(f), Entries(v))
    requires level > 0 ==> ClearDownTo(v, level, f)
    ensures LevelOk(level, v'[level])
  {
    var fs := v'[level];
    forall g, h | g in fs && h in fs
      ensures g.number == h.number ==> g == h
    {
      if g in v[level] && h in v[level] {
        SameNumberSameFile(v[level], g, h);
      }
    }
    SortedHasDistinctNumbers(fs);
    if level == 0 {
      forall g, h | g in fs && h in fs && g.number > h.number
        ensures NewerThan(FileEntries(g), FileEntries(h))
      {
        if g == f {
          assert h in v[0];
          forall b | b in h.entries
            ensures b in Entries(v)
          {
            HeldIsEntry(v, 0, h, b);
          }
        }
      }
    } else {
      DisjointIsApart(v[level]);
      forall g, h | g in fs && h in fs && g != h
        ensures Apart(g, h)
      {
        if g == f {
          ClearSharesNoKey(v, level, f, level, h);
        } else if h == f {
          ClearSharesNoKey(v, level, f, level, g);
        }
      }
      ApartAndSortedIsDisjoint(fs);
    }
  }

  lemma FlushedLayersOrdered(v: Version, level: nat, f: File, v': Version, l: nat, m: nat, a: Entry, b: Entry)
    requires VersionOk(v) && TableAdded(v, level, f, v') && l < m < |v|
    requires NewerThan(FileEntries(f), Entries(v))
    requires level > 0 ==> ClearDownTo(v, level, f)
    requires a in LevelEntries(v'[l]) && b in LevelEntries(v'[m]) && a.key == b.key
    ensures a.sn > b.sn
  {
    var g :| g in v'[l] && a in g.entries;
    var h :| h in v'[m] && b in h.entries;
    if g in v[l] && h in v[m] {
      HeldIsEntry(v, l, g, a);
      HeldIsEntry(v, m, h, b);
      DeeperIsOlder(v, l, m, a, b);
    } else if g == f && l == level {
      HeldIsEntry(v, m, h, b);
      assert a in FileEntries(f);
    } else {
      ClearSharesNoKey(v, level, f, l, g);
    }
  }
}
