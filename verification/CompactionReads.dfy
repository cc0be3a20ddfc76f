/**
 What a compaction does to readers: exactly when every read at or above the smallest snapshot is unchanged, and
 that the version invariant survives.
 */
module CompactionReads {
  import opened UserKeys
  import opened DbFormat
  import opened Multimap
  import opened Versions
  import opened Inputs
  import opened Compaction

  /** The merged input: the entries of all input files, in internal-key order. */
  ghost predicate IsMergeOf(input: seq<Entry>, c: CompactionInputs) {
    && Sorted(input)
    && forall e :: e in input <==> e in LevelEntries(c.inputs0) || e in LevelEntries(c.inputs1)
  }

  ghost predicate Taken(c: CompactionInputs, m: int, f: File) {
    (m == c.level && f in c.inputs0) || (m == c.level + 1 && f in c.inputs1)
  }

  ghost predicate Stays(v: Version, c: CompactionInputs, m: int, f: File) {
    0 <= m < |v| && f in v[m] && !Taken(c, m, f)
  }

  /** The order in which a saved version lists the files of a level. */
  predicate BySmallest(f: File, g: File) {
    var r := Compare(Smallest(f), Smallest(g));
    if r != 0 then r < 0 else f.number < g.number
  }

  ghost predicate SortedBySmallest(fs: Level) {
    forall i, j :: 0 <= i < j < |fs| ==> BySmallest(fs[i], fs[j])
  }

  /** `v'` is `v` with the inputs removed and `outputs` added to the next level. */
  ghost predicate Installed(v: Version, c: CompactionInputs, outputs: Level, v': Version) {
    && |v'| == |v| == NUM_LEVELS && c.level + 1 < |v|
    && (forall m :: 0 <= m < |v| && m != c.level && m != c.level + 1 ==> v'[m] == v[m])
    && (forall m, f :: 0 <= m < |v| ==> (f in v'[m] <==> InstalledAt(v, c, outputs, m, f)))
    && SortedBySmallest(v'[c.level]) && SortedBySmallest(v'[c.level + 1])
  }

  ghost predicate InstalledAt(v: Version, c: CompactionInputs, outputs: Level, m: int, f: File) {
    Stays(v, c, m, f) || (m == c.level + 1 && f in outputs)
  }

  /** Entry `e` is in file `f` of level `m`. */
  ghost predicate Holds(v: Version, m: int, f: File, e: Entry) {
    0 <= m < |v| && f in v[m] && e in f.entries
  }

  ghost predicate InRest(v: Version, c: CompactionInputs, e: Entry) {
    exists m, f :: Holds(v, m, f, e) && Stays(v, c, m, f)
  }

  /** Entries of the next level that the compaction leaves out. */
  ghost function LeftInNextLevel(v: Version, c: CompactionInputs): set<Entry>
    requires c.level + 1 < |v|
  {
    set f, e | f in v[c.level + 1] && f !in c.inputs1 && e in f.entries :: e
  }

  // ----- where the entries are -----

  lemma {:induction false} InKept(v: Version, level: nat, input: seq<Entry>, n: nat, snap: nat, e: Entry)
    requires n <= |input|
    ensures e in Kept(v, level, input, n, snap) <==>
            exists i :: 0 <= i < n && input[i] == e && !Dropped(v, level, input, i, snap)
  {
    if n > 0 {
      InKept(v, level, input, n - 1, snap, e);
    }
  }

  lemma {:induction false} InConcat(fs: Level, e: Entry)
    ensures e in Concat(fs) <==> e in LevelEntries(fs)
  {
    if fs != [] {
      var init, last := fs[..|fs| - 1], fs[|fs| - 1];
      InConcat(init, e);
      assert fs == init + [last];
    }
  }

  lemma EntryIsHeld(v: Version, e: Entry) returns (m: nat, f: File)
    requires e in Entries(v)
    ensures Holds(v, m, f, e)
  {
    InEntriesFrom(v, 0, e);
    m :| 0 <= m < |v| && e in LevelEntries(v[m]);
    f :| f in v[m] && e in f.entries;
  }

  lemma HeldIsEntry(v: Version, m: int, f: File, e: Entry)
    requires Holds(v, m, f, e)
    ensures e in LevelEntries(v[m]) && e in Entries(v)
  {
    InEntriesFrom(v, 0, e);
  }

  /** An entry of an input file, with its level and file. */
  lemma InputOrigin(v: Version, c: CompactionInputs, input: seq<Entry>, d: Entry) returns (m: nat, g: File)
    requires InputsOk(v, c) && IsMergeOf(input, c) && d in input
    ensures Taken(c, m, g) && Holds(v, m, g, d)
  {
    if d in LevelEntries(c.inputs0) {
      m := c.level;
      g :| g in c.inputs0 && d in g.entries;
    } else {
      m := c.level + 1;
      g :| g in c.inputs1 && d in g.entries;
    }
  }

  lemma TakenIsInput(c: CompactionInputs, input: seq<Entry>, m: int, f: File, e: Entry)
    requires IsMergeOf(input, c) && Taken(c, m, f) && e in f.entries
    ensures e in input
  {
    if m == c.level && f in c.inputs0 {
      assert e in LevelEntries(c.inputs0);
    } else {
      assert e in LevelEntries(c.inputs1);
    }
  }

  lemma EntriesSplit(v: Version, c: CompactionInputs, input: seq<Entry>, e: Entry)
    requires InputsOk(v, c) && IsMergeOf(input, c)
    ensures e in Entries(v) <==> InRest(v, c, e) || e in input
  {
    if e in Entries(v) {
      var m, f := EntryIsHeld(v, e);
      if Taken(c, m, f) {
        TakenIsInput(c, input, m, f, e);
      } else {
        assert Stays(v, c, m, f);
      }
    } else if InRest(v, c, e) {
      var m, f :| Holds(v, m, f, e) && Stays(v, c, m, f);
      HeldIsEntry(v, m, f, e);
    } else if e in input {
      var m, f := InputOrigin(v, c, input, e);
      HeldIsEntry(v, m, f, e);
    }
  }

  lemma EntriesAfter(v: Version, c: CompactionInputs, outputs: Level, v': Version, e: Entry)
    requires Installed(v, c, outputs, v')
    ensures e in Entries(v') <==> InRest(v, c, e) || e in Concat(outputs)
  {
    InConcat(outputs, e);
    if e in Entries(v') {
      var m, f := EntryIsHeld(v', e);
      assert InstalledAt(v, c, outputs, m, f);
      if Stays(v, c, m, f) {
        assert Holds(v, m, f, e);
      }
    } else if InRest(v, c, e) {
      var m, f :| Holds(v, m, f, e) && Stays(v, c, m, f);
      assert InstalledAt(v, c, outputs, m, f);
      HeldIsEntry(v', m, f, e);
    } else if e in LevelEntries(outputs) {
      var f :| f in outputs && e in f.entries;
      assert InstalledAt(v, c, outputs, c.level + 1, f);
      HeldIsEntry(v', c.level + 1, f, e);
    }
  }

  /** An older entry of the same user key outside the inputs can only be deeper than the compaction's level. */
  lemma OlderIsDeeper(v: Version, c: CompactionInputs, l: nat, g: File, d: Entry, m: nat, f: File, e: Entry)
    requires VersionOk(v) && c.level < |v| && LeavesOnlyNewer(v[c.level], c.inputs0)
    requires Taken(c, l, g) && Holds(v, l, g, d)
    requires Stays(v, c, m, f) && Holds(v, m, f, e) && e.key == d.key && e.sn <= d.sn
    ensures m > c.level
    ensures e.sn < d.sn
  {
    HeldIsEntry(v, l, g, d);
    HeldIsEntry(v, m, f, e);
    if m < l {
      DeeperIsOlder(v, m, l, e, d);
    } else if l < m {
      DeeperIsOlder(v, l, m, d, e);
    } else {
      OtherFileOtherSequence(v, m, f, g, e, d);
      if m == c.level {
        NewerIsLeft(v[m], c.inputs0, f, g, e, d);
      }
    }
  }

  lemma NewerIsLeft(files: Level, chosen: Level, f: File, g: File, a: Entry, b: Entry)
    requires LeavesOnlyNewer(files, chosen) && f in files && f !in chosen && g in chosen
    requires a in f.entries && b in g.entries && a.key == b.key
    ensures a.sn > b.sn
  {
    assert NewerThan(FileEntries(f), FileEntries(g));
    assert a in FileEntries(f) && b in FileEntries(g);
  }

  lemma OtherFileOtherSequence(v: Version, m: nat, f: File, g: File, a: Entry, b: Entry)
    requires VersionOk(v) && m < |v| && f in v[m] && g in v[m] && f != g
    requires a in f.entries && b in g.entries && a.key == b.key
    ensures a.sn != b.sn
  {
    var i :| 0 <= i < |v[m]| && v[m][i] == f;
    var j :| 0 <= j < |v[m]| && v[m][j] == g;
    if i < j {
      NoRepeatAcrossFiles(m, v[m], i, j, a, b);
    } else {
      NoRepeatAcrossFiles(m, v[m], j, i, b, a);
    }
  }

  lemma NotInRest(v: Version, c: CompactionInputs, input: seq<Entry>, d: Entry)
    requires VersionOk(v) && InputsOk(v, c) && IsMergeOf(input, c) && d in input
    ensures !InRest(v, c, d)
  {
    var l, g := InputOrigin(v, c, input, d);
    if m, f :| Holds(v, m, f, d) && Stays(v, c, m, f) {
      OlderIsDeeper(v, c, l, g, d, m, f, d);
    }
  }

  // ----- what is dropped -----

  /** Rule (A) looks only one entry back, but that is enough: any newer settled entry of the key hides this one. */
  lemma HiddenByAny(input: seq<Entry>, j: nat, i: nat, smallestSnapshot: nat)
    requires Sorted(input) && j < i < |input|
    requires input[j].key == input[i].key && input[j].sn <= smallestSnapshot
    ensures Hidden(input, i, smallestSnapshot)
  {
    assert InOrder(input, j, i - 1) && InOrder(input, i - 1, i);
  }

  lemma IndexOf(input: seq<Entry>, d: Entry, e: Entry) returns (i: nat, j: nat)
    requires Sorted(input) && d in input && e in input && e.key == d.key && e.sn < d.sn
    ensures i < j < |input| && input[i] == d && input[j] == e
  {
    i :| 0 <= i < |input| && input[i] == d;
    j :| 0 <= j < |input| && input[j] == e;
    assert InOrder(input, j, i);
  }

  lemma SameIndex(input: seq<Entry>, j: nat, k: nat)
    requires Sorted(input) && j < |input| && k < |input| && input[j] == input[k]
    ensures j == k
  {
    assert InOrder(input, j, k) && InOrder(input, k, j);
  }

  /** Nothing older of its key survives in the merged input below an entry visible to every snapshot. */
  lemma OlderInputIsDropped(v: Version, level: nat, input: seq<Entry>, smallestSnapshot: nat, d: Entry, e: Entry)
    requires Sorted(input) && d in input && d.sn <= smallestSnapshot && e.key == d.key && e.sn < d.sn
    ensures e !in Kept(v, level, input, |input|, smallestSnapshot)
  {
    InKept(v, level, input, |input|, smallestSnapshot, e);
    if k :| 0 <= k < |input| && input[k] == e && !Dropped(v, level, input, k, smallestSnapshot) {
      var i, j := IndexOf(input, d, e);
      SameIndex(input, j, k);
      HiddenByAny(input, i, j, smallestSnapshot);
    }
  }

  /** Outside the inputs, older entries of a user key without deeper data are in the next level. */
  lemma LeftBelowTombstone(v: Version, c: CompactionInputs, input: seq<Entry>, d: Entry, e: Entry)
    requires VersionOk(v) && InputsOk(v, c) && IsMergeOf(input, c) && d in input
    requires BaseLevel(v, c.level, d.key)
    requires InRest(v, c, e) && e.key == d.key && e.sn < d.sn
    ensures e in LeftInNextLevel(v, c)
  {
    var l, g := InputOrigin(v, c, input, d);
    var m, f :| Holds(v, m, f, e) && Stays(v, c, m, f);
    OlderIsDeeper(v, c, l, g, d, m, f, e);
    OnlyInNextLevel(v, c, m, f, e);
  }

  lemma OnlyInNextLevel(v: Version, c: CompactionInputs, m: nat, f: File, e: Entry)
    requires Holds(v, m, f, e) && Stays(v, c, m, f) && c.level < m && c.level + 1 < |v|
    requires BaseLevel(v, c.level, e.key)
    ensures e in LeftInNextLevel(v, c)
  {
    SortedBounds(f, e);
    assert m == c.level + 1 || !Covers(f, e.key);
  }

  // ----- the effect on reads -----

  /**
   Dropping tombstone `d` uncovers `f`: `d` is what readers at the smallest snapshot see, no deeper level holds its
   key, and the next level, outside the inputs, holds an older value of the key.
   */
  ghost predicate Resurrects(v: Version, c: CompactionInputs, input: seq<Entry>, smallestSnapshot: nat, d: Entry,
                             f: Entry)
    requires c.level + 1 < |v|
  {
    && d in input && d.op.Delete?
    && Newest(Entries(v), d.key, smallestSnapshot, d)
    && BaseLevel(v, c.level, d.key)
    && f.op.Put? && f.sn < d.sn && Newest(LeftInNextLevel(v, c), d.key, d.sn, f)
  }

  ghost predicate NothingResurrects(v: Version, c: CompactionInputs, input: seq<Entry>, smallestSnapshot: nat)
    requires c.level + 1 < |v|
  {
    forall d, f :: !Resurrects(v, c, input, smallestSnapshot, d, f)
  }

  /** Everything a compaction of version `v` needs, and the version `v'` it leads to. */
  ghost predicate Compacts(v: Version, c: CompactionInputs, input: seq<Entry>, smallestSnapshot: nat, outputs: Level,
                           v': Version)
  {
    && VersionOk(v) && InputsOk(v, c) && IsMergeOf(input, c)
    && Concat(outputs) == Kept(v, c.level, input, |input|, smallestSnapshot)
    && Installed(v, c, outputs, v')
  }

  ghost predicate FromInputs(c: CompactionInputs, e: Entry) {
    e in LevelEntries(c.inputs0) || e in LevelEntries(c.inputs1)
  }

  /** What no reader needs of the inputs is gone: older entries of a key, and tombstones with no data below. */
  ghost predicate Reclaimed(v: Version, c: CompactionInputs, smallestSnapshot: nat, v': Version) {
    && (forall d, e :: FromInputs(c, d) && FromInputs(c, e) && e.key == d.key && e.sn < d.sn <= smallestSnapshot
                       ==> e !in Entries(v'))
    && (forall d :: FromInputs(c, d) && d.op.Delete? && d.sn <= smallestSnapshot && BaseLevel(v, c.level, d.key)
                    ==> d !in Entries(v'))
  }

  /** A compaction gets rid of everything in its inputs that no snapshot from the smallest on can read. */
  lemma CompactionReclaims(v: Version, c: CompactionInputs, input: seq<Entry>, smallestSnapshot: nat, outputs: Level,
                           v': Version)
    requires Compacts(v, c, input, smallestSnapshot, outputs, v')
    ensures Reclaimed(v, c, smallestSnapshot, v')
  {
    hide VersionOk, InputsOk, Installed, BaseLevel;
    forall d, e | FromInputs(c, d) && FromInputs(c, e) && e.key == d.key && e.sn < d.sn <= smallestSnapshot
      ensures e !in Entries(v')
    {
      OlderInputIsDropped(v, c.level, input, smallestSnapshot, d, e);
      NotInRest(v, c, input, e);
      EntriesAfter(v, c, outputs, v', e);
    }
    forall d | FromInputs(c, d) && d.op.Delete? && d.sn <= smallestSnapshot && BaseLevel(v, c.level, d.key)
      ensures d !in Entries(v')
    {
      InKept(v, c.level, input, |input|, smallestSnapshot, d);
      NotInRest(v, c, input, d);
      EntriesAfter(v, c, outputs, v', d);
    }
  }

  lemma AfterIsSubset(v: Version, c: CompactionInputs, input: seq<Entry>, smallestSnapshot: nat, outputs: Level,
                      v': Version)
    requires Compacts(v, c, input, smallestSnapshot, outputs, v')
    ensures Entries(v') <= Entries(v)
    ensures UniqueSequences(Entries(v)) && UniqueSequences(Entries(v'))
  {
    UniqueInVersion(v, 0);
    forall e | e in Entries(v')
      ensures e in Entries(v)
    {
      EntriesAfter(v, c, outputs, v', e);
      EntriesSplit(v, c, input, e);
      InKept(v, c.level, input, |input|, smallestSnapshot, e);
    }
  }

  /** A newest entry that disappears was a tombstone with nothing deeper, visible to every snapshot. */
  lemma LostNewestIsObsolete(v: Version, c: CompactionInputs, input: seq<Entry>, smallestSnapshot: nat, outputs: Level,
                             v': Version, k: UserKey, snap: nat, n: Entry)
    requires Compacts(v, c, input, smallestSnapshot, outputs, v')
    requires smallestSnapshot <= snap && Newest(Entries(v), k, snap, n) && n !in Entries(v')
    ensures n in input && Obsolete(v, c.level, n, smallestSnapshot)
    ensures Newest(Entries(v), k, smallestSnapshot, n)
  {
    EntriesSplit(v, c, input, n);
    EntriesAfter(v, c, outputs, v', n);
    InKept(v, c.level, input, |input|, smallestSnapshot, n);
    var i :| 0 <= i < |input| && input[i] == n;
    assert Dropped(v, c.level, input, i, smallestSnapshot);
    if Hidden(input, i, smallestSnapshot) {
      assert InOrder(input, i - 1, i);
      EntriesSplit(v, c, input, input[i - 1]);
      assert Visible(Entries(v), k, snap, input[i - 1]);
    }
    forall f | Visible(Entries(v), k, smallestSnapshot, f)
      ensures f.sn <= n.sn
    {
      assert Visible(Entries(v), k, snap, f);
    }
  }

  /** Below an obsolete tombstone, what the new version still shows of its key is left in the next level. */
  lemma SurvivorIsLeft(v: Version, c: CompactionInputs, input: seq<Entry>, smallestSnapshot: nat, outputs: Level,
                       v': Version, d: Entry, e: Entry)
    requires Compacts(v, c, input, smallestSnapshot, outputs, v')
    requires d in input && Obsolete(v, c.level, d, smallestSnapshot)
    requires e.key == d.key && e.sn < d.sn
    ensures e in Entries(v') <==> e in LeftInNextLevel(v, c)
  {
    EntriesAfter(v, c, outputs, v', e);
    OlderInputIsDropped(v, c.level, input, smallestSnapshot, d, e);
    if InRest(v, c, e) {
      LeftBelowTombstone(v, c, input, d, e);
    }
    if e in LeftInNextLevel(v, c) {
      var f :| f in v[c.level + 1] && f !in c.inputs1 && e in f.entries;
      assert Holds(v, c.level + 1, f, e) && Stays(v, c, c.level + 1, f);
    }
  }

  lemma ReadUnchanged(v: Version, c: CompactionInputs, input: seq<Entry>, smallestSnapshot: nat, outputs: Level,
                      v': Version, k: UserKey, snap: nat)
    requires Compacts(v, c, input, smallestSnapshot, outputs, v') && smallestSnapshot <= snap
    requires NothingResurrects(v, c, input, smallestSnapshot)
    ensures Read(Entries(v'), k, snap) == Read(Entries(v), k, snap)
  {
    AfterIsSubset(v, c, input, smallestSnapshot, outputs, v');
    if e :| Visible(Entries(v), k, snap, e) {
      var n := NewestExists(Entries(v), k, snap, e);
      ReadNewest(Entries(v), k, snap, n);
      if n in Entries(v') {
        StillNewest(Entries(v), Entries(v'), k, snap, n);
        ReadNewest(Entries(v'), k, snap, n);
      } else {
        TombstoneLeavesNoValue(v, c, input, smallestSnapshot, outputs, v', k, snap, n);
      }
    } else {
      assert NothingVisible(Entries(v'), k, snap) by {
        forall e ensures !Visible(Entries(v'), k, snap, e) {
          assert !Visible(Entries(v), k, snap, e);
        }
      }
      ReadAbsent(Entries(v'), k, snap);
      ReadAbsent(Entries(v), k, snap);
    }
  }

  lemma StillNewest(es: set<Entry>, es': set<Entry>, k: UserKey, snap: nat, n: Entry)
    requires es' <= es && n in es' && Newest(es, k, snap, n)
    ensures Newest(es', k, snap, n)
  {
    forall f | Visible(es', k, snap, f)
      ensures f.sn <= n.sn
    {
      assert Visible(es, k, snap, f);
    }
  }

  lemma TombstoneLeavesNoValue(v: Version, c: CompactionInputs, input: seq<Entry>, smallestSnapshot: nat,
                               outputs: Level, v': Version, k: UserKey, snap: nat, n: Entry)
    requires Compacts(v, c, input, smallestSnapshot, outputs, v') && smallestSnapshot <= snap
    requires NothingResurrects(v, c, input, smallestSnapshot)
    requires Newest(Entries(v), k, snap, n) && n !in Entries(v')
    ensures ResultOf(n) == NotFound && Read(Entries(v'), k, snap) == NotFound
  {
    AfterIsSubset(v, c, input, smallestSnapshot, outputs, v');
    LostNewestIsObsolete(v, c, input, smallestSnapshot, outputs, v', k, snap, n);
    if f :| Visible(Entries(v'), k, snap, f) {
      var m := NewestExists(Entries(v'), k, snap, f);
      ReadNewest(Entries(v'), k, snap, m);
      assert Visible(Entries(v), k, snap, m);
      assert m.sn < n.sn;
      SurvivorIsLeft(v, c, input, smallestSnapshot, outputs, v', n, m);
      forall g | Visible(LeftInNextLevel(v, c), k, n.sn, g)
        ensures g.sn <= m.sn
      {
        LeftIsOther(v, c, input, n, g);
        SurvivorIsLeft(v, c, input, smallestSnapshot, outputs, v', n, g);
        assert Visible(Entries(v'), k, snap, g);
      }
      assert Newest(LeftInNextLevel(v, c), k, n.sn, m);
      assert !Resurrects(v, c, input, smallestSnapshot, n, m);
    } else {
      ReadAbsent(Entries(v'), k, snap);
    }
  }

  lemma LeftIsHeld(v: Version, c: CompactionInputs, g: Entry) returns (f: File)
    requires c.level + 1 < |v| && g in LeftInNextLevel(v, c)
    ensures Holds(v, c.level + 1, f, g) && Stays(v, c, c.level + 1, f)
  {
    f :| f in v[c.level + 1] && f !in c.inputs1 && g in f.entries;
  }

  lemma LeftIsOther(v: Version, c: CompactionInputs, input: seq<Entry>, d: Entry, g: Entry)
    requires VersionOk(v) && InputsOk(v, c) && IsMergeOf(input, c) && d in input
    requires g in LeftInNextLevel(v, c) && g.key == d.key
    ensures g.sn != d.sn
  {
    var l, h := InputOrigin(v, c, input, d);
    var f := LeftIsHeld(v, c, g);
    if g.sn == d.sn {
      OlderIsDeeper(v, c, l, h, d, c.level + 1, f, g);
    }
  }

  lemma ResurrectionShows(v: Version, c: CompactionInputs, input: seq<Entry>, smallestSnapshot: nat, outputs: Level,
                          v': Version, d: Entry, f: Entry)
    requires Compacts(v, c, input, smallestSnapshot, outputs, v')
    requires Resurrects(v, c, input, smallestSnapshot, d, f)
    ensures Read(Entries(v), d.key, smallestSnapshot) == NotFound
    ensures Read(Entries(v'), d.key, smallestSnapshot) == Found(f.op.value)
  {
    AfterIsSubset(v, c, input, smallestSnapshot, outputs, v');
    ReadNewest(Entries(v), d.key, smallestSnapshot, d);
    SurvivorIsLeft(v, c, input, smallestSnapshot, outputs, v', d, f);
    DroppedForGood(v, c, input, smallestSnapshot, outputs, v', d);
    forall g | Visible(Entries(v'), d.key, smallestSnapshot, g)
      ensures g.sn <= f.sn
    {
      assert Visible(Entries(v), d.key, smallestSnapshot, g);
      assert g.sn == d.sn ==> g == d;
      SurvivorIsLeft(v, c, input, smallestSnapshot, outputs, v', d, g);
      assert Visible(LeftInNextLevel(v, c), d.key, d.sn, g);
    }
    ReadNewest(Entries(v'), d.key, smallestSnapshot, f);
  }

  lemma DroppedForGood(v: Version, c: CompactionInputs, input: seq<Entry>, smallestSnapshot: nat, outputs: Level,
                       v': Version, d: Entry)
    requires Compacts(v, c, input, smallestSnapshot, outputs, v')
    requires d in input && Obsolete(v, c.level, d, smallestSnapshot)
    ensures d !in Entries(v')
  {
    EntriesAfter(v, c, outputs, v', d);
    NotInRest(v, c, input, d);
    InKept(v, c.level, input, |input|, smallestSnapshot, d);
  }

  /**
   The exact condition: a compaction leaves every read of every user key at every snapshot from the smallest one
   on unchanged if and only if it uncovers no value.
   */
  lemma ReadsPreservedIffNothingResurrects(v: Version, c: CompactionInputs, input: seq<Entry>, smallestSnapshot: nat,
                                           outputs: Level, v': Version)
    requires Compacts(v, c, input, smallestSnapshot, outputs, v')
    ensures NothingResurrects(v, c, input, smallestSnapshot) <==>
            forall k, snap :: smallestSnapshot <= snap ==> Read(Entries(v'), k, snap) == Read(Entries(v), k, snap)
  {
    if NothingResurrects(v, c, input, smallestSnapshot) {
      forall k, snap: nat | smallestSnapshot <= snap
        ensures Read(Entries(v'), k, snap) == Read(Entries(v), k, snap)
      {
        ReadUnchanged(v, c, input, smallestSnapshot, outputs, v', k, snap);
      }
    } else {
      var d, f :| Resurrects(v, c, input, smallestSnapshot, d, f);
      ResurrectionShows(v, c, input, smallestSnapshot, outputs, v', d, f);
    }
  }

  /**
   The condition a caller can check on file boundaries alone: no file of the next level starts inside the user key
   at which the chosen files of that level end. This is the closure SetupOtherInputs performs for the
   compaction's own level but not for the next one.
   */
  lemma ClosedNextLevelIsSafe(v: Version, c: CompactionInputs, input: seq<Entry>, smallestSnapshot: nat)
    requires VersionOk(v) && InputsOk(v, c) && IsMergeOf(input, c)
    requires BoundaryClosed(v[c.level + 1], c.inputs1)
    ensures NothingResurrects(v, c, input, smallestSnapshot)
  {
    forall d, f | Resurrects(v, c, input, smallestSnapshot, d, f)
      ensures false
    {
      LeftIsNewerOrOther(v, c, input, d, f);
    }
  }

  lemma LeftIsNewerOrOther(v: Version, c: CompactionInputs, input: seq<Entry>, d: Entry, f: Entry)
    requires VersionOk(v) && InputsOk(v, c) && IsMergeOf(input, c)
    requires BoundaryClosed(v[c.level + 1], c.inputs1)
    requires d in input && f in LeftInNextLevel(v, c) && d.key == f.key
    ensures f.sn > d.sn
  {
    var h := LeftIsHeld(v, c, f);
    var l, g := InputOrigin(v, c, input, d);
    if l == c.level && g in c.inputs0 {
      LeftOutsideRange(v, c, g, d, h, f);
    } else {
      ClosedSelectionLeavesOnlyNewer(v[c.level + 1], At(c.smallest.user), At(c.largest.user));
      NewerIsLeft(v[c.level + 1], c.inputs1, h, g, f, d);
    }
  }

  lemma LeftOutsideRange(v: Version, c: CompactionInputs, g: File, d: Entry, h: File, f: Entry)
    requires InputsOk(v, c) && g in c.inputs0 && d in g.entries
    requires h in v[c.level + 1] && h !in c.inputs1 && f in h.entries
    ensures d.key != f.key
  {
    SortedBounds(g, d);
    SortedBounds(h, f);
    assert c.smallest.user <= Smallest(g).user && Largest(g).user <= c.largest.user;
    assert !Overlaps(h, At(c.smallest.user), At(c.largest.user));
  }
}
