/**
 Flushes in the middle of a compaction. The merge loop stops for them (db/db_impl.cc:907-918), so when the outputs are
 installed the version has tables the compaction knows nothing of (db/db_impl.cc:491-566, 860-876). Exactly when the
 new version is well formed, why a compaction set up by PickCompaction always is, and what every run then keeps.
 */
module FlushMeanwhile {
  import opened Options
  import opened UserKeys
  import opened DbFormat
  import opened Multimap
  import opened Versions
  import opened Inputs
  import opened Compaction
  import opened CompactionReads
  import opened VersionSteps
  import opened InstallEdits
  import opened Database

  /** A compaction under way: what it set out from and what its merge gives. Where outputs are cut is not determined. */
  datatype Job = Job(base: Version, c: CompactionInputs, input: seq<Entry>, snapshot: nat, outputs: Level)

  ghost predicate Merged(j: Job) {
    && VersionOk(j.base) && InputsOk(j.base, j.c) && IsMergeOf(j.input, j.c)
    && Concat(j.outputs) == Kept(j.base, j.c.level, j.input, |j.input|, j.snapshot)
  }

  // ----- what flushes do to the version -----

  ghost predicate FlushedIn(v: Version, w: Version, m: int, g: File) {
    0 <= m < |v| == |w| && g in w[m] && g !in v[m]
  }

  ghost predicate FlushedOk(v: Version, w: Version, m: int, g: File) {
    FlushedIn(v, w, m, g) ==>
      && NewerThan(FileEntries(g), Entries(v)) && m <= MAX_MEM_COMPACT_LEVEL
      && (m > 0 ==> ClearDownTo(v, m, g))
  }

  /** `w` has the files of `v` and tables flushed since. */
  ghost predicate Grown(v: Version, w: Version) {
    && |v| == |w| == NUM_LEVELS
    && (forall m, f :: 0 <= m < |v| && f in v[m] ==> f in w[m])
    && (forall m, g :: FlushedOk(v, w, m, g))
  }

  lemma GrownEntries(v: Version, w: Version)
    requires Grown(v, w)
    ensures Entries(v) <= Entries(w)
  {
    forall e | e in Entries(v)
      ensures e in Entries(w)
    {
      var m, f := EntryIsHeld(v, e);
      HeldIsEntry(w, m, f, e);
    }
  }

  lemma FlushGrows(v: Version, w: Version, level: nat, f: File, w': Version)
    requires Grown(v, w) && TableAdded(w, level, f, w') && NewerThan(FileEntries(f), Entries(w))
    requires level <= MAX_MEM_COMPACT_LEVEL && (level > 0 ==> ClearDownTo(w, level, f))
    ensures Grown(v, w')
  {
    GrownEntries(v, w);
    forall m, g
      ensures FlushedOk(v, w', m, g)
    {
      assert FlushedOk(v, w, m, g);
    }
  }

  // ----- installing on the grown version -----

  /** The outputs have numbers of their own. */
  ghost predicate FreshOutputs(w: Version, outputs: Level) {
    && (forall f, g :: f in outputs && g in outputs && f.number == g.number ==> f == g)
    && (forall m, f, g :: 0 <= m < |w| && f in w[m] && g in outputs ==> f.number != g.number)
  }

  /** A table flushed to the next level lies across an output. */
  ghost predicate Clash(j: Job, w: Version, g: File, o: File) {
    FlushedIn(j.base, w, j.c.level + 1, g) && o in j.outputs && !Apart(g, o)
  }

  ghost predicate NoClash(j: Job, w: Version) {
    forall g, o :: !Clash(j, w, g, o)
  }

  lemma JobOutputs(j: Job, w: Version)
    requires Merged(j) && FreshOutputs(w, j.outputs)
    ensures OutputsOk(w, j.c, j.input, j.outputs)
  {
    hide VersionOk, InputsOk;
    KeptIsSorted(j.base, j.c.level, j.input, |j.input|, j.snapshot);
    CutFilesAreDisjoint(j.outputs);
    OutputsFromInput(j);
  }

  lemma OutputsFromInput(j: Job)
    requires Merged(j)
    ensures EntriesAmong(j.outputs, j.input)
  {
    hide VersionOk, InputsOk;
    forall f, e | f in j.outputs && e in f.entries
      ensures e in j.input
    {
      InConcat(j.outputs, e);
      InKept(j.base, j.c.level, j.input, |j.input|, j.snapshot, e);
    }
  }

  /** An input file is still in the version and still taken. */
  lemma InputsStay(j: Job, w: Version, m: int, f: File)
    requires InputsOk(j.base, j.c) && Grown(j.base, w)
    ensures Taken(j.c, m, f) ==> 0 <= m < |w| && f in j.base[m] && f in w[m]
    ensures FlushedIn(j.base, w, m, f) ==> Stays(w, j.c, m, f)
    ensures Stays(w, j.c, m, f) ==> Stays(j.base, j.c, m, f) || FlushedIn(j.base, w, m, f)
  {
  }

  lemma NextLevelClear(j: Job, w: Version, w': Version)
    requires Merged(j) && VersionOk(w) && Grown(j.base, w) && OutputsOk(w, j.c, j.input, j.outputs)
    requires Installed(w, j.c, j.outputs, w') && NoClash(j, w)
    ensures LevelOk(j.c.level + 1, w'[j.c.level + 1])
  {
    var l := j.c.level + 1;
    DisjointIsApart(w[l]);
    DisjointIsApart(j.outputs);
    forall f, g | f in w'[l] && g in w'[l]
      ensures f != g ==> Apart(f, g)
      ensures f.number == g.number ==> f == g
    {
      assert InstalledAt(w, j.c, j.outputs, l, f) && InstalledAt(w, j.c, j.outputs, l, g);
      if Stays(w, j.c, l, f) && Stays(w, j.c, l, g) {
        SameNumberSameFile(w[l], f, g);
      } else if Stays(w, j.c, l, f) {
        ApartFromOutput(j, w, f, g);
      } else if Stays(w, j.c, l, g) {
        ApartFromOutput(j, w, g, f);
      }
    }
    ApartAndSortedIsDisjoint(w'[l]);
    SortedHasDistinctNumbers(w'[l]);
  }

  lemma ApartFromOutput(j: Job, w: Version, f: File, o: File)
    requires Merged(j) && Grown(j.base, w) && EntriesAmong(j.outputs, j.input) && NoClash(j, w)
    requires Stays(w, j.c, j.c.level + 1, f) && o in j.outputs
    ensures Apart(f, o)
  {
    hide VersionOk;
    assert !Clash(j, w, f, o);
    if f in j.base[j.c.level + 1] {
      StaysOutside(j.base, j.c, j.input, f);
      OutputApart(j.outputs, j.input, o, f);
    }
  }

  lemma OriginMeanwhile(j: Job, w: Version, w': Version, m: nat, e: Entry) returns (f: File)
    requires EntriesAmong(j.outputs, j.input) && Installed(w, j.c, j.outputs, w') && m < |w| && e in LevelEntries(w'[m])
    ensures (Holds(w, m, f, e) && Stays(w, j.c, m, f)) || (m == j.c.level + 1 && e in j.input)
  {
    f :| f in w'[m] && e in f.entries;
    assert InstalledAt(w, j.c, j.outputs, m, f);
  }

  lemma InputHeld(j: Job, w: Version, e: Entry) returns (n: nat, h: File)
    requires Merged(j) && Grown(j.base, w) && e in j.input
    ensures Taken(j.c, n, h) && Holds(j.base, n, h, e) && j.c.level <= n <= j.c.level + 1 < NUM_LEVELS
    ensures e in LevelEntries(w[n]) && e in Entries(j.base)
  {
    var n', h' := InputOrigin(j.base, j.c, j.input, e);
    n, h := n', h';
    HeldIsEntry(j.base, n, h, e);
    HeldIsEntry(w, n, h, e);
  }

  lemma OrderedMeanwhile(j: Job, w: Version, w': Version, l: nat, m: nat, a: Entry, b: Entry)
    requires Merged(j) && VersionOk(w) && Grown(j.base, w) && EntriesAmong(j.outputs, j.input)
    requires Installed(w, j.c, j.outputs, w') && l < m < |w|
    requires a in LevelEntries(w'[l]) && b in LevelEntries(w'[m]) && a.key == b.key
    ensures a.sn > b.sn
  {
    hide IsMergeOf, Grown, InputsOk, Installed, VersionOk, EntriesAmong;
    var f := OriginMeanwhile(j, w, w', l, a);
    var g := OriginMeanwhile(j, w, w', m, b);
    if Holds(w, l, f, a) && Stays(w, j.c, l, f) {
      HeldIsEntry(w, l, f, a);
      if Holds(w, m, g, b) && Stays(w, j.c, m, g) {
        HeldIsEntry(w, m, g, b);
        DeeperIsOlder(w, l, m, a, b);
      } else {
        StaysAboveInput(j, w, l, f, a, b);
      }
    } else {
      HeldIsEntry(w, m, g, b);
      var n, h := InputHeld(j, w, a);
      DeeperIsOlder(w, n, m, a, b);
    }
  }

  lemma StaysAboveInput(j: Job, w: Version, l: nat, f: File, a: Entry, b: Entry)
    requires Merged(j) && VersionOk(w) && Grown(j.base, w) && b in j.input
    requires Holds(w, l, f, a) && Stays(w, j.c, l, f) && l <= j.c.level && a.key == b.key
    ensures a.sn > b.sn
  {
    hide IsMergeOf, VersionOk;
    HeldIsEntry(w, l, f, a);
    var n, h := InputHeld(j, w, b);
    if l < n {
      DeeperIsOlder(w, l, n, a, b);
    } else if f in j.base[l] {
      NewerIsLeft(j.base[l], j.c.inputs0, f, h, a, b);
    } else {
      assert FlushedOk(j.base, w, l, f) && FlushedIn(j.base, w, l, f);
      assert a in FileEntries(f);
    }
  }

  /**
   The version the outputs are installed in is well formed exactly when no table flushed to their level lies across one
   of them.
   */
  lemma InstalledOkIffNoClash(j: Job, w: Version, w': Version)
    requires Merged(j) && VersionOk(w) && Grown(j.base, w) && FreshOutputs(w, j.outputs)
    requires Installed(w, j.c, j.outputs, w')
    ensures VersionOk(w') <==> NoClash(j, w)
  {
    hide Merged, Grown, VersionOk, Installed;
    JobOutputs(j, w);
    if NoClash(j, w) {
      InstalledOk(j, w, w');
    } else {
      var g, o :| Clash(j, w, g, o);
      ClashBreaksVersion(j, w, w', g, o);
    }
  }

  lemma InstalledOk(j: Job, w: Version, w': Version)
    requires Merged(j) && VersionOk(w) && Grown(j.base, w) && OutputsOk(w, j.c, j.input, j.outputs)
    requires Installed(w, j.c, j.outputs, w') && NoClash(j, w)
    ensures VersionOk(w')
  {
    hide Merged, Grown, OutputsOk, NoClash;
    NextLevelClear(j, w, w');
    OwnLevelOk(w, j.c, j.outputs, w');
    forall l | 0 <= l < |w'|
      ensures LevelOk(l, w'[l])
    {
    }
    forall l, m, a, b | 0 <= l < m < |w'| && a in LevelEntries(w'[l]) && b in LevelEntries(w'[m]) && a.key == b.key
      ensures a.sn > b.sn
    {
      assert EntriesAmong(j.outputs, j.input) by {
        OutputsHoldInput(j, w);
      }
      OrderedMeanwhile(j, w, w', l, m, a, b);
    }
    forall l, m
      ensures LevelsInOrder(w', l, m)
    {
    }
  }

  lemma OutputsHoldInput(j: Job, w: Version)
    requires OutputsOk(w, j.c, j.input, j.outputs)
    ensures EntriesAmong(j.outputs, j.input)
  {
  }

  lemma ClashBreaksVersion(j: Job, w: Version, w': Version, g: File, o: File)
    requires Merged(j) && Grown(j.base, w) && OutputsOk(w, j.c, j.input, j.outputs)
    requires Installed(w, j.c, j.outputs, w') && Clash(j, w, g, o)
    ensures !VersionOk(w')
  {
    var l := j.c.level + 1;
    InputsStay(j, w, l, g);
    assert InstalledAt(w, j.c, j.outputs, l, g) && InstalledAt(w, j.c, j.outputs, l, o);
    assert g.number != o.number;
    if VersionOk(w') {
      assert LevelOk(l, w'[l]);
      DisjointIsApart(w'[l]);
    }
  }

  // ----- compactions set up by PickCompaction -----

  /** Inputs without a gap leave no room: a table across an output would overlap an input, and not be in that level. */
  lemma NoGapNoClash(j: Job, w: Version)
    requires Merged(j) && Grown(j.base, w) && NoGap(j.c.inputs0 + j.c.inputs1)
    requires EntriesAmong(j.outputs, j.input)
    ensures NoClash(j, w)
  {
    hide Merged, Grown, NoGap;
    forall g, o
      ensures !Clash(j, w, g, o)
    {
      if Clash(j, w, g, o) {
        var k := SharedKey(g, o);
        var n, h := InputCovers(j, w, o, k);
        FlushedMissesInput(j, w, g, n, h, k);
      }
    }
  }

  lemma SharedKey(g: File, o: File) returns (k: UserKey)
    requires !Apart(g, o)
    ensures CoversKey(g, k) && CoversKey(o, k)
  {
    SmallestToLargest(g);
    SmallestToLargest(o);
    k := if First(g).key < First(o).key then First(o).key else First(g).key;
  }

  /** Without a gap, whatever lies between two entries of the files is in the range of one of them. */
  lemma CoveredBetween(files: Level, p: File, q: File, a: Entry, b: Entry, k: UserKey) returns (h: File)
    requires NoGap(files) && p in files && q in files && a in p.entries && b in q.entries
    requires a.key <= k <= b.key
    ensures h in files && CoversKey(h, k)
  {
    SortedBounds(p, a);
    SortedBounds(q, b);
    assert Bridged(files, p, q, k);
    h :| h in files && CoversKey(h, k);
  }

  lemma InputLevel(j: Job, h: File) returns (n: nat)
    requires Merged(j) && h in j.c.inputs0 + j.c.inputs1
    ensures j.c.level <= n <= j.c.level + 1 < |j.base| && h in j.base[n]
  {
    hide VersionOk, IsMergeOf, Kept;
    n := if h in j.c.inputs0 then j.c.level else j.c.level + 1;
  }

  /** Every key in the range of an output is in the range of an input file. */
  lemma InputCovers(j: Job, w: Version, o: File, k: UserKey) returns (n: nat, h: File)
    requires Merged(j) && Grown(j.base, w) && NoGap(j.c.inputs0 + j.c.inputs1)
    requires EntriesAmong(j.outputs, j.input) && o in j.outputs && CoversKey(o, k)
    ensures j.c.level <= n <= j.c.level + 1 < |j.base| && h in j.base[n] && CoversKey(h, k)
  {
    hide Merged, Grown, NoGap, VersionOk;
    var inputs := j.c.inputs0 + j.c.inputs1;
    assert First(o) in o.entries && Last(o) in o.entries;
    var m, p := InputHeld(j, w, First(o));
    var m', q := InputHeld(j, w, Last(o));
    assert p in inputs && q in inputs;
    h := CoveredBetween(inputs, p, q, First(o), Last(o), k);
    n := InputLevel(j, h);
  }

  lemma FlushedMissesInput(j: Job, w: Version, g: File, n: nat, h: File, k: UserKey)
    requires Grown(j.base, w) && FlushedIn(j.base, w, j.c.level + 1, g)
    requires n <= j.c.level + 1 && n < |j.base| && h in j.base[n]
    ensures !(CoversKey(g, k) && CoversKey(h, k))
  {
    assert FlushedOk(j.base, w, j.c.level + 1, g);
    assert !Overlaps(h, At(Smallest(g).user), At(Largest(g).user));
  }

  // ----- reads -----

  function Filtered(fs: Level, keep: set<File>): (r: Level)
    ensures forall f :: f in r <==> f in fs && f in keep
  {
    if fs == [] then [] else (if fs[0] in keep then [fs[0]] else []) + Filtered(fs[1..], keep)
  }

  lemma {:induction false} FilteredSorted(fs: Level, keep: set<File>)
    requires SortedBySmallest(fs)
    ensures SortedBySmallest(Filtered(fs, keep))
  {
    if fs != [] {
      FilteredSorted(fs[1..], keep);
      var rest := Filtered(fs[1..], keep);
      forall i | 0 <= i < |rest|
        ensures BySmallest(fs[0], rest[i])
      {
        assert rest[i] in rest;
        var n :| 0 <= n < |fs| - 1 && fs[1..][n] == rest[i];
        assert BySmallest(fs[0], fs[n + 1]);
      }
    }
  }

  ghost function FileSet(fs: Level): set<File> {
    set f | f in fs
  }

  /** The version the compaction would have led to without the flushes. */
  ghost function Undisturbed(j: Job, w': Version): Version
    requires |j.base| == |w'| && j.c.level + 1 < |w'|
  {
    var l := j.c.level;
    j.base[l := Filtered(w'[l], FileSet(j.base[l]))]
          [l + 1 := Filtered(w'[l + 1], FileSet(j.base[l + 1]) + FileSet(j.outputs))]
  }

  lemma UndisturbedHolds(j: Job, w: Version, w': Version, m: nat, f: File)
    requires InputsOk(j.base, j.c) && Grown(j.base, w) && Installed(w, j.c, j.outputs, w') && m < |j.base|
    requires FreshOutputs(w, j.outputs)
    ensures f in Undisturbed(j, w')[m] <==> InstalledAt(j.base, j.c, j.outputs, m, f)
  {
    hide InputsOk, SortedBySmallest, Filtered;
    assert f in w'[m] <==> InstalledAt(w, j.c, j.outputs, m, f);
    assert f in j.base[m] ==> f in w[m];
  }

  lemma UndisturbedInstalled(j: Job, w: Version, w': Version)
    requires InputsOk(j.base, j.c) && Grown(j.base, w) && Installed(w, j.c, j.outputs, w')
    requires FreshOutputs(w, j.outputs)
    ensures Installed(j.base, j.c, j.outputs, Undisturbed(j, w'))
  {
    var l, v' := j.c.level, Undisturbed(j, w');
    FilteredSorted(w'[l], FileSet(j.base[l]));
    FilteredSorted(w'[l + 1], FileSet(j.base[l + 1]) + FileSet(j.outputs));
    forall m, f | 0 <= m < |j.base|
      ensures f in v'[m] <==> InstalledAt(j.base, j.c, j.outputs, m, f)
    {
      UndisturbedHolds(j, w, w', m, f);
    }
  }

  ghost function FlushedEntries(v: Version, w: Version): set<Entry>
    requires |v| == |w|
  {
    set m, g, e | 0 <= m < |w| && g in w[m] && g !in v[m] && e in g.entries :: e
  }

  lemma GrownSplit(v: Version, w: Version)
    requires Grown(v, w)
    ensures Entries(w) == FlushedEntries(v, w) + Entries(v)
    ensures NewerThan(FlushedEntries(v, w), Entries(v))
  {
    GrownEntries(v, w);
    forall e | e in Entries(w)
      ensures e in FlushedEntries(v, w) || e in Entries(v)
    {
      var m, f := EntryIsHeld(w, e);
      if f in v[m] {
        HeldIsEntry(v, m, f, e);
      }
    }
    forall e | e in FlushedEntries(v, w)
      ensures e in Entries(w)
      ensures forall a :: a in Entries(v) && a.key == e.key ==> a.sn < e.sn
    {
      var m, g :| 0 <= m < |w| && g in w[m] && g !in v[m] && e in g.entries;
      HeldIsEntry(w, m, g, e);
      assert FlushedOk(v, w, m, g) && FlushedIn(v, w, m, g);
      assert e in FileEntries(g);
    }
  }

  lemma InstalledSplit(j: Job, w: Version, w': Version)
    requires InputsOk(j.base, j.c) && Grown(j.base, w) && Installed(w, j.c, j.outputs, w')
    requires FreshOutputs(w, j.outputs)
    ensures Entries(w') == FlushedEntries(j.base, w) + Entries(Undisturbed(j, w'))
  {
    UndisturbedInstalled(j, w, w');
    var v, v' := j.base, Undisturbed(j, w');
    forall e | e in Entries(w')
      ensures e in FlushedEntries(v, w) + Entries(v')
    {
      var m, f := EntryIsHeld(w', e);
      assert InstalledAt(w, j.c, j.outputs, m, f);
      InputsStay(j, w, m, f);
      if f in v'[m] {
        HeldIsEntry(v', m, f, e);
      } else {
        assert !InstalledAt(v, j.c, j.outputs, m, f);
      }
    }
    forall e | e in Entries(v')
      ensures e in Entries(w')
    {
      var m, f := EntryIsHeld(v', e);
      assert InstalledAt(v, j.c, j.outputs, m, f);
      assert InstalledAt(w, j.c, j.outputs, m, f);
      HeldIsEntry(w', m, f, e);
    }
    forall e | e in FlushedEntries(v, w)
      ensures e in Entries(w')
    {
      var m, g :| 0 <= m < |w| && g in w[m] && g !in v[m] && e in g.entries;
      InputsStay(j, w, m, g);
      assert InstalledAt(w, j.c, j.outputs, m, g);
      HeldIsEntry(w', m, g, e);
    }
  }

  lemma JobLengths(j: Job, w: Version, w': Version)
    requires Grown(j.base, w) && Installed(w, j.c, j.outputs, w')
    ensures |j.base| == |w| == |w'| == NUM_LEVELS && j.c.level + 1 < NUM_LEVELS
  {
  }

  /**
   What a compaction of the version it set out from leaves unread, it leaves unread under any tables flushed since.
   */
  lemma ReadsMeanwhile(j: Job, w: Version, w': Version, k: UserKey, snap: nat)
    requires Merged(j) && NothingResurrects(j.base, j.c, j.input, j.snapshot) && j.snapshot <= snap
    requires VersionOk(w) && Grown(j.base, w) && FreshOutputs(w, j.outputs) && Installed(w, j.c, j.outputs, w')
    ensures Entries(w') <= Entries(w)
    ensures Read(Entries(w'), k, snap) == Read(Entries(w), k, snap)
  {
    hide VersionOk, Grown, InputsOk, IsMergeOf, NothingResurrects, FreshOutputs, Undisturbed, FlushedEntries, Installed;
    JobLengths(j, w, w');
    var v' := Undisturbed(j, w');
    UndisturbedInstalled(j, w, w');
    GrownSplit(j.base, w);
    InstalledSplit(j, w, w');
    AfterIsSubset(j.base, j.c, j.input, j.snapshot, j.outputs, v');
    ReadUnchanged(j.base, j.c, j.input, j.snapshot, j.outputs, v', k, snap);
    UniqueInVersion(w, 0);
    ReadByLayer(FlushedEntries(j.base, w), Entries(j.base), Entries(v'), k, snap);
  }

  // ----- the store with a compaction under way -----

  datatype BusyStore = BusyStore(db: DbState, job: Option<Job>)

  /** What other threads, and the compaction's own between two entries, may do meanwhile. */
  ghost predicate Meanwhile(s: DbState, s': DbState) {
    || (exists k, op :: WriteStep(s, s', k, op))
    || SwitchStep(s, s')
    || SnapshotStep(s, s')
    || (exists i :: ReleaseStep(s, s', i))
    || (exists level, f, v' :: FlushStep(s, s', level, f, v'))
  }

  ghost predicate BeginStep(b: BusyStore, b': BusyStore, j: Job) {
    && b.job.None? && b' == b.(job := Some(j))
    && j.base == b.db.current && j.snapshot == SmallestSnapshot(b.db)
    && Merged(j) && NothingResurrects(j.base, j.c, j.input, j.snapshot)
  }

  /** Installing the outputs, whose numbers were handed out while the merge ran. */
  ghost predicate EndStep(b: BusyStore, b': BusyStore, j: Job, next: nat, v': Version) {
    && b.job == Some(j) && FreshOutputs(b.db.current, j.outputs) && NoClash(j, b.db.current)
    && b.db.nextFile <= next && (forall f :: f in j.outputs ==> f.number < next)
    && Installed(b.db.current, j.c, j.outputs, v')
    && b' == BusyStore(b.db.(current := v', nextFile := next, floor := j.snapshot), None)
  }

  ghost predicate Next(b: BusyStore, b': BusyStore) {
    || (b.job.None? && b'.job.None? && Database.Next(b.db, b'.db))
    || (b'.job == b.job && Meanwhile(b.db, b'.db))
    || (exists j :: BeginStep(b, b', j))
    || (exists j, next, v' :: EndStep(b, b', j, next, v'))
  }

  /** The compaction under way still describes the store. */
  ghost predicate JobOk(s: DbState, j: Job) {
    && Merged(j) && NothingResurrects(j.base, j.c, j.input, j.snapshot) && Grown(j.base, s.current)
    && s.floor <= j.snapshot <= s.lastSequence
    && forall i :: 0 <= i < |s.snapshots| ==> j.snapshot <= s.snapshots[i]
  }

  ghost predicate Ok(b: BusyStore) {
    Database.Ok(b.db) && (b.job.Some? ==> JobOk(b.db, b.job.value))
  }

  lemma BaseGrown(v: Version)
    requires |v| == NUM_LEVELS
    ensures Grown(v, v)
  {
  }

  lemma BeginKeepsOk(b: BusyStore, b': BusyStore, j: Job)
    requires Ok(b) && BeginStep(b, b', j)
    ensures Ok(b')
  {
    hide LayersOk, Faithful, Merged, NothingResurrects, Grown, VersionOk;
    CurrentLevels(b.db);
    BaseGrown(j.base);
  }

  lemma CurrentLevels(s: DbState)
    requires LayersOk(s)
    ensures |s.current| == NUM_LEVELS && VersionOk(s.current) && NumbersOk(s.current, s.nextFile) && Listed(s.current)
  {
  }

  lemma MeanwhileIsNext(s: DbState, s': DbState)
    requires Meanwhile(s, s')
    ensures Database.Next(s, s')
  {
    hide WriteStep, SwitchStep, SnapshotStep, ReleaseStep, FlushStep;
  }

  lemma MeanwhileKeepsJob(s: DbState, s': DbState, j: Job)
    requires LayersOk(s) && SnapshotsOk(s) && JobOk(s, j) && Meanwhile(s, s')
    ensures JobOk(s', j)
  {
    hide Merged, NothingResurrects, Grown, VersionOk, LayersOk;
    if level, f, v' :| FlushStep(s, s', level, f, v') {
      FlushKeepsJob(s, s', j, level, f, v');
    } else if SnapshotStep(s, s') {
      assert forall i :: 0 <= i < |s'.snapshots| ==>
             s'.snapshots[i] == s.lastSequence || s'.snapshots[i] in s.snapshots;
    } else if i :| ReleaseStep(s, s', i) {
      assert forall n :: n in s'.snapshots ==> n in s.snapshots;
    }
  }

  lemma FlushKeepsJob(s: DbState, s': DbState, j: Job, level: nat, f: File, v': Version)
    requires LayersOk(s) && JobOk(s, j) && FlushStep(s, s', level, f, v')
    ensures JobOk(s', j)
  {
    hide Merged, NothingResurrects, Grown, VersionOk;
    if s.imm.value != [] {
      assert FileEntries(f) == Elements(Immutable(s));
      FlushGrows(j.base, s.current, level, f, v');
    }
  }

  lemma EndKeepsVersion(s: DbState, j: Job, next: nat, v': Version)
    requires LayersOk(s) && JobOk(s, j) && FreshOutputs(s.current, j.outputs) && NoClash(j, s.current)
    requires s.nextFile <= next && (forall f :: f in j.outputs ==> f.number < next)
    requires Installed(s.current, j.c, j.outputs, v')
    ensures VersionOk(v') && NumbersOk(v', next) && Listed(v')
  {
    hide VersionOk, NumbersOk, Listed, Merged, Grown, Installed, NothingResurrects, OutputsOk;
    CurrentLevels(s);
    JobOutputs(j, s.current);
    InstalledOk(j, s.current, v');
    InstallKeepsNumbers(s.current, j.c, j.input, j.outputs, v', s.nextFile, next);
    InstallKeepsListed(s.current, j.c, j.outputs, v');
  }

  lemma EndKeepsLayers(s: DbState, s': DbState, j: Job, next: nat, v': Version)
    requires LayersOk(s) && JobOk(s, j) && FreshOutputs(s.current, j.outputs) && NoClash(j, s.current)
    requires s.nextFile <= next && (forall f :: f in j.outputs ==> f.number < next)
    requires Installed(s.current, j.c, j.outputs, v')
    requires s' == s.(current := v', nextFile := next, floor := j.snapshot)
    ensures LayersOk(s')
  {
    hide VersionOk, NumbersOk, Listed, Merged, Grown, Installed, NothingResurrects, LayersOk;
    EndKeepsVersion(s, j, next, v');
    CurrentLevels(s);
    ReadsMeanwhile(j, s.current, v', 0.0, j.snapshot);
    NewVersionKeepsLayers(s, s');
  }

  lemma EndKeepsReads(s: DbState, s': DbState, j: Job, v': Version, k: UserKey, snap: nat)
    requires LayersOk(s) && LayersOk(s') && JobOk(s, j) && FreshOutputs(s.current, j.outputs)
    requires Installed(s.current, j.c, j.outputs, v')
    requires s'.mem == s.mem && s'.imm == s.imm && s'.current == v' && j.snapshot <= snap
    ensures Read(AllEntries(s'), k, snap) == Read(AllEntries(s), k, snap)
  {
    hide VersionOk, Merged, Grown, Installed, NothingResurrects, LayersOk;
    CurrentLevels(s);
    ReadsMeanwhile(j, s.current, v', k, snap);
    SameVersionReadSameRead(s, s', k, snap);
  }

  lemma EndKeepsOk(b: BusyStore, b': BusyStore, j: Job, next: nat, v': Version)
    requires Ok(b) && EndStep(b, b', j, next, v')
    ensures Ok(b')
  {
    hide VersionOk, Merged, Grown, Installed, NothingResurrects, LayersOk, FreshOutputs, NoClash;
    var s, s' := b.db, b'.db;
    EndKeepsLayers(s, s', j, next, v');
    forall k, snap: nat | s'.floor <= snap
      ensures Read(AllEntries(s'), k, snap) == Read(s'.history, k, snap)
    {
      EndKeepsReads(s, s', j, v', k, snap);
      assert Read(AllEntries(s), k, snap) == Read(s.history, k, snap);
    }
  }

  lemma NextKeepsOk(b: BusyStore, b': BusyStore)
    requires Ok(b) && Next(b, b')
    ensures Ok(b')
  {
    hide LayersOk, Faithful, SnapshotsOk, JobOk, BeginStep, EndStep, Database.Next, Meanwhile;
    if b.job.None? && b'.job.None? && Database.Next(b.db, b'.db) {
      Database.NextKeepsOk(b.db, b'.db);
    } else if b'.job == b.job && Meanwhile(b.db, b'.db) {
      MeanwhileIsNext(b.db, b'.db);
      Database.NextKeepsOk(b.db, b'.db);
      if b.job.Some? {
        MeanwhileKeepsJob(b.db, b'.db, b.job.value);
      }
    } else if j :| BeginStep(b, b', j) {
      BeginKeepsOk(b, b', j);
    } else {
      var j, next, v' :| EndStep(b, b', j, next, v');
      EndKeepsOk(b, b', j, next, v');
    }
  }

  ghost predicate IsRun(run: seq<BusyStore>) {
    run != [] && forall i :: 0 <= i < |run| - 1 ==> Next(run[i], run[i + 1])
  }

  lemma {:induction false} RunKeepsOk(run: seq<BusyStore>, i: nat)
    requires IsRun(run) && run[0].job.None? && Empty(run[0].db) && i < |run|
    ensures Ok(run[i])
  {
    hide Next, Ok;
    if i == 0 {
      EmptyOk(run[0]);
    } else {
      RunKeepsOk(run, i - 1);
      assert Next(run[i - 1], run[i - 1 + 1]);
      NextKeepsOk(run[i - 1], run[i]);
    }
  }

  lemma EmptyOk(b: BusyStore)
    requires b.job.None? && Empty(b.db)
    ensures Ok(b)
  {
    hide Database.Ok;
    EmptyIsOk(b.db);
  }

  /** Before, during and after compactions, with flushes at any time, live snapshots read like the history of writes. */
  lemma RunsReadLikeHistory(run: seq<BusyStore>, i: nat, k: UserKey, snap: nat)
    requires IsRun(run) && run[0].job.None? && Empty(run[0].db) && i < |run|
    requires snap in run[i].db.snapshots || snap >= run[i].db.lastSequence
    ensures VersionOk(run[i].db.current)
    ensures Read(AllEntries(run[i].db), k, snap) == Read(run[i].db.history, k, snap)
  {
    hide IsRun, VersionOk, JobOk, NumbersOk, Listed;
    RunKeepsOk(run, i);
  }

  /** A compaction PickCompaction has set up never runs into a table: nothing keeps it from being installed. */
  lemma PickedNeverClashes(run: seq<BusyStore>, i: nat)
    requires IsRun(run) && run[0].job.None? && Empty(run[0].db) && i < |run| && run[i].job.Some?
    requires var j := run[i].job.value; NoGap(j.c.inputs0 + j.c.inputs1)
    ensures NoClash(run[i].job.value, run[i].db.current)
  {
    hide IsRun, Database.Ok, NoGap, NoClash, Grown, NothingResurrects;
    RunKeepsOk(run, i);
    var j := run[i].job.value;
    assert JobOk(run[i].db, j);
    OutputsFromInput(j);
    NoGapNoClash(j, run[i].db.current);
  }
}
