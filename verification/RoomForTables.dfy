/**
 Which compactions a flush in their middle can spoil, told before they begin (db/version_set.cc:491-516, 1464-1495;
 db/db_impl.cc:907-918): exactly those whose output goes where tables are flushed to and keeps entries on both sides of
 a user key that no file down to that level covers.
 */
module RoomForTables {
  import opened UserKeys
  import opened DbFormat
  import opened Multimap
  import opened Versions
  import opened Inputs
  import opened Compaction
  import opened CompactionReads
  import opened VersionSteps
  import opened VersionBuilder
  import opened InstallEdits
  import opened FlushMeanwhile

  /** Entries kept lie on both sides of `k`, and a table with `k` in it may be flushed to the output level. */
  ghost predicate Room(v: Version, c: CompactionInputs, input: seq<Entry>, snapshot: nat, k: UserKey)
    requires c.level + 1 < |v|
  {
    && c.level + 1 <= MAX_MEM_COMPACT_LEVEL
    && (exists a, b ::
          InKeptRun(v, c, input, snapshot, a) && InKeptRun(v, c, input, snapshot, b) && a.key <= k <= b.key)
    && forall m, f :: 0 <= m <= c.level + 1 && f in v[m] ==> !CoversKey(f, k)
  }

  ghost predicate InKeptRun(v: Version, c: CompactionInputs, input: seq<Entry>, snapshot: nat, e: Entry) {
    e in Kept(v, c.level, input, |input|, snapshot)
  }

  ghost predicate SetsOut(j: Job, v: Version, c: CompactionInputs, input: seq<Entry>, snapshot: nat) {
    j.base == v && j.c == c && j.input == input && j.snapshot == snapshot && Merged(j)
  }

  /** A clash after any flushes shows the room there was. */
  lemma ClashNeedsRoom(j: Job, w: Version, g: File, o: File) returns (k: UserKey)
    requires Merged(j) && Grown(j.base, w) && Clash(j, w, g, o)
    ensures Room(j.base, j.c, j.input, j.snapshot, k)
  {
    hide VersionOk, IsMergeOf, Kept;
    k := SharedKey(g, o);
    assert First(o) in o.entries && Last(o) in o.entries;
    InConcat(j.outputs, First(o));
    InConcat(j.outputs, Last(o));
    assert InKeptRun(j.base, j.c, j.input, j.snapshot, First(o));
    assert InKeptRun(j.base, j.c, j.input, j.snapshot, Last(o));
    assert FlushedOk(j.base, w, j.c.level + 1, g);
    forall m, f | 0 <= m <= j.c.level + 1 && f in j.base[m]
      ensures !CoversKey(f, k)
    {
      FlushedMissesInput(j, w, g, m, f, k);
    }
  }

  // ----- the flush and the cut that clash -----

  /** A table with one new entry. */
  function NewTable(k: UserKey, sn: nat, number: nat): File
    requires sn <= MAX_SEQUENCE
  {
    TableFile(number, 1, [Entry(k, sn, Put(""))])
  }

  /** Everything kept, in one file. */
  ghost function OneOutput(kept: seq<Entry>, number: nat): File
    requires kept != [] && Sorted(kept) && forall e :: e in kept ==> e.sn <= MAX_SEQUENCE
  {
    TableFile(number, 1, kept)
  }

  lemma KeptFits(v: Version, c: CompactionInputs, input: seq<Entry>, snapshot: nat)
    requires VersionOk(v) && InputsOk(v, c) && IsMergeOf(input, c)
    ensures var kept := Kept(v, c.level, input, |input|, snapshot);
      Sorted(kept) && forall e :: e in kept ==> e.sn <= MAX_SEQUENCE && e in input
  {
    hide VersionOk;
    var kept := Kept(v, c.level, input, |input|, snapshot);
    KeptIsSorted(v, c.level, input, |input|, snapshot);
    forall e | e in kept
      ensures e.sn <= MAX_SEQUENCE && e in input
    {
      InKept(v, c.level, input, |input|, snapshot, e);
      var m, f := InputOrigin(v, c, input, e);
    }
  }

  ghost function OneOutputJob(v: Version, c: CompactionInputs, input: seq<Entry>, snapshot: nat, number: nat): (j: Job)
    requires VersionOk(v) && InputsOk(v, c) && IsMergeOf(input, c)
    requires Kept(v, c.level, input, |input|, snapshot) != []
  {
    KeptFits(v, c, input, snapshot);
    Job(v, c, input, snapshot, [OneOutput(Kept(v, c.level, input, |input|, snapshot), number)])
  }

  lemma OneOutputMerged(v: Version, c: CompactionInputs, input: seq<Entry>, snapshot: nat, number: nat)
    requires VersionOk(v) && InputsOk(v, c) && IsMergeOf(input, c)
    requires Kept(v, c.level, input, |input|, snapshot) != []
    ensures SetsOut(OneOutputJob(v, c, input, snapshot, number), v, c, input, snapshot)
  {
    hide VersionOk, InputsOk, IsMergeOf, Kept;
    var j := OneOutputJob(v, c, input, snapshot, number);
    var o := j.outputs[0];
    ConcatAppend([], o);
    assert [] + [o] == j.outputs && [] + o.entries == o.entries;
  }

  lemma TableFits(v: Version, level: nat, g: File, next: nat) returns (w: Version)
    requires |v| == NUM_LEVELS && level < |v| && NumbersOk(v, next) && SortedBySmallest(v[level]) && g.number >= next
    ensures TableAdded(v, level, g, w) && g !in v[level]
  {
    hide NumbersOk;
    FreshInLevel(v, level, g, next);
    w := v[level := InsertFile(v[level], g)];
    InsertKeepsOrder(v[level], g);
    InsertHolds(v[level], g, g);
    forall f | f in v[level]
      ensures !Twin(g, f)
    {
    }
  }

  lemma FreshInLevel(v: Version, level: nat, g: File, next: nat)
    requires NumbersOk(v, next) && level < |v| && g.number >= next
    ensures forall f :: f in v[level] ==> f.number < g.number
  {
  }

  lemma TableIsClear(v: Version, level: nat, k: UserKey, sn: nat, number: nat)
    requires level < |v| && sn <= MAX_SEQUENCE
    requires forall m, f :: 0 <= m <= level && f in v[m] ==> !CoversKey(f, k)
    ensures ClearDownTo(v, level, NewTable(k, sn, number))
  {
    var g := NewTable(k, sn, number);
    forall m, f | 0 <= m <= level && m < |v| && f in v[m]
      ensures !Overlaps(f, At(Smallest(g).user), At(Largest(g).user))
    {
      assert !CoversKey(f, k);
    }
  }

  /** An output with entries at or on both sides of a key that no input covers lies across a table with that key. */
  lemma OutputCovers(j: Job, k: UserKey, sn: nat, number: nat, a: Entry, b: Entry)
    requires Merged(j) && |j.outputs| == 1 && sn <= MAX_SEQUENCE
    requires j.outputs[0].entries == Kept(j.base, j.c.level, j.input, |j.input|, j.snapshot)
    requires a in j.outputs[0].entries && b in j.outputs[0].entries && a.key <= k <= b.key
    requires forall m, f :: 0 <= m <= j.c.level + 1 && f in j.base[m] ==> !CoversKey(f, k)
    ensures !Apart(NewTable(k, sn, number), j.outputs[0])
  {
    hide VersionOk, Kept, IsMergeOf;
    var o := j.outputs[0];
    SortedBounds(o, a);
    SortedBounds(o, b);
    assert First(o) in o.entries && Last(o) in o.entries;
    OffTheKey(j, First(o), k);
    OffTheKey(j, Last(o), k);
  }

  lemma OffTheKey(j: Job, e: Entry, k: UserKey)
    requires Merged(j) && e in Kept(j.base, j.c.level, j.input, |j.input|, j.snapshot)
    requires forall m, f :: 0 <= m <= j.c.level + 1 && f in j.base[m] ==> !CoversKey(f, k)
    ensures e.key != k
  {
    hide VersionOk;
    InKept(j.base, j.c.level, j.input, |j.input|, j.snapshot, e);
    var m, f := InputOrigin(j.base, j.c, j.input, e);
    SortedBounds(f, e);
    assert !CoversKey(f, k);
  }

  lemma NewestOfAll(v: Version, last: nat, k: UserKey, number: nat)
    requires last < MAX_SEQUENCE && forall e :: e in Entries(v) ==> e.sn <= last
    ensures NewerThan(FileEntries(NewTable(k, last + 1, number)), Entries(v))
  {
    var g := NewTable(k, last + 1, number);
    assert forall e :: e in FileEntries(g) ==> e.sn == last + 1;
  }

  /** With room, one write, its flush and an output that is not cut are enough. */
  lemma RoomAdmitsClash(v: Version, c: CompactionInputs, input: seq<Entry>, snapshot: nat, k: UserKey, last: nat,
                        next: nat)
    returns (j: Job, w: Version, g: File, o: File)
    requires VersionOk(v) && InputsOk(v, c) && IsMergeOf(input, c) && Room(v, c, input, snapshot, k)
    requires NumbersOk(v, next) && Listed(v)
    requires last < MAX_SEQUENCE && forall e :: e in Entries(v) ==> e.sn <= last
    ensures SetsOut(j, v, c, input, snapshot) && j.outputs == [o] && o.number == next + 1
    ensures g.number == next && g.entries == [Entry(k, last + 1, Put(""))]
    ensures TableAdded(v, c.level + 1, g, w) && ClearDownTo(v, c.level + 1, g)
    ensures Grown(v, w) && Clash(j, w, g, o)
  {
    hide VersionOk, InputsOk, IsMergeOf, Kept, NumbersOk, Grown, Merged, Apart;
    var a, b :| InKeptRun(v, c, input, snapshot, a) && InKeptRun(v, c, input, snapshot, b) && a.key <= k <= b.key;
    j := OneOutputJob(v, c, input, snapshot, next + 1);
    OneOutputMerged(v, c, input, snapshot, next + 1);
    o := j.outputs[0];
    g := NewTable(k, last + 1, next);
    VersionLength(v);
    w := TableFits(v, c.level + 1, g, next);
    TableIsClear(v, c.level + 1, k, last + 1, next);
    NewestOfAll(v, last, k, next);
    BaseGrown(v);
    FlushGrows(v, v, c.level + 1, g, w);
    OutputCovers(j, k, last + 1, next, a, b);
  }

  lemma VersionLength(v: Version)
    requires VersionOk(v)
    ensures |v| == NUM_LEVELS
  {
  }

  /** Some cut of the outputs and some flushes meanwhile clash if and only if there is room when it begins. */
  lemma ClashIffRoom(v: Version, c: CompactionInputs, input: seq<Entry>, snapshot: nat, last: nat, next: nat)
    requires VersionOk(v) && InputsOk(v, c) && IsMergeOf(input, c) && NumbersOk(v, next) && Listed(v)
    requires last < MAX_SEQUENCE && forall e :: e in Entries(v) ==> e.sn <= last
    ensures (exists j, w, g, o :: SetsOut(j, v, c, input, snapshot) && Grown(v, w) && Clash(j, w, g, o))
       <==> exists k :: Room(v, c, input, snapshot, k)
  {
    hide VersionOk, IsMergeOf, NumbersOk, Grown, Clash, Listed;
    if j, w, g, o :| SetsOut(j, v, c, input, snapshot) && Grown(v, w) && Clash(j, w, g, o) {
      var k := ClashNeedsRoom(j, w, g, o);
    }
    if k :| Room(v, c, input, snapshot, k) {
      var j, w, g, o := RoomAdmitsClash(v, c, input, snapshot, k, last, next);
    }
  }

  lemma InputsCoverBetween(v: Version, c: CompactionInputs, input: seq<Entry>, snapshot: nat, a: Entry, b: Entry,
                           k: UserKey)
    returns (m: nat, h: File)
    requires VersionOk(v) && InputsOk(v, c) && IsMergeOf(input, c) && NoGap(c.inputs0 + c.inputs1)
    requires InKeptRun(v, c, input, snapshot, a) && InKeptRun(v, c, input, snapshot, b) && a.key <= k <= b.key
    ensures m <= c.level + 1 && h in v[m] && CoversKey(h, k)
  {
    hide VersionOk, NoGap, Kept;
    KeptFits(v, c, input, snapshot);
    var l, p := InputOrigin(v, c, input, a);
    var l', q := InputOrigin(v, c, input, b);
    var inputs := c.inputs0 + c.inputs1;
    assert p in inputs && q in inputs;
    h := CoveredBetween(inputs, p, q, a, b, k);
    m := if h in c.inputs0 then c.level else c.level + 1;
  }

  /** What PickCompaction picks leaves no room. */
  lemma NoGapNoRoom(v: Version, c: CompactionInputs, input: seq<Entry>, snapshot: nat, k: UserKey)
    requires VersionOk(v) && InputsOk(v, c) && IsMergeOf(input, c) && NoGap(c.inputs0 + c.inputs1)
    ensures !Room(v, c, input, snapshot, k)
  {
    hide VersionOk, NoGap, Kept;
    if Room(v, c, input, snapshot, k) {
      var a, b :| InKeptRun(v, c, input, snapshot, a) && InKeptRun(v, c, input, snapshot, b) && a.key <= k <= b.key;
      var m, h := InputsCoverBetween(v, c, input, snapshot, a, b, k);
    }
  }
}
