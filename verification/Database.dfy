/**
 The whole store over time: writes, memtable switches, flushes, moves, compactions and snapshots in any order.
 Whatever the order, a read at a live snapshot returns what the complete history of writes says
 (db/db_impl.cc:454-566, 703-760, 1115-1183, 1188-1240).
 */
module Database {
  import opened Options
  import opened UserKeys
  import opened DbFormat
  import opened Multimap
  import opened Versions
  import opened VersionGet
  import opened Inputs
  import opened Compaction
  import opened CompactionReads
  import opened VersionSteps
  import opened InstallEdits

  /**
   `history` is every entry ever written and `floor` the largest smallest-snapshot any compaction has used; both
   exist for the specification only. A memtable is the sorted run of its entries.
   */
  datatype DbState = DbState(mem: seq<Entry>, imm: Option<seq<Entry>>, current: Version, nextFile: nat,
                             lastSequence: nat, snapshots: seq<nat>, history: set<Entry>, floor: nat)

  function Immutable(s: DbState): seq<Entry> {
    if s.imm.Some? then s.imm.value else []
  }

  ghost function AllEntries(s: DbState): set<Entry> {
    Elements(s.mem) + (Elements(Immutable(s)) + Entries(s.current))
  }

  /** The oldest live snapshot, or the latest sequence number if there is none. */
  function SmallestSnapshot(s: DbState): nat {
    if s.snapshots == [] then s.lastSequence else s.snapshots[0]
  }

  /** The three layers, newest first, and sequence numbers below the latest. */
  ghost predicate LayersOk(s: DbState) {
    && Sorted(s.mem) && Sorted(Immutable(s))
    && VersionOk(s.current) && NumbersOk(s.current, s.nextFile) && Listed(s.current)
    && NewerThan(Elements(Immutable(s)), Entries(s.current))
    && NewerThan(Elements(s.mem), Elements(Immutable(s)) + Entries(s.current))
    && s.lastSequence < MAX_SEQUENCE
    && (forall e :: e in AllEntries(s) ==> e.sn <= s.lastSequence)
  }

  ghost predicate SnapshotsOk(s: DbState) {
    && s.floor <= s.lastSequence
    && (forall i :: 0 <= i < |s.snapshots| ==> s.floor <= s.snapshots[i] <= s.lastSequence)
    && (forall i, j :: 0 <= i < j < |s.snapshots| ==> s.snapshots[i] <= s.snapshots[j])
  }

  /** From the floor on, the store reads like the history. */
  ghost predicate Faithful(s: DbState) {
    && UniqueSequences(s.history) && (forall e :: e in s.history ==> e.sn <= s.lastSequence)
    && forall k, snap :: s.floor <= snap ==> Read(AllEntries(s), k, snap) == Read(s.history, k, snap)
  }

  ghost predicate Ok(s: DbState) {
    LayersOk(s) && SnapshotsOk(s) && Faithful(s)
  }

  // ----- steps -----

  ghost predicate WriteStep(s: DbState, s': DbState, k: UserKey, op: Op) {
    var e := Entry(k, s.lastSequence + 1, op);
    && s.lastSequence + 1 < MAX_SEQUENCE
    && s' == s.(mem := Insert(s.mem, e), lastSequence := s.lastSequence + 1, history := s.history + {e})
  }

  ghost predicate SwitchStep(s: DbState, s': DbState) {
    s.imm.None? && s' == s.(imm := Some(s.mem), mem := [])
  }

  ghost predicate SnapshotStep(s: DbState, s': DbState) {
    s' == s.(snapshots := s.snapshots + [s.lastSequence])
  }

  ghost predicate ReleaseStep(s: DbState, s': DbState, i: nat) {
    i < |s.snapshots| && s' == s.(snapshots := s.snapshots[..i] + s.snapshots[i + 1..])
  }

  /** The immutable memtable becomes a table; an empty one only goes away. */
  ghost predicate FlushStep(s: DbState, s': DbState, level: nat, f: File, v': Version) {
    && s.imm.Some?
    && if s.imm.value == [] then s' == s.(imm := None, nextFile := s.nextFile + 1)
       else
         && f.entries == s.imm.value && f.number == s.nextFile && level <= MAX_MEM_COMPACT_LEVEL
         && TableAdded(s.current, level, f, v') && (level > 0 ==> ClearDownTo(s.current, level, f))
         && s' == s.(imm := None, current := v', nextFile := s.nextFile + 1)
  }

  ghost predicate MoveStep(s: DbState, s': DbState, c: CompactionInputs, v': Version) {
    && InputsOk(s.current, c) && TrivialMove(c) && Installed(s.current, c, c.inputs0, v')
    && s' == s.(current := v')
  }

  /** A compaction that uncovers nothing; `floor` rises to the snapshot it compacted for. */
  ghost predicate CompactStep(s: DbState, s': DbState, c: CompactionInputs, input: seq<Entry>, outputs: Level,
                              v': Version)
  {
    && Compacts(s.current, c, input, SmallestSnapshot(s), outputs, v') && NumberedFrom(outputs, s.nextFile)
    && NothingResurrects(s.current, c, input, SmallestSnapshot(s))
    && s' == s.(current := v', nextFile := s.nextFile + |outputs|, floor := SmallestSnapshot(s))
  }

  ghost predicate Next(s: DbState, s': DbState) {
    || (exists k, op :: WriteStep(s, s', k, op))
    || SwitchStep(s, s')
    || SnapshotStep(s, s')
    || (exists i :: ReleaseStep(s, s', i))
    || (exists level, f, v' :: FlushStep(s, s', level, f, v'))
    || (exists c, v' :: MoveStep(s, s', c, v'))
    || (exists c, input, outputs, v' :: CompactStep(s, s', c, input, outputs, v'))
  }

  // ----- every step keeps the invariant -----

  lemma UniqueAll(s: DbState)
    requires LayersOk(s)
    ensures UniqueSequences(AllEntries(s))
  {
    UniqueInVersion(s.current, 0);
    UniqueInRun(Immutable(s));
    UniqueInRun(s.mem);
    UniqueUnion(Elements(Immutable(s)), Entries(s.current));
    UniqueUnion(Elements(s.mem), Elements(Immutable(s)) + Entries(s.current));
  }

  /** Adding an entry newer than all others changes exactly the reads that see it. */
  lemma ReadWithNewest(es: set<Entry>, e: Entry, k: UserKey, snap: nat)
    requires UniqueSequences(es) && forall x :: x in es ==> x.sn < e.sn
    ensures Read(es + {e}, k, snap) == if e.key == k && e.sn <= snap then ResultOf(e) else Read(es, k, snap)
  {
    if e.key == k && e.sn <= snap {
      assert Newest(es + {e}, k, snap, e);
      ReadNewest(es + {e}, k, snap, e);
    } else {
      forall x
        ensures Visible(es + {e}, k, snap, x) <==> Visible(es, k, snap, x)
      {
      }
      SameNewest(es + {e}, es, k, snap);
    }
  }

  /** A read is answered by the shallow layer if it sees anything, and by the deep layer otherwise. */
  lemma ReadByLayer(shallow: set<Entry>, deep: set<Entry>, deep': set<Entry>, k: UserKey, snap: nat)
    requires NewerThan(shallow, deep) && NewerThan(shallow, deep')
    requires UniqueSequences(shallow + deep) && UniqueSequences(shallow + deep')
    requires Read(deep, k, snap) == Read(deep', k, snap)
    ensures Read(shallow + deep, k, snap) == Read(shallow + deep', k, snap)
  {
    if e :| Visible(shallow, k, snap, e) {
      var n := NewestExists(shallow, k, snap, e);
      ShallowWins(shallow, deep, k, snap, n);
      ShallowWins(shallow, deep', k, snap, n);
      ReadNewest(shallow + deep, k, snap, n);
      ReadNewest(shallow + deep', k, snap, n);
    } else {
      InvisibleLayer(shallow, deep, k, snap);
      InvisibleLayer(shallow, deep', k, snap);
    }
  }

  lemma WriteKeepsOk(s: DbState, s': DbState, k: UserKey, op: Op)
    requires Ok(s) && WriteStep(s, s', k, op)
    ensures Ok(s')
  {
    var e := Entry(k, s.lastSequence + 1, op);
    forall x | x in s.mem
      ensures x.sn < e.sn
    {
      assert x in AllEntries(s);
    }
    InsertKeepsSorted(s.mem, e);
    assert Elements(s'.mem) == Elements(s.mem) + {e};
    assert AllEntries(s') == AllEntries(s) + {e};
    forall x | x in Elements(Immutable(s)) + Entries(s.current)
      ensures x.sn < e.sn
    {
      assert x in AllEntries(s);
    }
    UniqueAll(s);
    forall key, snap: nat | s'.floor <= snap
      ensures Read(AllEntries(s'), key, snap) == Read(s'.history, key, snap)
    {
      ReadWithNewest(AllEntries(s), e, key, snap);
      ReadWithNewest(s.history, e, key, snap);
      assert Read(AllEntries(s), key, snap) == Read(s.history, key, snap);
    }
  }

  /** A write is what every later state reads under its key, and nothing else changes for anyone. */
  lemma WrittenIsRead(s: DbState, s': DbState, k: UserKey, op: Op)
    requires Ok(s) && WriteStep(s, s', k, op)
    ensures forall k', snap: nat ::
              Read(s'.history, k', snap)
              == if k' != k || snap <= s.lastSequence then Read(s.history, k', snap)
                 else if op.Put? then Found(op.value) else NotFound
  {
    forall k', snap: nat
      ensures Read(s'.history, k', snap)
           == if k' != k || snap <= s.lastSequence then Read(s.history, k', snap)
              else if op.Put? then Found(op.value) else NotFound
    {
      ReadWithNewest(s.history, Entry(k, s.lastSequence + 1, op), k', snap);
    }
  }

  /** Steps that move entries between layers without changing the set of entries. */
  lemma SameEntriesKeepFaithful(s: DbState, s': DbState)
    requires Faithful(s) && AllEntries(s') == AllEntries(s)
    requires s'.history == s.history && s'.floor == s.floor && s'.lastSequence == s.lastSequence
    ensures Faithful(s')
  {
    forall k, snap: nat | s'.floor <= snap
      ensures Read(AllEntries(s'), k, snap) == Read(s'.history, k, snap)
    {
      assert Read(AllEntries(s), k, snap) == Read(s.history, k, snap);
    }
  }

  lemma SwitchKeepsOk(s: DbState, s': DbState)
    requires Ok(s) && SwitchStep(s, s')
    ensures Ok(s')
  {
    assert Elements([]) == {};
    assert AllEntries(s') == AllEntries(s);
    SameEntriesKeepFaithful(s, s');
  }

  lemma FlushKeepsOk(s: DbState, s': DbState, level: nat, f: File, v': Version)
    requires Ok(s) && FlushStep(s, s', level, f, v')
    ensures Ok(s')
  {
    if s.imm.value == [] {
      assert AllEntries(s') == AllEntries(s);
    } else {
      FlushMovesEntries(s, s', level, f, v');
      FlushKeepsLayers(s, s', level, f, v');
    }
    SameEntriesKeepFaithful(s, s');
  }

  lemma FlushMovesEntries(s: DbState, s': DbState, level: nat, f: File, v': Version)
    requires FlushStep(s, s', level, f, v') && s.imm.value != []
    ensures Entries(v') == Elements(Immutable(s)) + Entries(s.current) && Elements(Immutable(s')) == {}
    ensures AllEntries(s') == AllEntries(s)
  {
    forall e
      ensures e in Entries(v') <==> e in Elements(s.imm.value) || e in Entries(s.current)
    {
      AddedEntries(s.current, level, f, v', e);
    }
  }

  lemma FlushKeepsLayers(s: DbState, s': DbState, level: nat, f: File, v': Version)
    requires LayersOk(s) && FlushStep(s, s', level, f, v') && s.imm.value != []
    ensures LayersOk(s')
  {
    assert FileEntries(f) == Elements(s.imm.value);
    FlushKeepsVersion(s.current, level, f, v', s.nextFile);
    FlushMovesEntries(s, s', level, f, v');
    forall l | 0 <= l < |v'|
      ensures SortedBySmallest(v'[l])
    {
      assert l == level || v'[l] == s.current[l];
    }
  }

  lemma InstallKeepsListed(v: Version, c: CompactionInputs, outputs: Level, v': Version)
    requires Listed(v) && Installed(v, c, outputs, v')
    ensures Listed(v')
  {
    forall l | 0 <= l < |v'|
      ensures SortedBySmallest(v'[l])
    {
      assert l == c.level || l == c.level + 1 || v'[l] == v[l];
    }
  }

  /** A version holding no new entries keeps the layers ordered. */
  lemma NewVersionKeepsLayers(s: DbState, s': DbState)
    requires LayersOk(s) && s'.mem == s.mem && s'.imm == s.imm && s'.lastSequence == s.lastSequence
    requires VersionOk(s'.current) && NumbersOk(s'.current, s'.nextFile) && Listed(s'.current)
    requires Entries(s'.current) <= Entries(s.current)
    ensures LayersOk(s')
  {
    forall e | e in AllEntries(s')
      ensures e.sn <= s.lastSequence
    {
      assert e in AllEntries(s);
    }
  }

  lemma MoveKeepsOk(s: DbState, s': DbState, c: CompactionInputs, v': Version)
    requires Ok(s) && MoveStep(s, s', c, v')
    ensures Ok(s')
  {
    MoveKeepsLayers(s, s', c, v');
    SameEntriesKeepFaithful(s, s');
  }

  lemma MoveKeepsLayers(s: DbState, s': DbState, c: CompactionInputs, v': Version)
    requires LayersOk(s) && MoveStep(s, s', c, v')
    ensures LayersOk(s') && AllEntries(s') == AllEntries(s)
  {
    MoveKeepsVersion(s.current, c, v', s.nextFile);
    InstallKeepsListed(s.current, c, c.inputs0, v');
    NewVersionKeepsLayers(s, s');
  }

  /** The inputs are gone from their levels; every other file is where it was. */
  ghost predicate InputsReplaced(v: Version, c: CompactionInputs, v': Version)
    requires |v| == |v'| && c.level + 1 < |v|
  {
    && (forall m :: 0 <= m < |v| && m != c.level && m != c.level + 1 ==> v'[m] == v[m])
    && (forall f :: f in v'[c.level] <==> f in v[c.level] && f !in c.inputs0)
    && (forall f :: f in v[c.level + 1] && f !in c.inputs1 ==> f in v'[c.level + 1])
  }

  lemma InstalledReplaces(v: Version, c: CompactionInputs, outputs: Level, v': Version)
    requires Installed(v, c, outputs, v')
    ensures InputsReplaced(v, c, v')
  {
    forall f
      ensures f in v'[c.level] <==> f in v[c.level] && f !in c.inputs0
    {
      assert f in v'[c.level] <==> InstalledAt(v, c, outputs, c.level, f);
    }
    forall f | f in v[c.level + 1] && f !in c.inputs1
      ensures f in v'[c.level + 1]
    {
      assert InstalledAt(v, c, outputs, c.level + 1, f);
    }
  }

  lemma SmallestIsOldest(s: DbState)
    requires SnapshotsOk(s)
    ensures if s.snapshots == [] then SmallestSnapshot(s) == s.lastSequence
            else SmallestSnapshot(s) in s.snapshots
                 && forall snap :: snap in s.snapshots ==> SmallestSnapshot(s) <= snap
  {
  }

  lemma MoveKeepsEntries(s: DbState, s': DbState, c: CompactionInputs, v': Version)
    requires LayersOk(s) && MoveStep(s, s', c, v')
    ensures Entries(v') == Entries(s.current) && InputsReplaced(s.current, c, v') && c.inputs0[0] in v'[c.level + 1]
  {
    MoveKeepsVersion(s.current, c, v', s.nextFile);
    InstalledReplaces(s.current, c, c.inputs0, v');
    assert InstalledAt(s.current, c, c.inputs0, c.level + 1, c.inputs0[0]);
  }

  lemma CompactKeepsOk(s: DbState, s': DbState, c: CompactionInputs, input: seq<Entry>, outputs: Level, v': Version)
    requires Ok(s) && CompactStep(s, s', c, input, outputs, v')
    ensures Ok(s')
  {
    CompactKeepsLayers(s, s', c, input, outputs, v');
    CompactKeepsFaithful(s, s', c, input, outputs, v');
  }

  lemma CompactKeepsLayers(s: DbState, s': DbState, c: CompactionInputs, input: seq<Entry>, outputs: Level, v': Version)
    requires LayersOk(s) && CompactStep(s, s', c, input, outputs, v')
    ensures LayersOk(s')
  {
    CompactedVersionOk(s.current, c, input, SmallestSnapshot(s), outputs, v', s.nextFile);
    NewVersionKeepsLayers(s, s');
  }

  lemma CompactedVersionOk(v: Version, c: CompactionInputs, input: seq<Entry>, smallestSnapshot: nat, outputs: Level,
                           v': Version, next: nat)
    requires Compacts(v, c, input, smallestSnapshot, outputs, v') && NumberedFrom(outputs, next)
    requires NumbersOk(v, next) && Listed(v)
    ensures VersionOk(v') && NumbersOk(v', next + |outputs|) && Listed(v') && Entries(v') <= Entries(v)
  {
    CompactionKeepsVersion(v, c, input, smallestSnapshot, outputs, v', next);
    AfterIsSubset(v, c, input, smallestSnapshot, outputs, v');
    InstallKeepsListed(v, c, outputs, v');
  }

  lemma CompactKeepsFaithful(s: DbState, s': DbState, c: CompactionInputs, input: seq<Entry>, outputs: Level,
                             v': Version)
    requires Faithful(s) && LayersOk(s) && LayersOk(s') && CompactStep(s, s', c, input, outputs, v')
    requires s.floor <= SmallestSnapshot(s)
    ensures Faithful(s')
  {
    forall k, snap: nat | s'.floor <= snap
      ensures Read(AllEntries(s'), k, snap) == Read(s'.history, k, snap)
    {
      CompactedRead(s, s', c, input, outputs, v', k, snap);
      assert Read(AllEntries(s), k, snap) == Read(s.history, k, snap);
    }
  }

  lemma CompactedRead(s: DbState, s': DbState, c: CompactionInputs, input: seq<Entry>, outputs: Level, v': Version,
                      k: UserKey, snap: nat)
    requires LayersOk(s) && LayersOk(s') && CompactStep(s, s', c, input, outputs, v') && s'.floor <= snap
    ensures Read(AllEntries(s'), k, snap) == Read(AllEntries(s), k, snap)
  {
    ReadUnchanged(s.current, c, input, SmallestSnapshot(s), outputs, v', k, snap);
    SameVersionReadSameRead(s, s', k, snap);
  }

  lemma SameVersionReadSameRead(s: DbState, s': DbState, k: UserKey, snap: nat)
    requires LayersOk(s) && LayersOk(s') && s'.mem == s.mem && s'.imm == s.imm
    requires Read(Entries(s'.current), k, snap) == Read(Entries(s.current), k, snap)
    ensures Read(AllEntries(s'), k, snap) == Read(AllEntries(s), k, snap)
  {
    UniqueAll(s);
    UniqueAll(s');
    var imm := Elements(Immutable(s));
    ReadByLayer(imm, Entries(s.current), Entries(s'.current), k, snap);
    ReadByLayer(Elements(s.mem), imm + Entries(s.current), imm + Entries(s'.current), k, snap);
  }

  lemma SnapshotsKeepOk(s: DbState, s': DbState)
    requires Ok(s) && (SnapshotStep(s, s') || exists i :: ReleaseStep(s, s', i))
    ensures Ok(s')
  {
    SameEntriesKeepFaithful(s, s');
  }

  lemma NextKeepsOk(s: DbState, s': DbState)
    requires Ok(s) && Next(s, s')
    ensures Ok(s')
  {
    if k, op :| WriteStep(s, s', k, op) {
      WriteKeepsOk(s, s', k, op);
    } else if SwitchStep(s, s') {
      SwitchKeepsOk(s, s');
    } else if SnapshotStep(s, s') {
      SnapshotsKeepOk(s, s');
    } else if i :| ReleaseStep(s, s', i) {
      SnapshotsKeepOk(s, s');
    } else if level, f, v' :| FlushStep(s, s', level, f, v') {
      FlushKeepsOk(s, s', level, f, v');
    } else if c, v' :| MoveStep(s, s', c, v') {
      MoveKeepsOk(s, s', c, v');
    } else {
      var c, input, outputs, v' :| CompactStep(s, s', c, input, outputs, v');
      CompactKeepsOk(s, s', c, input, outputs, v');
    }
  }

  // ----- runs -----

  ghost predicate IsRun(run: seq<DbState>) {
    run != [] && forall i :: 0 <= i < |run| - 1 ==> Next(run[i], run[i + 1])
  }

  ghost predicate Empty(s: DbState) {
    && s.mem == [] && s.imm == None && s.history == {} && s.snapshots == [] && s.floor == 0 && s.lastSequence == 0
    && |s.current| == NUM_LEVELS && forall l :: 0 <= l < NUM_LEVELS ==> s.current[l] == []
  }

  lemma EmptyIsOk(s: DbState)
    requires Empty(s)
    ensures Ok(s)
  {
    forall e ensures e !in Entries(s.current) {
      InEntriesFrom(s.current, 0, e);
    }
    assert AllEntries(s) == {};
  }

  lemma {:induction false} RunKeepsOk(run: seq<DbState>, i: nat)
    requires IsRun(run) && Empty(run[0]) && i < |run|
    ensures Ok(run[i])
  {
    if i == 0 {
      EmptyIsOk(run[0]);
    } else {
      RunKeepsOk(run, i - 1);
      assert Next(run[i - 1], run[i - 1 + 1]);
      NextKeepsOk(run[i - 1], run[i]);
    }
  }

  /** In every state of every run, all live snapshots and the latest state read like the history of writes. */
  lemma RunsReadLikeHistory(run: seq<DbState>, i: nat, k: UserKey, snap: nat)
    requires IsRun(run) && Empty(run[0]) && i < |run|
    requires snap in run[i].snapshots || snap >= run[i].lastSequence
    ensures VersionOk(run[i].current)
    ensures Read(AllEntries(run[i]), k, snap) == Read(run[i].history, k, snap)
  {
    RunKeepsOk(run, i);
  }

  // ----- the store as an object -----

  /** MemTable::Get: the first entry of the run at or after the lookup key, if it belongs to the key. */
  method MemTableGet(mem: seq<Entry>, k: UserKey, snap: nat) returns (s: SaverState)
    requires Sorted(mem)
    ensures Answers(Elements(mem), k, snap, s)
  {
    var i := SeekIndex(mem, LookupKey(k, snap));
    RunAnswers(mem, k, snap);
    s := if i < |mem| then SaveValue(k, mem[i]) else NotSaved;
  }

  lemma LayerDecides(shallow: set<Entry>, deep: set<Entry>, k: UserKey, snap: nat, s: SaverState)
    requires NewerThan(shallow, deep) && UniqueSequences(shallow + deep)
    requires Answers(shallow, k, snap, s)
    ensures s == NotSaved ==> Read(shallow + deep, k, snap) == Read(deep, k, snap)
    ensures s.SavedValue? ==> Read(shallow + deep, k, snap) == Found(s.value)
    ensures s == SavedDeletion ==> Read(shallow + deep, k, snap) == NotFound
  {
    if s == NotSaved {
      InvisibleLayer(shallow, deep, k, snap);
    } else {
      var e :| Newest(shallow, k, snap, e) && SaveValue(k, e) == s;
      ShallowWins(shallow, deep, k, snap, e);
      ReadNewest(shallow + deep, k, snap, e);
    }
  }

  /** BuildTable: the memtable's run as a table file. */
  method BuildTable(run: seq<Entry>, number: nat, ghost lastSequence: nat) returns (f: File)
    requires run != [] && Sorted(run) && lastSequence < MAX_SEQUENCE && forall e :: e in run ==> e.sn <= MAX_SEQUENCE
    ensures f.number == number && f.entries == run
  {
    var size: nat :| size > 0;
    assert FileOk(TableFile(number, size, run));
    f := TableFile(number, size, run);
  }

  /** Merge the inputs, drop what the rules allow, install the outputs. */
  method Compact(v: Version, c: CompactionInputs, smallestSnapshot: nat, next: nat)
    returns (outputs: Level, v': Version, ghost input: seq<Entry>)
    requires VersionOk(v) && NumbersOk(v, next) && Listed(v) && InputsOk(v, c) && smallestSnapshot < MAX_SEQUENCE
    ensures Compacts(v, c, input, smallestSnapshot, outputs, v') && NumberedFrom(outputs, next)
  {
    var merged := MergeInputs(v, c);
    input := merged;
    var state := new CompactionState(v, c.level);
    outputs := DoCompactionWork(state, merged, smallestSnapshot, next);
    v' := InstallCompaction(v, c, outputs, next);
  }

  class DBImpl {
    var mem: seq<Entry>
    var imm: Option<seq<Entry>>
    var current: Version
    var nextFile: nat
    var lastSequence: nat
    var snapshots: seq<nat>
    ghost var history: set<Entry>
    ghost var floor: nat

    ghost function State(): DbState
      reads this
    {
      DbState(mem, imm, current, nextFile, lastSequence, snapshots, history, floor)
    }

    ghost predicate Valid()
      reads this
    {
      Ok(State())
    }

    constructor ()
      ensures Valid() && Empty(State())
      ensures forall k, snap :: Read(history, k, snap) == NotFound
    {
      mem, imm, nextFile, lastSequence, snapshots := [], None, 2, 0, [];
      current := seq(NUM_LEVELS, i => []);
      history, floor := {}, 0;
      new;
      EmptyIsOk(State());
      assert forall k, snap :: Read({}, k, snap) == NotFound;
    }

    /** One entry of a write batch: the next sequence number, into the memtable. */
    method Write(k: UserKey, op: Op)
      requires Valid() && lastSequence + 1 < MAX_SEQUENCE
      modifies this`mem, this`lastSequence, this`history
      ensures WriteStep(old(State()), State(), k, op) && Valid()
      ensures lastSequence == old(lastSequence) + 1
      ensures forall k', snap: nat ::
                Read(history, k', snap)
                == if k' != k || snap <= old(lastSequence) then Read(old(history), k', snap)
                   else if op.Put? then Found(op.value) else NotFound
    {
      ghost var s := State();
      var e := Entry(k, lastSequence + 1, op);
      mem := Insert(mem, e);
      lastSequence := lastSequence + 1;
      history := history + {e};
      WriteKeepsOk(s, State(), k, op);
      WrittenIsRead(s, State(), k, op);
    }

    /** The switch at the end of MakeRoomForWrite; it waits until no immutable memtable is left. */
    method SwitchMemTable()
      requires Valid() && imm.None?
      modifies this`mem, this`imm
      ensures SwitchStep(old(State()), State()) && Valid()
      ensures imm == Some(old(mem)) && mem == []
    {
      ghost var s := State();
      imm, mem := Some(mem), [];
      SwitchKeepsOk(s, State());
    }

    method GetSnapshot() returns (snapshot: nat)
      requires Valid()
      modifies this`snapshots
      ensures snapshot == lastSequence && SnapshotStep(old(State()), State()) && Valid()
      ensures snapshots == old(snapshots) + [snapshot]
    {
      ghost var s := State();
      snapshot := lastSequence;
      snapshots := snapshots + [snapshot];
      SnapshotsKeepOk(s, State());
    }

    method ReleaseSnapshot(i: nat)
      requires Valid() && i < |snapshots|
      modifies this`snapshots
      ensures ReleaseStep(old(State()), State(), i) && Valid()
      ensures multiset(snapshots) + multiset{old(snapshots)[i]} == multiset(old(snapshots))
    {
      ghost var s := State();
      assert snapshots == snapshots[..i] + [snapshots[i]] + snapshots[i + 1..];
      snapshots := snapshots[..i] + snapshots[i + 1..];
      assert ReleaseStep(s, State(), i);
      SnapshotsKeepOk(s, State());
    }

    /** Get: the memtable, the immutable memtable, the version; the first hit is the answer. */
    method Get(k: UserKey, snapshot: Option<nat>) returns (r: ReadResult)
      requires Valid() && (snapshot.Some? ==> snapshot.value in snapshots)
      ensures r == Read(history, k, if snapshot.Some? then snapshot.value else lastSequence)
    {
      var snap := if snapshot.Some? then snapshot.value else lastSequence;
      ghost var s := State();
      UniqueAll(s);
      UniqueInVersion(current, 0);
      UniqueInRun(Immutable(s));
      UniqueUnion(Elements(Immutable(s)), Entries(current));
      assert Read(AllEntries(s), k, snap) == Read(history, k, snap);
      var found := MemTableGet(mem, k, snap);
      LayerDecides(Elements(mem), Elements(Immutable(s)) + Entries(current), k, snap, found);
      if found == NotSaved {
        found := MemTableGet(if imm.Some? then imm.value else [], k, snap);
        LayerDecides(Elements(Immutable(s)), Entries(current), k, snap, found);
      }
      if found == NotSaved {
        r := VersionGet.Get(current, k, snap);
      } else {
        r := if found.SavedValue? then Found(found.value) else NotFound;
      }
    }

    /** CompactMemTable: write the immutable memtable as a table and install it at the level it can sink to. */
    method CompactMemTable(maxGrandParentBytes: nat)
      requires Valid() && imm.Some?
      modifies this`imm, this`current, this`nextFile
      ensures imm.None? && Next(old(State()), State()) && Valid()
      ensures Entries(current) == Elements(old(imm).value) + Entries(old(current))
      ensures old(imm).value != [] ==>
        exists level: nat, f: File :: level <= MAX_MEM_COMPACT_LEVEL && f.entries == old(imm).value
                                      && f.number == old(nextFile) && TableAdded(old(current), level, f, current)
    {
      ghost var s := State();
      var number := nextFile;
      nextFile := nextFile + 1;
      if imm.value == [] {
        imm := None;
        assert FlushStep(s, State(), 0, TableFile(0, 0, [Entry(0.0, 0, Delete)]), []);
        FlushKeepsOk(s, State(), 0, TableFile(0, 0, [Entry(0.0, 0, Delete)]), []);
      } else {
        var f := BuildTable(imm.value, number, lastSequence);
        var level := PickLevelForMemTableOutput(current, Smallest(f).user, Largest(f).user, maxGrandParentBytes);
        ghost var v := current;
        current := InstallTable(current, level, f, number);
        imm := None;
        assert FlushStep(s, State(), level, f, current);
        FlushMovesEntries(s, State(), level, f, current);
        FlushKeepsOk(s, State(), level, f, current);
      }
    }

    /** A compaction that PickCompaction or CompactRange has set up, run to the end and installed. */
    method RunCompaction(c: CompactionInputs)
      requires Valid() && InputsOk(current, c)
      requires forall input :: IsMergeOf(input, c) ==> NothingResurrects(current, c, input, SmallestSnapshot(State()))
      modifies this`current, this`nextFile, this`floor
      ensures Next(old(State()), State()) && Valid()
      ensures exists input, outputs :: CompactStep(old(State()), State(), c, input, outputs, current)
      ensures InputsReplaced(old(current), c, current) && Reclaimed(old(current), c, floor, current)
      ensures if snapshots == [] then floor == lastSequence
              else floor in snapshots && forall snap :: snap in snapshots ==> floor <= snap
    {
      ghost var s := State();
      var smallestSnapshot := if snapshots == [] then lastSequence else snapshots[0];
      var outputs, v', input := Compact(current, c, smallestSnapshot, nextFile);
      current := v';
      nextFile := nextFile + |outputs|;
      floor := smallestSnapshot;
      assert CompactStep(s, State(), c, input, outputs, current);
      InstalledReplaces(s.current, c, outputs, current);
      CompactionReclaims(s.current, c, input, smallestSnapshot, outputs, current);
      SmallestIsOldest(s);
      CompactKeepsOk(s, State(), c, input, outputs, current);
    }

    /** A trivial move: the single input file changes its level. */
    method MoveFile(c: CompactionInputs)
      requires Valid() && InputsOk(current, c) && TrivialMove(c)
      modifies this`current
      ensures Next(old(State()), State()) && Valid() && Entries(current) == Entries(old(current))
      ensures InputsReplaced(old(current), c, current) && c.inputs0[0] in current[c.level + 1]
    {
      ghost var s := State();
      current := InstallMove(current, c, nextFile);
      assert MoveStep(s, State(), c, current);
      MoveKeepsEntries(s, State(), c, current);
      MoveKeepsOk(s, State(), c, current);
    }
  }

  /** Get after Write, in code: whatever was there, the value put is read back, and a deleted key is not found. */
  method WriteThenGet(db: DBImpl, k: UserKey, op: Op) returns (r: ReadResult)
    requires db.Valid() && db.lastSequence + 1 < MAX_SEQUENCE
    modifies db`mem, db`lastSequence, db`history
    ensures r == if op.Put? then Found(op.value) else NotFound
  {
    db.Write(k, op);
    r := db.Get(k, None);
  }
}
