/**
 Crashes and recovery (db/db_impl.cc:280-452, 490-566, 1185-1230, 1336-1366, 1482-1516; db/version_set.cc:798-864).
 What is on disk is the manifest and the log files; everything else is lost in a crash. Each step below is one
 durable action or one change under the mutex, so a crash may fall between any two of them: between the log record,
 its fsync and the memtable insert, and between building a table, writing its manifest record and installing it.
 */
module Recovery {
  import opened Options
  import opened UserKeys
  import opened DbFormat
  import opened Multimap
  import opened Versions
  import opened Inputs
  import opened CompactionReads
  import opened VersionSteps
  import opened InstallEdits
  import opened Database
  import opened Batches

  /** The first `synced` records survive any crash. */
  datatype LogFile = LogFile(number: nat, records: seq<Batch>, synced: nat)

  /** The replayed manifest: what the last durable edit left. `floor` exists for the specification only. */
  datatype Manifest = Manifest(version: Version, floor: nat, logNumber: nat, nextFile: nat, lastSequence: nat)

  datatype Disk = Disk(manifest: Manifest, logs: seq<LogFile>)

  /**
   An edit under way in LogAndApply: prepared, then `logged` in the manifest, then installed. Its tables hold the
   first `covered` issued batches.
   */
  datatype Pending = Pending(edit: Manifest, flushes: bool, logged: bool, covered: nat)

  /**
   The open store. `inLog` is a group whose record is in the log but not yet in the memtable. `tabled`, `rotated` and
   `applied` exist for the specification only: the tables hold the first `tabled` issued batches, the immutable
   memtable those up to `rotated`, the memtable those up to `applied`.
   */
  datatype Memory = Down | Up(db: DbState, logNumber: nat, inLog: Option<Batch>, pending: Option<Pending>,
                              tabled: nat, rotated: nat, applied: nat)

  /** `issued`, `acked` (how many issued batches a synced write has covered) and `durable` are for the specification. */
  datatype World = World(disk: Disk, memory: Memory, issued: seq<Batch>, acked: nat, durable: nat)

  /** The records of all logs numbered `min` or higher, in order. */
  function RecordsFrom(logs: seq<LogFile>, min: nat): seq<Batch> {
    if logs == [] then []
    else (if logs[0].number >= min then logs[0].records else []) + RecordsFrom(logs[1..], min)
  }

  function LastLog(d: Disk): LogFile
    requires d.logs != []
  {
    d.logs[|d.logs| - 1]
  }

  predicate LogsInOrder(logs: seq<LogFile>, i: int, j: int) {
    0 <= i < j < |logs| ==> logs[i].number < logs[j].number
  }

  predicate LogsOk(logs: seq<LogFile>) {
    && (forall i, j :: 0 <= i < |logs| && 0 <= j < |logs| ==> LogsInOrder(logs, i, j))
    && (forall i :: 0 <= i < |logs| ==> logs[i].synced <= |logs[i].records|)
  }

  /** From `floor` on, a version reads like the batches it stands for, and holds nothing else. */
  ghost predicate Holds(v: Version, floor: nat, bs: seq<Batch>) {
    && Entries(v) <= EntriesOf(bs)
    && forall k, snap :: floor <= snap ==> Read(Entries(v), k, snap) == Read(EntriesOf(bs), k, snap)
  }

  ghost predicate BatchesOk(bs: seq<Batch>) {
    Increasing(bs) && forall b :: b in bs ==> End(b) <= MAX_SEQUENCE
  }

  ghost predicate ManifestOk(m: Manifest, bs: seq<Batch>) {
    && VersionOk(m.version) && NumbersOk(m.version, m.nextFile) && Listed(m.version)
    && Holds(m.version, m.floor, bs) && (forall b :: b in bs ==> End(b) <= m.lastSequence + 1)
    && m.logNumber < m.nextFile && m.floor <= m.lastSequence < MAX_SEQUENCE
  }

  /** Tables and logs together hold every issued batch, and the synced part covers every acknowledged one. */
  ghost predicate DiskOk(w: World) {
    && LogsOk(w.disk.logs) && BatchesOk(w.issued)
    && w.durable <= |w.issued| && w.acked <= |w.issued|
    && ManifestOk(w.disk.manifest, w.issued[..w.durable])
    && RecordsFrom(w.disk.logs, w.disk.manifest.logNumber) == w.issued[w.durable..]
    && (w.disk.logs != [] ==>
          && LastLog(w.disk).number >= w.disk.manifest.logNumber
          && w.acked + |LastLog(w.disk).records| <= |w.issued| + LastLog(w.disk).synced)
  }

  ghost predicate LayersHold(db: DbState, issued: seq<Batch>, tabled: nat, rotated: nat, applied: nat) {
    && tabled <= rotated <= applied <= |issued|
    && LayersOk(db) && SnapshotsOk(db) && db.history == EntriesOf(issued[..applied])
    && Holds(db.current, db.floor, issued[..tabled])
    && Elements(Immutable(db)) == EntriesOf(issued[tabled..rotated]) && (db.imm.None? ==> tabled == rotated)
    && Elements(db.mem) == EntriesOf(issued[rotated..applied])
    && (forall b :: b in issued[..applied] ==> End(b) <= db.lastSequence + 1)
  }

  /** The open store as it will be once the pending edit is installed. */
  function After(m: Memory): DbState
    requires m.Up? && m.pending.Some?
  {
    var p := m.pending.value;
    m.db.(current := p.edit.version, floor := p.edit.floor, imm := if p.flushes then None else m.db.imm)
  }

  ghost predicate PendingOk(w: World)
    requires w.memory.Up? && w.memory.pending.Some?
  {
    var m, p := w.memory, w.memory.pending.value;
    && p.covered == (if p.flushes then m.rotated else m.tabled)
    && p.covered <= |w.issued| && ManifestOk(p.edit, w.issued[..p.covered])
    && (p.flushes ==> m.db.imm.Some? && p.edit.logNumber == m.logNumber)
    && (!p.flushes && !p.logged ==> p.edit.logNumber == w.disk.manifest.logNumber)
    && p.edit.nextFile <= m.db.nextFile && p.edit.lastSequence <= m.db.lastSequence
    && LayersHold(After(m), w.issued, p.covered, m.rotated, m.applied)
    && (p.logged ==> w.disk.manifest == p.edit && w.durable == p.covered)
  }

  /** The newest log belongs to the memtable and to the group in flight. */
  ghost predicate TailOk(w: World)
    requires w.memory.Up?
  {
    var m := w.memory;
    && w.disk.logs != [] && LastLog(w.disk).number == m.logNumber < m.db.nextFile
    && m.rotated <= |w.issued| == m.applied + (if m.inLog.Some? then 1 else 0)
    && LastLog(w.disk).records == w.issued[m.rotated..]
    && (m.inLog.Some? ==> w.issued != [] && m.inLog.value == w.issued[|w.issued| - 1]
                          && m.inLog.value.first == m.db.lastSequence + 1)
    && (m.pending.None? || !m.pending.value.logged ==> w.durable == m.tabled)
  }

  ghost predicate MemoryOk(w: World)
    requires w.memory.Up?
  {
    && LayersHold(w.memory.db, w.issued, w.memory.tabled, w.memory.rotated, w.memory.applied)
    && (w.memory.pending.Some? ==> PendingOk(w))
  }

  ghost predicate Ok(w: World) {
    DiskOk(w) && (w.memory.Up? ==> TailOk(w) && MemoryOk(w))
  }

  // ----- steps -----

  /** The leader's AddRecord: the group's batch goes to the end of the newest log. */
  ghost predicate AddRecordStep(w: World, w': World, b: Batch) {
    && w.memory.Up? && w.memory.inLog.None? && w.disk.logs != []
    && b.first == w.memory.db.lastSequence + 1 && End(b) <= MAX_SEQUENCE
    && var log := LastLog(w.disk);
      w' == w.(disk := w.disk.(logs := w.disk.logs[|w.disk.logs| - 1 := log.(records := log.records + [b])]),
               memory := w.memory.(inLog := Some(b)), issued := w.issued + [b])
  }

  ghost predicate SyncStep(w: World, w': World) {
    && w.memory.Up? && w.memory.inLog.Some? && w.disk.logs != []
    && var log := LastLog(w.disk);
      w' == w.(disk := w.disk.(logs := w.disk.logs[|w.disk.logs| - 1 := log.(synced := |log.records|)]))
  }

  /** InsertInto, SetLastSequence and the acknowledgement; a synced write is acknowledged only after its fsync. */
  ghost predicate ApplyStep(w: World, w': World, mem: seq<Entry>, sync: bool) {
    && w.memory.Up? && w.memory.inLog.Some? && w.disk.logs != []
    && (sync ==> LastLog(w.disk).synced == |LastLog(w.disk).records|)
    && var m, b := w.memory, w.memory.inLog.value;
      && Sorted(mem) && Elements(mem) == Elements(m.db.mem) + BatchEntries(b)
      && w' == w.(memory := m.(db := Applying(m.db, mem, b), inLog := None, applied := |w.issued|),
                  acked := if sync then |w.issued| else w.acked)
  }

  ghost function Applying(db: DbState, mem: seq<Entry>, b: Batch): DbState {
    db.(mem := mem, lastSequence := if End(b) == 0 then 0 else End(b) - 1, history := db.history + BatchEntries(b))
  }

  /** The end of MakeRoomForWrite, reached only when there is no immutable memtable: a new log and a new memtable. */
  ghost predicate RotateStep(w: World, w': World) {
    && w.memory.Up? && w.memory.inLog.None? && w.memory.db.imm.None?
    && var m := w.memory;
      w' == w.(disk := w.disk.(logs := w.disk.logs + [LogFile(m.db.nextFile, [], 0)]),
               memory := m.(db := m.db.(imm := Some(m.db.mem), mem := [], nextFile := m.db.nextFile + 1),
                            logNumber := m.db.nextFile, rotated := |w.issued|))
  }

  ghost predicate SnapshotsStep(w: World, w': World, db: DbState) {
    && w.memory.Up? && (SnapshotStep(w.memory.db, db) || exists i :: ReleaseStep(w.memory.db, db, i))
    && w' == w.(memory := w.memory.(db := db))
  }

  /** One background job at a time prepares an edit: a flush, a move or a compaction from `db` to `db'`. */
  ghost predicate Job(db: DbState, db': DbState, flushes: bool) {
    if flushes then exists level, f, v :: FlushStep(db, db', level, f, v)
    else
      || (exists c, v :: MoveStep(db, db', c, v))
      || (exists c, input, outputs, v :: CompactStep(db, db', c, input, outputs, v))
  }

  /** A flush names the current log as the oldest one still needed; other edits keep the log number. */
  ghost predicate Prepared(w: World, w': World, db: DbState, flushes: bool) {
    && w.memory.Up? && w.memory.pending.None?
    && var m := w.memory;
      var logNumber := if flushes then m.logNumber else w.disk.manifest.logNumber;
      var edit := Manifest(db.current, db.floor, logNumber, db.nextFile, db.lastSequence);
      var pending := Pending(edit, flushes, false, if flushes then m.rotated else m.tabled);
      w' == w.(memory := m.(db := m.db.(nextFile := db.nextFile), pending := Some(pending)))
  }

  ghost predicate PrepareStep(w: World, w': World, db: DbState, flushes: bool) {
    Prepared(w, w', db, flushes) && Job(w.memory.db, db, flushes)
  }

  /** The manifest record is durable: tables and log number change together. */
  ghost predicate LogEditStep(w: World, w': World) {
    && w.memory.Up? && w.memory.pending.Some? && !w.memory.pending.value.logged
    && var m, p := w.memory, w.memory.pending.value;
      w' == w.(disk := w.disk.(manifest := p.edit), memory := m.(pending := Some(p.(logged := true))),
               durable := m.pending.value.covered)
  }

  ghost predicate InstallStep(w: World, w': World) {
    && w.memory.Up? && w.memory.pending.Some? && w.memory.pending.value.logged
    && w' == w.(memory := w.memory.(db := After(w.memory), pending := None, tabled := w.memory.pending.value.covered))
  }

  /** DeleteObsoleteFiles removes one log older than the log number of the manifest. */
  ghost predicate DeleteLogStep(w: World, w': World, i: nat) {
    && w.memory.Up? && w.memory.pending.None? && i < |w.disk.logs|
    && w.disk.logs[i].number < w.disk.manifest.logNumber
    && w' == w.(disk := w.disk.(logs := w.disk.logs[..i] + w.disk.logs[i + 1..]))
  }

  /** What survives of the logs when the newest keeps its first `n` records. */
  function CutLast(logs: seq<LogFile>, n: nat): seq<LogFile>
    requires logs != [] ==> n <= |logs[|logs| - 1].records|
  {
    if logs == [] then []
    else
      var last := logs[|logs| - 1];
      logs[..|logs| - 1] + [LogFile(last.number, last.records[..n], n)]
  }

  /** The batches that the disk still holds are all that is left of the history. */
  ghost predicate CrashStep(w: World, w': World, n: nat) {
    && (w.disk.logs != [] ==> LastLog(w.disk).synced <= n <= |LastLog(w.disk).records|)
    && w.durable <= |w.issued|
    && var logs := CutLast(w.disk.logs, n);
      w' == w.(disk := w.disk.(logs := logs), memory := Down,
               issued := w.issued[..w.durable] + RecordsFrom(logs, w.disk.manifest.logNumber))
  }

  /** A number no log or table file uses. */
  ghost predicate FreshLog(d: Disk, number: nat) {
    d.manifest.nextFile <= number && forall i :: 0 <= i < |d.logs| ==> d.logs[i].number < number
  }

  /** Opening that dies before its manifest record is durable leaves at most an empty new log. */
  ghost predicate FailedOpenStep(w: World, w': World, number: nat) {
    && w.memory.Down? && FreshLog(w.disk, number)
    && w' == w.(disk := w.disk.(logs := w.disk.logs + [LogFile(number, [], 0)]))
  }

  /** The latest of the manifest's last sequence and the last sequences of the replayed batches. */
  function LastSequence(m: nat, bs: seq<Batch>): nat
    decreases |bs|
  {
    if bs == [] then m
    else
      var b := bs[|bs| - 1];
      var rest := LastSequence(m, bs[..|bs| - 1]);
      if End(b) > rest + 1 then End(b) - 1 else rest
  }

  /** What Open leaves: the replayed batches as level-0 tables, an empty memtable and a new log. */
  ghost predicate Reopened(d: Disk, d': Disk, replayed: seq<Batch>) {
    && d'.manifest.floor == d.manifest.floor
    && d'.manifest.lastSequence == LastSequence(d.manifest.lastSequence, replayed)
    && FreshLog(d, d'.manifest.logNumber) && d'.manifest.nextFile == d'.manifest.logNumber + 1
    && d'.logs == d.logs + [LogFile(d'.manifest.logNumber, [], 0)]
    && VersionOk(d'.manifest.version) && NumbersOk(d'.manifest.version, d'.manifest.nextFile)
    && Listed(d'.manifest.version)
    && Entries(d'.manifest.version) == EntriesOf(replayed) + Entries(d.manifest.version)
  }

  ghost predicate OpenStep(w: World, w': World, d: Disk) {
    && w.memory.Down? && Reopened(w.disk, d, RecordsFrom(w.disk.logs, w.disk.manifest.logNumber))
    && var m := d.manifest;
      var db := DbState([], None, m.version, m.nextFile, m.lastSequence, [], EntriesOf(w.issued), m.floor);
      var n := |w.issued|;
      w' == World(d, Up(db, m.logNumber, None, None, n, n, n), w.issued, w.acked, n)
  }

  ghost predicate Next(w: World, w': World) {
    || (exists b :: AddRecordStep(w, w', b))
    || SyncStep(w, w')
    || (exists mem, sync :: ApplyStep(w, w', mem, sync))
    || RotateStep(w, w')
    || (exists db :: SnapshotsStep(w, w', db))
    || (exists db, flushes :: PrepareStep(w, w', db, flushes))
    || LogEditStep(w, w')
    || InstallStep(w, w')
    || (exists i :: DeleteLogStep(w, w', i))
    || (exists n :: CrashStep(w, w', n))
    || (exists number :: FailedOpenStep(w, w', number))
    || (exists d :: OpenStep(w, w', d))
  }

  // ----- what the logs hold -----

  lemma {:induction false} RecordsFromConcat(xs: seq<LogFile>, ys: seq<LogFile>, min: nat)
    ensures RecordsFrom(xs + ys, min) == RecordsFrom(xs, min) + RecordsFrom(ys, min)
  {
    if xs == [] {
      assert xs + ys == ys;
    } else {
      assert (xs + ys)[1..] == xs[1..] + ys;
      RecordsFromConcat(xs[1..], ys, min);
    }
  }

  lemma RecordsFromOne(log: LogFile, min: nat)
    ensures RecordsFrom([log], min) == if log.number >= min then log.records else []
  {
    assert RecordsFrom([], min) == [];
  }

  /** Only the newest log can hold records when every other one is older than `min`. */
  lemma {:induction false} RecordsFromOld(logs: seq<LogFile>, min: nat)
    requires forall i :: 0 <= i < |logs| ==> logs[i].number < min
    ensures RecordsFrom(logs, min) == []
  {
    if logs != [] {
      RecordsFromOld(logs[1..], min);
    }
  }

  lemma RecordsFromLast(d: Disk, min: nat)
    requires LogsOk(d.logs) && d.logs != [] && LastLog(d).number >= min
    ensures RecordsFrom(d.logs, min) == RecordsFrom(d.logs[..|d.logs| - 1], min) + LastLog(d).records
    ensures min == LastLog(d).number ==> RecordsFrom(d.logs, min) == LastLog(d).records
  {
    var rest := d.logs[..|d.logs| - 1];
    assert d.logs == rest + [LastLog(d)];
    RecordsFromConcat(rest, [LastLog(d)], min);
    RecordsFromOne(LastLog(d), min);
    if min == LastLog(d).number {
      forall i | 0 <= i < |rest|
        ensures rest[i].number < min
      {
        assert LogsInOrder(d.logs, i, |d.logs| - 1);
      }
      RecordsFromOld(rest, min);
    }
  }

  lemma ReplaceLast(d: Disk, d': Disk, log: LogFile, min: nat)
    requires LogsOk(d.logs) && d.logs != [] && LastLog(d).number >= min
    requires log.number == LastLog(d).number && log.synced <= |log.records|
    requires d'.logs == d.logs[|d.logs| - 1 := log]
    ensures LogsOk(d'.logs)
    ensures RecordsFrom(d'.logs, min) == RecordsFrom(d.logs[..|d.logs| - 1], min) + log.records
  {
    forall i, j | 0 <= i < |d'.logs| && 0 <= j < |d'.logs|
      ensures LogsInOrder(d'.logs, i, j)
    {
      assert LogsInOrder(d.logs, i, j);
    }
    assert d'.logs[..|d.logs| - 1] == d.logs[..|d.logs| - 1];
    RecordsFromLast(d', min);
  }

  lemma AddLog(logs: seq<LogFile>, number: nat, min: nat)
    requires LogsOk(logs) && forall i :: 0 <= i < |logs| ==> logs[i].number < number
    ensures LogsOk(logs + [LogFile(number, [], 0)])
    ensures RecordsFrom(logs + [LogFile(number, [], 0)], min) == RecordsFrom(logs, min)
  {
    var log := LogFile(number, [], 0);
    forall i, j | 0 <= i < |logs| + 1 && 0 <= j < |logs| + 1
      ensures LogsInOrder(logs + [log], i, j)
    {
      if i < j < |logs| {
        assert LogsInOrder(logs, i, j);
      }
    }
    RecordsFromConcat(logs, [log], min);
    RecordsFromOne(log, min);
  }

  // ----- the open store reads like the issued batches -----

  /** The layers of an open store and what they stand for make it a good store of the applied batches. */
  lemma LayersReadIssued(db: DbState, issued: seq<Batch>, tabled: nat, rotated: nat, applied: nat)
    requires BatchesOk(issued) && LayersHold(db, issued, tabled, rotated, applied)
    ensures Database.Ok(db)
  {
    var bs := issued[..applied];
    SliceIncreasing(issued, 0, applied);
    UniqueBatches(bs);
    forall e | e in db.history
      ensures e.sn <= db.lastSequence
    {
      var b :| b in bs && e in BatchEntries(b);
      SequencesInBatch(b, e);
    }
    forall k, snap: nat | db.floor <= snap
      ensures Read(AllEntries(db), k, snap) == Read(db.history, k, snap)
    {
      LayersReadAt(db, issued, tabled, rotated, applied, k, snap);
    }
  }

  lemma SplitBatches(issued: seq<Batch>, tabled: nat, rotated: nat, applied: nat)
    requires BatchesOk(issued) && tabled <= rotated <= applied <= |issued|
    ensures EntriesOf(issued[..rotated]) == EntriesOf(issued[tabled..rotated]) + EntriesOf(issued[..tabled])
    ensures EntriesOf(issued[..applied]) == EntriesOf(issued[rotated..applied]) + EntriesOf(issued[..rotated])
    ensures NewerThan(EntriesOf(issued[tabled..rotated]), EntriesOf(issued[..tabled]))
    ensures NewerThan(EntriesOf(issued[rotated..applied]), EntriesOf(issued[..rotated]))
    ensures UniqueSequences(EntriesOf(issued[..applied])) && UniqueSequences(EntriesOf(issued[..rotated]))
    ensures UniqueSequences(EntriesOf(issued[..tabled]))
  {
    SplitOnce(issued, tabled, rotated);
    SplitOnce(issued, rotated, applied);
    SliceIncreasing(issued, 0, tabled);
    assert issued[0..tabled] == issued[..tabled];
    UniqueBatches(issued[..tabled]);
  }

  lemma SplitOnce(issued: seq<Batch>, i: nat, j: nat)
    requires BatchesOk(issued) && i <= j <= |issued|
    ensures EntriesOf(issued[..j]) == EntriesOf(issued[i..j]) + EntriesOf(issued[..i])
    ensures NewerThan(EntriesOf(issued[i..j]), EntriesOf(issued[..i]))
    ensures UniqueSequences(EntriesOf(issued[..j]))
  {
    var bs := issued[..j];
    SliceIncreasing(issued, 0, j);
    assert issued[0..j] == bs;
    UniqueBatches(bs);
    LaterIsNewer(bs, i);
    assert bs[..i] == issued[..i] && bs[i..] == issued[i..j] && bs == bs[..i] + bs[i..];
    EntriesOfConcat(bs[..i], bs[i..]);
  }

  lemma LayersReadAt(db: DbState, issued: seq<Batch>, tabled: nat, rotated: nat, applied: nat, k: UserKey, snap: nat)
    requires BatchesOk(issued) && LayersHold(db, issued, tabled, rotated, applied) && db.floor <= snap
    ensures Read(AllEntries(db), k, snap) == Read(db.history, k, snap)
  {
    SplitBatches(issued, tabled, rotated, applied);
    UniqueAll(db);
    UniqueInVersion(db.current, 0);
    UniqueInRun(Immutable(db));
    UniqueUnion(Elements(Immutable(db)), Entries(db.current));
    var imm, mem := Elements(Immutable(db)), Elements(db.mem);
    var tables := EntriesOf(issued[..tabled]);
    assert Read(Entries(db.current), k, snap) == Read(tables, k, snap);
    ReadByLayer(imm, Entries(db.current), tables, k, snap);
    ReadByLayer(mem, imm + Entries(db.current), imm + tables, k, snap);
  }

  // ----- every step keeps the invariant -----

  lemma SamePrefix(issued: seq<Batch>, issued': seq<Batch>, n: nat, i: nat, j: nat)
    requires n <= |issued| && n <= |issued'| && issued[..n] == issued'[..n] && i <= j <= n
    ensures issued'[i..j] == issued[i..j] && issued'[..i] == issued[..i]
  {
    assert issued[i..j] == issued[..n][i..j] && issued'[i..j] == issued'[..n][i..j];
    assert issued[..i] == issued[..n][..i] && issued'[..i] == issued'[..n][..i];
  }

  /** Only the applied batches matter to the layers. */
  lemma LayersHoldForPrefix(db: DbState, issued: seq<Batch>, issued': seq<Batch>, tabled: nat, rotated: nat,
                            applied: nat)
    requires LayersHold(db, issued, tabled, rotated, applied)
    requires applied <= |issued'| && issued[..applied] == issued'[..applied]
    ensures LayersHold(db, issued', tabled, rotated, applied)
  {
    SamePrefix(issued, issued', applied, tabled, rotated);
    SamePrefix(issued, issued', applied, rotated, applied);
  }

  lemma PendingForPrefix(w: World, w': World)
    requires w.memory.Up? && w.memory.pending.Some? && PendingOk(w)
    requires w'.memory.Up? && w'.memory == w.memory.(inLog := w'.memory.inLog)
    requires w.memory.applied <= |w'.issued| && w.issued[..w.memory.applied] == w'.issued[..w.memory.applied]
    requires w'.disk.manifest == w.disk.manifest && w'.durable == w.durable
    ensures PendingOk(w')
  {
    var covered := w.memory.pending.value.covered;
    LayersHoldForPrefix(After(w.memory), w.issued, w'.issued, covered, w.memory.rotated, w.memory.applied);
    SamePrefix(w.issued, w'.issued, w.memory.applied, 0, covered);
    assert w.issued[..covered] == w.issued[0..covered] && w'.issued[..covered] == w'.issued[0..covered];
    assert After(w'.memory) == After(w.memory);
  }

  lemma AddRecordKeepsDisk(w: World, w': World, b: Batch)
    requires Ok(w) && AddRecordStep(w, w', b)
    ensures DiskOk(w') && TailOk(w')
  {
    hide VersionOk, NumbersOk, Listed, LayersOk, Holds;
    var m := w.memory;
    assert w.issued[..|w.issued|] == w.issued;
    AppendIncreasing(w.issued, b);
    assert BatchesOk(w'.issued);
    assert w'.issued[..w.durable] == w.issued[..w.durable];
    assert ManifestOk(w'.disk.manifest, w'.issued[..w.durable]);
    assert w'.issued[w.durable..] == w.issued[w.durable..] + [b];
    assert w'.issued[m.rotated..] == w.issued[m.rotated..] + [b];
    RecordsFromLast(w.disk, w.disk.manifest.logNumber);
    ReplaceLast(w.disk, w'.disk, LastLog(w'.disk), w.disk.manifest.logNumber);
  }

  lemma AddRecordKeepsOk(w: World, w': World, b: Batch)
    requires Ok(w) && AddRecordStep(w, w', b)
    ensures Ok(w')
  {
    AddRecordKeepsDisk(w, w', b);
    assert w.issued[..|w.issued|] == w.issued == w'.issued[..|w.issued|];
    LayersHoldForPrefix(w.memory.db, w.issued, w'.issued, w.memory.tabled, w.memory.rotated, w.memory.applied);
    if w.memory.pending.Some? {
      PendingForPrefix(w, w');
    }
  }

  lemma SyncKeepsDisk(w: World, w': World)
    requires DiskOk(w) && w.memory.Up? && TailOk(w) && SyncStep(w, w')
    ensures DiskOk(w') && TailOk(w')
  {
    hide ManifestOk, BatchesOk, LogsOk, RecordsFrom;
    var log := LastLog(w.disk).(synced := |LastLog(w.disk).records|);
    assert w'.disk.logs == w.disk.logs[|w.disk.logs| - 1 := log] && LastLog(w'.disk) == log;
    RecordsFromLast(w.disk, w.disk.manifest.logNumber);
    ReplaceLast(w.disk, w'.disk, log, w.disk.manifest.logNumber);
    assert RecordsFrom(w'.disk.logs, w'.disk.manifest.logNumber) == w'.issued[w'.durable..];
  }

  lemma SyncKeepsOk(w: World, w': World)
    requires Ok(w) && SyncStep(w, w')
    ensures Ok(w')
  {
    hide VersionOk, NumbersOk, Listed, LayersOk, Holds;
    SyncKeepsDisk(w, w');
    if w.memory.pending.Some? {
      PendingForPrefix(w, w');
    }
  }

  lemma LayersApply(db: DbState, db': DbState, mem: seq<Entry>, b: Batch, issued: seq<Batch>, tabled: nat,
                    rotated: nat, applied: nat)
    requires BatchesOk(issued) && LayersHold(db, issued, tabled, rotated, applied)
    requires applied < |issued| && issued[applied] == b && b.first == db.lastSequence + 1
    requires Sorted(mem) && Elements(mem) == Elements(db.mem) + BatchEntries(b) && db' == Applying(db, mem, b)
    ensures LayersHold(db', issued, tabled, rotated, applied + 1)
  {
    assert b in issued;
    EntriesOfOne(b);
    assert issued[rotated..applied + 1] == issued[rotated..applied] + [b];
    EntriesOfConcat(issued[rotated..applied], [b]);
    assert issued[..applied + 1] == issued[..applied] + [b];
    EntriesOfConcat(issued[..applied], [b]);
    forall e | e in BatchEntries(b)
      ensures db.lastSequence < e.sn <= db'.lastSequence
    {
      SequencesInBatch(b, e);
    }
    forall x | x in Elements(Immutable(db)) + Entries(db.current)
      ensures x.sn <= db.lastSequence
    {
      assert x in AllEntries(db);
    }
    assert AllEntries(db') == AllEntries(db) + BatchEntries(b);
  }

  lemma ApplyKeepsDisk(w: World, w': World, mem: seq<Entry>, sync: bool)
    requires DiskOk(w) && w.memory.Up? && TailOk(w) && ApplyStep(w, w', mem, sync)
    ensures DiskOk(w') && TailOk(w')
  {
  }

  lemma ApplyKeepsPending(w: World, w': World, mem: seq<Entry>, sync: bool)
    requires BatchesOk(w.issued) && w.memory.Up? && TailOk(w) && MemoryOk(w) && ApplyStep(w, w', mem, sync)
    requires w.memory.pending.Some?
    ensures PendingOk(w')
  {
    hide VersionOk, NumbersOk, Listed, LayersOk, Holds;
    var m, b := w.memory, w.memory.inLog.value;
    assert After(w'.memory) == Applying(After(m), mem, b) && w'.memory.applied == w.memory.applied + 1;
    LayersApply(After(m), After(w'.memory), mem, b, w'.issued, m.pending.value.covered, m.rotated, m.applied);
  }

  lemma ApplyKeepsLayers(w: World, w': World, mem: seq<Entry>, sync: bool)
    requires BatchesOk(w.issued) && w.memory.Up? && TailOk(w) && ApplyStep(w, w', mem, sync)
    requires LayersHold(w.memory.db, w.issued, w.memory.tabled, w.memory.rotated, w.memory.applied)
    ensures LayersHold(w'.memory.db, w'.issued, w'.memory.tabled, w'.memory.rotated, w'.memory.applied)
  {
    hide VersionOk, NumbersOk, Listed, LayersOk, Holds;
    var m, b := w.memory, w.memory.inLog.value;
    assert w'.memory.applied == w.memory.applied + 1;
    LayersApply(m.db, w'.memory.db, mem, b, w'.issued, w'.memory.tabled, w'.memory.rotated, w.memory.applied);
  }

  lemma ApplyKeepsOk(w: World, w': World, mem: seq<Entry>, sync: bool)
    requires Ok(w) && ApplyStep(w, w', mem, sync)
    ensures Ok(w')
  {
    ApplyKeepsDisk(w, w', mem, sync);
    ApplyKeepsLayers(w, w', mem, sync);
    if w.memory.pending.Some? {
      ApplyKeepsPending(w, w', mem, sync);
    }
  }

  lemma MoreNumbersOk(v: Version, next: nat, next': nat)
    requires NumbersOk(v, next) && next <= next'
    ensures NumbersOk(v, next')
  {
    forall m, f, n, g
      ensures DifferentNumbers(v, m, f, n, g)
    {
      assert DifferentNumbers(v, m, f, n, g);
    }
  }

  lemma LayersRotate(db: DbState, db': DbState, issued: seq<Batch>, tabled: nat)
    requires LayersHold(db, issued, tabled, tabled, |issued|) && db.imm.None?
    requires db' == db.(imm := Some(db.mem), mem := [], nextFile := db.nextFile + 1)
    ensures LayersHold(db', issued, tabled, |issued|, |issued|)
  {
    assert Elements([]) == {} && EntriesOf([]) == {};
    assert issued[|issued|..|issued|] == [];
    MoreNumbersOk(db.current, db.nextFile, db'.nextFile);
    assert Elements(Immutable(db)) == {} && AllEntries(db') == AllEntries(db);
  }

  lemma RotateKeepsDisk(w: World, w': World)
    requires DiskOk(w) && w.memory.Up? && TailOk(w) && w.memory.tabled == w.memory.rotated && RotateStep(w, w')
    ensures DiskOk(w') && TailOk(w')
  {
    var m := w.memory;
    forall i | 0 <= i < |w.disk.logs|
      ensures w.disk.logs[i].number < m.db.nextFile
    {
      assert LogsInOrder(w.disk.logs, i, |w.disk.logs| - 1);
    }
    AddLog(w.disk.logs, m.db.nextFile, w.disk.manifest.logNumber);
    assert w.issued[|w.issued|..] == [];
  }

  lemma RotateKeepsPending(w: World, w': World)
    requires w.memory.Up? && TailOk(w) && MemoryOk(w) && RotateStep(w, w') && w.memory.pending.Some?
    ensures PendingOk(w')
  {
    hide VersionOk, NumbersOk, Listed, LayersOk, Holds;
    var a := After(w.memory);
    assert After(w'.memory) == a.(imm := Some(a.mem), mem := [], nextFile := a.nextFile + 1);
    LayersRotate(a, After(w'.memory), w'.issued, w'.memory.pending.value.covered);
  }

  lemma RotateKeepsOk(w: World, w': World)
    requires Ok(w) && RotateStep(w, w')
    ensures Ok(w')
  {
    hide VersionOk, NumbersOk, Listed, LayersOk, Holds;
    RotateKeepsDisk(w, w');
    LayersRotate(w.memory.db, w'.memory.db, w'.issued, w'.memory.tabled);
    if w.memory.pending.Some? {
      RotateKeepsPending(w, w');
    }
  }

  lemma LayersSnapshots(db: DbState, db': DbState, issued: seq<Batch>, tabled: nat, rotated: nat, applied: nat)
    requires BatchesOk(issued) && LayersHold(db, issued, tabled, rotated, applied)
    requires SnapshotStep(db, db') || exists i :: ReleaseStep(db, db', i)
    ensures LayersHold(db', issued, tabled, rotated, applied)
  {
    LayersReadIssued(db, issued, tabled, rotated, applied);
    SnapshotsKeepOk(db, db');
  }

  lemma SnapshotsKeepPending(w: World, w': World, db: DbState)
    requires BatchesOk(w.issued) && w.memory.Up? && MemoryOk(w) && SnapshotsStep(w, w', db) && w.memory.pending.Some?
    ensures PendingOk(w')
  {
    var a, a' := After(w.memory), After(w'.memory);
    if SnapshotStep(w.memory.db, db) {
      assert SnapshotStep(a, a');
    } else {
      var i :| ReleaseStep(w.memory.db, db, i);
      assert ReleaseStep(a, a', i);
    }
    LayersSnapshots(a, a', w.issued, w.memory.pending.value.covered, w.memory.rotated, w.memory.applied);
    assert LayersHold(a', w.issued, w'.memory.pending.value.covered, w.memory.rotated, w'.memory.applied);
  }

  lemma SnapshotsKeepWorld(w: World, w': World, db: DbState)
    requires Ok(w) && SnapshotsStep(w, w', db)
    ensures Ok(w')
  {
    hide VersionOk, NumbersOk, Listed, LayersOk, Holds;
    LayersSnapshots(w.memory.db, db, w.issued, w.memory.tabled, w.memory.rotated, w.memory.applied);
    if w.memory.pending.Some? {
      SnapshotsKeepPending(w, w', db);
    }
  }

  lemma FlushedHolds(db: DbState, db': DbState, level: nat, f: File, v: Version, issued: seq<Batch>, tabled: nat,
                     rotated: nat, applied: nat)
    requires BatchesOk(issued) && LayersHold(db, issued, tabled, rotated, applied) && FlushStep(db, db', level, f, v)
    ensures LayersHold(db', issued, rotated, rotated, applied)
  {
    LayersReadIssued(db, issued, tabled, rotated, applied);
    FlushKeepsOk(db, db', level, f, v);
    SplitOnce(issued, tabled, rotated);
    assert issued[rotated..rotated] == [] && Elements([]) == {} && EntriesOf([]) == {};
    if db.imm.value != [] {
      FlushMovesEntries(db, db', level, f, v);
    } else {
      assert Entries(db'.current) == Elements(Immutable(db)) + Entries(db.current);
    }
    forall k, snap: nat | db.floor <= snap
      ensures Read(Entries(db'.current), k, snap) == Read(EntriesOf(issued[..rotated]), k, snap)
    {
      TablesReadAt(db, issued, tabled, rotated, applied, k, snap);
    }
  }

  lemma TablesReadAt(db: DbState, issued: seq<Batch>, tabled: nat, rotated: nat, applied: nat, k: UserKey, snap: nat)
    requires BatchesOk(issued) && LayersHold(db, issued, tabled, rotated, applied) && db.floor <= snap
    ensures Read(Elements(Immutable(db)) + Entries(db.current), k, snap) == Read(EntriesOf(issued[..rotated]), k, snap)
  {
    SplitBatches(issued, tabled, rotated, applied);
    UniqueInVersion(db.current, 0);
    UniqueInRun(Immutable(db));
    UniqueUnion(Elements(Immutable(db)), Entries(db.current));
    var tables := EntriesOf(issued[..tabled]);
    assert Read(Entries(db.current), k, snap) == Read(tables, k, snap);
    ReadByLayer(Elements(Immutable(db)), Entries(db.current), tables, k, snap);
  }

  lemma MovedHolds(db: DbState, db': DbState, c: CompactionInputs, v: Version, issued: seq<Batch>, tabled: nat,
                   rotated: nat, applied: nat)
    requires BatchesOk(issued) && LayersHold(db, issued, tabled, rotated, applied) && MoveStep(db, db', c, v)
    ensures LayersHold(db', issued, tabled, rotated, applied)
  {
    LayersReadIssued(db, issued, tabled, rotated, applied);
    MoveKeepsOk(db, db', c, v);
    MoveKeepsVersion(db.current, c, v, db.nextFile);
    assert Entries(v) == Entries(db.current);
  }

  lemma CompactedHolds(db: DbState, db': DbState, c: CompactionInputs, input: seq<Entry>, outputs: Level, v: Version,
                       issued: seq<Batch>, tabled: nat, rotated: nat, applied: nat)
    requires BatchesOk(issued) && LayersHold(db, issued, tabled, rotated, applied)
    requires CompactStep(db, db', c, input, outputs, v)
    ensures LayersHold(db', issued, tabled, rotated, applied)
  {
    LayersReadIssued(db, issued, tabled, rotated, applied);
    CompactKeepsOk(db, db', c, input, outputs, v);
    AfterIsSubset(db.current, c, input, SmallestSnapshot(db), outputs, v);
    forall k, snap: nat | db'.floor <= snap
      ensures Read(Entries(v), k, snap) == Read(EntriesOf(issued[..tabled]), k, snap)
    {
      ReadUnchanged(db.current, c, input, SmallestSnapshot(db), outputs, v, k, snap);
      assert Read(Entries(db.current), k, snap) == Read(EntriesOf(issued[..tabled]), k, snap);
    }
  }

  /** What background work changes in memory. */
  ghost predicate ChangesTables(db: DbState, db': DbState, flushes: bool) {
    && db'.nextFile >= db.nextFile && (flushes ==> db.imm.Some?)
    && db'.imm == (if flushes then None else db.imm)
    && db' == db.(nextFile := db'.nextFile, current := db'.current, floor := db'.floor, imm := db'.imm)
  }

  lemma JobHolds(db: DbState, db': DbState, flushes: bool, issued: seq<Batch>, tabled: nat, rotated: nat, applied: nat)
    requires BatchesOk(issued) && LayersHold(db, issued, tabled, rotated, applied) && Job(db, db', flushes)
    ensures LayersHold(db', issued, if flushes then rotated else tabled, rotated, applied)
    ensures ChangesTables(db, db', flushes)
  {
    if flushes {
      var level, f, v :| FlushStep(db, db', level, f, v);
      FlushedHolds(db, db', level, f, v, issued, tabled, rotated, applied);
    } else if c, v :| MoveStep(db, db', c, v) {
      MovedHolds(db, db', c, v, issued, tabled, rotated, applied);
    } else {
      var c, input, outputs, v :| CompactStep(db, db', c, input, outputs, v);
      CompactedHolds(db, db', c, input, outputs, v, issued, tabled, rotated, applied);
    }
  }

  lemma PreparedEditOk(w: World, w': World, db: DbState, flushes: bool)
    requires DiskOk(w) && w.memory.Up? && TailOk(w) && Prepared(w, w', db, flushes)
    requires LayersHold(db, w.issued, w'.memory.pending.value.covered, w.memory.rotated, w.memory.applied)
    requires db.nextFile >= w.memory.db.nextFile
    ensures ManifestOk(w'.memory.pending.value.edit, w.issued[..w'.memory.pending.value.covered])
  {
    assert w.disk.manifest.logNumber <= w.memory.logNumber < db.nextFile;
    var covered := w'.memory.pending.value.covered;
    forall b | b in w.issued[..covered]
      ensures End(b) <= db.lastSequence + 1
    {
      assert b in w.issued[..w.memory.applied];
    }
  }

  lemma PrepareKeepsLayers(w: World, w': World, db: DbState, flushes: bool)
    requires w.memory.Up? && Prepared(w, w', db, flushes) && db.nextFile >= w.memory.db.nextFile
    requires LayersHold(w.memory.db, w.issued, w.memory.tabled, w.memory.rotated, w.memory.applied)
    ensures LayersHold(w'.memory.db, w.issued, w.memory.tabled, w.memory.rotated, w.memory.applied)
  {
    MoreNumbersOk(w.memory.db.current, w.memory.db.nextFile, db.nextFile);
    assert AllEntries(w'.memory.db) == AllEntries(w.memory.db);
  }

  lemma PrepareKeepsDisk(w: World, w': World, db: DbState, flushes: bool)
    requires DiskOk(w) && w.memory.Up? && TailOk(w) && Prepared(w, w', db, flushes)
    requires db.nextFile >= w.memory.db.nextFile
    ensures DiskOk(w') && TailOk(w')
  {
  }

  lemma PrepareKeepsPending(w: World, w': World, db: DbState, flushes: bool)
    requires DiskOk(w) && w.memory.Up? && TailOk(w) && Prepared(w, w', db, flushes)
    requires ChangesTables(w.memory.db, db, flushes)
    requires LayersHold(db, w.issued, w'.memory.pending.value.covered, w.memory.rotated, w.memory.applied)
    ensures PendingOk(w')
  {
    var m := w.memory;
    PreparedEditOk(w, w', db, flushes);
    var applied := w.memory.applied;
    assert After(w'.memory) == db && w'.memory.applied == applied;
    assert LayersHold(db, w.issued, w'.memory.pending.value.covered, m.rotated, applied);
    assert LayersHold(After(w'.memory), w'.issued, w'.memory.pending.value.covered, m.rotated, w'.memory.applied);
  }

  /** Any change of the tables that holds what it should may be prepared. */
  lemma PreparedKeepsOk(w: World, w': World, db: DbState, flushes: bool)
    requires Ok(w) && Prepared(w, w', db, flushes) && ChangesTables(w.memory.db, db, flushes)
    requires LayersHold(db, w.issued, w'.memory.pending.value.covered, w.memory.rotated, w.memory.applied)
    ensures Ok(w')
  {
    PrepareKeepsPending(w, w', db, flushes);
    PrepareKeepsDisk(w, w', db, flushes);
    PrepareKeepsLayers(w, w', db, flushes);
  }

  lemma PrepareKeepsOk(w: World, w': World, db: DbState, flushes: bool)
    requires Ok(w) && PrepareStep(w, w', db, flushes)
    ensures Ok(w')
  {
    hide DiskOk, TailOk;
    var m := w.memory;
    assert BatchesOk(w.issued) by {
      IssuedOk(w);
    }
    JobHolds(m.db, db, flushes, w.issued, m.tabled, m.rotated, m.applied);
    PreparedKeepsOk(w, w', db, flushes);
  }

  lemma IssuedOk(w: World)
    requires DiskOk(w)
    ensures BatchesOk(w.issued)
  {
  }

  lemma LogEditKeepsDisk(w: World, w': World)
    requires DiskOk(w) && w.memory.Up? && TailOk(w) && w.memory.pending.Some? && PendingOk(w) && LogEditStep(w, w')
    ensures DiskOk(w') && TailOk(w')
  {
    hide ManifestOk, LayersHold, LogsOk, BatchesOk, RecordsFrom;
    RecordsFromLast(w.disk, w'.disk.manifest.logNumber);
  }

  lemma LogEditKeepsOk(w: World, w': World)
    requires Ok(w) && LogEditStep(w, w')
    ensures Ok(w')
  {
    LogEditKeepsDisk(w, w');
    assert After(w'.memory) == After(w.memory) && w'.memory.applied == w.memory.applied;
    assert LayersHold(After(w'.memory), w.issued, w'.memory.pending.value.covered, w.memory.rotated, w'.memory.applied);
    assert LayersHold(w'.memory.db, w.issued, w.memory.tabled, w.memory.rotated, w'.memory.applied);
  }

  lemma InstallKeepsOk(w: World, w': World)
    requires Ok(w) && InstallStep(w, w')
    ensures Ok(w')
  {
    hide VersionOk, NumbersOk, Listed, LayersOk, Holds;
    assert DiskOk(w') && TailOk(w');
    assert MemoryOk(w') by {
      assert PendingOk(w);
    }
  }

  lemma DeleteLogKeepsDisk(w: World, w': World, i: nat)
    requires DiskOk(w) && DeleteLogStep(w, w', i) && TailOk(w)
    ensures DiskOk(w') && TailOk(w')
  {
    var logs, logs', min := w.disk.logs, w'.disk.logs, w.disk.manifest.logNumber;
    forall a, b | 0 <= a < |logs'| && 0 <= b < |logs'|
      ensures LogsInOrder(logs', a, b)
    {
      assert LogsInOrder(logs, if a < i then a else a + 1, if b < i then b else b + 1);
    }
    assert LastLog(w'.disk) == LastLog(w.disk);
    RecordsFromRemove(logs, i, min);
  }

  lemma RecordsFromRemove(logs: seq<LogFile>, i: nat, min: nat)
    requires i < |logs| && logs[i].number < min
    ensures RecordsFrom(logs[..i] + logs[i + 1..], min) == RecordsFrom(logs, min)
  {
    assert logs == logs[..i] + ([logs[i]] + logs[i + 1..]);
    RecordsFromConcat(logs[..i], [logs[i]] + logs[i + 1..], min);
    RecordsFromConcat([logs[i]], logs[i + 1..], min);
    RecordsFromOne(logs[i], min);
    RecordsFromConcat(logs[..i], logs[i + 1..], min);
  }

  lemma DeleteLogKeepsOk(w: World, w': World, i: nat)
    requires Ok(w) && DeleteLogStep(w, w', i)
    ensures Ok(w')
  {
    DeleteLogKeepsDisk(w, w', i);
    assert MemoryOk(w');
  }

  // ----- crashes -----

  /** A crash loses a suffix of the issued batches, and nothing that was acknowledged as synced. */
  lemma CrashLeavesPrefix(w: World, w': World, n: nat)
    requires Ok(w) && CrashStep(w, w', n)
    ensures w'.issued <= w.issued && w.acked <= |w'.issued|
    ensures |w'.issued| == |w.issued| - if w.disk.logs == [] then 0 else |LastLog(w.disk).records| - n
  {
    hide VersionOk, NumbersOk, Listed, LayersOk, Holds;
    var min := w.disk.manifest.logNumber;
    assert w.issued == w.issued[..w.durable] + w.issued[w.durable..];
    if w.disk.logs != [] {
      var last := LastLog(w.disk);
      var rest := w.disk.logs[..|w.disk.logs| - 1];
      RecordsFromLast(w.disk, min);
      RecordsFromConcat(rest, [LogFile(last.number, last.records[..n], n)], min);
      RecordsFromOne(LogFile(last.number, last.records[..n], n), min);
      assert last.records == last.records[..n] + last.records[n..];
      assert w.issued == w'.issued + last.records[n..];
    }
  }

  lemma CrashKeepsOk(w: World, w': World, n: nat)
    requires Ok(w) && CrashStep(w, w', n)
    ensures Ok(w')
  {
    hide VersionOk, NumbersOk, Listed, LayersOk, Holds;
    CrashLeavesPrefix(w, w', n);
    var k := |w'.issued|;
    assert w'.issued == w.issued[..k] == w.issued[0..k];
    SliceIncreasing(w.issued, 0, k);
    assert w'.issued[..w.durable] == w.issued[..w.durable];
    if w.disk.logs != [] {
      var log := LogFile(LastLog(w.disk).number, LastLog(w.disk).records[..n], n);
      assert w'.disk.logs == w.disk.logs[|w.disk.logs| - 1 := log];
      ReplaceLast(w.disk, w'.disk, log, w.disk.manifest.logNumber);
      assert LastLog(w'.disk) == log;
    }
  }

  lemma FailedOpenKeepsOk(w: World, w': World, number: nat)
    requires Ok(w) && FailedOpenStep(w, w', number)
    ensures Ok(w')
  {
    hide VersionOk, NumbersOk, Listed, LayersOk, Holds;
    AddLog(w.disk.logs, number, w.disk.manifest.logNumber);
  }

  // ----- recovery -----

  lemma {:induction false} LastSequenceBounds(m: nat, bs: seq<Batch>)
    requires m < MAX_SEQUENCE && forall b :: b in bs ==> End(b) <= MAX_SEQUENCE
    ensures m <= LastSequence(m, bs) < MAX_SEQUENCE
    ensures forall b :: b in bs ==> End(b) <= LastSequence(m, bs) + 1
    decreases |bs|
  {
    if bs != [] {
      var rest := bs[..|bs| - 1];
      LastSequenceBounds(m, rest);
      assert bs[|bs| - 1] in bs && bs == rest + [bs[|bs| - 1]];
    }
  }

  /** Tables made of the replayed batches, above the old tables, read like all batches. */
  lemma ReplayedHolds(v: Version, v': Version, floor: nat, issued: seq<Batch>, durable: nat)
    requires BatchesOk(issued) && durable <= |issued| && VersionOk(v) && VersionOk(v')
    requires Holds(v, floor, issued[..durable])
    requires Entries(v') == EntriesOf(issued[durable..]) + Entries(v)
    ensures Holds(v', floor, issued)
  {
    SplitOnce(issued, durable, |issued|);
    SplitOnce(issued, 0, durable);
    assert issued[..|issued|] == issued && issued[durable..|issued|] == issued[durable..];
    UniqueInVersion(v', 0);
    UniqueInVersion(v, 0);
    var replayed, tables := EntriesOf(issued[durable..]), EntriesOf(issued[..durable]);
    forall k, snap: nat | floor <= snap
      ensures Read(Entries(v'), k, snap) == Read(EntriesOf(issued), k, snap)
    {
      assert Read(Entries(v), k, snap) == Read(tables, k, snap);
      ReadByLayer(replayed, Entries(v), tables, k, snap);
    }
  }

  lemma OpenedLayers(w: World, d: Disk)
    requires DiskOk(w) && Reopened(w.disk, d, w.issued[w.durable..])
    ensures ManifestOk(d.manifest, w.issued)
    ensures forall e :: e in Entries(d.manifest.version) ==> e.sn <= d.manifest.lastSequence
  {
    var m, m' := w.disk.manifest, d.manifest;
    var replayed := w.issued[w.durable..];
    ReplayedHolds(m.version, m'.version, m.floor, w.issued, w.durable);
    forall b | b in replayed
      ensures End(b) <= MAX_SEQUENCE
    {
      assert b in w.issued;
    }
    LastSequenceBounds(m.lastSequence, replayed);
    assert w.issued == w.issued[..w.durable] + replayed;
    forall e | e in Entries(m'.version)
      ensures e.sn <= m'.lastSequence
    {
      assert e in EntriesOf(w.issued);
      var b :| b in w.issued && e in BatchEntries(b);
      SequencesInBatch(b, e);
    }
  }

  lemma OpenKeepsDisk(w: World, w': World, d: Disk)
    requires Ok(w) && OpenStep(w, w', d)
    ensures DiskOk(w') && TailOk(w')
  {
    hide VersionOk, NumbersOk, Listed, LayersOk, Holds;
    OpenedLayers(w, d);
    AddLog(w.disk.logs, d.manifest.logNumber, d.manifest.logNumber);
    RecordsFromOld(w.disk.logs, d.manifest.logNumber);
    var n := |w.issued|;
    assert w.issued[..n] == w.issued && w.issued[n..] == [];
  }

  lemma OpenKeepsOk(w: World, w': World, d: Disk)
    requires Ok(w) && OpenStep(w, w', d)
    ensures Ok(w')
  {
    hide VersionOk, NumbersOk, Listed, Holds;
    OpenKeepsDisk(w, w', d);
    OpenedLayers(w, d);
    var n := |w.issued|;
    assert w.issued[..n] == w.issued && w.issued[n..n] == [];
    assert Elements([]) == {} && EntriesOf([]) == {};
    assert AllEntries(w'.memory.db) == Entries(d.manifest.version);
  }

  // ----- runs -----

  lemma NextKeepsOk(w: World, w': World)
    requires Ok(w) && Next(w, w')
    ensures Ok(w')
  {
    hide DiskOk, TailOk, MemoryOk;
    if b :| AddRecordStep(w, w', b) {
      AddRecordKeepsOk(w, w', b);
    } else if SyncStep(w, w') {
      SyncKeepsOk(w, w');
    } else if mem, sync :| ApplyStep(w, w', mem, sync) {
      ApplyKeepsOk(w, w', mem, sync);
    } else if RotateStep(w, w') {
      RotateKeepsOk(w, w');
    } else if db :| SnapshotsStep(w, w', db) {
      SnapshotsKeepWorld(w, w', db);
    } else if db, flushes :| PrepareStep(w, w', db, flushes) {
      PrepareKeepsOk(w, w', db, flushes);
    } else if LogEditStep(w, w') {
      LogEditKeepsOk(w, w');
    } else if InstallStep(w, w') {
      InstallKeepsOk(w, w');
    } else if i :| DeleteLogStep(w, w', i) {
      DeleteLogKeepsOk(w, w', i);
    } else if n :| CrashStep(w, w', n) {
      CrashKeepsOk(w, w', n);
    } else if number :| FailedOpenStep(w, w', number) {
      FailedOpenKeepsOk(w, w', number);
    } else {
      var d :| OpenStep(w, w', d);
      OpenKeepsOk(w, w', d);
    }
  }

  /** NewDB: no tables, no logs, log number 0 and next file number 2. */
  ghost predicate NewDB(w: World) {
    && w.disk.logs == [] && w.memory.Down? && w.issued == [] && w.acked == w.durable == 0
    && var m := w.disk.manifest;
      && m.logNumber == m.lastSequence == m.floor == 0 && m.nextFile == 2
      && |m.version| == NUM_LEVELS && forall l :: 0 <= l < NUM_LEVELS ==> m.version[l] == []
  }

  ghost predicate IsRun(run: seq<World>) {
    run != [] && NewDB(run[0]) && forall i :: 0 <= i < |run| - 1 ==> Next(run[i], run[i + 1])
  }

  lemma NewDBIsOk(w: World)
    requires NewDB(w)
    ensures Ok(w)
  {
    var v := w.disk.manifest.version;
    forall e ensures e !in Entries(v) {
      InEntriesFrom(v, 0, e);
    }
    assert Entries(v) == {} == EntriesOf([]);
  }

  lemma {:induction false} RunKeepsOk(run: seq<World>, i: nat)
    requires IsRun(run) && i < |run|
    ensures Ok(run[i])
  {
    hide DiskOk, TailOk, MemoryOk;
    if i == 0 {
      NewDBIsOk(run[0]);
    } else {
      RunKeepsOk(run, i - 1);
      assert Next(run[i - 1], run[i - 1 + 1]);
      NextKeepsOk(run[i - 1], run[i]);
    }
  }

  /** A step loses nothing acknowledged as synced, and takes no acknowledgement back. */
  lemma StepKeepsAcked(w: World, w': World)
    requires Ok(w) && Next(w, w')
    ensures w.acked <= w'.acked <= |w'.issued| && w.acked <= |w.issued| && w.issued[..w.acked] <= w'.issued
  {
    hide VersionOk, NumbersOk, Listed, LayersOk, Holds, LayersHold, PendingOk, ManifestOk;
    NextKeepsOk(w, w');
    if n :| CrashStep(w, w', n) {
      CrashLeavesPrefix(w, w', n);
    } else {
      assert w.issued <= w'.issued;
    }
  }

  lemma AckedAreIssued(w: World)
    requires Ok(w)
    ensures w.acked <= |w.issued|
  {
  }

  /** Whatever crashes happen, a batch once acknowledged as synced keeps its place in the history. */
  lemma {:induction false} SyncedWritesSurvive(run: seq<World>, i: nat, j: nat)
    requires IsRun(run) && i <= j < |run|
    ensures run[i].acked <= |run[i].issued| && run[i].acked <= run[j].acked <= |run[j].issued|
    ensures run[i].issued[..run[i].acked] <= run[j].issued
    decreases j
  {
    hide DiskOk, TailOk, MemoryOk, Next;
    RunKeepsOk(run, j);
    AckedAreIssued(run[j]);
    if i < j {
      SyncedWritesSurvive(run, i, j - 1);
      RunKeepsOk(run, j - 1);
      assert Next(run[j - 1], run[j - 1 + 1]);
      StepKeepsAcked(run[j - 1], run[j]);
      var a, b := run[i].acked, run[j - 1].acked;
      assert run[i].issued[..a] == run[j - 1].issued[..a] == run[j - 1].issued[..b][..a];
    }
  }

  lemma OpenReadsIssued(w: World, k: UserKey, snap: nat)
    requires Ok(w) && w.memory.Up?
    requires snap in w.memory.db.snapshots || snap >= w.memory.db.lastSequence
    ensures Database.Ok(w.memory.db) && w.memory.applied <= |w.issued|
    ensures Read(AllEntries(w.memory.db), k, snap) == Read(EntriesOf(w.issued[..w.memory.applied]), k, snap)
  {
    var m := w.memory;
    LayersReadIssued(m.db, w.issued, m.tabled, m.rotated, m.applied);
  }

  lemma ReopenedFrom(w: World, n: nat, w1: World, w2: World, d: Disk, k: UserKey, snap: nat)
    requires Ok(w) && CrashStep(w, w1, n) && OpenStep(w1, w2, d) && snap >= w2.memory.db.lastSequence
    ensures w1.issued <= w.issued && w.acked <= |w1.issued|
    ensures Read(AllEntries(w2.memory.db), k, snap) == Read(EntriesOf(w1.issued), k, snap)
  {
    hide Ok, CrashStep, Reopened, RecordsFrom;
    CrashLeavesPrefix(w, w1, n);
    CrashKeepsOk(w, w1, n);
    OpenKeepsOk(w1, w2, d);
    OpenReadsIssued(w2, k, snap);
    assert w1.issued[..|w1.issued|] == w1.issued;
  }

  /** A batch that was written and applied is what readers get: the last update of a key in it. */
  lemma WrittenIsRead(w: World, w1: World, w2: World, b: Batch, mem: seq<Entry>, sync: bool, k: UserKey, snap: nat,
                      i: nat)
    requires Ok(w) && AddRecordStep(w, w1, b) && ApplyStep(w1, w2, mem, sync) && LastUpdate(b, k, snap, i)
    ensures w2.memory.Up?
    ensures snap >= w2.memory.db.lastSequence ==>
              Read(AllEntries(w2.memory.db), k, snap)
              == if b.ops[i].op.Put? then Found(b.ops[i].op.value) else NotFound
  {
    hide Ok, AddRecordStep, ApplyStep;
    AppliedAll(w, w1, w2, b, mem, sync);
    if snap >= w2.memory.db.lastSequence {
      OpenReadsIssued(w2, k, snap);
      BatchIsRead(w.issued, b, k, snap, i);
    }
  }

  /** A key the batch does not hold reads as before. */
  lemma OthersReadAsBefore(w: World, w1: World, w2: World, b: Batch, mem: seq<Entry>, sync: bool, k: UserKey, snap: nat)
    requires Ok(w) && AddRecordStep(w, w1, b) && ApplyStep(w1, w2, mem, sync)
    requires forall i :: 0 <= i < |b.ops| ==> b.ops[i].key != k
    ensures w.memory.Up? && w2.memory.Up? && w2.memory.db.lastSequence == w.memory.db.lastSequence + |b.ops|
    ensures snap >= w2.memory.db.lastSequence ==>
              Read(AllEntries(w2.memory.db), k, snap) == Read(AllEntries(w.memory.db), k, snap)
  {
    hide Ok, AddRecordStep, ApplyStep;
    AppliedAll(w, w1, w2, b, mem, sync);
    if snap >= w2.memory.db.lastSequence {
      OpenReadsIssued(w, k, snap);
      OpenReadsIssued(w2, k, snap);
      BatchLeavesRead(w.issued, b, k, snap);
    }
  }

  lemma IssuedBelow(w: World)
    requires Ok(w) && w.memory.Up? && w.memory.inLog.None?
    ensures forall x :: x in w.issued ==> End(x) <= w.memory.db.lastSequence + 1
  {
    assert w.issued[..w.memory.applied] == w.issued;
  }

  lemma AppliedAll(w: World, w1: World, w2: World, b: Batch, mem: seq<Entry>, sync: bool)
    requires Ok(w) && AddRecordStep(w, w1, b) && ApplyStep(w1, w2, mem, sync)
    ensures w.memory.Up? && w2.memory.Up? && Increasing(w.issued + [b])
    ensures w.issued[..w.memory.applied] == w.issued && w2.memory.applied == |w2.issued|
    ensures w2.issued[..w2.memory.applied] == w.issued + [b]
    ensures w2.memory.db.lastSequence == w.memory.db.lastSequence + |b.ops| && Ok(w2)
  {
    hide MemoryOk, ManifestOk, RecordsFrom, LogsOk;
    AddRecordKeepsOk(w, w1, b);
    ApplyKeepsOk(w1, w2, mem, sync);
    assert w.memory.applied == |w.issued|;
    assert forall x :: x in w.issued ==> End(x) <= b.first by {
      IssuedBelow(w);
    }
    AppendIncreasing(w.issued, b);
  }

  /** A batch whose synced write was acknowledged is at its place in every later state, whatever crashes happen. */
  lemma SyncedBatchStays(run: seq<World>, i: nat, m: nat, j: nat, b: Batch, mem: seq<Entry>)
    requires IsRun(run) && i < m < j < |run|
    requires AddRecordStep(run[i], run[i + 1], b) && run[m].issued == run[i + 1].issued
    requires ApplyStep(run[m], run[m + 1], mem, true)
    ensures |run[i].issued| < |run[j].issued| && run[j].issued[|run[i].issued|] == b
  {
    SyncedWritesSurvive(run, m + 1, j);
    assert run[m + 1].acked == |run[i].issued| + 1;
    assert run[m + 1].issued == run[i].issued + [b];
  }

  /** In every open state of every run, all live snapshots and the latest state read like the applied batches. */
  lemma RunsReadIssued(run: seq<World>, i: nat, k: UserKey, snap: nat)
    requires IsRun(run) && i < |run| && run[i].memory.Up?
    requires snap in run[i].memory.db.snapshots || snap >= run[i].memory.db.lastSequence
    ensures Database.Ok(run[i].memory.db) && run[i].memory.applied <= |run[i].issued|
    ensures Read(AllEntries(run[i].memory.db), k, snap)
         == Read(EntriesOf(run[i].issued[..run[i].memory.applied]), k, snap)
  {
    RunKeepsOk(run, i);
    OpenReadsIssued(run[i], k, snap);
  }

  /**
   A crash at any point of any run and a following open: the store reads like a prefix of the issued batches that
   contains every acknowledged synced write.
   */
  lemma ReopenedReadsPrefix(run: seq<World>, i: nat, n: nat, w1: World, w2: World, d: Disk, k: UserKey, snap: nat)
    requires IsRun(run) && i < |run| && CrashStep(run[i], w1, n) && OpenStep(w1, w2, d)
    requires snap >= w2.memory.db.lastSequence
    ensures w1.issued <= run[i].issued && run[i].acked <= |w1.issued|
    ensures Read(AllEntries(w2.memory.db), k, snap) == Read(EntriesOf(w1.issued), k, snap)
  {
    RunKeepsOk(run, i);
    ReopenedFrom(run[i], n, w1, w2, d, k, snap);
  }
}
