/**
 The store with its disk as an object (db/db_impl.cc:223-278, 515-566, 1185-1230, 1336-1366, 1482-1516): every method
 is one step of the crash model, so a crash may fall between any two calls.
 */
module DurableStore {
  import opened Options
  import opened DbFormat
  import opened Multimap
  import opened Versions
  import opened Inputs
  import opened VersionSteps
  import opened InstallEdits
  import opened Database
  import opened Batches
  import opened Recovery
  import opened Replay

  /** The specification's bookkeeping; see Recovery.World and Recovery.Memory. */
  datatype Marks = Marks(history: set<Entry>, issued: seq<Batch>, acked: nat, durable: nat, tabled: nat, rotated: nat,
                         applied: nat, covered: nat)

  class Store {
    var disk: Disk
    var up: bool
    var mem: seq<Entry>
    var imm: Option<seq<Entry>>
    var current: Version
    var nextFile: nat
    var lastSequence: nat
    var snapshots: seq<nat>
    var floor: nat
    var logNumber: nat
    var inLog: Option<Batch>
    var edit: Option<Manifest>
    var flushes: bool
    var logged: bool
    ghost var marks: Marks

    ghost function Db(): DbState
      reads this
    {
      DbState(mem, imm, current, nextFile, lastSequence, snapshots, marks.history, floor)
    }

    ghost function State(): World
      reads this
    {
      var pending := if edit.Some? then Some(Pending(edit.value, flushes, logged, marks.covered)) else None;
      var memory := Up(Db(), logNumber, inLog, pending, marks.tabled, marks.rotated, marks.applied);
      World(disk, if up then memory else Down, marks.issued, marks.acked, marks.durable)
    }

    ghost predicate Valid()
      reads this
    {
      Recovery.Ok(State())
    }

    /** NewDB on an empty directory; the store is not open yet. */
    constructor ()
      ensures Valid() && NewDB(State())
    {
      disk := Disk(Manifest(seq(NUM_LEVELS, i => []), 0, 0, 2, 0), []);
      up := false;
      marks := Marks({}, [], 0, 0, 0, 0, 0, 0);
      new;
      NewDBIsOk(State());
    }

    method Open()
      requires Valid() && !up
      modifies this
      ensures up && OpenStep(old(State()), State(), disk) && Valid()
    {
      hide Recovery.Ok, Reopened, RecordsFrom, Replayable, VersionOk, Listed, NumbersOk;
      ghost var w := State();
      LeftReplayable(w);
      disk := Replay.Open(disk);
      StartFrom(disk.manifest);
      var n := |marks.issued|;
      marks := Marks(EntriesOf(marks.issued), marks.issued, marks.acked, n, n, n, n, 0);
      assert OpenStep(w, State(), disk);
      OpenKeepsOk(w, State(), disk);
    }

    /** The fields of a store just opened. */
    method StartFrom(m: Manifest)
      modifies this`up, this`mem, this`imm, this`current, this`nextFile, this`lastSequence, this`snapshots, this`floor,
               this`logNumber, this`inLog, this`edit
      ensures up && mem == [] && imm == None && current == m.version && nextFile == m.nextFile
      ensures lastSequence == m.lastSequence && snapshots == [] && floor == m.floor && logNumber == m.logNumber
      ensures inLog == None && edit == None
    {
      up := true;
      mem, imm, current, nextFile, lastSequence, snapshots := [], None, m.version, m.nextFile, m.lastSequence, [];
      floor, logNumber, inLog, edit := m.floor, m.logNumber, None, None;
    }

    method AddRecord(ops: seq<Update>)
      requires Valid() && up && inLog.None? && lastSequence + 1 + |ops| <= MAX_SEQUENCE
      modifies this`disk, this`inLog, this`marks
      ensures AddRecordStep(old(State()), State(), Batch(lastSequence + 1, ops)) && Valid()
      ensures disk.logs != [] && old(disk.logs) != [] && lastSequence == old(lastSequence)
      ensures LastLog(disk).records == LastLog(old(disk)).records + [Batch(lastSequence + 1, ops)]
      ensures marks.issued == old(marks.issued) + [Batch(lastSequence + 1, ops)]
    {
      hide Recovery.Ok;
      ghost var w := State();
      LogsNotEmpty(w);
      var b := Batch(lastSequence + 1, ops);
      var log := LastLog(disk);
      disk := disk.(logs := disk.logs[|disk.logs| - 1 := log.(records := log.records + [b])]);
      inLog := Some(b);
      marks := marks.(issued := marks.issued + [b]);
      AddRecordKeepsOk(w, State(), b);
    }

    method Sync()
      requires Valid() && up && inLog.Some?
      modifies this`disk
      ensures SyncStep(old(State()), State()) && Valid()
      ensures disk.logs != [] && LastLog(disk).synced == |LastLog(disk).records|
    {
      hide Recovery.Ok;
      ghost var w := State();
      LogsNotEmpty(w);
      var log := LastLog(disk);
      disk := disk.(logs := disk.logs[|disk.logs| - 1 := log.(synced := |log.records|)]);
      SyncKeepsOk(w, State());
    }

    /** InsertInto and SetLastSequence; `sync` says that the caller asked for, and got, an fsync. */
    method Apply(sync: bool)
      requires Valid() && up && inLog.Some?
      requires sync && disk.logs != [] ==> LastLog(disk).synced == |LastLog(disk).records|
      modifies this`mem, this`lastSequence, this`inLog, this`marks
      ensures ApplyStep(old(State()), State(), mem, sync) && Valid()
      ensures marks.applied == |marks.issued| && (sync ==> marks.acked == |marks.issued|)
    {
      hide Recovery.Ok;
      ghost var w := State();
      LogsNotEmpty(w);
      var b := inLog.value;
      MemoryBelow(w);
      mem := InsertInto(b, mem);
      InsertedElements(w.memory.db.mem, mem, b);
      hide Elements, BatchEntries, Sorted;
      lastSequence := if End(b) == 0 then 0 else End(b) - 1;
      inLog := None;
      var n := |marks.issued|;
      marks := marks.(history := marks.history + BatchEntries(b), acked := if sync then n else marks.acked,
          applied := n);
      assert ApplyStep(w, State(), mem, sync);
      ApplyKeepsOk(w, State(), mem, sync);
    }

    /** A new, empty log file under a new number becomes the current log. */
    method NewLog()
      modifies this`disk, this`nextFile, this`logNumber
      ensures disk == old(disk).(logs := old(disk.logs) + [LogFile(old(nextFile), [], 0)])
      ensures logNumber == old(nextFile) && nextFile == old(nextFile) + 1
    {
      disk := disk.(logs := disk.logs + [LogFile(nextFile, [], 0)]);
      logNumber := nextFile;
      nextFile := nextFile + 1;
    }

    /** The switch at the end of MakeRoomForWrite. */
    method SwitchMemTable()
      requires Valid() && up && inLog.None? && imm.None?
      modifies this`disk, this`mem, this`imm, this`nextFile, this`logNumber, this`marks
      ensures RotateStep(old(State()), State()) && Valid()
    {
      hide Recovery.Ok;
      ghost var w := State();
      NewLog();
      imm, mem := Some(mem), [];
      marks := marks.(rotated := |marks.issued|);
      RotateKeepsOk(w, State());
    }

    /** CompactMemTable up to LogAndApply: build the table and the edit that names the current log. */
    method PrepareFlush(maxGrandParentBytes: nat)
      requires Valid() && up && edit.None? && imm.Some?
      modifies this`nextFile, this`edit, this`flushes, this`logged, this`marks
      ensures edit.Some? && flushes && !logged && Recovery.Next(old(State()), State()) && Valid()
    {
      hide Recovery.Ok, Database.Ok, Job;
      ghost var w := State();
      OpenIsGood(w);
      ghost var db := Db();
      var v := BuildFlush(current, imm.value, nextFile, maxGrandParentBytes, db);
      nextFile := nextFile + 1;
      edit, flushes, logged := Some(Manifest(v, floor, logNumber, nextFile, lastSequence)), true, false;
      marks := marks.(covered := marks.rotated);
      assert PrepareStep(w, State(), db.(imm := None, current := v, nextFile := nextFile), true);
      PrepareKeepsOk(w, State(), db.(imm := None, current := v, nextFile := nextFile), true);
    }

    /** LogAndApply: the manifest record and its fsync. */
    method LogEdit()
      requires Valid() && up && edit.Some? && !logged
      modifies this`disk, this`logged, this`marks
      ensures LogEditStep(old(State()), State()) && Valid()
    {
      hide Recovery.Ok;
      ghost var w := State();
      disk := disk.(manifest := edit.value);
      marks := marks.(durable := marks.covered);
      logged := true;
      LogEditKeepsOk(w, State());
    }

    method Install()
      requires Valid() && up && edit.Some? && logged
      modifies this`current, this`floor, this`imm, this`edit, this`marks
      ensures InstallStep(old(State()), State()) && Valid()
    {
      hide Recovery.Ok;
      ghost var w := State();
      current, floor, imm := edit.value.version, edit.value.floor, if flushes then None else imm;
      edit := None;
      marks := marks.(tabled := marks.covered);
      InstallKeepsOk(w, State());
    }

    /** DeleteObsoleteFiles, as far as log files go: afterwards exactly the logs recovery would read are left. */
    method DeleteObsoleteLogs()
      requires Valid() && up && edit.None?
      modifies this`disk
      ensures Valid() && disk.manifest == old(disk.manifest)
      ensures forall log :: log in disk.logs <==> log in old(disk.logs) && log.number >= disk.manifest.logNumber
    {
      hide Recovery.Ok;
      var i := 0;
      while i < |disk.logs|
        invariant 0 <= i <= |disk.logs| && Valid() && disk.manifest == old(disk.manifest)
        invariant forall j :: 0 <= j < i ==> disk.logs[j].number >= disk.manifest.logNumber
        invariant forall log :: log in disk.logs ==> log in old(disk.logs)
        invariant forall log :: log in old(disk.logs) && log.number >= disk.manifest.logNumber ==> log in disk.logs
        decreases |disk.logs| - i
      {
        if disk.logs[i].number < disk.manifest.logNumber {
          ghost var w := State();
          RemoveOne(disk.logs, i);
          disk := disk.(logs := disk.logs[..i] + disk.logs[i + 1..]);
          DeleteLogKeepsOk(w, State(), i);
        } else {
          i := i + 1;
        }
      }
    }
  }

  /** WriteLevel0Table for the immutable memtable of `db`: the version after the flush. */
  method BuildFlush(current: Version, imm: seq<Entry>, number: nat, maxGrandParentBytes: nat, ghost db: DbState)
    returns (v: Version)
    requires Database.Ok(db) && db.current == current && db.imm == Some(imm) && db.nextFile == number
    ensures Job(db, db.(imm := None, current := v, nextFile := number + 1), true)
  {
    v := current;
    if imm != [] {
      forall e | e in imm
        ensures e.sn <= MAX_SEQUENCE
      {
        assert e in AllEntries(db);
      }
      var f := BuildTable(imm, number, 0);
      var level := PickLevelForMemTableOutput(current, Smallest(f).user, Largest(f).user, maxGrandParentBytes);
      v := InstallTable(current, level, f, number);
      assert FlushStep(db, db.(imm := None, current := v, nextFile := number + 1), level, f, v);
    } else {
      assert FlushStep(db, db.(imm := None, nextFile := number + 1), 0, TableFile(0, 0, [Entry(0.0, 0, Delete)]), []);
    }
  }

  lemma InsertedElements(mem: seq<Entry>, mem': seq<Entry>, b: Batch)
    requires forall e :: e in mem' <==> e in mem || e in BatchEntries(b)
    ensures Elements(mem') == Elements(mem) + BatchEntries(b)
  {
  }

  lemma RemoveOne(logs: seq<LogFile>, i: nat)
    requires i < |logs|
    ensures forall log :: log in logs[..i] + logs[i + 1..] ==> log in logs
    ensures forall log :: log in logs && log != logs[i] ==> log in logs[..i] + logs[i + 1..]
  {
    assert logs == logs[..i] + [logs[i]] + logs[i + 1..];
  }

  lemma LogsNotEmpty(w: World)
    requires Recovery.Ok(w) && w.memory.Up?
    ensures w.disk.logs != []
  {
  }

  lemma MemoryBelow(w: World)
    requires Recovery.Ok(w) && w.memory.Up? && w.memory.inLog.Some?
    ensures Sorted(w.memory.db.mem) && Below(w.memory.db.mem, w.memory.inLog.value.first)
  {
    forall e | e in w.memory.db.mem
      ensures e.sn <= w.memory.db.lastSequence
    {
      assert e in AllEntries(w.memory.db);
    }
  }

  lemma OpenIsGood(w: World)
    requires Recovery.Ok(w) && w.memory.Up?
    ensures Database.Ok(w.memory.db)
  {
    var m := w.memory;
    LayersReadIssued(m.db, w.issued, m.tabled, m.rotated, m.applied);
  }
}
