/**
 Crashes and recovery with a compaction under way: it begins, tables are flushed, logs rotated and batches written
 meanwhile, each durable action by itself, and then its edit goes through the manifest like any other
 (db/db_impl.cc:878-1015, 535-566; db/version_set.cc:801-884). A crash may fall anywhere in between.
 */
module BusyRecovery {
  import opened Options
  import opened UserKeys
  import opened DbFormat
  import opened Multimap
  import opened Versions
  import opened CompactionReads
  import opened VersionSteps
  import opened InstallEdits
  import opened Database
  import opened Batches
  import opened Recovery
  import FlushMeanwhile

  datatype BusyWorld = BusyWorld(world: World, job: Option<FlushMeanwhile.Job>)

  // ----- steps -----

  ghost predicate BeginStep(b: BusyWorld, b': BusyWorld, j: FlushMeanwhile.Job) {
    && b.world.memory.Up? && b.world.memory.pending.None? && b'.world == b.world && b'.job == Some(j)
    && FlushMeanwhile.BeginStep(FlushMeanwhile.BusyStore(b.world.memory.db, b.job),
                                FlushMeanwhile.BusyStore(b.world.memory.db, b'.job), j)
  }

  /** What may happen while a compaction runs: everything but another compaction or move. */
  ghost predicate MeanwhileStep(w: World, w': World) {
    || (exists b :: AddRecordStep(w, w', b))
    || SyncStep(w, w')
    || (exists mem, sync :: ApplyStep(w, w', mem, sync))
    || RotateStep(w, w')
    || (exists db :: SnapshotsStep(w, w', db))
    || (exists db :: PrepareStep(w, w', db, true))
    || LogEditStep(w, w')
    || InstallStep(w, w')
    || (exists i :: DeleteLogStep(w, w', i))
  }

  /** The merge is done and its edit is prepared. Logging and installing it are steps of the crash model. */
  ghost predicate EndStep(b: BusyWorld, b': BusyWorld, j: FlushMeanwhile.Job, next: nat, v: Version) {
    && b.world.memory.Up? && b.job == Some(j) && b'.job == None
    && var s := b.world.memory.db;
      var s' := s.(current := v, nextFile := next, floor := j.snapshot);
      && FlushMeanwhile.EndStep(FlushMeanwhile.BusyStore(s, b.job), FlushMeanwhile.BusyStore(s', None), j, next, v)
      && Prepared(b.world, b'.world, s', false)
  }

  ghost predicate CrashesTo(b: BusyWorld, b': BusyWorld) {
    b'.job.None? && exists n :: CrashStep(b.world, b'.world, n)
  }

  ghost predicate Next(b: BusyWorld, b': BusyWorld) {
    || (b.job.None? && b'.job.None? && Recovery.Next(b.world, b'.world))
    || (b'.job == b.job && MeanwhileStep(b.world, b'.world))
    || CrashesTo(b, b')
    || (exists j :: BeginStep(b, b', j))
    || (exists j, next, v :: EndStep(b, b', j, next, v))
  }

  // ----- the invariant -----

  /** The edit in flight while the compaction runs is a flush: more tables for the version, nothing less. */
  ghost predicate FlushInFlight(m: Memory, j: FlushMeanwhile.Job)
    requires m.Up? && m.pending.Some?
  {
    var p := m.pending.value;
    p.flushes && FlushMeanwhile.Grown(m.db.current, p.edit.version) && p.edit.floor <= j.snapshot
  }

  ghost predicate JobOk(m: Memory, j: FlushMeanwhile.Job) {
    && m.Up? && FlushMeanwhile.JobOk(m.db, j)
    && (m.pending.Some? ==> FlushInFlight(m, j))
  }

  ghost predicate Ok(b: BusyWorld) {
    Recovery.Ok(b.world) && (b.job.Some? ==> JobOk(b.world.memory, b.job.value))
  }

  lemma GrowsOn(u: Version, v: Version, w: Version)
    requires FlushMeanwhile.Grown(u, v) && FlushMeanwhile.Grown(v, w)
    ensures FlushMeanwhile.Grown(u, w)
  {
    FlushMeanwhile.GrownEntries(u, v);
    forall m, g
      ensures FlushMeanwhile.FlushedOk(u, w, m, g)
    {
      assert FlushMeanwhile.FlushedOk(u, v, m, g) && FlushMeanwhile.FlushedOk(v, w, m, g);
    }
  }

  lemma JobStays(s: DbState, s': DbState, j: FlushMeanwhile.Job)
    requires FlushMeanwhile.JobOk(s, j) && s'.current == s.current && s'.floor == s.floor
    requires s'.snapshots == s.snapshots && s'.lastSequence >= s.lastSequence
    ensures FlushMeanwhile.JobOk(s', j)
  {
    hide FlushMeanwhile.Merged, NothingResurrects, FlushMeanwhile.Grown;
  }

  lemma StoreLayers(w: World)
    requires Recovery.Ok(w) && w.memory.Up?
    ensures LayersOk(w.memory.db) && SnapshotsOk(w.memory.db)
  {
    hide DiskOk, TailOk, LayersOk, SnapshotsOk;
  }

  lemma FlushedVersionGrows(s: DbState, s': DbState)
    requires LayersOk(s) && Recovery.Job(s, s', true)
    ensures FlushMeanwhile.Grown(s.current, s'.current) && s'.floor == s.floor
  {
    hide VersionOk, NumbersOk, Listed, FlushMeanwhile.Grown;
    var level, f, v :| FlushStep(s, s', level, f, v);
    FlushMeanwhile.CurrentLevels(s);
    FlushMeanwhile.BaseGrown(s.current);
    if s.imm.value != [] {
      assert FileEntries(f) == Elements(Immutable(s));
      FlushMeanwhile.FlushGrows(s.current, s.current, level, f, v);
    }
  }

  // ----- every step keeps the invariant -----

  lemma ApplyKeepsJob(w: World, w': World, mem: seq<Entry>, sync: bool, j: FlushMeanwhile.Job)
    requires Recovery.Ok(w) && ApplyStep(w, w', mem, sync) && JobOk(w.memory, j)
    ensures JobOk(w'.memory, j)
  {
    hide DiskOk, MemoryOk, FlushMeanwhile.JobOk, FlushMeanwhile.Grown;
    assert TailOk(w);
    JobStays(w.memory.db, w'.memory.db, j);
  }

  lemma PrepareKeepsJob(w: World, w': World, db: DbState, j: FlushMeanwhile.Job)
    requires Recovery.Ok(w) && PrepareStep(w, w', db, true) && JobOk(w.memory, j)
    ensures JobOk(w'.memory, j)
  {
    hide DiskOk, TailOk, MemoryOk, LayersOk, Recovery.Ok;
    hide FlushMeanwhile.Merged, NothingResurrects, FlushMeanwhile.Grown;
    StoreLayers(w);
    FlushedVersionGrows(w.memory.db, db);
    JobStays(w.memory.db, w'.memory.db, j);
  }

  lemma InstallKeepsJob(w: World, w': World, j: FlushMeanwhile.Job)
    requires InstallStep(w, w') && JobOk(w.memory, j)
    ensures JobOk(w'.memory, j)
  {
    hide FlushMeanwhile.Merged, NothingResurrects, FlushMeanwhile.Grown;
    GrowsOn(j.base, w.memory.db.current, w.memory.pending.value.edit.version);
  }

  lemma SnapshotsKeepJob(w: World, w': World, db: DbState, j: FlushMeanwhile.Job)
    requires Recovery.Ok(w) && SnapshotsStep(w, w', db) && JobOk(w.memory, j)
    ensures JobOk(w'.memory, j)
  {
    hide LayersOk, SnapshotsOk, FlushMeanwhile.JobOk, FlushMeanwhile.Grown, Recovery.Ok;
    StoreLayers(w);
    assert FlushMeanwhile.Meanwhile(w.memory.db, db);
    FlushMeanwhile.MeanwhileKeepsJob(w.memory.db, db, j);
    assert db.current == w.memory.db.current;
  }

  lemma MeanwhileKeepsJob(w: World, w': World, j: FlushMeanwhile.Job)
    requires Recovery.Ok(w) && MeanwhileStep(w, w') && JobOk(w.memory, j)
    ensures JobOk(w'.memory, j)
  {
    hide FlushMeanwhile.Merged, NothingResurrects, FlushMeanwhile.Grown, Recovery.Ok;
    if mem, sync :| ApplyStep(w, w', mem, sync) {
      ApplyKeepsJob(w, w', mem, sync, j);
    } else if db :| SnapshotsStep(w, w', db) {
      SnapshotsKeepJob(w, w', db, j);
    } else if db :| PrepareStep(w, w', db, true) {
      PrepareKeepsJob(w, w', db, j);
    } else if InstallStep(w, w') {
      InstallKeepsJob(w, w', j);
    } else {
      JobStays(w.memory.db, w'.memory.db, j);
    }
  }

  lemma MeanwhileIsNext(w: World, w': World)
    requires MeanwhileStep(w, w')
    ensures Recovery.Next(w, w')
  {
    hide AddRecordStep, SyncStep, ApplyStep, RotateStep, SnapshotsStep, PrepareStep, LogEditStep, InstallStep;
    hide DeleteLogStep;
  }

  lemma BeginKeepsOk(b: BusyWorld, b': BusyWorld, j: FlushMeanwhile.Job)
    requires Ok(b) && BeginStep(b, b', j)
    ensures Ok(b')
  {
    hide DiskOk, TailOk, MemoryOk, LayersOk, FlushMeanwhile.Merged, NothingResurrects, FlushMeanwhile.Grown;
    StoreLayers(b.world);
    FlushMeanwhile.CurrentLevels(b.world.memory.db);
    FlushMeanwhile.BaseGrown(j.base);
  }

  /** The ended compaction stands for the same batches as the version it is installed in. */
  lemma EndHolds(s: DbState, s': DbState, j: FlushMeanwhile.Job, next: nat, v: Version, issued: seq<Batch>,
                 tabled: nat, rotated: nat, applied: nat)
    requires LayersHold(s, issued, tabled, rotated, applied) && FlushMeanwhile.JobOk(s, j)
    requires s' == s.(current := v, nextFile := next, floor := j.snapshot)
    requires FlushMeanwhile.EndStep(FlushMeanwhile.BusyStore(s, Some(j)), FlushMeanwhile.BusyStore(s', None), j, next,
                                    v)
    ensures LayersHold(s', issued, tabled, rotated, applied)
  {
    hide LayersOk, FlushMeanwhile.Merged, NothingResurrects, FlushMeanwhile.Grown, VersionOk;
    FlushMeanwhile.EndKeepsLayers(s, s', j, next, v);
    FlushMeanwhile.CurrentLevels(s);
    FlushMeanwhile.ReadsMeanwhile(j, s.current, v, 0.0, j.snapshot);
    forall k, snap: nat | s'.floor <= snap
      ensures Read(Entries(v), k, snap) == Read(EntriesOf(issued[..tabled]), k, snap)
    {
      FlushMeanwhile.ReadsMeanwhile(j, s.current, v, k, snap);
      assert Read(Entries(s.current), k, snap) == Read(EntriesOf(issued[..tabled]), k, snap);
    }
  }

  lemma EndKeepsOk(b: BusyWorld, b': BusyWorld, j: FlushMeanwhile.Job, next: nat, v: Version)
    requires Ok(b) && EndStep(b, b', j, next, v)
    ensures Ok(b')
  {
    hide DiskOk, TailOk, LayersHold, FlushMeanwhile.JobOk;
    var m := b.world.memory;
    var s' := m.db.(current := v, nextFile := next, floor := j.snapshot);
    EndHolds(m.db, s', j, next, v, b.world.issued, m.tabled, m.rotated, m.applied);
    PreparedKeepsOk(b.world, b'.world, s', false);
  }

  lemma NextKeepsOk(b: BusyWorld, b': BusyWorld)
    requires Ok(b) && Next(b, b')
    ensures Ok(b')
  {
    hide Recovery.Ok, Recovery.Next, JobOk, MeanwhileStep, BeginStep, EndStep, CrashStep;
    if b.job.None? && b'.job.None? && Recovery.Next(b.world, b'.world) {
      Recovery.NextKeepsOk(b.world, b'.world);
    } else if b'.job == b.job && MeanwhileStep(b.world, b'.world) {
      MeanwhileIsNext(b.world, b'.world);
      Recovery.NextKeepsOk(b.world, b'.world);
      if b.job.Some? {
        MeanwhileKeepsJob(b.world, b'.world, b.job.value);
      }
    } else if CrashesTo(b, b') {
      var n :| CrashStep(b.world, b'.world, n);
      CrashKeepsOk(b.world, b'.world, n);
    } else if j :| BeginStep(b, b', j) {
      BeginKeepsOk(b, b', j);
    } else {
      var j, next, v :| EndStep(b, b', j, next, v);
      EndKeepsOk(b, b', j, next, v);
    }
  }

  // ----- runs -----

  ghost predicate IsRun(run: seq<BusyWorld>) {
    && run != [] && NewDB(run[0].world) && run[0].job.None?
    && forall i :: 0 <= i < |run| - 1 ==> Next(run[i], run[i + 1])
  }

  lemma {:induction false} RunKeepsOk(run: seq<BusyWorld>, i: nat)
    requires IsRun(run) && i < |run|
    ensures Ok(run[i]) && Recovery.Ok(run[i].world)
  {
    hide Next, JobOk, Recovery.Ok;
    if i == 0 {
      NewDBIsOk(run[0].world);
    } else {
      RunKeepsOk(run, i - 1);
      assert Next(run[i - 1], run[i - 1 + 1]);
      NextKeepsOk(run[i - 1], run[i]);
    }
  }

  lemma StepKeepsAcked(b: BusyWorld, b': BusyWorld)
    requires Ok(b) && Next(b, b')
    ensures var w, w' := b.world, b'.world;
      w.acked <= w'.acked <= |w'.issued| && w.acked <= |w.issued| && w.issued[..w.acked] <= w'.issued
  {
    hide Recovery.Ok, Recovery.Next, JobOk, MeanwhileStep, CrashStep;
    AckedAreIssued(b.world);
    if MeanwhileStep(b.world, b'.world) {
      MeanwhileIsNext(b.world, b'.world);
    }
    if CrashesTo(b, b') {
      var n :| CrashStep(b.world, b'.world, n);
      assert Recovery.Next(b.world, b'.world) by {
        CrashIsNext(b.world, b'.world, n);
      }
    }
    if Recovery.Next(b.world, b'.world) {
      Recovery.StepKeepsAcked(b.world, b'.world);
    }
  }

  lemma CrashIsNext(w: World, w': World, n: nat)
    requires CrashStep(w, w', n)
    ensures Recovery.Next(w, w')
  {
    hide CrashStep;
  }

  /** Whatever crashes happen, in whatever stage of a compaction, a batch acknowledged as synced keeps its place. */
  lemma {:induction false} SyncedWritesSurvive(run: seq<BusyWorld>, i: nat, j: nat)
    requires IsRun(run) && i <= j < |run|
    ensures var v, w := run[i].world, run[j].world;
      v.acked <= |v.issued| && v.acked <= w.acked <= |w.issued| && v.issued[..v.acked] <= w.issued
    decreases j
  {
    hide Next, Ok, Recovery.Ok;
    RunKeepsOk(run, j);
    AckedAreIssued(run[j].world);
    if i < j {
      SyncedWritesSurvive(run, i, j - 1);
      RunKeepsOk(run, j - 1);
      assert Next(run[j - 1], run[j - 1 + 1]);
      StepKeepsAcked(run[j - 1], run[j]);
      var v, w := run[i].world, run[j - 1].world;
      assert v.issued[..v.acked] == w.issued[..v.acked] == w.issued[..w.acked][..v.acked];
    }
  }

  /** In every open state, compactions under way or not, live snapshots and the latest state read like the batches. */
  lemma RunsReadIssued(run: seq<BusyWorld>, i: nat, k: UserKey, snap: nat)
    requires IsRun(run) && i < |run| && run[i].world.memory.Up?
    requires snap in run[i].world.memory.db.snapshots || snap >= run[i].world.memory.db.lastSequence
    ensures var w := run[i].world;
      && Database.Ok(w.memory.db) && w.memory.applied <= |w.issued|
      && Read(AllEntries(w.memory.db), k, snap) == Read(EntriesOf(w.issued[..w.memory.applied]), k, snap)
  {
    hide IsRun, Ok, Recovery.Ok;
    RunKeepsOk(run, i);
    OpenReadsIssued(run[i].world, k, snap);
  }

  /**
   A crash at any point, also between the begin of a compaction, any flush in its middle, its manifest record and its
   installation, and a following open: the store reads like a prefix of the issued batches that contains every
   acknowledged synced write.
   */
  lemma ReopenedReadsPrefix(run: seq<BusyWorld>, i: nat, n: nat, w1: World, w2: World, d: Disk, k: UserKey, snap: nat)
    requires IsRun(run) && i < |run| && CrashStep(run[i].world, w1, n) && OpenStep(w1, w2, d)
    requires snap >= w2.memory.db.lastSequence
    ensures w1.issued <= run[i].world.issued && run[i].world.acked <= |w1.issued|
    ensures Read(AllEntries(w2.memory.db), k, snap) == Read(EntriesOf(w1.issued), k, snap)
  {
    hide IsRun, Ok, Recovery.Ok;
    RunKeepsOk(run, i);
    ReopenedFrom(run[i].world, n, w1, w2, d, k, snap);
  }
}
