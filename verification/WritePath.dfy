/**
 Group commit (db/db_impl.cc:1185-1306, db/write_batch.cc:116-147): writers queue up, the one at the front commits its
 batch together with those behind it, and wakes the ones it has served. The steps below interleave freely, as they do
 when the leader has released the mutex; runs are free of I/O errors.
 */
module WritePath {
  import opened Options
  import opened DbFormat
  import opened Batches

  /** `ops` is None for the null batch of a forced flush; `size` is the byte size of the batch. */
  datatype Writer = Writer(ops: Option<seq<Update>>, size: nat, sync: bool)

  // ----- batch groups -----

  function OpsOf(w: Writer): seq<Update> {
    if w.ops.Some? then w.ops.value else []
  }

  /** All updates of some writers, in queue order. */
  function AllOps(ws: seq<Writer>): seq<Update> {
    if ws == [] then [] else AllOps(ws[..|ws| - 1]) + OpsOf(ws[|ws| - 1])
  }

  function TotalSize(ws: seq<Writer>): nat {
    if ws == [] then 0
    else TotalSize(ws[..|ws| - 1]) + if ws[|ws| - 1].ops.Some? then ws[|ws| - 1].size else 0
  }

  /** One megabyte, or a little over the size of a small first batch. */
  function MaxSize(first: Writer): nat {
    if first.size <= 0x2_0000 then first.size + 0x2_0000 else 0x10_0000
  }

  /**
   The first `n` writers may share a group: no sync write behind a leader that does not sync, and no overlarge batch.
   */
  predicate MayShare(queue: seq<Writer>, n: nat) {
    && 1 <= n <= |queue|
    && forall i :: 1 <= i < n ==>
         && (queue[i].sync ==> queue[0].sync)
         && (queue[i].ops.Some? ==> TotalSize(queue[..i + 1]) <= MaxSize(queue[0]))
  }

  lemma ShareOneMore(queue: seq<Writer>, n: nat)
    requires 1 <= n < |queue| && MayShare(queue, n)
    ensures MayShare(queue, n + 1) <==>
              && (queue[n].sync ==> queue[0].sync)
              && (queue[n].ops.Some? ==> TotalSize(queue[..n]) + queue[n].size <= MaxSize(queue[0]))
    ensures AllOps(queue[..n + 1]) == AllOps(queue[..n]) + OpsOf(queue[n])
    ensures TotalSize(queue[..n + 1]) == TotalSize(queue[..n]) + if queue[n].ops.Some? then queue[n].size else 0
  {
    assert queue[..n + 1][..n] == queue[..n];
  }

  /** BuildBatchGroup: as many writers as may share a group, and their updates in one batch. */
  method BuildBatchGroup(queue: seq<Writer>) returns (n: nat, ops: seq<Update>)
    requires queue != [] && queue[0].ops.Some?
    ensures MayShare(queue, n) && (n < |queue| ==> !MayShare(queue, n + 1))
    ensures ops == AllOps(queue[..n])
  {
    hide MayShare, AllOps, TotalSize;
    var first := queue[0];
    var size := first.size;
    var maxSize := 0x10_0000;
    if size <= 0x2_0000 {
      maxSize := size + 0x2_0000;
    }
    ShareWithNone(queue);
    ops := first.ops.value;
    n := 1;
    while n < |queue|
      invariant 1 <= n <= |queue| && MayShare(queue, n)
      invariant size == TotalSize(queue[..n]) && ops == AllOps(queue[..n])
    {
      var w := queue[n];
      ShareOneMore(queue, n);
      if w.sync && !first.sync {
        return;
      }
      if w.ops.Some? {
        size := size + w.size;
        if size > maxSize {
          return;
        }
        ops := ops + w.ops.value;
      }
      n := n + 1;
    }
  }

  lemma ShareWithNone(queue: seq<Writer>)
    requires queue != [] && queue[0].ops.Some?
    ensures MayShare(queue, 1) && TotalSize(queue[..1]) == queue[0].size && AllOps(queue[..1]) == queue[0].ops.value
  {
    assert queue[..1] == [queue[0]] && [queue[0]][..0] == [];
  }

  lemma {:induction false} AllOpsConcat(xs: seq<Writer>, ys: seq<Writer>)
    ensures AllOps(xs + ys) == AllOps(xs) + AllOps(ys)
    decreases |ys|
  {
    if ys == [] {
      assert xs + ys == xs;
    } else {
      assert (xs + ys)[..|xs + ys| - 1] == xs + ys[..|ys| - 1];
      AllOpsConcat(xs, ys[..|ys| - 1]);
    }
  }

  // ----- the queue as a step system -----

  /** A leader at work on the first `n` writers of the queue. */
  datatype Leader = Leader(n: nat, batch: Batch, sync: bool, logged: bool, synced: bool, inserted: bool)

  /**
   `arrivals` lists every Write call in the order in which it joined the queue, and `finished` counts those that
   have returned; both exist for the specification only. `synced` counts the log records known to be on disk.
   */
  datatype Writes = Writes(queue: seq<Writer>, leader: Option<Leader>, lastSequence: nat, log: seq<Batch>, synced: nat,
                           mem: set<Entry>, snapshots: seq<nat>, arrivals: seq<Writer>, finished: nat)

  predicate Joins(s: Writes, s': Writes, w: Writer) {
    s' == s.(queue := s.queue + [w], arrivals := s.arrivals + [w])
  }

  /** The front writer has a null batch: it makes room and leaves. */
  predicate Skips(s: Writes, s': Writes) {
    && s.leader.None? && s.queue != [] && s.queue[0].ops.None?
    && s' == s.(queue := s.queue[1..], finished := s.finished + 1)
  }

  predicate Leads(s: Writes, s': Writes, n: nat) {
    && s.leader.None? && s.queue != [] && s.queue[0].ops.Some? && MayShare(s.queue, n)
    && var batch := Batch(s.lastSequence + 1, AllOps(s.queue[..n]));
      s' == s.(leader := Some(Leader(n, batch, s.queue[0].sync, false, false, false)))
  }

  predicate AddsRecord(s: Writes, s': Writes) {
    && s.leader.Some? && !s.leader.value.logged
    && s' == s.(leader := Some(s.leader.value.(logged := true)), log := s.log + [s.leader.value.batch])
  }

  predicate Syncs(s: Writes, s': Writes) {
    && s.leader.Some? && s.leader.value.logged && s.leader.value.sync && !s.leader.value.synced
    && s' == s.(leader := Some(s.leader.value.(synced := true)), synced := |s.log|)
  }

  /** InsertInto. Readers look no further than LastSequence, so a half-inserted group is as invisible as none. */
  ghost predicate Inserts(s: Writes, s': Writes) {
    && s.leader.Some? && s.leader.value.logged && !s.leader.value.inserted
    && (s.leader.value.sync ==> s.leader.value.synced)
    && s' == s.(leader := Some(s.leader.value.(inserted := true)), mem := s.mem + BatchEntries(s.leader.value.batch))
  }

  /** SetLastSequence, then the group leaves the queue and every member returns. */
  predicate Finishes(s: Writes, s': Writes) {
    && s.leader.Some? && s.leader.value.inserted && s.leader.value.n <= |s.queue|
    && var l := s.leader.value;
      s' == s.(leader := None, lastSequence := s.lastSequence + |l.batch.ops|, queue := s.queue[l.n..],
               finished := s.finished + l.n)
  }

  predicate TakesSnapshot(s: Writes, s': Writes) {
    s' == s.(snapshots := s.snapshots + [s.lastSequence])
  }

  ghost predicate Next(s: Writes, s': Writes) {
    || (exists w :: Joins(s, s', w))
    || Skips(s, s')
    || (exists n :: Leads(s, s', n))
    || AddsRecord(s, s') || Syncs(s, s') || Inserts(s, s') || Finishes(s, s')
    || TakesSnapshot(s, s')
  }

  // ----- what holds in every state -----

  /** The updates of the log, in order. */
  function LogOps(log: seq<Batch>): seq<Update> {
    if log == [] then [] else LogOps(log[..|log| - 1]) + log[|log| - 1].ops
  }

  /** Batches follow each other without gap or overlap from sequence number `base` + 1. */
  ghost predicate Consecutive(base: nat, log: seq<Batch>) {
    forall i :: 0 <= i < |log| ==> log[i].first == base + 1 + |LogOps(log[..i])|
  }

  /** Updates as entries numbered from `first`. */
  ghost function Numbered(first: nat, ops: seq<Update>): set<Entry> {
    BatchEntries(Batch(first, ops))
  }

  /** LastSequence after the first `n` arrivals. */
  function Boundary(base: nat, s: Writes, n: nat): nat
    requires n <= |s.arrivals|
  {
    base + |AllOps(s.arrivals[..n])|
  }

  /** The arrivals that the log holds: those finished, and the group of a leader that has logged it. */
  function Logged(s: Writes): nat {
    s.finished + if s.leader.Some? && s.leader.value.logged then s.leader.value.n else 0
  }

  function Inserted(s: Writes): nat {
    s.finished + if s.leader.Some? && s.leader.value.inserted then s.leader.value.n else 0
  }

  /** Everything logged or inserted is the arrivals' updates, in order, once each, numbered consecutively. */
  ghost predicate OrderOk(base: nat, s: Writes) {
    && s.finished <= |s.arrivals| && s.queue == s.arrivals[s.finished..]
    && s.lastSequence == Boundary(base, s, s.finished)
    && Logged(s) <= |s.arrivals| && Inserted(s) <= |s.arrivals|
    && LogOps(s.log) == AllOps(s.arrivals[..Logged(s)]) && Consecutive(base, s.log)
    && s.mem == Numbered(base + 1, AllOps(s.arrivals[..Inserted(s)]))
  }

  ghost predicate LeaderOk(s: Writes)
    requires s.leader.Some?
  {
    var l := s.leader.value;
    && MayShare(s.queue, l.n) && s.queue[0].ops.Some?
    && l.batch == Batch(s.lastSequence + 1, AllOps(s.queue[..l.n])) && l.sync == s.queue[0].sync
    && (l.inserted ==> l.logged && (l.sync ==> l.synced)) && (l.synced ==> l.logged)
    && (l.synced ==> s.synced == |s.log|)
    && (l.logged ==> s.log != [] && s.log[|s.log| - 1] == l.batch)
  }

  /** A sync write with a batch that has returned is in the synced part of the log. */
  ghost predicate SyncedOk(s: Writes) {
    && s.synced <= |s.log|
    && forall i :: 0 <= i < s.finished <= |s.arrivals| && s.arrivals[i].sync && s.arrivals[i].ops.Some? ==>
         OnDisk(s, i)
  }

  /** The updates of arrival `i` end within the synced part of the log. */
  predicate OnDisk(s: Writes, i: nat)
    requires i < |s.arrivals| && s.synced <= |s.log|
  {
    |AllOps(s.arrivals[..i + 1])| <= |LogOps(s.log[..s.synced])|
  }

  /** Every snapshot lies between two writers. */
  ghost predicate SnapshotsOk(base: nat, s: Writes) {
    forall i :: 0 <= i < |s.snapshots| ==> BetweenWriters(base, s, s.snapshots[i])
  }

  ghost predicate BetweenWriters(base: nat, s: Writes, snap: nat) {
    exists n :: 0 <= n <= s.finished && n <= |s.arrivals| && snap == Boundary(base, s, n)
  }

  ghost predicate Ok(base: nat, s: Writes) {
    OrderOk(base, s) && (s.leader.Some? ==> LeaderOk(s)) && SyncedOk(s) && SnapshotsOk(base, s)
  }

  // ----- every step keeps it -----

  /** Splitting the arrivals splits their updates. */
  lemma OpsSplit(ws: seq<Writer>, i: nat, n: nat)
    requires i + n <= |ws|
    ensures AllOps(ws[..i + n]) == AllOps(ws[..i]) + AllOps(ws[i..][..n])
    ensures |AllOps(ws[..i])| <= |AllOps(ws[..i + n])|
  {
    assert ws[..i + n] == ws[..i] + ws[i..][..n];
    AllOpsConcat(ws[..i], ws[i..][..n]);
  }

  lemma OpsOfNext(ws: seq<Writer>, i: nat)
    requires i < |ws|
    ensures AllOps(ws[..i + 1]) == AllOps(ws[..i]) + OpsOf(ws[i])
  {
    assert ws[..i + 1][..i] == ws[..i];
  }

  lemma {:induction false} LogOpsGrow(log: seq<Batch>, i: nat)
    requires i <= |log|
    ensures |LogOps(log[..i])| <= |LogOps(log)|
    decreases |log|
  {
    if i == |log| {
      assert log[..i] == log;
    } else {
      var rest := log[..|log| - 1];
      assert rest[..i] == log[..i];
      LogOpsGrow(rest, i);
    }
  }

  lemma NumberedConcat(first: nat, xs: seq<Update>, ys: seq<Update>)
    ensures Numbered(first, xs + ys) == Numbered(first, xs) + Numbered(first + |xs|, ys)
  {
    var all, front, back := Batch(first, xs + ys), Batch(first, xs), Batch(first + |xs|, ys);
    forall e
      ensures e in BatchEntries(all) <==> e in BatchEntries(front) || e in BatchEntries(back)
    {
      if e in BatchEntries(all) {
        var j :| 0 <= j < |xs + ys| && e == EntryAt(all, j);
        assert if j < |xs| then e == EntryAt(front, j) else e == EntryAt(back, j - |xs|);
      }
      if e in BatchEntries(front) {
        var j :| 0 <= j < |xs| && e == EntryAt(front, j);
        assert e == EntryAt(all, j);
      }
      if e in BatchEntries(back) {
        var j :| 0 <= j < |ys| && e == EntryAt(back, j);
        assert e == EntryAt(all, |xs| + j);
      }
    }
  }

  lemma SamePrefix(s: Writes, s': Writes, n: nat)
    requires n <= |s.arrivals| && s.arrivals <= s'.arrivals
    ensures s'.arrivals[..n] == s.arrivals[..n]
  {
  }

  /** Snapshots stay where they are while writers arrive and finish. */
  lemma SnapshotsStay(base: nat, s: Writes, s': Writes)
    requires SnapshotsOk(base, s) && s'.snapshots == s.snapshots
    requires s.arrivals <= s'.arrivals && s.finished <= s'.finished
    ensures SnapshotsOk(base, s')
  {
    forall i | 0 <= i < |s.snapshots|
      ensures BetweenWriters(base, s', s.snapshots[i])
    {
      SnapshotStays(base, s, s', s.snapshots[i]);
    }
  }

  lemma SnapshotStays(base: nat, s: Writes, s': Writes, snap: nat)
    requires BetweenWriters(base, s, snap) && s.arrivals <= s'.arrivals && s.finished <= s'.finished
    ensures BetweenWriters(base, s', snap)
  {
    var n :| 0 <= n <= s.finished && n <= |s.arrivals| && snap == Boundary(base, s, n);
    SamePrefix(s, s', n);
    assert snap == Boundary(base, s', n);
  }

  /** What is on disk stays on disk while no further writer finishes. */
  lemma SyncedStays(s: Writes, s': Writes)
    requires SyncedOk(s) && s.finished == s'.finished <= |s.arrivals| && s.arrivals <= s'.arrivals
    requires s.synced == s'.synced <= |s'.log| && s'.log[..s.synced] == s.log[..s.synced]
    ensures SyncedOk(s')
  {
    forall i | 0 <= i < s.finished && s'.arrivals[i].sync && s'.arrivals[i].ops.Some?
      ensures OnDisk(s', i)
    {
      SamePrefix(s, s', i + 1);
      assert OnDisk(s, i);
    }
  }

  lemma JoinsKeepsLeader(s: Writes, s': Writes, w: Writer)
    requires s.leader.Some? && LeaderOk(s) && Joins(s, s', w)
    ensures LeaderOk(s')
  {
    var n := s.leader.value.n;
    assert s'.queue[..n] == s.queue[..n];
    forall i | 1 <= i < n
      ensures (s'.queue[i].sync ==> s'.queue[0].sync)
           && (s'.queue[i].ops.Some? ==> TotalSize(s'.queue[..i + 1]) <= MaxSize(s'.queue[0]))
    {
      assert s'.queue[..i + 1] == s.queue[..i + 1];
    }
  }

  lemma JoinsKeepsOk(base: nat, s: Writes, s': Writes, w: Writer)
    requires Ok(base, s) && Joins(s, s', w)
    ensures Ok(base, s')
  {
    hide SnapshotsOk, LeaderOk, AllOps, LogOps, Consecutive, Numbered, OnDisk;
    SamePrefix(s, s', s.finished);
    SamePrefix(s, s', Logged(s));
    SamePrefix(s, s', Inserted(s));
    assert s'.queue == s'.arrivals[s.finished..];
    if s.leader.Some? {
      JoinsKeepsLeader(s, s', w);
    }
    SyncedStays(s, s');
    SnapshotsStay(base, s, s');
  }

  lemma SkipsKeepsOrder(base: nat, s: Writes, s': Writes)
    requires OrderOk(base, s) && Skips(s, s')
    ensures OrderOk(base, s')
  {
    hide LogOps, Numbered, Consecutive, AllOps;
    assert s.queue[0] == s.arrivals[s.finished];
    OpsOfNext(s.arrivals, s.finished);
    assert s'.queue == s.arrivals[s'.finished..];
  }

  lemma SkipsKeepsOk(base: nat, s: Writes, s': Writes)
    requires Ok(base, s) && Skips(s, s')
    ensures Ok(base, s')
  {
    hide LogOps, Numbered, Consecutive, AllOps, SnapshotsOk;
    SkipsKeepsOrder(base, s, s');
    SnapshotsStay(base, s, s');
    assert s.queue[0] == s.arrivals[s.finished];
    forall i | 0 <= i < s'.finished && s.arrivals[i].sync && s.arrivals[i].ops.Some?
      ensures OnDisk(s', i)
    {
      assert OnDisk(s, i);
    }
  }

  lemma LeadsKeepsOk(base: nat, s: Writes, s': Writes, n: nat)
    requires Ok(base, s) && Leads(s, s', n)
    ensures Ok(base, s')
  {
    SnapshotsStay(base, s, s');
    SyncedStays(s, s');
  }

  lemma AddsRecordKeepsOrder(base: nat, s: Writes, s': Writes)
    requires OrderOk(base, s) && s.leader.Some? && LeaderOk(s) && AddsRecord(s, s')
    ensures OrderOk(base, s')
  {
    hide AllOps, Numbered;
    OpsSplit(s.arrivals, s.finished, s.leader.value.n);
    assert s'.log[..|s.log|] == s.log;
    forall i | 0 <= i < |s'.log|
      ensures s'.log[i].first == base + 1 + |LogOps(s'.log[..i])|
    {
      assert s'.log[..i] == s.log[..i];
    }
  }

  lemma AddsRecordKeepsOk(base: nat, s: Writes, s': Writes)
    requires Ok(base, s) && AddsRecord(s, s')
    ensures Ok(base, s')
  {
    hide AllOps, LogOps, Numbered, Consecutive, MayShare, OnDisk, OrderOk;
    AddsRecordKeepsOrder(base, s, s');
    SnapshotsStay(base, s, s');
    assert s'.log[..s.synced] == s.log[..s.synced];
    FinishedArrived(base, s);
    SyncedStays(s, s');
  }

  lemma FinishedArrived(base: nat, s: Writes)
    requires OrderOk(base, s)
    ensures s.finished <= |s.arrivals|
  {
  }

  lemma SyncsKeepsOk(base: nat, s: Writes, s': Writes)
    requires Ok(base, s) && Syncs(s, s')
    ensures Ok(base, s')
  {
    LogOpsGrow(s.log, s.synced);
    assert s.log[..|s.log|] == s.log;
    SnapshotsStay(base, s, s');
    forall i | 0 <= i < s.finished && s.arrivals[i].sync && s.arrivals[i].ops.Some?
      ensures OnDisk(s', i)
    {
      assert OnDisk(s, i);
    }
  }

  lemma InsertsKeepsOrder(base: nat, s: Writes, s': Writes)
    requires OrderOk(base, s) && s.leader.Some? && LeaderOk(s) && Inserts(s, s')
    ensures OrderOk(base, s')
  {
    hide AllOps, LogOps, Numbered, Consecutive, MayShare, BatchEntries;
    var l := s.leader.value;
    OpsSplit(s.arrivals, s.finished, l.n);
    NumberedConcat(base + 1, AllOps(s.arrivals[..s.finished]), l.batch.ops);
    NumberedBatch(l.batch);
  }

  lemma InsertsKeepsOk(base: nat, s: Writes, s': Writes)
    requires Ok(base, s) && Inserts(s, s')
    ensures Ok(base, s')
  {
    hide AllOps, LogOps, Numbered, Consecutive, MayShare, OnDisk, OrderOk, BatchEntries;
    InsertsKeepsOrder(base, s, s');
    SnapshotsStay(base, s, s');
    FinishedArrived(base, s);
    SyncedStays(s, s');
  }

  lemma FinishedSyncIsOnDisk(base: nat, s: Writes, i: nat, finished: nat)
    requires OrderOk(base, s) && s.leader.Some? && s.leader.value.inserted && LeaderOk(s) && s.synced <= |s.log|
    requires s.finished <= i < finished == s.finished + s.leader.value.n
    ensures finished <= |s.arrivals| && (s.arrivals[i].sync ==> OnDisk(s, i))
  {
    hide Numbered, Consecutive, AllOps, LogOps;
    if s.arrivals[i].sync {
      var k := i - s.finished;
      assert s.queue[k] == s.arrivals[i];
      assert k == 0 || s.queue[0].sync;
      assert s.log[..|s.log|] == s.log;
      OpsSplit(s.arrivals, i + 1, finished - (i + 1));
    }
  }

  lemma FinishesKeepsSynced(base: nat, s: Writes, s': Writes)
    requires Ok(base, s) && Finishes(s, s')
    ensures SyncedOk(s')
  {
    hide AllOps, LogOps, Numbered, Consecutive, MayShare, LeaderOk;
    forall i | 0 <= i < s'.finished && s.arrivals[i].sync && s.arrivals[i].ops.Some?
      ensures OnDisk(s', i)
    {
      if i < s.finished {
        assert OnDisk(s, i);
      } else {
        FinishedSyncIsOnDisk(base, s, i, s'.finished);
      }
    }
  }

  lemma FinishesKeepsOrder(base: nat, s: Writes, s': Writes)
    requires OrderOk(base, s) && s.leader.Some? && LeaderOk(s) && Finishes(s, s')
    ensures OrderOk(base, s')
  {
    hide AllOps, LogOps, Numbered, Consecutive;
    OpsSplit(s.arrivals, s.finished, s.leader.value.n);
    assert s'.queue == s.arrivals[s'.finished..];
  }

  lemma FinishesKeepsOk(base: nat, s: Writes, s': Writes)
    requires Ok(base, s) && Finishes(s, s')
    ensures Ok(base, s')
  {
    hide AllOps, LogOps, Numbered, Consecutive, OrderOk;
    FinishesKeepsOrder(base, s, s');
    SnapshotsStay(base, s, s');
    FinishesKeepsSynced(base, s, s');
  }

  lemma SnapshotKeepsOk(base: nat, s: Writes, s': Writes)
    requires Ok(base, s) && TakesSnapshot(s, s')
    ensures Ok(base, s')
  {
    hide AllOps, LogOps, Consecutive, Numbered;
    forall i | 0 <= i < |s'.snapshots|
      ensures BetweenWriters(base, s', s'.snapshots[i])
    {
      if i < |s.snapshots| {
        SnapshotStays(base, s, s', s.snapshots[i]);
      } else {
        assert s.lastSequence == Boundary(base, s', s.finished);
      }
    }
    SyncedStays(s, s');
  }

  lemma NextKeepsOk(base: nat, s: Writes, s': Writes)
    requires Ok(base, s) && Next(s, s')
    ensures Ok(base, s')
  {
    hide Ok;
    if w :| Joins(s, s', w) {
      JoinsKeepsOk(base, s, s', w);
    } else if Skips(s, s') {
      SkipsKeepsOk(base, s, s');
    } else if n :| Leads(s, s', n) {
      LeadsKeepsOk(base, s, s', n);
    } else if AddsRecord(s, s') {
      AddsRecordKeepsOk(base, s, s');
    } else if Syncs(s, s') {
      SyncsKeepsOk(base, s, s');
    } else if Inserts(s, s') {
      InsertsKeepsOk(base, s, s');
    } else if Finishes(s, s') {
      FinishesKeepsOk(base, s, s');
    } else {
      SnapshotKeepsOk(base, s, s');
    }
  }

  /** No writer yet, an empty log and memtable; `base` is the LastSequence that recovery found. */
  ghost predicate Start(base: nat, s: Writes) {
    s == Writes([], None, base, [], 0, {}, [], [], 0)
  }

  ghost predicate IsRun(base: nat, run: seq<Writes>) {
    run != [] && Start(base, run[0]) && forall i :: 0 <= i < |run| - 1 ==> Next(run[i], run[i + 1])
  }

  lemma {:induction false} RunKeepsOk(base: nat, run: seq<Writes>, i: nat)
    requires IsRun(base, run) && i < |run|
    ensures Ok(base, run[i])
  {
    if i > 0 {
      hide Ok;
      RunKeepsOk(base, run, i - 1);
      assert Next(run[i - 1], run[i - 1 + 1]);
      NextKeepsOk(base, run[i - 1], run[i]);
    }
  }

  // ----- what it means for writers and readers -----

  lemma LastOfLog(base: nat, log: seq<Batch>, n: nat)
    requires Consecutive(base, log) && 0 < n <= |log|
    ensures log[..n] == log[..n - 1] + [log[n - 1]]
    ensures LogOps(log[..n]) == LogOps(log[..n - 1]) + log[n - 1].ops
    ensures log[n - 1].first == base + 1 + |LogOps(log[..n - 1])|
  {
    assert log[..n][..n - 1] == log[..n - 1];
  }

  lemma {:induction false} EntriesOfLog(base: nat, log: seq<Batch>, n: nat)
    requires Consecutive(base, log) && n <= |log|
    ensures EntriesOf(log[..n]) == Numbered(base + 1, LogOps(log[..n]))
  {
    hide Numbered, EntriesOf, LogOps, Consecutive;
    if n == 0 {
      EmptyLog(base, log);
    } else {
      EntriesOfLog(base, log, n - 1);
      var before, b := log[..n - 1], log[n - 1];
      LastOfLog(base, log, n);
      EntriesOfConcat(before, [b]);
      EntriesOfOne(b);
      NumberedConcat(base + 1, LogOps(before), b.ops);
      NumberedBatch(b);
    }
  }

  lemma EmptyLog(base: nat, log: seq<Batch>)
    ensures EntriesOf(log[..0]) == Numbered(base + 1, LogOps(log[..0])) == {}
  {
    assert log[..0] == [];
  }

  lemma NumberedBatch(b: Batch)
    ensures Numbered(b.first, b.ops) == BatchEntries(b)
  {
    assert b == Batch(b.first, b.ops);
  }

  /** The part of consecutively numbered updates between two positions. */
  lemma NumberedSlice(first: nat, xs: seq<Update>, ys: seq<Update>, zs: seq<Update>, e: Entry)
    requires first + |xs| <= e.sn < first + |xs| + |ys|
    ensures e in Numbered(first, xs + ys + zs) <==> e in Numbered(first + |xs|, ys)
  {
    NumberedConcat(first, xs + ys, zs);
    NumberedConcat(first, xs, ys);
    if e in Numbered(first, xs) {
      SequencesInBatch(Batch(first, xs), e);
    }
    if e in Numbered(first + |xs + ys|, zs) {
      SequencesInBatch(Batch(first + |xs + ys|, zs), e);
    }
  }

  /** Of every writer that has left the queue, memtable and log hold exactly its own updates under its own numbers. */
  lemma EveryArrivalOnce(base: nat, run: seq<Writes>, t: nat, i: nat, e: Entry)
    requires IsRun(base, run) && t < |run| && i < run[t].finished
    ensures run[t].finished <= |run[t].arrivals|
    ensures var s := run[t];
      Boundary(base, s, i) < e.sn <= Boundary(base, s, i + 1) ==>
        && (e in s.mem <==> e in Numbered(Boundary(base, s, i) + 1, OpsOf(s.arrivals[i])))
        && (e in EntriesOf(s.log) <==> e in Numbered(Boundary(base, s, i) + 1, OpsOf(s.arrivals[i])))
  {
    hide AllOps, LogOps, Numbered, EntriesOf, Consecutive;
    RunKeepsOk(base, run, t);
    var s := run[t];
    EntriesOfLog(base, s.log, |s.log|);
    assert s.log[..|s.log|] == s.log;
    if Boundary(base, s, i) < e.sn <= Boundary(base, s, i + 1) {
      WriteOnceUpTo(base, s.arrivals, i, Inserted(s), e);
      WriteOnceUpTo(base, s.arrivals, i, Logged(s), e);
    }
  }

  lemma WriteOnceUpTo(base: nat, arrivals: seq<Writer>, i: nat, n: nat, e: Entry)
    requires i < n <= |arrivals|
    requires base + |AllOps(arrivals[..i])| < e.sn <= base + |AllOps(arrivals[..i + 1])|
    ensures e in Numbered(base + 1, AllOps(arrivals[..n]))
       <==> e in Numbered(base + |AllOps(arrivals[..i])| + 1, OpsOf(arrivals[i]))
  {
    hide AllOps, Numbered;
    OpsOfNext(arrivals, i);
    OpsSplit(arrivals, i + 1, n - (i + 1));
    NumberedSlice(base + 1, AllOps(arrivals[..i]), OpsOf(arrivals[i]), AllOps(arrivals[i + 1..][..n - (i + 1)]), e);
  }

  /** A snapshot lies between two writers. */
  lemma SnapshotBetweenArrivals(base: nat, run: seq<Writes>, t: nat, snap: nat, i: nat)
    requires IsRun(base, run) && t < |run| && (snap in run[t].snapshots || snap == run[t].lastSequence)
    requires i < |run[t].arrivals|
    ensures snap <= Boundary(base, run[t], i) || Boundary(base, run[t], i + 1) <= snap
  {
    hide AllOps, LogOps, Numbered, EntriesOf, Consecutive;
    RunKeepsOk(base, run, t);
    var s := run[t];
    assert BetweenWriters(base, s, snap) by {
      assert s.lastSequence == Boundary(base, s, s.finished);
    }
    BoundaryIsWhole(base, s, snap, i);
  }

  lemma BoundaryIsWhole(base: nat, s: Writes, snap: nat, i: nat)
    requires BetweenWriters(base, s, snap) && i < |s.arrivals|
    ensures snap <= Boundary(base, s, i) || Boundary(base, s, i + 1) <= snap
  {
    hide AllOps;
    var n :| 0 <= n <= s.finished && n <= |s.arrivals| && snap == Boundary(base, s, n);
    if n <= i {
      OpsSplit(s.arrivals, n, i - n);
    } else {
      OpsSplit(s.arrivals, i + 1, n - (i + 1));
    }
  }

  /** A sync writer that has left the queue is in the synced part of the log, whoever led its group. */
  lemma SyncedArrivalsOnDisk(base: nat, run: seq<Writes>, t: nat, i: nat)
    requires IsRun(base, run) && t < |run| && i < run[t].finished
    ensures run[t].finished <= |run[t].arrivals| && run[t].synced <= |run[t].log|
    ensures var s := run[t];
      s.arrivals[i].sync && s.arrivals[i].ops.Some? ==>
        Numbered(Boundary(base, s, i) + 1, OpsOf(s.arrivals[i])) <= EntriesOf(s.log[..s.synced])
  {
    hide AllOps, LogOps, Numbered, EntriesOf, Consecutive;
    RunKeepsOk(base, run, t);
    var s := run[t];
    if s.arrivals[i].sync && s.arrivals[i].ops.Some? {
      assert OnDisk(s, i);
      EntriesOfLog(base, s.log, s.synced);
      LogPrefix(s.log, s.synced);
      OnDiskEntries(base, s.arrivals, i, Logged(s), LogOps(s.log[..s.synced]));
    }
  }

  lemma OnDiskEntries(base: nat, arrivals: seq<Writer>, i: nat, n: nat, written: seq<Update>)
    requires i < n <= |arrivals| && written <= AllOps(arrivals[..n]) && |AllOps(arrivals[..i + 1])| <= |written|
    ensures Numbered(base + |AllOps(arrivals[..i])| + 1, OpsOf(arrivals[i])) <= Numbered(base + 1, written)
  {
    hide Numbered, AllOps;
    OpsOfNext(arrivals, i);
    OpsSplit(arrivals, i + 1, n - (i + 1));
    var upto := AllOps(arrivals[..i + 1]);
    assert written == upto + written[|upto|..];
    NumberedConcat(base + 1, upto, written[|upto|..]);
    NumberedConcat(base + 1, AllOps(arrivals[..i]), OpsOf(arrivals[i]));
  }

  lemma {:induction false} LogPrefix(log: seq<Batch>, n: nat)
    requires n <= |log|
    ensures LogOps(log[..n]) <= LogOps(log)
    decreases |log|
  {
    if n == |log| {
      assert log[..n] == log;
    } else {
      var rest := log[..|log| - 1];
      assert rest[..n] == log[..n];
      LogPrefix(rest, n);
    }
  }

  lemma ConsecutiveIsIncreasing(base: nat, log: seq<Batch>)
    requires Consecutive(base, log)
    ensures Increasing(log)
  {
    forall i, j | 0 <= i < |log| && 0 <= j < |log|
      ensures InTurn(log, i, j)
    {
      if i < j {
        assert log[..i + 1][..i] == log[..i] && log[..j][..i + 1] == log[..i + 1];
        LogOpsGrow(log[..j], i + 1);
      }
    }
  }

  /** The records are the issued batches of the crash model: the next one starts right after LastSequence. */
  lemma LogIsIncreasing(base: nat, run: seq<Writes>, t: nat)
    requires IsRun(base, run) && t < |run|
    ensures Increasing(run[t].log)
    ensures run[t].leader.Some? ==> run[t].leader.value.batch.first == run[t].lastSequence + 1
    ensures run[t].leader.Some? && run[t].leader.value.logged ==>
              run[t].log != [] && run[t].log[|run[t].log| - 1] == run[t].leader.value.batch
  {
    hide AllOps, LogOps, Numbered, EntriesOf, Consecutive;
    RunKeepsOk(base, run, t);
    ConsecutiveIsIncreasing(base, run[t].log);
  }

  // ----- the calls of Write, as their callers made them -----

  datatype Call = Call(ops: Option<seq<Update>>, size: nat, sync: bool)

  /** A call of Write enters, or somebody in the queue works on. */
  datatype Event = Called(call: Call) | Worked

  ghost predicate Works(s: Writes, s': Writes) {
    || Skips(s, s')
    || (exists n :: Leads(s, s', n))
    || AddsRecord(s, s') || Syncs(s, s') || Inserts(s, s') || Finishes(s, s')
    || TakesSnapshot(s, s')
  }

  ghost predicate Happens(s: Writes, s': Writes, event: Event) {
    match event
    case Called(c) => Joins(s, s', Writer(c.ops, c.size, c.sync))
    case Worked => Works(s, s')
  }

  ghost predicate IsRunOf(base: nat, run: seq<Writes>, events: seq<Event>) {
    && |run| == |events| + 1 && Start(base, run[0])
    && forall i :: 0 <= i < |events| ==> Happens(run[i], run[i + 1], events[i])
  }

  function Calls(events: seq<Event>): seq<Call> {
    if events == [] then []
    else
      var last := events[|events| - 1];
      Calls(events[..|events| - 1]) + if last.Called? then [last.call] else []
  }

  /** The updates of the first `n` calls. */
  function UpdatesBefore(calls: seq<Call>, n: nat): nat
    requires n <= |calls|
  {
    if n == 0 then 0
    else UpdatesBefore(calls, n - 1) + if calls[n - 1].ops.Some? then |calls[n - 1].ops.value| else 0
  }

  lemma RunOfIsRun(base: nat, run: seq<Writes>, events: seq<Event>)
    requires IsRunOf(base, run, events)
    ensures IsRun(base, run)
  {
    hide Joins, Skips, Leads, AddsRecord, Syncs, Inserts, Finishes, TakesSnapshot;
    forall i | 0 <= i < |run| - 1
      ensures Next(run[i], run[i + 1])
    {
      assert Happens(run[i], run[i + 1], events[i]);
    }
  }

  ghost predicate SameCall(w: Writer, c: Call) {
    w.ops == c.ops && w.sync == c.sync
  }

  ghost predicate SameCalls(arrivals: seq<Writer>, calls: seq<Call>) {
    |arrivals| == |calls| && forall i :: 0 <= i < |calls| ==> SameCall(arrivals[i], calls[i])
  }

  lemma {:induction false} ArrivalsAreCalls(base: nat, run: seq<Writes>, events: seq<Event>, t: nat)
    requires IsRunOf(base, run, events) && t < |run|
    ensures SameCalls(run[t].arrivals, Calls(events[..t]))
  {
    if t > 0 {
      ArrivalsAreCalls(base, run, events, t - 1);
      assert Happens(run[t - 1], run[t], events[t - 1]);
      assert events[..t][..t - 1] == events[..t - 1];
    } else {
      assert events[..0] == [];
    }
  }

  lemma {:induction false} UpdatesOfCalls(arrivals: seq<Writer>, calls: seq<Call>, n: nat)
    requires SameCalls(arrivals, calls) && n <= |calls|
    ensures |AllOps(arrivals[..n])| == UpdatesBefore(calls, n)
  {
    if n > 0 {
      UpdatesOfCalls(arrivals, calls, n - 1);
      OpsOfNext(arrivals, n - 1);
      assert SameCall(arrivals[n - 1], calls[n - 1]);
    }
  }

  /** Update `j` of call `i` is `u`, and `sn` its sequence number: one more for each update of the calls before it. */
  predicate IsUpdate(base: nat, calls: seq<Call>, i: int, j: int, u: Update, sn: nat) {
    && 0 <= i < |calls| && calls[i].ops.Some? && 0 <= j < |calls[i].ops.value| && u == calls[i].ops.value[j]
    && sn == base + UpdatesBefore(calls, i) + j + 1
  }

  /** Update `q` of record `p` of the log has the sequence number `sn`. */
  predicate Numbers(log: seq<Batch>, p: int, q: int, sn: nat) {
    0 <= p < |log| && 0 <= q < |log[p].ops| && log[p].first + q == sn
  }

  lemma NumberedAt(first: nat, ops: seq<Update>, j: nat, e: Entry)
    requires j < |ops| && e.sn == first + j
    ensures e in Numbered(first, ops) <==> e == Entry(ops[j].key, first + j, ops[j].op)
  {
    var b := Batch(first, ops);
    assert EntryAt(b, j) in BatchEntries(b);
  }

  lemma LoggedAt(log: seq<Batch>, u: Update, sn: nat)
    requires forall e: Entry :: e.sn == sn ==> (e in EntriesOf(log) <==> e == Entry(u.key, sn, u.op))
    ensures exists p, q :: Numbers(log, p, q, sn)
    ensures forall p, q :: Numbers(log, p, q, sn) ==> log[p].ops[q] == u
  {
    var e := Entry(u.key, sn, u.op);
    var b :| b in log && e in BatchEntries(b);
    var q := EntryInBatch(b, e);
    var p :| 0 <= p < |log| && log[p] == b;
    assert Numbers(log, p, q, sn);
    forall p, q | Numbers(log, p, q, sn)
      ensures log[p].ops[q] == u
    {
      var f := EntryAt(log[p], q);
      assert log[p] in log && f in BatchEntries(log[p]);
      assert f in EntriesOf(log);
    }
  }

  /** A call has returned when it has left the queue. */
  predicate Returned(s: Writes, calls: seq<Call>, i: nat) {
    i + |s.queue| < |calls|
  }

  lemma CallAt(base: nat, s: Writes, calls: seq<Call>, i: nat)
    requires OrderOk(base, s) && SameCalls(s.arrivals, calls) && Returned(s, calls, i)
    ensures i < s.finished <= |s.arrivals| && i < |calls| && SameCall(s.arrivals[i], calls[i])
    ensures Boundary(base, s, i) == base + UpdatesBefore(calls, i)
    ensures Boundary(base, s, i + 1) == base + UpdatesBefore(calls, i + 1)
  {
    hide AllOps, LogOps, Numbered, Consecutive, EntriesOf;
    UpdatesOfCalls(s.arrivals, calls, i);
    UpdatesOfCalls(s.arrivals, calls, i + 1);
  }

  lemma CallIsFinished(base: nat, run: seq<Writes>, events: seq<Event>, t: nat, i: nat)
    requires IsRunOf(base, run, events) && t < |run| && Returned(run[t], Calls(events[..t]), i)
    ensures IsRun(base, run) && i < run[t].finished <= |run[t].arrivals|
    ensures SameCalls(run[t].arrivals, Calls(events[..t])) && i < |Calls(events[..t])|
    ensures SameCall(run[t].arrivals[i], Calls(events[..t])[i])
    ensures Boundary(base, run[t], i) == base + UpdatesBefore(Calls(events[..t]), i)
    ensures Boundary(base, run[t], i + 1) == base + UpdatesBefore(Calls(events[..t]), i + 1)
  {
    hide OrderOk, Boundary, Calls, SameCalls, UpdatesBefore, Next, Happens;
    RunOfIsRun(base, run, events);
    ArrivalsAreCalls(base, run, events, t);
    RunKeepsOk(base, run, t);
    CallAt(base, run[t], Calls(events[..t]), i);
  }

  /**
   Every update of every call of Write that has returned is in the memtable and in the log, under the sequence number
   that counts the updates of the calls before it, and nothing else is there under that number.
   */
  lemma EveryWriteOnce(base: nat, run: seq<Writes>, events: seq<Event>, t: nat, i: nat, j: nat, u: Update, sn: nat)
    requires IsRunOf(base, run, events) && t < |run| && Returned(run[t], Calls(events[..t]), i)
    requires IsUpdate(base, Calls(events[..t]), i, j, u, sn)
    ensures forall e :: e in run[t].mem && e.sn == sn <==> e == Entry(u.key, sn, u.op)
    ensures exists p, q :: Numbers(run[t].log, p, q, sn)
    ensures forall p, q :: Numbers(run[t].log, p, q, sn) ==> run[t].log[p].ops[q] == u
  {
    hide AllOps, LogOps, Numbered, EntriesOf, Consecutive, IsRun, IsRunOf, Calls, Numbers;
    CallIsFinished(base, run, events, t, i);
    var s := run[t];
    forall e: Entry | e.sn == sn
      ensures e in s.mem <==> e == Entry(u.key, sn, u.op)
      ensures e in EntriesOf(s.log) <==> e == Entry(u.key, sn, u.op)
    {
      EveryArrivalOnce(base, run, t, i, e);
      NumberedAt(Boundary(base, s, i) + 1, OpsOf(s.arrivals[i]), j, e);
    }
    LoggedAt(s.log, u, sn);
  }

  /** Every update of a call with the sync option that has returned is in a record that is on disk. */
  lemma SyncWritesAreOnDisk(base: nat, run: seq<Writes>, events: seq<Event>, t: nat, i: nat, j: nat, u: Update, sn: nat)
    requires IsRunOf(base, run, events) && t < |run| && Returned(run[t], Calls(events[..t]), i)
    requires IsUpdate(base, Calls(events[..t]), i, j, u, sn) && Calls(events[..t])[i].sync
    ensures run[t].synced <= |run[t].log|
    ensures exists p, q :: p < run[t].synced && Numbers(run[t].log, p, q, sn) && run[t].log[p].ops[q] == u
  {
    hide AllOps, LogOps, Numbered, EntriesOf, Consecutive, IsRun, IsRunOf, Calls;
    CallIsFinished(base, run, events, t, i);
    var s := run[t];
    SyncedArrivalsOnDisk(base, run, t, i);
    var e := Entry(u.key, sn, u.op);
    NumberedAt(Boundary(base, s, i) + 1, OpsOf(s.arrivals[i]), j, e);
    FoundInLog(s.log[..s.synced], e);
    var p, q :| Numbers(s.log[..s.synced], p, q, sn) && s.log[..s.synced][p].ops[q] == u;
    assert p < s.synced && Numbers(s.log, p, q, sn) && s.log[p].ops[q] == u;
  }

  lemma FoundInLog(log: seq<Batch>, e: Entry)
    requires e in EntriesOf(log)
    ensures exists p, q :: Numbers(log, p, q, e.sn) && log[p].ops[q] == Update(e.key, e.op)
  {
    var b :| b in log && e in BatchEntries(b);
    var q := EntryInBatch(b, e);
    var p :| 0 <= p < |log| && log[p] == b;
    assert Numbers(log, p, q, e.sn) && log[p].ops[q] == Update(e.key, e.op);
  }

  /** A snapshot sees all updates of a call or none of them. */
  lemma SnapshotsAreWhole(base: nat, run: seq<Writes>, events: seq<Event>, t: nat, snap: nat, i: nat)
    requires IsRunOf(base, run, events) && t < |run|
    requires snap in run[t].snapshots || snap == run[t].lastSequence
    requires i < |Calls(events[..t])|
    ensures var calls := Calls(events[..t]);
      snap <= base + UpdatesBefore(calls, i) || base + UpdatesBefore(calls, i + 1) <= snap
  {
    RunOfIsRun(base, run, events);
    ArrivalsAreCalls(base, run, events, t);
    hide IsRun, AllOps, Calls;
    SnapshotBetweenArrivals(base, run, t, snap, i);
    UpdatesOfCalls(run[t].arrivals, Calls(events[..t]), i);
    UpdatesOfCalls(run[t].arrivals, Calls(events[..t]), i + 1);
  }

  /** Nothing else gets in: every entry of the memtable is an update of some call, under its number. */
  lemma NothingButCalls(base: nat, run: seq<Writes>, events: seq<Event>, t: nat, e: Entry)
    requires IsRunOf(base, run, events) && t < |run| && e in run[t].mem
    ensures exists i, j :: IsUpdate(base, Calls(events[..t]), i, j, Update(e.key, e.op), e.sn)
  {
    hide LogOps, Consecutive, IsRun, Calls;
    RunOfIsRun(base, run, events);
    ArrivalsAreCalls(base, run, events, t);
    RunKeepsOk(base, run, t);
    var s, calls := run[t], Calls(events[..t]);
    CallOfEntry(base, s.arrivals, calls, Inserted(s), e);
  }

  lemma {:induction false} CallOfEntry(base: nat, arrivals: seq<Writer>, calls: seq<Call>, n: nat, e: Entry)
    requires SameCalls(arrivals, calls) && n <= |calls| && e in Numbered(base + 1, AllOps(arrivals[..n]))
    ensures exists i, j :: IsUpdate(base, calls, i, j, Update(e.key, e.op), e.sn)
  {
    hide AllOps, Numbered;
    if n == 0 {
      NoOps(arrivals, base + 1);
    } else {
      var before, w := AllOps(arrivals[..n - 1]), arrivals[n - 1];
      OpsOfNext(arrivals, n - 1);
      NumberedConcat(base + 1, before, OpsOf(w));
      if e in Numbered(base + 1, before) {
        CallOfEntry(base, arrivals, calls, n - 1, e);
      } else {
        UpdatesOfCalls(arrivals, calls, n - 1);
        assert SameCall(w, calls[n - 1]);
        var j := NumberedIndex(base + 1 + |before|, OpsOf(w), e);
        assert IsUpdate(base, calls, n - 1, j, Update(e.key, e.op), e.sn);
      }
    }
  }

  lemma NoOps(arrivals: seq<Writer>, first: nat)
    ensures Numbered(first, AllOps(arrivals[..0])) == {}
  {
  }

  lemma NumberedIndex(first: nat, ops: seq<Update>, e: Entry) returns (j: nat)
    requires e in Numbered(first, ops)
    ensures j < |ops| && e.sn == first + j && ops[j] == Update(e.key, e.op)
  {
    j := EntryInBatch(Batch(first, ops), e);
  }

  // ----- the write path as an object -----

  class WriteQueue {
    var writers: seq<Writer>
    var leader: Option<Leader>
    var lastSequence: nat
    var log: seq<Batch>
    var synced: nat
    var mem: seq<Entry>
    var snapshots: seq<nat>
    ghost var arrivals: seq<Writer>
    ghost var finished: nat
    ghost const base: nat

    ghost function State(): Writes
      reads this
    {
      Writes(writers, leader, lastSequence, log, synced, (set e | e in mem), snapshots, arrivals, finished)
    }

    ghost predicate Valid()
      reads this
    {
      Ok(base, State()) && Sorted(mem)
    }

    constructor (lastSequence: nat)
      ensures Valid() && Start(lastSequence, State()) && base == lastSequence
    {
      writers, leader, log, synced, mem, snapshots := [], None, [], 0, [], [];
      this.lastSequence := lastSequence;
      arrivals, finished, base := [], 0, lastSequence;
      new;
      assert IsRun(base, [State()]);
      RunKeepsOk(base, [State()], 0);
    }

    /** A call of Write enters the queue. */
    method Join(updates: Option<seq<Update>>, size: nat, sync: bool)
      requires Valid()
      modifies this`writers, this`arrivals
      ensures Happens(old(State()), State(), Called(Call(updates, size, sync))) && Valid()
      ensures writers == old(writers) + [Writer(updates, size, sync)]
      ensures arrivals == old(arrivals) + [Writer(updates, size, sync)]
    {
      hide Ok;
      ghost var s := State();
      var w := Writer(updates, size, sync);
      writers := writers + [w];
      arrivals := arrivals + [w];
      JoinsKeepsOk(base, s, State(), w);
    }

    /** The front writer takes the lead with as large a group as may share it. */
    method Lead() returns (n: nat)
      requires Valid() && leader.None? && writers != [] && writers[0].ops.Some?
      modifies this`leader
      ensures Leads(old(State()), State(), n) && Valid()
      ensures n == |writers| || !MayShare(writers, n + 1)
    {
      hide Ok, MayShare, AllOps;
      ghost var s := State();
      var ops;
      n, ops := BuildBatchGroup(writers);
      GroupBounds(writers, n);
      leader := Some(Leader(n, Batch(lastSequence + 1, ops), writers[0].sync, false, false, false));
      LeadsKeepsOk(base, s, State(), n);
    }

    /** A front writer with a null batch has nothing to commit. */
    method Skip()
      requires Valid() && leader.None? && writers != [] && writers[0].ops.None?
      modifies this`writers, this`finished
      ensures Skips(old(State()), State()) && Valid()
    {
      hide Ok;
      ghost var s := State();
      writers := writers[1..];
      finished := finished + 1;
      SkipsKeepsOk(base, s, State());
    }

    method AddRecord()
      requires Valid() && leader.Some? && !leader.value.logged
      modifies this`leader, this`log
      ensures AddsRecord(old(State()), State()) && Valid()
    {
      hide Ok;
      ghost var s := State();
      log := log + [leader.value.batch];
      leader := Some(leader.value.(logged := true));
      AddsRecordKeepsOk(base, s, State());
    }

    method Sync()
      requires Valid() && leader.Some? && leader.value.logged && leader.value.sync && !leader.value.synced
      modifies this`leader, this`synced
      ensures Syncs(old(State()), State()) && Valid()
    {
      hide Ok;
      ghost var s := State();
      synced := |log|;
      leader := Some(leader.value.(synced := true));
      SyncsKeepsOk(base, s, State());
    }

    method Insert()
      requires Valid() && leader.Some? && leader.value.logged && !leader.value.inserted
      requires leader.value.sync ==> leader.value.synced
      modifies this`leader, this`mem
      ensures Inserts(old(State()), State()) && Valid()
    {
      hide Ok;
      ghost var s := State();
      MemBelowGroup(base, s, mem);
      mem := InsertInto(leader.value.batch, mem);
      leader := Some(leader.value.(inserted := true));
      assert State().mem == s.mem + BatchEntries(s.leader.value.batch);
      InsertsKeepsOk(base, s, State());
    }

    /** SetLastSequence, then the loop that pops the group off the queue and wakes its members. */
    method Finish()
      requires Valid() && leader.Some? && leader.value.inserted
      modifies this`writers, this`leader, this`lastSequence, this`finished
      ensures Finishes(old(State()), State()) && Valid()
    {
      hide Ok;
      ghost var s := State();
      GroupInQueue(base, s);
      var n, ops := leader.value.n, leader.value.batch.ops;
      var ready := 0;
      while ready < n
        invariant 0 <= ready <= n <= |s.queue| && writers == s.queue[ready..] && finished == s.finished + ready
        invariant lastSequence == s.lastSequence && leader == s.leader
      {
        writers := writers[1..];
        finished := finished + 1;
        ready := ready + 1;
      }
      lastSequence := lastSequence + |ops|;
      leader := None;
      FinishesKeepsOk(base, s, State());
    }

    method TakeSnapshot() returns (snapshot: nat)
      requires Valid()
      modifies this`snapshots
      ensures snapshot == lastSequence && TakesSnapshot(old(State()), State()) && Valid()
      ensures snapshots == old(snapshots) + [snapshot]
    {
      hide Ok;
      ghost var s := State();
      snapshot := lastSequence;
      snapshots := snapshots + [snapshot];
      SnapshotKeepsOk(base, s, State());
    }
  }

  lemma GroupBounds(queue: seq<Writer>, n: nat)
    requires MayShare(queue, n)
    ensures 1 <= n <= |queue|
  {
  }

  lemma GroupInQueue(base: nat, s: Writes)
    requires Ok(base, s) && s.leader.Some?
    ensures s.leader.value.n <= |s.queue|
  {
  }

  lemma MemBelowGroup(base: nat, s: Writes, mem: seq<Entry>)
    requires Ok(base, s) && s.leader.Some? && !s.leader.value.inserted && s.mem == set e | e in mem
    ensures Below(mem, s.leader.value.batch.first)
  {
    var b := Batch(base + 1, AllOps(s.arrivals[..s.finished]));
    forall e | e in mem
      ensures e.sn < s.leader.value.batch.first
    {
      assert e in s.mem;
      SequencesInBatch(b, e);
    }
  }
}
