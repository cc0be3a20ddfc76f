/**
 Machine crashes that reach logs already rotated out (db/db_impl.cc:1346-1366): exactly when the store that is opened
 afterwards still holds a prefix of the issued batches.
 */
module LostLogs {
  import opened Options
  import opened DbFormat
  import opened Versions
  import opened VersionSteps
  import opened InstallEdits
  import opened Database
  import opened Batches
  import opened Recovery

  // ----- one crash -----

  function Concat(logs: seq<seq<Batch>>): seq<Batch> {
    if logs == [] then [] else logs[0] + Concat(logs[1..])
  }

  predicate CutsOk(logs: seq<seq<Batch>>, cuts: seq<nat>) {
    |cuts| == |logs| && forall i :: 0 <= i < |logs| ==> cuts[i] <= |logs[i]|
  }

  /** Each log keeps only its first records. */
  function Cut(logs: seq<seq<Batch>>, cuts: seq<nat>): seq<seq<Batch>>
    requires CutsOk(logs, cuts)
  {
    seq(|logs|, i requires 0 <= i < |logs| => logs[i][..cuts[i]])
  }

  /** Once a log has lost records, no later log has any left. */
  predicate NothingAfterLoss(logs: seq<seq<Batch>>, cuts: seq<nat>)
    requires CutsOk(logs, cuts)
  {
    forall i, j :: 0 <= i < j < |logs| && cuts[i] < |logs[i]| ==> cuts[j] == 0
  }

  lemma CutTail(logs: seq<seq<Batch>>, cuts: seq<nat>)
    requires CutsOk(logs, cuts) && logs != []
    ensures CutsOk(logs[1..], cuts[1..])
    ensures Concat(Cut(logs, cuts)) == logs[0][..cuts[0]] + Concat(Cut(logs[1..], cuts[1..]))
  {
    assert Cut(logs, cuts)[1..] == Cut(logs[1..], cuts[1..]);
  }

  lemma {:induction false} AllCut(logs: seq<seq<Batch>>, cuts: seq<nat>)
    requires CutsOk(logs, cuts)
    ensures Concat(Cut(logs, cuts)) == [] <==> forall i :: 0 <= i < |cuts| ==> cuts[i] == 0
  {
    if logs != [] {
      CutTail(logs, cuts);
      AllCut(logs[1..], cuts[1..]);
      assert forall i :: 1 <= i < |cuts| ==> cuts[i] == cuts[1..][i - 1];
    }
  }

  ghost predicate Distinct(bs: seq<Batch>) {
    forall i, j :: 0 <= i < j < |bs| ==> bs[i] != bs[j]
  }

  /**
   MakeRoomForWrite closes the old log without an fsync, so a machine crash can cut a rotated log too, while a later
   log keeps synced records. Replay then gives a prefix of the issued batches exactly when no record survives behind
   a lost one.
   */
  lemma {:induction false} ReplayIsPrefixIffNothingAfterLoss(logs: seq<seq<Batch>>, cuts: seq<nat>)
    requires CutsOk(logs, cuts) && Distinct(Concat(logs))
    ensures Concat(Cut(logs, cuts)) <= Concat(logs) <==> NothingAfterLoss(logs, cuts)
  {
    if logs != [] {
      var head, rest, kept := logs[0], Concat(logs[1..]), Concat(Cut(logs[1..], cuts[1..]));
      CutTail(logs, cuts);
      DistinctTail(head, rest);
      ReplayIsPrefixIffNothingAfterLoss(logs[1..], cuts[1..]);
      AllCut(logs[1..], cuts[1..]);
      LossShifts(logs, cuts);
      if cuts[0] == |head| {
        assert head[..cuts[0]] == head;
        PrefixBehind(head, kept, rest);
      } else {
        LostRecordShows(head, rest, logs[1..], cuts[1..], cuts[0]);
      }
    }
  }

  lemma DistinctTail(head: seq<Batch>, rest: seq<Batch>)
    requires Distinct(head + rest)
    ensures Distinct(rest)
  {
    forall i, j | 0 <= i < j < |rest|
      ensures rest[i] != rest[j]
    {
      assert (head + rest)[|head| + i] != (head + rest)[|head| + j];
    }
  }

  lemma PrefixBehind(head: seq<Batch>, kept: seq<Batch>, rest: seq<Batch>)
    ensures head + kept <= head + rest <==> kept <= rest
  {
    if head + kept <= head + rest {
      forall i | 0 <= i < |kept|
        ensures kept[i] == rest[i]
      {
        assert (head + kept)[|head| + i] == (head + rest)[|head| + i];
      }
    }
  }

  lemma LossShifts(logs: seq<seq<Batch>>, cuts: seq<nat>)
    requires CutsOk(logs, cuts) && logs != []
    ensures CutsOk(logs[1..], cuts[1..])
    ensures NothingAfterLoss(logs, cuts) <==>
              NothingAfterLoss(logs[1..], cuts[1..])
              && (cuts[0] < |logs[0]| ==> forall i :: 0 <= i < |cuts[1..]| ==> cuts[1..][i] == 0)
  {
    if NothingAfterLoss(logs[1..], cuts[1..])
      && (cuts[0] < |logs[0]| ==> forall i :: 0 <= i < |cuts[1..]| ==> cuts[1..][i] == 0)
    {
      forall i, j | 0 <= i < j < |logs| && cuts[i] < |logs[i]|
        ensures cuts[j] == 0
      {
        assert cuts[j] == cuts[1..][j - 1];
        if i > 0 {
          assert cuts[1..][i - 1] < |logs[1..][i - 1]|;
        }
      }
    }
    if NothingAfterLoss(logs, cuts) {
      forall i, j | 0 <= i < j < |logs[1..]| && cuts[1..][i] < |logs[1..][i]|
        ensures cuts[1..][j] == 0
      {
        assert cuts[i + 1] < |logs[i + 1]| && cuts[j + 1] == 0;
      }
    }
  }

  /** After a loss in the first log, what later logs keep can only be out of place. */
  lemma LostRecordShows(head: seq<Batch>, rest: seq<Batch>, logs: seq<seq<Batch>>, cuts: seq<nat>, n: nat)
    requires n < |head| && CutsOk(logs, cuts) && rest == Concat(logs) && Distinct(head + rest)
    ensures head[..n] + Concat(Cut(logs, cuts)) <= head + rest <==> Concat(Cut(logs, cuts)) == []
  {
    var kept := Concat(Cut(logs, cuts));
    if kept != [] {
      CutIsHeld(logs, cuts, kept[0]);
      var j :| 0 <= j < |rest| && rest[j] == kept[0];
      var all := head + rest;
      assert (head[..n] + kept)[n] == kept[0] == all[|head| + j] != all[n];
    }
  }

  lemma {:induction false} CutIsHeld(logs: seq<seq<Batch>>, cuts: seq<nat>, b: Batch)
    requires CutsOk(logs, cuts) && b in Concat(Cut(logs, cuts))
    ensures b in Concat(logs)
  {
    if logs != [] {
      CutTail(logs, cuts);
      if b !in logs[0][..cuts[0]] {
        CutIsHeld(logs[1..], cuts[1..], b);
      }
    }
  }

  // ----- all crashes of a store -----

  /** A machine crash may cut every log anywhere behind what has been synced of it. */
  predicate Survives(logs: seq<LogFile>, cuts: seq<nat>) {
    |cuts| == |logs| && forall i :: 0 <= i < |logs| ==> logs[i].synced <= cuts[i] <= |logs[i].records|
  }

  function CutLogs(logs: seq<LogFile>, cuts: seq<nat>): seq<LogFile>
    requires Survives(logs, cuts)
  {
    seq(|logs|, i requires 0 <= i < |logs| => LogFile(logs[i].number, logs[i].records[..cuts[i]], cuts[i]))
  }

  /** What tables and logs hold after the crash. */
  function Kept(w: World, cuts: seq<nat>): seq<Batch>
    requires Survives(w.disk.logs, cuts) && w.durable <= |w.issued|
  {
    w.issued[..w.durable] + RecordsFrom(CutLogs(w.disk.logs, cuts), w.disk.manifest.logNumber)
  }

  ghost predicate HoldsPrefix(kept: seq<Batch>, issued: seq<Batch>) {
    exists n: nat :: n <= |issued| && EntriesOf(kept) == EntriesOf(issued[..n])
  }

  /** Whether there is an update among the batches; an empty batch leaves no trace. */
  predicate Writes(bs: seq<Batch>) {
    exists b :: b in bs && b.ops != []
  }

  /** Of two logs that recovery needs, the earlier has nothing unsynced to lose or the later has nothing to keep. */
  predicate InOrderOfLoss(logs: seq<LogFile>, min: nat, i: int, j: int) {
    0 <= i < j < |logs| && logs[i].number >= min && logs[j].number >= min && logs[i].synced <= |logs[i].records| ==>
      !Writes(logs[i].records[logs[i].synced..]) || !Writes(logs[j].records)
  }

  ghost predicate SafeFromLoss(logs: seq<LogFile>, min: nat) {
    forall i, j :: InOrderOfLoss(logs, min, i, j)
  }

  lemma NoWritesNoEntries(bs: seq<Batch>)
    ensures Writes(bs) <==> EntriesOf(bs) != {}
  {
    if b :| b in bs && b.ops != [] {
      assert EntryAt(b, 0) in BatchEntries(b);
      assert EntryAt(b, 0) in EntriesOf(bs);
    }
    if e :| e in EntriesOf(bs) {
      var b :| b in bs && e in BatchEntries(b);
      assert b.ops != [];
    }
  }

  /** With safe logs every crash leaves a prefix. */
  lemma {:induction false} SafeCutIsPrefix(logs: seq<LogFile>, cuts: seq<nat>, min: nat)
    requires Survives(logs, cuts) && SafeFromLoss(logs, min)
    ensures HoldsPrefix(RecordsFrom(CutLogs(logs, cuts), min), RecordsFrom(logs, min))
    decreases |logs|
  {
    var all, kept := RecordsFrom(logs, min), RecordsFrom(CutLogs(logs, cuts), min);
    if logs == [] {
      assert all[..0] == kept;
    } else {
      var log, c, rest := logs[0], cuts[0], RecordsFrom(logs[1..], min);
      var keptRest := RecordsFrom(CutLogs(logs[1..], cuts[1..]), min);
      assert CutLogs(logs, cuts)[1..] == CutLogs(logs[1..], cuts[1..]);
      if log.number >= min && Writes(log.records[c..]) {
        LaterLogsAreEmpty(logs, cuts, min);
        NoWritesNoEntries(rest);
        CutKeepsNothing(logs[1..], cuts[1..], min);
        EntriesOfConcat(log.records[..c], keptRest);
        assert all[..c] == log.records[..c];
      } else {
        SafeTail(logs, min);
        SafeCutIsPrefix(logs[1..], cuts[1..], min);
        var n: nat :| n <= |rest| && EntriesOf(keptRest) == EntriesOf(rest[..n]);
        if log.number >= min {
          EntriesOfConcat(log.records[..c], log.records[c..]);
          assert log.records == log.records[..c] + log.records[c..];
          NoWritesNoEntries(log.records[c..]);
          EntriesOfConcat(log.records[..c], keptRest);
          EntriesOfConcat(log.records, rest[..n]);
          assert all[..|log.records| + n] == log.records + rest[..n];
        } else {
          assert all[..n] == rest[..n];
        }
      }
    }
  }

  lemma SafeTail(logs: seq<LogFile>, min: nat)
    requires SafeFromLoss(logs, min) && logs != []
    ensures SafeFromLoss(logs[1..], min)
  {
    forall i, j ensures InOrderOfLoss(logs[1..], min, i, j) {
      assert InOrderOfLoss(logs, min, i + 1, j + 1);
    }
  }

  lemma LaterLogsAreEmpty(logs: seq<LogFile>, cuts: seq<nat>, min: nat)
    requires Survives(logs, cuts) && SafeFromLoss(logs, min) && logs != []
    requires logs[0].number >= min && Writes(logs[0].records[cuts[0]..])
    ensures !Writes(RecordsFrom(logs[1..], min))
  {
    var b :| b in logs[0].records[cuts[0]..] && b.ops != [];
    assert b in logs[0].records[logs[0].synced..];
    forall j | 0 <= j < |logs[1..]| && logs[1..][j].number >= min ensures !Writes(logs[1..][j].records) {
      assert InOrderOfLoss(logs, min, 0, j + 1);
    }
    NoneWrites(logs[1..], min);
  }

  lemma {:induction false} NoneWrites(logs: seq<LogFile>, min: nat)
    requires forall j :: 0 <= j < |logs| && logs[j].number >= min ==> !Writes(logs[j].records)
    ensures !Writes(RecordsFrom(logs, min))
    decreases |logs|
  {
    if logs != [] {
      NoneWrites(logs[1..], min);
    }
  }

  lemma {:induction false} CutKeepsNothing(logs: seq<LogFile>, cuts: seq<nat>, min: nat)
    requires Survives(logs, cuts) && !Writes(RecordsFrom(logs, min))
    ensures EntriesOf(RecordsFrom(CutLogs(logs, cuts), min)) == {}
    decreases |logs|
  {
    var kept := RecordsFrom(CutLogs(logs, cuts), min);
    forall b | b in kept ensures b.ops == [] {
      KeptIsHeld(logs, cuts, min, b);
    }
    NoWritesNoEntries(kept);
  }

  lemma {:induction false} KeptIsHeld(logs: seq<LogFile>, cuts: seq<nat>, min: nat, b: Batch)
    requires Survives(logs, cuts) && b in RecordsFrom(CutLogs(logs, cuts), min)
    ensures b in RecordsFrom(logs, min)
    decreases |logs|
  {
    if logs != [] {
      assert CutLogs(logs, cuts)[1..] == CutLogs(logs[1..], cuts[1..]);
      if b in RecordsFrom(CutLogs(logs[1..], cuts[1..]), min) {
        KeptIsHeld(logs[1..], cuts[1..], min, b);
      }
    }
  }

  /** A lost write before a kept one: nothing that was ever issued first looks like this. */
  lemma LossInTheMiddle(before: seq<Batch>, lost: Batch, behind: seq<Batch>, kept: seq<Batch>, later: Batch)
    requires Increasing(before + [lost] + behind) && lost.ops != [] && later in behind && later.ops != [] &&
             later in kept
    requires forall b :: b in kept ==> b in before || b in behind
    ensures !HoldsPrefix(kept, before + [lost] + behind)
  {
    var all := before + [lost] + behind;
    var x, y := EntryAt(later, 0), EntryAt(lost, 0);
    assert x in BatchEntries(later) && y in BatchEntries(lost);
    var q :| 0 <= q < |behind| && behind[q] == later;
    assert all[|before|] == lost && all[|before| + 1 + q] == later;
    assert InTurn(all, |before|, |before| + 1 + q);
    forall n: nat | n <= |all| ensures EntriesOf(kept) != EntriesOf(all[..n]) {
      assert x in EntriesOf(kept);
      if n <= |before| {
        forall b | b in all[..n] ensures x !in BatchEntries(b) {
          var p :| 0 <= p < n && all[p] == b;
          assert InTurn(all, p, |before|);
        }
        assert x !in EntriesOf(all[..n]);
      } else {
        assert all[..n][|before|] == lost;
        assert y in EntriesOf(all[..n]);
        forall b | b in kept ensures y !in BatchEntries(b) {
          if b in before {
            var p :| 0 <= p < |before| && before[p] == b;
            assert all[p] == b && InTurn(all, p, |before|);
          } else {
            var p :| 0 <= p < |behind| && behind[p] == b;
            assert all[|before| + 1 + p] == b && InTurn(all, |before|, |before| + 1 + p);
          }
        }
        assert y !in EntriesOf(kept);
      }
    }
  }

  /** The crash that cuts one log down to its synced part. */
  function OneCut(logs: seq<LogFile>, i: nat): seq<nat>
    requires i < |logs|
  {
    seq(|logs|, k requires 0 <= k < |logs| => if k == i then logs[i].synced else |logs[k].records|)
  }

  lemma OneCutKeeps(logs: seq<LogFile>, i: nat, min: nat)
    requires LogsOk(logs) && i < |logs| && logs[i].number >= min
    ensures Survives(logs, OneCut(logs, i))
    ensures RecordsFrom(logs, min) == RecordsFrom(logs[..i], min) + logs[i].records + RecordsFrom(logs[i + 1..], min)
    ensures RecordsFrom(CutLogs(logs, OneCut(logs, i)), min)
         == RecordsFrom(logs[..i], min) + logs[i].records[..logs[i].synced] + RecordsFrom(logs[i + 1..], min)
  {
    var cut := CutLogs(logs, OneCut(logs, i));
    SplitRecords(logs, i, min);
    SplitRecords(cut, i, min);
    WholeLogs(logs, i, min);
  }

  lemma SplitRecords(logs: seq<LogFile>, i: nat, min: nat)
    requires i < |logs| && logs[i].number >= min
    ensures RecordsFrom(logs, min) == RecordsFrom(logs[..i], min) + logs[i].records + RecordsFrom(logs[i + 1..], min)
  {
    assert logs == logs[..i] + ([logs[i]] + logs[i + 1..]);
    RecordsFromConcat(logs[..i], [logs[i]] + logs[i + 1..], min);
    RecordsFromConcat([logs[i]], logs[i + 1..], min);
    RecordsFromOne(logs[i], min);
  }

  lemma WholeLogs(logs: seq<LogFile>, i: nat, min: nat)
    requires LogsOk(logs) && i < |logs|
    ensures Survives(logs, OneCut(logs, i))
    ensures var cut := CutLogs(logs, OneCut(logs, i));
      && RecordsFrom(cut[..i], min) == RecordsFrom(logs[..i], min)
      && RecordsFrom(cut[i + 1..], min) == RecordsFrom(logs[i + 1..], min)
  {
    var cut := CutLogs(logs, OneCut(logs, i));
    SameRecords(cut[..i], logs[..i], min);
    SameRecords(cut[i + 1..], logs[i + 1..], min);
  }

  lemma {:induction false} SameRecords(xs: seq<LogFile>, ys: seq<LogFile>, min: nat)
    requires |xs| == |ys|
    requires forall k :: 0 <= k < |xs| ==> xs[k].number == ys[k].number && xs[k].records == ys[k].records
    ensures RecordsFrom(xs, min) == RecordsFrom(ys, min)
    decreases |xs|
  {
    if xs != [] {
      SameRecords(xs[1..], ys[1..], min);
    }
  }

  lemma {:induction false} RecordOfLater(logs: seq<LogFile>, j: nat, min: nat, b: Batch)
    requires j < |logs| && logs[j].number >= min && b in logs[j].records
    ensures b in RecordsFrom(logs, min)
  {
    SplitRecords(logs, j, min);
  }

  lemma LostRecord(front: seq<Batch>, records: seq<Batch>, s: nat, p: nat, behind: seq<Batch>, later: Batch)
    requires Increasing(front + records + behind) && s <= p < |records| && records[p].ops != []
    requires later in behind && later.ops != []
    ensures !HoldsPrefix(front + records[..s] + behind, front + records + behind)
  {
    hide HoldsPrefix, Increasing;
    var before, after := front + records[..p], records[p + 1..] + behind;
    var kept := front + records[..s] + behind;
    assert front + records + behind == before + [records[p]] + after;
    assert records[..s] == records[..p][..s];
    forall b | b in kept ensures b in before || b in after {
      assert b in front || b in records[..p] || b in behind;
    }
    LossInTheMiddle(before, records[p], after, kept, later);
  }

  lemma UnsafeWrites(logs: seq<LogFile>, min: nat, i: int, j: int) returns (p: nat, later: Batch)
    requires !InOrderOfLoss(logs, min, i, j)
    ensures 0 <= i < j < |logs| && logs[i].number >= min && logs[j].number >= min
    ensures logs[i].synced <= p < |logs[i].records| && logs[i].records[p].ops != []
    ensures later in logs[j].records && later.ops != []
  {
    var lost :| lost in logs[i].records[logs[i].synced..] && lost.ops != [];
    p :| logs[i].synced <= p < |logs[i].records| && logs[i].records[p] == lost;
    later :| later in logs[j].records && later.ops != [];
  }

  /** Unsafe logs can lose a write and keep a later one. */
  lemma UnsafeCutIsNoPrefix(w: World, i: nat, j: nat)
    requires DiskOk(w) && !InOrderOfLoss(w.disk.logs, w.disk.manifest.logNumber, i, j)
    ensures Survives(w.disk.logs, OneCut(w.disk.logs, i))
    ensures !HoldsPrefix(Kept(w, OneCut(w.disk.logs, i)), w.issued)
  {
    hide ManifestOk, HoldsPrefix, RecordsFrom, CutLogs, Survives, InOrderOfLoss;
    var logs, min := w.disk.logs, w.disk.manifest.logNumber;
    var p, later := UnsafeWrites(logs, min, i, j);
    var records, s := logs[i].records, logs[i].synced;
    OneCutKeeps(logs, i, min);
    assert logs[i + 1..][j - i - 1] == logs[j];
    RecordOfLater(logs[i + 1..], j - i - 1, min, later);
    var first := w.issued[..w.durable];
    var pre, behind := RecordsFrom(logs[..i], min), RecordsFrom(logs[i + 1..], min);
    WithTables(first, pre, records, behind);
    WithTables(first, pre, records[..s], behind);
    assert w.issued == first + w.issued[w.durable..];
    LostRecord(first + pre, records, s, p, behind, later);
  }

  lemma WithTables(first: seq<Batch>, pre: seq<Batch>, mid: seq<Batch>, behind: seq<Batch>)
    ensures first + (pre + mid + behind) == first + pre + mid + behind
  {
  }

  /**
   MakeRoomForWrite closes the old log without an fsync, so a machine crash can cut a rotated log too. Every such crash
   leaves a prefix of the issued batches exactly when, of any two logs that recovery needs, the earlier one has no
   unsynced write or the later one has no write.
   */
  lemma MachineCrashLeavesPrefixIff(w: World)
    requires DiskOk(w)
    ensures (forall cuts :: Survives(w.disk.logs, cuts) ==> HoldsPrefix(Kept(w, cuts), w.issued))
       <==> SafeFromLoss(w.disk.logs, w.disk.manifest.logNumber)
  {
    hide ManifestOk, HoldsPrefix, InOrderOfLoss, BatchesOk;
    var logs, min := w.disk.logs, w.disk.manifest.logNumber;
    if SafeFromLoss(logs, min) {
      forall cuts | Survives(logs, cuts) ensures HoldsPrefix(Kept(w, cuts), w.issued) {
        SafeCutIsPrefix(logs, cuts, min);
        PrefixBehindTables(w, RecordsFrom(CutLogs(logs, cuts), min));
      }
    } else {
      var i, j :| !InOrderOfLoss(logs, min, i, j);
      assert 0 <= i < j < |logs| by { PairOfLogs(logs, min, i, j); }
      UnsafeCutIsNoPrefix(w, i, j);
    }
  }

  lemma PairOfLogs(logs: seq<LogFile>, min: nat, i: int, j: int)
    requires !InOrderOfLoss(logs, min, i, j)
    ensures 0 <= i < j < |logs|
  {
  }

  lemma PrefixBehindTables(w: World, kept: seq<Batch>)
    requires w.durable <= |w.issued| && HoldsPrefix(kept, w.issued[w.durable..])
    ensures HoldsPrefix(w.issued[..w.durable] + kept, w.issued)
  {
    var tail := w.issued[w.durable..];
    var n: nat :| n <= |tail| && EntriesOf(kept) == EntriesOf(tail[..n]);
    EntriesOfConcat(w.issued[..w.durable], kept);
    EntriesOfConcat(w.issued[..w.durable], tail[..n]);
    assert w.issued[..w.durable + n] == w.issued[..w.durable] + tail[..n];
  }

  // ----- a run that ends in a store that is not safe -----

  function EmptyVersion(): Version {
    seq(NUM_LEVELS, _ => [])
  }

  lemma EmptyVersionOk()
    ensures VersionOk(EmptyVersion()) && Listed(EmptyVersion()) && Entries(EmptyVersion()) == {}
    ensures forall next :: NumbersOk(EmptyVersion(), next)
  {
    var v := EmptyVersion();
    forall e ensures e !in Entries(v) {
      InEntriesFrom(v, 0, e);
    }
  }

  const FIRST: Batch := Batch(1, [Update(0.0, Put("a"))])
  const SECOND: Batch := Batch(2, [Update(1.0, Put("b"))])

  function OpenDisk(): Disk {
    Disk(Manifest(EmptyVersion(), 0, 2, 3, 0), [LogFile(2, [], 0)])
  }

  ghost function FailingRun(): seq<World> {
    var v := EmptyVersion();
    var d := OpenDisk();
    var m := d.manifest;
    var db := DbState([], None, v, 3, 0, [], {}, 0);
    var w0 := World(Disk(Manifest(v, 0, 0, 2, 0), []), Down, [], 0, 0);
    var w1 := World(d, Up(db, 2, None, None, 0, 0, 0), [], 0, 0);
    var w2 := w1.(disk := Disk(m, [LogFile(2, [FIRST], 0)]), memory := w1.memory.(inLog := Some(FIRST)),
        issued := [FIRST]);
    var db3 := Applying(db, [Entry(0.0, 1, Put("a"))], FIRST);
    var w3 := w2.(memory := w2.memory.(db := db3, inLog := None, applied := 1));
    var db4 := db3.(imm := Some(db3.mem), mem := [], nextFile := 4);
    var w4 := w3.(disk := Disk(m, [LogFile(2, [FIRST], 0), LogFile(3, [], 0)]),
                  memory := w3.memory.(db := db4, logNumber := 3, rotated := 1));
    var w5 := w4.(disk := Disk(m, [LogFile(2, [FIRST], 0), LogFile(3, [SECOND], 0)]),
                  memory := w4.memory.(inLog := Some(SECOND)), issued := [FIRST, SECOND]);
    var w6 := w5.(disk := Disk(m, [LogFile(2, [FIRST], 0), LogFile(3, [SECOND], 1)]));
    var db7 := Applying(db4, [Entry(1.0, 2, Put("b"))], SECOND);
    var w7 := w6.(memory := w6.memory.(db := db7, inLog := None, applied := 2), acked := 2);
    [w0, w1, w2, w3, w4, w5, w6, w7]
  }

  lemma FailingRunIsRun()
    ensures Recovery.IsRun(FailingRun())
  {
    FailingRunOpens();
    FailingRunWrites();
    FailingRunWritesAgain();
  }

  lemma FailingRunOpens()
    ensures var r := FailingRun(); NewDB(r[0]) && Recovery.Next(r[0], r[1])
  {
    var r := FailingRun();
    EmptyVersionOk();
    hide VersionOk, Listed, NumbersOk, Entries;
    assert EntriesOf([]) == {};
    assert RecordsFrom(r[0].disk.logs, 0) == [];
    assert LastSequence(0, []) == 0;
    assert OpenStep(r[0], r[1], OpenDisk());
  }

  lemma FailingRunWrites()
    ensures var r := FailingRun(); Recovery.Next(r[1], r[2]) && Recovery.Next(r[2], r[3]) && Recovery.Next(r[3], r[4])
  {
    var r := FailingRun();
    hide EmptyVersion;
    assert [] + [FIRST] == [FIRST];
    assert [LogFile(2, [], 0)][0 := LogFile(2, [FIRST], 0)] == [LogFile(2, [FIRST], 0)];
    assert BatchEntries(FIRST) == {EntryAt(FIRST, 0)};
    assert AddRecordStep(r[1], r[2], FIRST);
    assert ApplyStep(r[2], r[3], [Entry(0.0, 1, Put("a"))], false);
    assert RotateStep(r[3], r[4]);
  }

  lemma FailingRunWritesAgain()
    ensures var r := FailingRun(); Recovery.Next(r[4], r[5]) && Recovery.Next(r[5], r[6]) && Recovery.Next(r[6], r[7])
  {
    var r := FailingRun();
    hide EmptyVersion;
    var first := LogFile(2, [FIRST], 0);
    assert [] + [SECOND] == [SECOND] && [FIRST] + [SECOND] == [FIRST, SECOND];
    assert [first, LogFile(3, [], 0)][1 := LogFile(3, [SECOND], 0)] == [first, LogFile(3, [SECOND], 0)];
    assert [first, LogFile(3, [SECOND], 0)][1 := LogFile(3, [SECOND], 1)] == [first, LogFile(3, [SECOND], 1)];
    assert BatchEntries(SECOND) == {EntryAt(SECOND, 0)};
    assert AddRecordStep(r[4], r[5], SECOND);
    assert SyncStep(r[5], r[6]);
    assert ApplyStep(r[6], r[7], [Entry(1.0, 2, Put("b"))], true);
  }

  /**
   One unsynced write, a rotation and one synced write, from a new store on: both writes are acknowledged and so is the
   sync, but a crash that cuts the rotated log leaves only the second write.
   */
  lemma RotatedLogCanLoseWrites()
    ensures Recovery.IsRun(FailingRun())
    ensures var w := FailingRun()[7];
      && w.acked == |w.issued| == 2 && Survives(w.disk.logs, [0, 1]) && w.durable <= |w.issued|
      && Kept(w, [0, 1]) == [w.issued[1]] && !HoldsPrefix(Kept(w, [0, 1]), w.issued)
  {
    FailingRunIsRun();
    var w := FailingRun()[7];
    var cut := CutLogs(w.disk.logs, [0, 1]);
    assert [FIRST][..0] == [] && [SECOND][..1] == [SECOND];
    assert cut[0] == LogFile(2, [FIRST][..0], 0) && cut[1] == LogFile(3, [SECOND][..1], 1);
    assert cut == [LogFile(2, [], 0), LogFile(3, [SECOND], 1)];
    assert cut[1..] == [LogFile(3, [SECOND], 1)] && cut[1..][1..] == [];
    assert RecordsFrom(cut[1..], 2) == [SECOND] + RecordsFrom([], 2) == [SECOND];
    assert Kept(w, [0, 1]) == [] + ([] + [SECOND]);
    assert w.issued == [] + [FIRST] + [SECOND];
    LossInTheMiddle([], FIRST, [SECOND], [SECOND], SECOND);
  }
}
