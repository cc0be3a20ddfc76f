/**
 Opening a store (db/db_impl.cc:280-452, 490-513, 1482-1516): replay the logs the manifest still needs, turn them into
 level-0 tables, and start a new log.
 */
module Replay {
  import opened Options
  import opened DbFormat
  import opened Multimap
  import opened Versions
  import opened CompactionReads
  import opened VersionSteps
  import opened InstallEdits
  import opened Database
  import opened Batches
  import opened Recovery

  /**
   WriteLevel0Table without a base version: a non-empty memtable becomes a table of level 0. All tables of one
   recovery go into a single edit; VersionBuilder.OneBuilderReplaysAll shows that adding them one at a time is the same.
   */
  method WriteLevel0Table(v: Version, run: seq<Entry>, next: nat) returns (v': Version)
    requires VersionOk(v) && Listed(v) && NumbersOk(v, next)
    requires Sorted(run) && Below(run, MAX_SEQUENCE) && NewerThan(Elements(run), Entries(v))
    ensures VersionOk(v') && Listed(v') && NumbersOk(v', next + 1)
    ensures Entries(v') == Elements(run) + Entries(v)
  {
    if run == [] {
      v' := v;
      MoreNumbersOk(v, next, next + 1);
      return;
    }
    var f := BuildTable(run, next, 0);
    v' := InstallTable(v, 0, f, next);
    assert FileEntries(f) == Elements(run);
    FlushKeepsVersion(v, 0, f, v', next);
    forall e
      ensures e in Entries(v') <==> e in Elements(run) || e in Entries(v)
    {
      AddedEntries(v, 0, f, v', e);
    }
    forall l | 0 <= l < |v'|
      ensures SortedBySmallest(v'[l])
    {
      assert l == 0 || v'[l] == v[l];
    }
  }

  /** All entries of `v` come before the batches `bs`. */
  ghost predicate Older(v: Version, bs: seq<Batch>) {
    forall e, b :: e in Entries(v) && b in bs ==> e.sn < b.first
  }

  /** RecoverLogFile: replay one log into memtables, and write each as a table when it is full and at the end. */
  method RecoverLogFile(v: Version, records: seq<Batch>, next: nat, maxSequence: nat)
    returns (v': Version, next': nat, maxSequence': nat)
    requires VersionOk(v) && Listed(v) && NumbersOk(v, next)
    requires BatchesOk(records) && Older(v, records)
    ensures VersionOk(v') && Listed(v') && NumbersOk(v', next') && next <= next'
    ensures Entries(v') == EntriesOf(records) + Entries(v)
    ensures maxSequence' == LastSequence(maxSequence, records)
  {
    hide VersionOk, Listed, NumbersOk, Older, BatchesOk;
    v', next', maxSequence' := v, next, maxSequence;
    var mem: Option<seq<Entry>> := None;
    ghost var written := 0;
    var i := 0;
    assert records[..0] == [] && EntriesOf([]) == {} && Elements([]) == {};
    while i < |records|
      invariant 0 <= written <= i <= |records| && next <= next'
      invariant VersionOk(v') && Listed(v') && NumbersOk(v', next')
      invariant Entries(v') == EntriesOf(records[..written]) + Entries(v)
      invariant mem.None? ==> written == i
      invariant mem.Some? ==> Sorted(mem.value) && Elements(mem.value) == EntriesOf(records[written..i])
      invariant maxSequence' == LastSequence(maxSequence, records[..i])
    {
      var batch := records[i];
      if mem.None? {
        mem := Some([]);
        assert records[i..i] == [];
      }
      ReplayedBelow(records, written, i, mem.value);
      var run := InsertInto(batch, mem.value);
      mem := Some(run);
      GrowReplayed(records, written, i);
      if End(batch) > maxSequence' + 1 {
        maxSequence' := End(batch) - 1;
      }
      assert records[..i + 1][..i] == records[..i];
      i := i + 1;
      var full: bool := *;
      if full {
        ReplayedNewer(v, v', records, written, i, run);
        v' := WriteLevel0Table(v', run, next');
        next' := next' + 1;
        mem := None;
        written := i;
      }
    }
    assert records[..|records|] == records;
    if mem.Some? {
      ReplayedNewer(v, v', records, written, |records|, mem.value);
      v' := WriteLevel0Table(v', mem.value, next');
      next' := next' + 1;
    }
  }

  lemma ReplayedBelow(records: seq<Batch>, written: nat, i: nat, mem: seq<Entry>)
    requires BatchesOk(records) && written <= i < |records|
    requires Elements(mem) == EntriesOf(records[written..i])
    ensures Below(mem, records[i].first)
  {
    forall e | e in mem
      ensures e.sn < records[i].first
    {
      assert e in Elements(mem);
      var b :| b in records[written..i] && e in BatchEntries(b);
      var j :| written <= j < i && records[j] == b;
      assert InTurn(records, j, i);
      SequencesInBatch(b, e);
    }
  }

  lemma GrowReplayed(records: seq<Batch>, written: nat, i: nat)
    requires written <= i < |records|
    ensures EntriesOf(records[written..i + 1]) == EntriesOf(records[written..i]) + BatchEntries(records[i])
  {
    assert records[written..i + 1] == records[written..i] + [records[i]];
    EntriesOfConcat(records[written..i], [records[i]]);
    EntriesOfOne(records[i]);
  }

  lemma ReplayedNewer(v: Version, v': Version, records: seq<Batch>, written: nat, i: nat, mem: seq<Entry>)
    requires BatchesOk(records) && Older(v, records) && written <= i <= |records|
    requires Entries(v') == EntriesOf(records[..written]) + Entries(v)
    requires Elements(mem) == EntriesOf(records[written..i])
    ensures NewerThan(Elements(mem), Entries(v')) && Below(mem, MAX_SEQUENCE)
    ensures Elements(mem) + Entries(v') == EntriesOf(records[..i]) + Entries(v)
  {
    SplitOnce(records, written, i);
    forall e | e in EntriesOf(records[written..i])
      ensures e.sn < MAX_SEQUENCE && forall x :: x in Entries(v) ==> x.sn < e.sn
    {
      var b :| b in records[written..i] && e in BatchEntries(b);
      assert b in records;
      SequencesInBatch(b, e);
    }
    forall e | e in mem
      ensures e.sn < MAX_SEQUENCE
    {
      assert e in Elements(mem);
    }
  }

  /** The first `i` logs have been replayed on top of the manifest's tables. */
  ghost predicate Replayed(d: Disk, i: nat, v: Version, next: nat, last: nat) {
    && i <= |d.logs| && d.manifest.nextFile <= next
    && VersionOk(v) && Listed(v) && NumbersOk(v, next)
    && Entries(v) == EntriesOf(RecordsFrom(d.logs[..i], d.manifest.logNumber)) + Entries(d.manifest.version)
    && last == LastSequence(d.manifest.lastSequence, RecordsFrom(d.logs[..i], d.manifest.logNumber))
    && forall j :: 0 <= j < i ==> d.logs[j].number < next
  }

  /** What the manifest and the logs must be for recovery to succeed; every run leaves them so. */
  ghost predicate Replayable(d: Disk) {
    && BatchesOk(RecordsFrom(d.logs, d.manifest.logNumber))
    && Older(d.manifest.version, RecordsFrom(d.logs, d.manifest.logNumber))
    && d.manifest.logNumber < d.manifest.nextFile
  }

  /** One round of the loop in Recover, with MarkFileNumberUsed. */
  method ReplayLog(d: Disk, i: nat, v: Version, next: nat, last: nat) returns (v': Version, next': nat, last': nat)
    requires Replayable(d) && i < |d.logs| && d.logs[i].number >= d.manifest.logNumber && Replayed(d, i, v, next, last)
    ensures Replayed(d, i + 1, v', next', last')
  {
    hide VersionOk, Listed, NumbersOk, BatchesOk, Older, Replayable, LastSequence, EntriesOf;
    var log := d.logs[i];
    NextLogReady(d, i, v);
    v', next', last' := RecoverLogFile(v, log.records, next, last);
    ReplayedOneMore(d, i, v, last);
    var used := if log.number >= next' then log.number + 1 else next';
    MoreNumbersOk(v', next', used);
    next' := used;
  }

  lemma NextLogReady(d: Disk, i: nat, v: Version)
    requires Replayable(d) && i < |d.logs| && d.logs[i].number >= d.manifest.logNumber
    requires Entries(v) == EntriesOf(RecordsFrom(d.logs[..i], d.manifest.logNumber)) + Entries(d.manifest.version)
    ensures BatchesOk(d.logs[i].records) && Older(v, d.logs[i].records)
  {
    hide BatchesOk, Older;
    var all, done := RecordsFrom(d.logs, d.manifest.logNumber), RecordsFrom(d.logs[..i], d.manifest.logNumber);
    var n := |d.logs[i].records|;
    ReplayedSoFar(d.logs, i, d.manifest.logNumber);
    assert all[..|done|] == done && all[|done|..|done| + n] == d.logs[i].records;
    PartsOk(all, |done|, n);
    OlderThanRest(d.manifest.version, v, all, |done|, n);
  }

  lemma ReplayedOneMore(d: Disk, i: nat, v: Version, last: nat)
    requires i < |d.logs| && d.logs[i].number >= d.manifest.logNumber
    requires Entries(v) == EntriesOf(RecordsFrom(d.logs[..i], d.manifest.logNumber)) + Entries(d.manifest.version)
    requires last == LastSequence(d.manifest.lastSequence, RecordsFrom(d.logs[..i], d.manifest.logNumber))
    ensures EntriesOf(d.logs[i].records) + Entries(v)
         == EntriesOf(RecordsFrom(d.logs[..i + 1], d.manifest.logNumber)) + Entries(d.manifest.version)
    ensures LastSequence(last, d.logs[i].records)
         == LastSequence(d.manifest.lastSequence, RecordsFrom(d.logs[..i + 1], d.manifest.logNumber))
  {
    var done := RecordsFrom(d.logs[..i], d.manifest.logNumber);
    ReplayedSoFar(d.logs, i, d.manifest.logNumber);
    LastSequenceConcat(d.manifest.lastSequence, done, d.logs[i].records);
    EntriesOfConcat(done, d.logs[i].records);
  }

  /** The part of Recover and Open behind the manifest: replay the logs still needed, then start a new log. */
  method Open(d: Disk) returns (d': Disk)
    requires Replayable(d) && VersionOk(d.manifest.version) && Listed(d.manifest.version)
    requires NumbersOk(d.manifest.version, d.manifest.nextFile)
    ensures Reopened(d, d', RecordsFrom(d.logs, d.manifest.logNumber))
  {
    hide VersionOk, Listed, NumbersOk, Replayable, EntriesOf, LastSequence;
    var v, next, last := d.manifest.version, d.manifest.nextFile, d.manifest.lastSequence;
    var i := 0;
    NothingReplayed(d);
    while i < |d.logs|
      invariant 0 <= i <= |d.logs| && Replayed(d, i, v, next, last)
    {
      if d.logs[i].number >= d.manifest.logNumber {
        v, next, last := ReplayLog(d, i, v, next, last);
      } else {
        ReplayedSoFar(d.logs, i, d.manifest.logNumber);
        OldLogNumber(d, i);
      }
      i := i + 1;
    }
    assert d.logs[..|d.logs|] == d.logs;
    MoreNumbersOk(v, next, next + 1);
    d' := Disk(Manifest(v, d.manifest.floor, next, next + 1, last), d.logs + [LogFile(next, [], 0)]);
  }

  lemma NothingReplayed(d: Disk)
    requires VersionOk(d.manifest.version) && Listed(d.manifest.version)
    requires NumbersOk(d.manifest.version, d.manifest.nextFile)
    ensures Replayed(d, 0, d.manifest.version, d.manifest.nextFile, d.manifest.lastSequence)
  {
    assert d.logs[..0] == [] && EntriesOf([]) == {};
  }

  lemma OldLogNumber(d: Disk, i: nat)
    requires Replayable(d) && i < |d.logs| && d.logs[i].number < d.manifest.logNumber
    ensures d.logs[i].number < d.manifest.nextFile
  {
  }

  /** What any run leaves on disk can be opened. */
  lemma LeftReplayable(w: World)
    requires Recovery.Ok(w)
    ensures Replayable(w.disk) && VersionOk(w.disk.manifest.version) && Listed(w.disk.manifest.version)
    ensures NumbersOk(w.disk.manifest.version, w.disk.manifest.nextFile)
  {
    var v, replayed := w.disk.manifest.version, w.issued[w.durable..];
    SliceIncreasing(w.issued, w.durable, |w.issued|);
    assert w.issued[w.durable..|w.issued|] == replayed;
    forall b | b in replayed
      ensures End(b) <= MAX_SEQUENCE
    {
      assert b in w.issued;
    }
    forall e, b | e in Entries(v) && b in replayed
      ensures e.sn < b.first
    {
      var x :| x in w.issued[..w.durable] && e in BatchEntries(x);
      var m :| 0 <= m < w.durable && w.issued[m] == x;
      var n :| 0 <= n < |replayed| && replayed[n] == b;
      assert InTurn(w.issued, m, w.durable + n);
      SequencesInBatch(x, e);
    }
  }

  lemma ReplayedSoFar(logs: seq<LogFile>, i: nat, min: nat)
    requires i < |logs|
    ensures RecordsFrom(logs[..i + 1], min)
         == if logs[i].number >= min then RecordsFrom(logs[..i], min) + logs[i].records else RecordsFrom(logs[..i], min)
    ensures logs[i].number >= min ==>
              var all, n := RecordsFrom(logs, min), |RecordsFrom(logs[..i], min)|;
              && n + |logs[i].records| <= |all| && all[..n] == RecordsFrom(logs[..i], min)
              && all[n..n + |logs[i].records|] == logs[i].records
  {
    assert logs[..i + 1] == logs[..i] + [logs[i]];
    RecordsFromConcat(logs[..i], [logs[i]], min);
    RecordsFromOne(logs[i], min);
    assert logs == logs[..i + 1] + logs[i + 1..];
    RecordsFromConcat(logs[..i + 1], logs[i + 1..], min);
  }

  lemma PartsOk(bs: seq<Batch>, i: nat, n: nat)
    requires BatchesOk(bs) && i + n <= |bs|
    ensures BatchesOk(bs[i..i + n])
  {
    SliceIncreasing(bs, i, i + n);
  }

  /** What has been replayed is older than what is still to come. */
  lemma OlderThanRest(v: Version, v': Version, bs: seq<Batch>, i: nat, n: nat)
    requires BatchesOk(bs) && i + n <= |bs| && Older(v, bs) && Entries(v') == EntriesOf(bs[..i]) + Entries(v)
    ensures Older(v', bs[i..i + n])
  {
    forall e, b | e in Entries(v') && b in bs[i..i + n]
      ensures e.sn < b.first
    {
      var j :| i <= j < i + n && bs[j] == b;
      if e in EntriesOf(bs[..i]) {
        var x :| x in bs[..i] && e in BatchEntries(x);
        var m :| 0 <= m < i && bs[m] == x;
        assert InTurn(bs, m, j);
        SequencesInBatch(x, e);
      } else {
        assert b in bs;
      }
    }
  }

  lemma {:induction false} LastSequenceConcat(m: nat, xs: seq<Batch>, ys: seq<Batch>)
    ensures LastSequence(m, xs + ys) == LastSequence(LastSequence(m, xs), ys)
    decreases |ys|
  {
    if ys == [] {
      assert xs + ys == xs;
    } else {
      var rest := ys[..|ys| - 1];
      assert (xs + ys)[..|xs + ys| - 1] == xs + rest;
      LastSequenceConcat(m, xs, rest);
    }
  }
}
