/** Write batches as values (db/write_batch.cc): a first sequence number and the updates that follow it. */
module Batches {
  import opened UserKeys
  import opened DbFormat
  import opened Multimap
  import opened InstallEdits

  datatype Update = Update(key: UserKey, op: Op)

  datatype Batch = Batch(first: nat, ops: seq<Update>)

  /** The first sequence number after the batch. */
  function End(b: Batch): nat {
    b.first + |b.ops|
  }

  function EntryAt(b: Batch, i: nat): Entry
    requires i < |b.ops|
  {
    Entry(b.ops[i].key, b.first + i, b.ops[i].op)
  }

  ghost function BatchEntries(b: Batch): set<Entry> {
    set i | 0 <= i < |b.ops| :: EntryAt(b, i)
  }

  ghost function EntriesOf(bs: seq<Batch>): set<Entry> {
    set b, e | b in bs && e in BatchEntries(b) :: e
  }

  predicate InTurn(bs: seq<Batch>, i: int, j: int) {
    0 <= i < j < |bs| ==> End(bs[i]) <= bs[j].first
  }

  /** Later batches start after earlier ones end. */
  predicate Increasing(bs: seq<Batch>) {
    forall i, j :: 0 <= i < |bs| && 0 <= j < |bs| ==> InTurn(bs, i, j)
  }

  lemma SequencesInBatch(b: Batch, e: Entry)
    requires e in BatchEntries(b)
    ensures b.first <= e.sn < End(b)
  {
  }

  lemma EntriesOfConcat(xs: seq<Batch>, ys: seq<Batch>)
    ensures EntriesOf(xs + ys) == EntriesOf(xs) + EntriesOf(ys)
  {
    forall e
      ensures e in EntriesOf(xs + ys) <==> e in EntriesOf(xs) || e in EntriesOf(ys)
    {
      if b :| b in xs + ys && e in BatchEntries(b) {
        assert b in xs || b in ys;
      }
      if b :| b in xs && e in BatchEntries(b) {
        assert b in xs + ys;
      }
      if b :| b in ys && e in BatchEntries(b) {
        assert b in xs + ys;
      }
    }
  }

  lemma EntriesOfOne(b: Batch)
    ensures EntriesOf([b]) == BatchEntries(b)
  {
    assert forall x :: x in [b] ==> x == b;
    assert b in [b];
  }

  lemma SliceIncreasing(bs: seq<Batch>, i: nat, j: nat)
    requires Increasing(bs) && i <= j <= |bs|
    ensures Increasing(bs[i..j])
  {
    forall m, n | 0 <= m < |bs[i..j]| && 0 <= n < |bs[i..j]|
      ensures InTurn(bs[i..j], m, n)
    {
      assert InTurn(bs, i + m, i + n);
    }
  }

  lemma AppendIncreasing(bs: seq<Batch>, b: Batch)
    requires Increasing(bs) && forall x :: x in bs ==> End(x) <= b.first
    ensures Increasing(bs + [b])
  {
    forall i, j | 0 <= i < |bs| + 1 && 0 <= j < |bs| + 1
      ensures InTurn(bs + [b], i, j)
    {
      if i < j < |bs| {
        assert InTurn(bs, i, j);
      }
    }
  }

  /** Entries of a later part of an increasing sequence are newer than entries of an earlier part. */
  lemma LaterIsNewer(bs: seq<Batch>, i: nat)
    requires Increasing(bs) && i <= |bs|
    ensures forall a, b :: a in EntriesOf(bs[i..]) && b in EntriesOf(bs[..i]) ==> a.sn > b.sn
  {
    forall a, b | a in EntriesOf(bs[i..]) && b in EntriesOf(bs[..i])
      ensures a.sn > b.sn
    {
      var x :| x in bs[i..] && a in BatchEntries(x);
      var y :| y in bs[..i] && b in BatchEntries(y);
      var m :| 0 <= m < |bs[i..]| && bs[i..][m] == x;
      var n :| 0 <= n < i && bs[n] == y;
      assert InTurn(bs, n, i + m);
      SequencesInBatch(x, a);
      SequencesInBatch(y, b);
    }
  }

  lemma UniqueBatches(bs: seq<Batch>)
    requires Increasing(bs)
    ensures UniqueSequences(EntriesOf(bs))
  {
    forall a, b | a in EntriesOf(bs) && b in EntriesOf(bs) && a.sn == b.sn
      ensures a == b
    {
      var x :| x in bs && a in BatchEntries(x);
      var y :| y in bs && b in BatchEntries(y);
      var m :| 0 <= m < |bs| && bs[m] == x;
      var n :| 0 <= n < |bs| && bs[n] == y;
      assert InTurn(bs, m, n) && InTurn(bs, n, m);
      SequencesInBatch(x, a);
      SequencesInBatch(y, b);
    }
  }

  // ----- what a batch does to readers -----

  /** Of the updates of the batch that the snapshot sees, number `i` is the last on the key. */
  predicate LastUpdate(b: Batch, k: UserKey, snap: nat, i: nat) {
    && i < |b.ops| && b.ops[i].key == k && b.first + i <= snap
    && forall j :: i < j < |b.ops| && b.first + j <= snap ==> b.ops[j].key != k
  }

  lemma EntryInBatch(b: Batch, e: Entry) returns (i: nat)
    requires e in BatchEntries(b)
    ensures i < |b.ops| && e == EntryAt(b, i)
  {
    i :| 0 <= i < |b.ops| && e == EntryAt(b, i);
  }

  /** The last update of a key in a new batch is what its readers get. */
  lemma BatchIsRead(bs: seq<Batch>, b: Batch, k: UserKey, snap: nat, i: nat)
    requires Increasing(bs + [b]) && LastUpdate(b, k, snap, i)
    ensures Read(EntriesOf(bs + [b]), k, snap)
         == if b.ops[i].op.Put? then Found(b.ops[i].op.value) else NotFound
  {
    EntriesOfConcat(bs, [b]);
    EntriesOfOne(b);
    UniqueBatches(bs + [b]);
    NewBatchIsNewer(bs, b);
    var e := EntryAt(b, i);
    assert e in BatchEntries(b);
    forall f | Visible(EntriesOf(bs + [b]), k, snap, f)
      ensures f.sn <= e.sn
    {
      if f in BatchEntries(b) {
        var j := EntryInBatch(b, f);
      }
    }
    assert Newest(EntriesOf(bs + [b]), k, snap, e);
    ReadNewest(EntriesOf(bs + [b]), k, snap, e);
  }

  lemma NewBatchIsNewer(bs: seq<Batch>, b: Batch)
    requires Increasing(bs + [b])
    ensures NewerThan(BatchEntries(b), EntriesOf(bs))
  {
    LaterIsNewer(bs + [b], |bs|);
    assert (bs + [b])[|bs|..] == [b] && (bs + [b])[..|bs|] == bs;
    EntriesOfOne(b);
  }

  /** A key none of whose updates the snapshot sees reads as before. */
  lemma BatchLeavesRead(bs: seq<Batch>, b: Batch, k: UserKey, snap: nat)
    requires Increasing(bs + [b])
    requires forall i :: 0 <= i < |b.ops| && b.first + i <= snap ==> b.ops[i].key != k
    ensures Read(EntriesOf(bs + [b]), k, snap) == Read(EntriesOf(bs), k, snap)
  {
    EntriesOfConcat(bs, [b]);
    EntriesOfOne(b);
    forall e
      ensures Visible(EntriesOf(bs + [b]), k, snap, e) <==> Visible(EntriesOf(bs), k, snap, e)
    {
      if e in BatchEntries(b) {
        var i := EntryInBatch(b, e);
      }
    }
    UniqueBatches(bs + [b]);
    SameNewest(EntriesOf(bs + [b]), EntriesOf(bs), k, snap);
  }

  ghost predicate Below(es: seq<Entry>, sn: nat) {
    forall e :: e in es ==> e.sn < sn
  }

  /** WriteBatchInternal::InsertInto: each update becomes an entry with the next sequence number. */
  method InsertInto(b: Batch, mem: seq<Entry>) returns (mem': seq<Entry>)
    requires Sorted(mem) && Below(mem, b.first)
    ensures Sorted(mem') && Below(mem', End(b))
    ensures forall e :: e in mem' <==> e in mem || e in BatchEntries(b)
  {
    mem' := mem;
    var sequence := b.first;
    var i := 0;
    while i < |b.ops|
      invariant 0 <= i <= |b.ops| && sequence == b.first + i
      invariant Sorted(mem') && Below(mem', sequence)
      invariant forall e :: e in mem' <==> e in mem || e in BatchEntries(Batch(b.first, b.ops[..i]))
    {
      var e := Entry(b.ops[i].key, sequence, b.ops[i].op);
      GrowBatch(b, i);
      InsertKeepsSorted(mem', e);
      mem' := Insert(mem', e);
      sequence := sequence + 1;
      i := i + 1;
    }
    assert b.ops[..|b.ops|] == b.ops;
  }

  lemma GrowBatch(b: Batch, i: nat)
    requires i < |b.ops|
    ensures BatchEntries(Batch(b.first, b.ops[..i + 1]))
         == BatchEntries(Batch(b.first, b.ops[..i])) + {Entry(b.ops[i].key, b.first + i, b.ops[i].op)}
  {
    var small, large := Batch(b.first, b.ops[..i]), Batch(b.first, b.ops[..i + 1]);
    forall e
      ensures e in BatchEntries(large) <==> e in BatchEntries(small) || e == EntryAt(b, i)
    {
      if e in BatchEntries(large) {
        var j :| 0 <= j <= i && e == EntryAt(large, j);
        assert j == i || e == EntryAt(small, j);
      }
      if e in BatchEntries(small) {
        var j :| 0 <= j < i && e == EntryAt(small, j);
        assert e == EntryAt(large, j);
      }
      if e == EntryAt(b, i) {
        assert e == EntryAt(large, i);
      }
    }
  }
}
