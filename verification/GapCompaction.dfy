/**
 A run in which a flush in the middle of a manual compaction loses a write. CompactRange takes every file of a level
 that overlaps the range (db/version_set.cc:1489-1523), so there may be room between its inputs; a table flushed
 meanwhile may go there (db/version_set.cc:491-516), and the output then covers it (db/db_impl.cc:907-918).
 */
module GapCompaction {
  import opened Options
  import opened DbFormat
  import opened Multimap
  import opened Versions
  import opened Inputs
  import opened Compaction
  import opened CompactionReads
  import opened VersionSteps
  import opened InstallEdits
  import opened Database
  import opened FlushMeanwhile

  const A1 := Entry(1.0, 1, Put("a"))
  const Z2 := Entry(3.0, 2, Put("z"))
  const A3 := Entry(1.0, 3, Put("aa"))
  const Z4 := Entry(3.0, 4, Put("zz"))
  const M5 := Entry(2.0, 5, Put("kept"))

  function Table(number: nat, e: Entry): File
    requires e.sn <= MAX_SEQUENCE
  {
    TableFile(number, 1, [e])
  }

  function Output(): File {
    assert InOrder([A3, Z4], 0, 1);
    TableFile(7, 1, [A3, Z4])
  }

  function Levels(level1: Level, level2: Level): Version {
    [[], level1, level2, [], [], [], []]
  }

  function Upper(): Level {
    [Table(4, A3), Table(5, Z4)]
  }

  function Lower(): Level {
    [Table(2, A1), Table(3, Z2)]
  }

  /** The newest table goes to level 2: no file of levels 0 to 2 holds its key. */
  function Between(): Level {
    [Table(2, A1), Table(6, M5), Table(3, Z2)]
  }

  function VersionAfter(): Version {
    Levels([], [Output(), Table(6, M5)])
  }

  /** CompactRange over all keys of level 1. */
  function ManualInputs(): CompactionInputs {
    CompactionInputs(1, Upper(), Lower(), KeyOf(A3), KeyOf(Z4))
  }

  function Manual(): Job {
    Job(Levels(Upper(), Lower()), ManualInputs(), [A3, A1, Z4, Z2], 4, [Output()])
  }

  // ----- the run -----

  /** A write, a switch and a flush of the one entry. */
  function Flushing(s: DbState, e: Entry, v': Version): (r: seq<DbState>)
    ensures |r| == 3
  {
    var s1 := s.(mem := [e], lastSequence := e.sn, history := s.history + {e});
    var s2 := s1.(imm := Some([e]), mem := []);
    [s1, s2, s2.(imm := None, current := v', nextFile := s.nextFile + 1)]
  }

  lemma FlushingIsRun(s: DbState, e: Entry, level: nat, v': Version)
    requires s.mem == [] && s.imm == None && e.sn == s.lastSequence + 1 < MAX_SEQUENCE && level <= MAX_MEM_COMPACT_LEVEL
    requires TableAdded(s.current, level, Table(s.nextFile, e), v') &&
             ClearDownTo(s.current, level, Table(s.nextFile, e))
    ensures var r := Flushing(s, e, v'); Meanwhile(s, r[0]) && Meanwhile(r[0], r[1]) && Meanwhile(r[1], r[2])
  {
    hide TableAdded, ClearDownTo;
    var r := Flushing(s, e, v');
    assert Insert([], e) == [e];
    assert WriteStep(s, r[0], e.key, e.op);
    assert SwitchStep(r[0], r[1]);
    assert FlushStep(r[1], r[2], level, Table(s.nextFile, e), v');
  }

  function With(states: seq<DbState>, job: Option<Job>): (r: seq<BusyStore>)
    requires |states| == 3
    ensures |r| == 3
  {
    [BusyStore(states[0], job), BusyStore(states[1], job), BusyStore(states[2], job)]
  }

  /** The run goes on from its last state. */
  lemma RunGoesOn(run: seq<BusyStore>, e: Entry, level: nat, v': Version)
    requires run != [] && FlushMeanwhile.IsRun(run)
    requires var s := run[|run| - 1].db;
      && s.mem == [] && s.imm == None && e.sn == s.lastSequence + 1 < MAX_SEQUENCE && level <= MAX_MEM_COMPACT_LEVEL
      && TableAdded(s.current, level, Table(s.nextFile, e), v') && ClearDownTo(s.current, level, Table(s.nextFile, e))
    ensures var b := run[|run| - 1]; FlushMeanwhile.IsRun(run + With(Flushing(b.db, e, v'), b.job))
  {
    hide TableAdded, ClearDownTo, Meanwhile, Flushing;
    var b := run[|run| - 1];
    var more := With(Flushing(b.db, e, v'), b.job);
    FlushingIsRun(b.db, e, level, v');
    var longer := run + more;
    forall i | 0 <= i < |longer| - 1
      ensures FlushMeanwhile.Next(longer[i], longer[i + 1])
    {
      if i < |run| - 1 {
        assert FlushMeanwhile.Next(run[i], run[i + 1]);
      } else if i == |run| - 1 {
        assert Meanwhile(b.db, more[0].db);
      } else {
        assert Meanwhile(more[i - |run|].db, more[i - |run| + 1].db);
      }
    }
  }

  lemma Added(v: Version, level: nat, f: File, v': Version)
    requires |v'| == |v| == NUM_LEVELS && level < |v|
    requires forall m :: 0 <= m < |v| && m != level ==> v'[m] == v[m]
    requires forall g :: g in v'[level] <==> g in v[level] || g == f
    requires SortedBySmallest(v'[level])
    requires forall m, g :: 0 <= m <= level && g in v[m] ==>
               Largest(g).user < Smallest(f).user || Largest(f).user < Smallest(g).user
    ensures TableAdded(v, level, f, v') && ClearDownTo(v, level, f)
  {
  }

  /** The store between two flushes. */
  ghost function Quiet(v: Version, next: nat, history: set<Entry>): DbState
    requires next >= 2
  {
    DbState([], None, v, next, next - 2, [], history, 0)
  }

  ghost function Start(): BusyStore {
    BusyStore(Quiet(Levels([], []), 2, {}), None)
  }

  ghost function OnRun(run: seq<BusyStore>, e: Entry, v': Version): seq<BusyStore>
    requires run != []
  {
    var b := run[|run| - 1];
    run + With(Flushing(b.db, e, v'), b.job)
  }

  ghost function FourFlushes(): seq<BusyStore> {
    OnRun(OnRun(OnRun(OnRun([Start()], A1, Levels([], [Table(2, A1)])), Z2, Levels([], Lower())),
                A3, Levels([Table(4, A3)], Lower())), Z4, Levels(Upper(), Lower()))
  }

  ghost function Run(): seq<BusyStore> {
    OnRun(FourFlushes() + [BusyStore(Quiet(Levels(Upper(), Lower()), 6, {A1, Z2, A3, Z4}), Some(Manual()))],
          M5, Levels(Upper(), Between()))
  }

  /** One more flush of a quiet store. */
  lemma FlushOn(run: seq<BusyStore>, v: Version, next: nat, history: set<Entry>, job: Option<Job>, e: Entry, level: nat,
                v': Version)
    requires run != [] && FlushMeanwhile.IsRun(run) && next >= 2 &&
             run[|run| - 1] == BusyStore(Quiet(v, next, history), job)
    requires e.sn == next - 1 < MAX_SEQUENCE && level <= MAX_MEM_COMPACT_LEVEL
    requires TableAdded(v, level, Table(next, e), v') && ClearDownTo(v, level, Table(next, e))
    ensures var r := OnRun(run, e, v');
      FlushMeanwhile.IsRun(r) && r[|r| - 1] == BusyStore(Quiet(v', next + 1, history + {e}), job) && r[0] == run[0]
  {
    hide TableAdded, ClearDownTo, FlushMeanwhile.IsRun;
    RunGoesOn(run, e, level, v');
  }

  lemma FirstTables()
    ensures var none, one, two := Levels([], []), Levels([], [Table(2, A1)]), Levels([], Lower());
      && TableAdded(none, 2, Table(2, A1), one) && ClearDownTo(none, 2, Table(2, A1))
      && TableAdded(one, 2, Table(3, Z2), two) && ClearDownTo(one, 2, Table(3, Z2))
  {
    Added(Levels([], []), 2, Table(2, A1), Levels([], [Table(2, A1)]));
    Added(Levels([], [Table(2, A1)]), 2, Table(3, Z2), Levels([], Lower()));
  }

  lemma UpperTables()
    ensures var two, three, four := Levels([], Lower()), Levels([Table(4, A3)], Lower()), Levels(Upper(), Lower());
      && TableAdded(two, 1, Table(4, A3), three) && ClearDownTo(two, 1, Table(4, A3))
      && TableAdded(three, 1, Table(5, Z4), four) && ClearDownTo(three, 1, Table(5, Z4))
  {
    Added(Levels([], Lower()), 1, Table(4, A3), Levels([Table(4, A3)], Lower()));
    Added(Levels([Table(4, A3)], Lower()), 1, Table(5, Z4), Levels(Upper(), Lower()));
  }

  lemma TableBetween()
    ensures var four, five := Levels(Upper(), Lower()), Levels(Upper(), Between());
      && TableAdded(four, 2, Table(6, M5), five) && ClearDownTo(four, 2, Table(6, M5))
  {
    Added(Levels(Upper(), Lower()), 2, Table(6, M5), Levels(Upper(), Between()));
  }

  lemma FourFlushesIsRun()
    ensures var r := FourFlushes();
      && FlushMeanwhile.IsRun(r) && r[0] == Start()
      && r[|r| - 1] == BusyStore(Quiet(Levels(Upper(), Lower()), 6, {A1, Z2, A3, Z4}), None)
  {
    hide TableAdded, ClearDownTo, Levels, Quiet, OnRun, FlushMeanwhile.Next;
    FirstTables();
    UpperTables();
    var r0 := [Start()];
    var v1, v2, v3, v4 := Levels([], [Table(2, A1)]), Levels([], Lower()), Levels([Table(4, A3)], Lower()),
                          Levels(Upper(), Lower());
    assert r0[|r0| - 1] == BusyStore(Quiet(Levels([], []), 2, {}), None);
    FlushOn(r0, Levels([], []), 2, {}, None, A1, 2, v1);
    var r1 := OnRun(r0, A1, v1);
    assert {} + {A1} == {A1};
    FlushOn(r1, v1, 3, {A1}, None, Z2, 2, v2);
    var r2 := OnRun(r1, Z2, v2);
    assert {A1} + {Z2} == {A1, Z2};
    FlushOn(r2, v2, 4, {A1, Z2}, None, A3, 1, v3);
    var r3 := OnRun(r2, A3, v3);
    assert {A1, Z2} + {A3} == {A1, Z2, A3};
    FlushOn(r3, v3, 5, {A1, Z2, A3}, None, Z4, 1, v4);
    assert {A1, Z2, A3} + {Z4} == {A1, Z2, A3, Z4};
  }

  // ----- the manual compaction -----

  lemma ManualSelection()
    ensures Select(Lower(), At(1.0), At(3.0)) == Lower()
  {
    var fs := Lower();
    assert fs[..1] == [Table(2, A1)] && fs[..1][..0] == [];
    assert Overlaps(Table(2, A1), At(1.0), At(3.0)) && Overlaps(Table(3, Z2), At(1.0), At(3.0));
    assert Select(fs[..1], At(1.0), At(3.0)) == [Table(2, A1)];
  }

  lemma ManualRange()
    ensures IsSmallestKey(Upper(), KeyOf(A3)) && IsLargestKey(Upper(), KeyOf(Z4))
  {
    assert Table(4, A3) in Upper() && Table(5, Z4) in Upper();
    assert forall f :: f in Upper() ==> f == Table(4, A3) || f == Table(5, Z4);
  }

  lemma ManualInputsOk()
    ensures InputsOk(Levels(Upper(), Lower()), ManualInputs())
  {
    hide Upper, Lower, Select, IsSmallestKey, IsLargestKey, Table;
    ManualSelection();
    ManualRange();
    UpperNotEmpty();
  }

  lemma UpperNotEmpty()
    ensures Upper() != []
  {
  }

  lemma ManualMerge()
    ensures IsMergeOf([A3, A1, Z4, Z2], ManualInputs())
  {
    var input, c := [A3, A1, Z4, Z2], ManualInputs();
    assert forall i, j :: InOrder(input, i, j);
    forall e
      ensures e in input <==> e in LevelEntries(c.inputs0) || e in LevelEntries(c.inputs1)
    {
      assert Table(4, A3) in c.inputs0 && Table(5, Z4) in c.inputs0;
      assert Table(2, A1) in c.inputs1 && Table(3, Z2) in c.inputs1;
      assert A3 in Table(4, A3).entries && Z4 in Table(5, Z4).entries;
      assert A1 in Table(2, A1).entries && Z2 in Table(3, Z2).entries;
    }
  }

  lemma ManualKeeps(v: Version)
    ensures Kept(v, 1, [A3, A1, Z4, Z2], 4, 4) == [A3, Z4]
  {
    var input := [A3, A1, Z4, Z2];
    assert !Dropped(v, 1, input, 0, 4) && Dropped(v, 1, input, 1, 4);
    assert !Dropped(v, 1, input, 2, 4) && Dropped(v, 1, input, 3, 4);
    assert Kept(v, 1, input, 1, 4) == [A3];
    assert Kept(v, 1, input, 2, 4) == [A3];
    assert Kept(v, 1, input, 3, 4) == [A3, Z4];
  }

  lemma ManualMerges()
    requires VersionOk(Levels(Upper(), Lower()))
    ensures Merged(Manual())
  {
    hide VersionOk, InputsOk, IsMergeOf, Kept;
    ManualInputsOk();
    ManualMerge();
    ManualKeeps(Levels(Upper(), Lower()));
    ConcatAppend([], Output());
    assert [] + [Output()] == [Output()] && [] + [A3, Z4] == [A3, Z4];
  }

  lemma RunIsRun()
    ensures FlushMeanwhile.IsRun(Run()) && Run()[0] == Start()
    ensures Run()[|Run()| - 1]
         == BusyStore(Quiet(Levels(Upper(), Between()), 7, {A1, Z2, A3, Z4} + {M5}), Some(Manual()))
  {
    hide TableAdded, ClearDownTo, Levels, OnRun, FlushMeanwhile.Next, Merged, VersionOk, FourFlushes, Upper, Lower;
    FourFlushesIsRun();
    var r := FourFlushes();
    var b := r[|r| - 1];
    var b' := BusyStore(b.db, Some(Manual()));
    BeginManual(r);
    var begun := r + [b'];
    forall i | 0 <= i < |begun| - 1
      ensures FlushMeanwhile.Next(begun[i], begun[i + 1])
    {
      assert i < |r| - 1 ==> FlushMeanwhile.Next(r[i], r[i + 1]);
    }
    TableBetween();
    FlushOn(begun, Levels(Upper(), Lower()), 6, {A1, Z2, A3, Z4}, Some(Manual()), M5, 2, Levels(Upper(), Between()));
  }

  lemma BeginManual(r: seq<BusyStore>)
    requires r != [] && FlushMeanwhile.IsRun(r) && r[0] == Start()
    requires r[|r| - 1] == BusyStore(Quiet(Levels(Upper(), Lower()), 6, {A1, Z2, A3, Z4}), None)
    ensures var b := r[|r| - 1]; FlushMeanwhile.Next(b, BusyStore(b.db, Some(Manual())))
  {
    StartEmpty();
    hide FlushMeanwhile.IsRun, VersionOk, Levels, Upper, Lower, Merged, Empty;
    var b := r[|r| - 1];
    RunsReadLikeHistoryOk(r);
    ManualMerges();
    var j := Manual();
    assert forall d :: d in j.input ==> d.op.Put?;
    assert BeginStep(b, BusyStore(b.db, Some(j)), j);
  }

  lemma StartEmpty()
    ensures Start().job.None? && Empty(Start().db)
  {
  }

  lemma RunsReadLikeHistoryOk(r: seq<BusyStore>)
    requires r != [] && FlushMeanwhile.IsRun(r) && r[0].job.None? && Empty(r[0].db)
    ensures VersionOk(r[|r| - 1].db.current)
  {
    hide FlushMeanwhile.IsRun, VersionOk, Empty;
    FlushMeanwhile.RunsReadLikeHistory(r, |r| - 1, 0.0, r[|r| - 1].db.lastSequence);
  }

  // ----- the write that is lost -----

  lemma ManualInstalls()
    ensures Installed(Levels(Upper(), Between()), ManualInputs(), [Output()], VersionAfter())
  {
    var w, c, w' := Levels(Upper(), Between()), ManualInputs(), VersionAfter();
    forall m, f | 0 <= m < |w|
      ensures f in w'[m] <==> InstalledAt(w, c, [Output()], m, f)
    {
      assert f in c.inputs0 <==> f == Table(4, A3) || f == Table(5, Z4);
      assert f in c.inputs1 <==> f == Table(2, A1) || f == Table(3, Z2);
    }
    assert BySmallest(w'[2][0], w'[2][1]);
  }

  lemma OutputIsFresh()
    ensures FreshOutputs(Levels(Upper(), Between()), [Output()])
  {
  }

  lemma TableClashes()
    ensures Clash(Manual(), Levels(Upper(), Between()), Table(6, M5), Output())
  {
    assert Table(6, M5) !in Lower();
  }

  lemma AfterIsBroken()
    ensures !VersionOk(VersionAfter())
  {
    hide FlushMeanwhile.IsRun, VersionOk, Empty, Merged, Grown, FreshOutputs, Levels, NothingResurrects;
    hide Database.Ok;
    RunIsRun();
    StartEmpty();
    var r := Run();
    var n: nat := |r| - 1;
    FlushMeanwhile.RunKeepsOk(r, n);
    FlushMeanwhile.RunsReadLikeHistory(r, n, 0.0, r[n].db.lastSequence);
    assert JobOk(r[n].db, Manual());
    ManualInstalls();
    OutputIsFresh();
    TableClashes();
    InstalledOkIffNoClash(Manual(), Levels(Upper(), Between()), VersionAfter());
  }

  lemma TableIsMissed()
    ensures Halving(VersionAfter()[2], LookupKey(2.0, 5), 0, 2) == 0
    ensures VersionAfter()[2][0] == Output() && forall e :: e in Output().entries ==> e.key != 2.0
  {
    var files, key := VersionAfter()[2], LookupKey(2.0, 5);
    assert Compare(Largest(files[1]), key) >= 0 && Compare(Largest(files[0]), key) >= 0;
    assert Halving(files, key, 0, 0) == 0;
    assert Halving(files, key, 0, 1) == 0;
  }

  lemma StillStored()
    ensures Newest(Entries(VersionAfter()), 2.0, 5, M5) && Newest({A1, Z2, A3, Z4} + {M5}, 2.0, 5, M5)
  {
    var v := VersionAfter();
    assert Holds(v, 2, Table(6, M5), M5);
    HeldIsEntry(v, 2, Table(6, M5), M5);
    forall e | Visible(Entries(v), 2.0, 5, e)
      ensures e == M5
    {
      var m, f := EntryIsHeld(v, e);
    }
  }

  /**
   Key 2, written during a manual compaction, is in the version that the compaction leads to, but the search of its
   level ends at the output, which does not hold it, and no other level holds anything: Get does not find the key.
   */
  lemma ManualCompactionLosesWrite()
    ensures FlushMeanwhile.IsRun(Run()) && Run()[0].job.None? && Empty(Run()[0].db)
    ensures var b, j := Run()[|Run()| - 1], Manual();
      && b.job == Some(j) && b.db.mem == [] && b.db.imm == None
      && Newest(b.db.history, 2.0, b.db.lastSequence, M5)
      && FreshOutputs(b.db.current, j.outputs) && Installed(b.db.current, j.c, j.outputs, VersionAfter())
    ensures !VersionOk(VersionAfter()) && Newest(Entries(VersionAfter()), 2.0, 5, M5)
    ensures Halving(VersionAfter()[2], LookupKey(2.0, 5), 0, 2) == 0
    ensures VersionAfter()[2][0] == Output() && forall e :: e in Output().entries ==> e.key != 2.0
    ensures forall l :: 0 <= l < NUM_LEVELS && l != 2 ==> VersionAfter()[l] == []
  {
    hide FlushMeanwhile.IsRun, VersionOk, Empty, Merged, FreshOutputs, Installed;
    RunIsRun();
    StartEmpty();
    ManualInstalls();
    OutputIsFresh();
    AfterIsBroken();
    TableIsMissed();
    StillStored();
  }
}
