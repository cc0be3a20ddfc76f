/**
 SetupOtherInputs closes its own level under boundary files but not the next one (db/version_set.cc:1403-1412).
 This is the smallest run in which that matters. A snapshot keeps a value and its deletion apart long enough for one
 compaction to end an output file between them; once the snapshot is released, the next compaction takes the file
 with the deletion, not the one with the value, and drops the deletion.
 */
module SplitKey {
  import opened Options
  import opened DbFormat
  import opened Multimap
  import opened Versions
  import opened Inputs
  import opened Compaction
  import opened CompactionReads
  import opened VersionSteps
  import opened InstallEdits
  import opened Database

  const B1 := Entry(2.0, 1, Put("gone"))
  const B2 := Entry(2.0, 2, Delete)
  const A3 := Entry(1.0, 3, Put("old"))
  const A4 := Entry(1.0, 4, Put("new"))

  function Whole(): File {
    assert InOrder([A3, B2, B1], 0, 1) && InOrder([A3, B2, B1], 0, 2) && InOrder([A3, B2, B1], 1, 2);
    TableFile(2, 1, [A3, B2, B1])
  }

  function Split1(): File {
    assert InOrder([A3, B2], 0, 1);
    TableFile(3, 1, [A3, B2])
  }

  function Split2(): File {
    TableFile(4, 1, [B1])
  }

  function Upper(): File {
    TableFile(5, 1, [A4])
  }

  function Output(): File {
    TableFile(6, 1, [A4])
  }

  /** Tables go to the level PickLevelForMemTableOutput finds for them, level 2. */
  function Levels(level2: Level, level3: Level): Version {
    [[], [], level2, level3, [], [], []]
  }

  function VersionBefore(): Version {
    Levels([Upper()], [Split1(), Split2()])
  }

  function VersionAfter(): Version {
    Levels([], [Output(), Split2()])
  }

  function SplitInputs(): CompactionInputs {
    CompactionInputs(2, [Whole()], [], Smallest(Whole()), Largest(Whole()))
  }

  function LastInputs(): CompactionInputs {
    CompactionInputs(2, [Upper()], [Split1()], Smallest(Upper()), Largest(Upper()))
  }

  // ----- the run -----

  ghost function Run(): seq<DbState> {
    var s0 := DbState([], None, Levels([], []), 2, 0, [], {}, 0);
    var s1 := s0.(mem := [B1], lastSequence := 1, history := {B1});
    var s2 := s1.(snapshots := [1]);
    var s3 := s2.(mem := [B2, B1], lastSequence := 2, history := {B1, B2});
    var s4 := s3.(mem := [A3, B2, B1], lastSequence := 3, history := {B1, B2, A3});
    var s5 := s4.(imm := Some([A3, B2, B1]), mem := []);
    var s6 := s5.(imm := None, current := Levels([Whole()], []), nextFile := 3);
    var s7 := s6.(current := Levels([], [Split1(), Split2()]), nextFile := 5, floor := 1);
    var s8 := s7.(snapshots := []);
    var s9 := s8.(mem := [A4], lastSequence := 4, history := {B1, B2, A3, A4});
    var s10 := s9.(imm := Some([A4]), mem := []);
    var s11 := s10.(imm := None, current := VersionBefore(), nextFile := 6);
    [s0, s1, s2, s3, s4, s5, s6, s7, s8, s9, s10, s11]
  }

  lemma RunWrites()
    ensures var r := Run(); Next(r[0], r[1]) && Next(r[1], r[2]) && Next(r[2], r[3])
  {
    var r := Run();
    assert [B1][1..] == [] && [] + [1] == [1];
    assert Insert([], B1) == [B1] && Insert([B1], B2) == [B2, B1];
    assert {} + {B1} == {B1} && {B1} + {B2} == {B1, B2};
    assert WriteStep(r[0], r[1], 2.0, B1.op);
    assert SnapshotStep(r[1], r[2]);
    assert WriteStep(r[2], r[3], 2.0, Delete);
  }

  lemma RunSwitches()
    ensures var r := Run(); Next(r[3], r[4]) && Next(r[4], r[5])
  {
    var r := Run();
    assert Insert([B2, B1], A3) == [A3, B2, B1];
    assert {B1, B2} + {A3} == {B1, B2, A3};
    assert WriteStep(r[3], r[4], 1.0, A3.op);
    assert SwitchStep(r[4], r[5]);
  }

  lemma RunFlushes()
    ensures var r := Run(); Next(r[5], r[6])
  {
    var r := Run();
    assert TableAdded(r[5].current, 2, Whole(), r[6].current);
    assert ClearDownTo(r[5].current, 2, Whole());
    assert FlushStep(r[5], r[6], 2, Whole(), r[6].current);
  }

  lemma SplitKeepsAll(v: Version)
    ensures Kept(v, 2, [A3, B2, B1], 3, 1) == [A3, B2, B1]
  {
    var input := [A3, B2, B1];
    assert !Dropped(v, 2, input, 0, 1) && !Dropped(v, 2, input, 1, 1) && !Dropped(v, 2, input, 2, 1);
    assert Kept(v, 2, input, 0, 1) == [];
    assert Kept(v, 2, input, 1, 1) == [A3];
    assert Kept(v, 2, input, 2, 1) == [A3, B2];
  }

  lemma SplitMerges()
    ensures IsMergeOf([A3, B2, B1], SplitInputs())
  {
    var input, c := [A3, B2, B1], SplitInputs();
    assert Sorted(Whole().entries);
    forall e
      ensures e in input <==> e in LevelEntries(c.inputs0) || e in LevelEntries(c.inputs1)
    {
      assert Whole() in c.inputs0 && Whole().entries == input;
    }
  }

  lemma SplitInstalls()
    ensures Installed(Levels([Whole()], []), SplitInputs(), [Split1(), Split2()], Levels([], [Split1(), Split2()]))
  {
    var v, c, outputs := Levels([Whole()], []), SplitInputs(), [Split1(), Split2()];
    var v' := Levels([], outputs);
    forall m, f | 0 <= m < |v|
      ensures f in v'[m] <==> InstalledAt(v, c, outputs, m, f)
    {
      assert c.inputs0 == [Whole()];
    }
    assert BySmallest(v'[3][0], v'[3][1]);
  }

  lemma SplitInputsOk()
    ensures InputsOk(Levels([Whole()], []), SplitInputs())
  {
    assert Whole() in SplitInputs().inputs0;
  }

  lemma SplitCompacts()
    requires VersionOk(Levels([Whole()], []))
    ensures Compacts(Levels([Whole()], []), SplitInputs(), [A3, B2, B1], 1, [Split1(), Split2()],
                     Levels([], [Split1(), Split2()]))
  {
    hide VersionOk, InputsOk, Installed, IsMergeOf, Kept, Levels;
    SplitInputsOk();
    SplitMerges();
    SplitKeepsAll(Levels([Whole()], []));
    SplitInstalls();
    ConcatAppend([], Split1());
    ConcatAppend([Split1()], Split2());
    assert [] + [Split1()] == [Split1()] && [Split1()] + [Split2()] == [Split1(), Split2()];
    assert [] + [A3, B2] == [A3, B2] && [A3, B2] + [B1] == [A3, B2, B1];
  }

  /** The snapshot keeps every entry, and the output is cut inside the second user key. */
  lemma RunSplits()
    requires VersionOk(Run()[6].current)
    ensures var r := Run(); Next(r[6], r[7])
  {
    hide VersionOk, Compacts, Entries;
    SplitCompacts();
    var r := Run();
    var v, c, input, outputs := r[6].current, SplitInputs(), [A3, B2, B1], [Split1(), Split2()];
    assert LeftInNextLevel(v, c) == {};
    assert CompactStep(r[6], r[7], c, input, outputs, r[7].current);
  }

  lemma RunOverwrites()
    ensures var r := Run(); Next(r[7], r[8]) && Next(r[8], r[9]) && Next(r[9], r[10])
  {
    var r := Run();
    assert [1][..0] + [1][1..] == [];
    assert Insert([], A4) == [A4];
    assert {B1, B2, A3} + {A4} == {B1, B2, A3, A4};
    assert ReleaseStep(r[7], r[8], 0);
    assert WriteStep(r[8], r[9], 1.0, A4.op);
    assert SwitchStep(r[9], r[10]);
  }

  lemma RunFlushesAgain()
    ensures var r := Run(); Next(r[10], r[11])
  {
    var r := Run();
    assert TableAdded(r[10].current, 2, Upper(), r[11].current);
    assert ClearDownTo(r[10].current, 2, Upper());
    assert FlushStep(r[10], r[11], 2, Upper(), r[11].current);
  }

  lemma RunStartsEmpty()
    ensures Empty(Run()[0])
  {
  }

  lemma RunIsRun()
    ensures IsRun(Run()) && Empty(Run()[0]) && VersionOk(VersionBefore())
  {
    hide Next, VersionOk, Levels, Empty, Database.Ok;
    var r := Run();
    RunStartsEmpty();
    RunWrites();
    RunSwitches();
    RunFlushes();
    FirstFlushOk(r[..7]);
    RunSplits();
    RunOverwrites();
    RunFlushesAgain();
    LastFlushOk(r);
  }

  lemma FirstFlushOk(run: seq<DbState>)
    requires IsRun(run) && Empty(run[0]) && |run| == 7
    ensures VersionOk(run[6].current)
  {
    RunKeepsOk(run, 6);
  }

  lemma LastFlushOk(run: seq<DbState>)
    requires IsRun(run) && Empty(run[0]) && |run| == 12
    ensures VersionOk(run[11].current) && Database.Ok(run[11])
  {
    RunKeepsOk(run, 11);
  }

  // ----- the last compaction -----

  /** The set-up compaction is exactly what the source picks for the one file of level 2. */
  lemma LastInputsOk()
    ensures InputsOk(VersionBefore(), LastInputs())
  {
    var v, c := VersionBefore(), LastInputs();
    assert v[2] == [Upper()] == c.inputs0;
    assert Upper() in c.inputs0;
    NextLevelSelection();
  }

  lemma NextLevelSelection()
    ensures Select([Split1(), Split2()], At(1.0), At(1.0)) == [Split1()]
  {
    var fs := [Split1(), Split2()];
    assert Overlaps(Split1(), At(1.0), At(1.0)) && !Overlaps(Split2(), At(1.0), At(1.0));
    assert fs[..1] == [Split1()] && fs[..1][..0] == [];
    assert Select(fs[..1], At(1.0), At(1.0)) == [Split1()];
  }

  lemma MergedInput()
    ensures IsMergeOf([A4, A3, B2], LastInputs())
  {
    var input, c := [A4, A3, B2], LastInputs();
    assert forall i, j :: InOrder(input, i, j);
    forall e
      ensures e in input <==> e in LevelEntries(c.inputs0) || e in LevelEntries(c.inputs1)
    {
      assert Upper() in c.inputs0 && Split1() in c.inputs1;
      assert Upper().entries == [A4] && Split1().entries == [A3, B2];
      assert A4 in Upper().entries && A3 in Split1().entries && B2 in Split1().entries;
    }
  }

  /** The merge keeps only the newest entry: the older one is hidden, the tombstone counts as obsolete. */
  lemma KeptOnlyNewest()
    ensures Kept(VersionBefore(), 2, [A4, A3, B2], 3, 4) == [A4]
  {
    var v, input := VersionBefore(), [A4, A3, B2];
    assert BaseLevel(v, 2, 2.0);
    assert !Dropped(v, 2, input, 0, 4) && Dropped(v, 2, input, 1, 4) && Dropped(v, 2, input, 2, 4);
    assert Kept(v, 2, input, 1, 4) == [A4];
    assert Kept(v, 2, input, 2, 4) == [A4];
  }

  lemma LastInstalls()
    ensures Installed(VersionBefore(), LastInputs(), [Output()], VersionAfter())
  {
    var v, c, v' := VersionBefore(), LastInputs(), VersionAfter();
    forall m, f | 0 <= m < |v|
      ensures f in v'[m] <==> InstalledAt(v, c, [Output()], m, f)
    {
      assert c.inputs0 == [Upper()] && c.inputs1 == [Split1()];
    }
    assert BySmallest(v'[3][0], v'[3][1]);
  }

  lemma LastCompacts()
    requires VersionOk(VersionBefore())
    ensures Compacts(VersionBefore(), LastInputs(), [A4, A3, B2], 4, [Output()], VersionAfter())
  {
    hide VersionOk;
    LastInputsOk();
    MergedInput();
    KeptOnlyNewest();
    LastInstalls();
    ConcatAppend([], Output());
    assert [] + [Output()] == [Output()] && [] + [A4] == [A4];
  }

  lemma TombstoneUncovers()
    requires VersionOk(VersionBefore()) && InputsOk(VersionBefore(), LastInputs())
    ensures Resurrects(VersionBefore(), LastInputs(), [A4, A3, B2], 4, B2, B1)
  {
    NewestOfKey2();
    var v, c := VersionBefore(), LastInputs();
    assert B1 in Split2().entries && Split2() in v[3] && Split2() !in c.inputs1;
    forall e | Visible(LeftInNextLevel(v, c), 2.0, 2, e)
      ensures e.sn <= 1
    {
      var f := LeftIsHeld(v, c, e);
      assert f == Split2();
    }
  }

  lemma NewestOfKey2()
    ensures Newest(Entries(VersionBefore()), 2.0, 4, B2)
    ensures BaseLevel(VersionBefore(), 2, 2.0)
  {
    var v := VersionBefore();
    assert Holds(v, 3, Split1(), B2);
    HeldIsEntry(v, 3, Split1(), B2);
    forall e | Visible(Entries(v), 2.0, 4, e)
      ensures e.sn <= 2
    {
      var m, f := EntryIsHeld(v, e);
    }
  }

  lemma LastReads()
    requires VersionOk(VersionBefore())
    requires Compacts(VersionBefore(), LastInputs(), [A4, A3, B2], 4, [Output()], VersionAfter())
    ensures Read(Entries(VersionBefore()), 2.0, 4) == NotFound
    ensures Read(Entries(VersionAfter()), 2.0, 4) == Found("gone")
  {
    TombstoneUncovers();
    hide VersionOk, Compacts, Resurrects;
    ResurrectionShows(VersionBefore(), LastInputs(), [A4, A3, B2], 4, [Output()], VersionAfter(), B2, B1);
  }

  lemma SplitInside()
    ensures !BoundaryClosed(VersionBefore()[3], LastInputs().inputs1)
  {
    assert IsLargestKey(LastInputs().inputs1, Largest(Split1())) by {
      assert Split1() in LastInputs().inputs1;
    }
    assert Split2() in VersionBefore()[3] && Boundary(Split2(), Largest(Split1()));
  }

  lemma NothingInMemory(s: DbState)
    requires s.mem == [] && s.imm == None
    ensures AllEntries(s) == Entries(s.current)
  {
  }

  /**
   The store can come to a state from which a compaction as the source picks and runs it brings a deleted value back:
   the deletion of key 2 is in force before it and in the history of writes, and not afterwards. The guard of
   ClosedNextLevelIsSafe fails here: file 4 starts inside the user key at which file 3 ends.
   */
  lemma DeletedValueComesBack()
    ensures IsRun(Run()) && Empty(Run()[0])
    ensures var s := Run()[11];
      && s.current == VersionBefore() && s.nextFile == Output().number
      && Compacts(s.current, LastInputs(), [A4, A3, B2], SmallestSnapshot(s), [Output()], VersionAfter())
      && !BoundaryClosed(s.current[3], LastInputs().inputs1)
      && Read(s.history, 2.0, s.lastSequence) == Read(Entries(s.current), 2.0, s.lastSequence) == NotFound
      && Read(Entries(VersionAfter()), 2.0, s.lastSequence) == Found("gone")
  {
    RunIsRun();
    LastCompacts();
    LastReads();
    SplitInside();
    hide VersionOk, Compacts, IsRun, Empty, BoundaryClosed, Levels;
    RunsReadLikeHistory(Run(), 11, 2.0, 4);
    NothingInMemory(Run()[11]);
  }
}
