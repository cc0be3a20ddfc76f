/**
 From compactions, moves and flushes to version edits and back: the edit each of them logs makes the builder
 produce the version its specification asks for (db/db_impl.cc:515-526, 718-725, 860-876).
 */
module InstallEdits {
  import opened DbFormat
  import opened Multimap
  import opened Versions
  import opened Inputs
  import opened Compaction
  import opened CompactionReads
  import opened VersionSteps
  import opened VersionBuilder

  ghost predicate Listed(v: Version) {
    forall l :: 0 <= l < |v| ==> SortedBySmallest(v[l])
  }

  function Numbers(level: nat, fs: Level): set<(nat, nat)> {
    set f | f in fs :: (level, f.number)
  }

  function AtLevel(level: nat, fs: Level): seq<(nat, File)> {
    seq(|fs|, i requires 0 <= i < |fs| => (level, fs[i]))
  }

  lemma {:induction false} AddedAtLevel(level: nat, fs: Level, l: nat)
    ensures AddedAmong(AtLevel(level, fs), l) == if l == level then fs else []
  {
    var added := AtLevel(level, fs);
    if fs != [] {
      var n := |fs| - 1;
      AddedAtLevel(level, fs[..n], l);
      assert added[..n] == AtLevel(level, fs[..n]);
      assert fs == fs[..n] + [fs[n]];
    }
  }

  /** AddInputDeletions followed by one AddFile per output. */
  function CompactionEdit(c: CompactionInputs, outputs: Level): Edit {
    Edit(Numbers(c.level, c.inputs0) + Numbers(c.level + 1, c.inputs1), AtLevel(c.level + 1, outputs))
  }

  /** Deleting by number removes exactly the input files. */
  lemma DeletedExactly(v: Version, c: CompactionInputs, outputs: Level, m: nat, f: File)
    requires VersionOk(v) && InputsOk(v, c) && m < |v| && f in v[m]
    ensures f.number in DeletedAt(CompactionEdit(c, outputs), m) <==> Taken(c, m, f)
  {
    var e := CompactionEdit(c, outputs);
    if Taken(c, m, f) {
      assert (m, f.number) in e.deleted;
    }
    if f.number in DeletedAt(e, m) {
      assert (m, f.number) in e.deleted;
      if (m, f.number) in Numbers(c.level, c.inputs0) {
        var g :| g in c.inputs0 && (c.level, g.number) == (m, f.number);
        SameNumberSameFile(v[m], f, g);
      } else {
        var g :| g in c.inputs1 && (c.level + 1, g.number) == (m, f.number);
        SameNumberSameFile(v[m], f, g);
      }
    }
  }

  lemma EditInstallsFile(v: Version, c: CompactionInputs, outputs: Level, v': Version, m: nat, f: File)
    requires VersionOk(v) && InputsOk(v, c) && m < |v| && |v'| == NUM_LEVELS
    requires FilesOf(v'[m]) == EditLevel(FilesOf(v[m]), CompactionEdit(c, outputs), m)
    ensures f in v'[m] <==> InstalledAt(v, c, outputs, m, f)
  {
    hide VersionOk, CompactionEdit, LeavesOnlyNewer, IsSmallestKey, IsLargestKey, Select;
    AddedAtLevel(c.level + 1, outputs, m);
    EditAdds(c, outputs, m);
    assert f in v'[m] <==> f in FilesOf(v'[m]);
    if f in v[m] {
      DeletedExactly(v, c, outputs, m, f);
    }
    assert f in FilesOf(v[m]) <==> f in v[m];
  }

  lemma EditAdds(c: CompactionInputs, outputs: Level, m: nat)
    ensures AddedAt(CompactionEdit(c, outputs), m) == AddedAmong(AtLevel(c.level + 1, outputs), m)
  {
  }

  lemma EditInstalls(v: Version, c: CompactionInputs, outputs: Level, v': Version)
    requires VersionOk(v) && InputsOk(v, c) && Listed(v)
    requires |v'| == NUM_LEVELS && Listed(v')
    requires forall l :: 0 <= l < NUM_LEVELS ==>
             FilesOf(v'[l]) == EditLevel(FilesOf(v[l]), CompactionEdit(c, outputs), l)
    ensures Installed(v, c, outputs, v')
  {
    hide CompactionEdit, EditLevel, LeavesOnlyNewer, IsSmallestKey, IsLargestKey, Select;
    forall m, f | 0 <= m < |v|
      ensures f in v'[m] <==> InstalledAt(v, c, outputs, m, f)
    {
      EditInstallsFile(v, c, outputs, v', m, f);
    }
    forall m | 0 <= m < |v| && m != c.level && m != c.level + 1
      ensures v'[m] == v[m]
    {
      forall f
        ensures f in FilesOf(v'[m]) <==> f in FilesOf(v[m])
      {
        assert f in v'[m] <==> InstalledAt(v, c, outputs, m, f);
      }
      SortedListIsUnique(v'[m], v[m]);
    }
  }

  lemma NewFilesAreFresh(v: Version, level: nat, fs: Level, l: nat)
    requires l < |v| && level < |v|
    requires forall f, g :: f in fs && g in v[level] ==> f.number != g.number
    requires forall i, j :: 0 <= i < j < |fs| ==> fs[i].number != fs[j].number
    ensures FreshNumbers(v[l], LevelState({}, []), AddedAmong(AtLevel(level, fs), l))
  {
    AddedAtLevel(level, fs, l);
  }

  method InstallEdit(v: Version, c: CompactionInputs, outputs: Level) returns (v': Version)
    requires VersionOk(v) && Listed(v) && InputsOk(v, c)
    requires forall f, g :: f in outputs && g in v[c.level + 1] ==> f.number != g.number
    requires forall i, j :: 0 <= i < j < |outputs| ==> outputs[i].number != outputs[j].number
    ensures Installed(v, c, outputs, v')
  {
    var e := CompactionEdit(c, outputs);
    forall l | 0 <= l < NUM_LEVELS
      ensures FreshNumbers(v[l], LevelState({}, []), AddedAt(e, l))
    {
      NewFilesAreFresh(v, c.level + 1, outputs, l);
    }
    v' := LogAndApply(v, e);
    EditInstalls(v, c, outputs, v');
  }

  /** InstallCompactionResults. */
  method InstallCompaction(v: Version, c: CompactionInputs, outputs: Level, ghost next: nat) returns (v': Version)
    requires VersionOk(v) && Listed(v) && InputsOk(v, c)
    requires NumbersOk(v, next) && NumberedFrom(outputs, next)
    ensures Installed(v, c, outputs, v')
  {
    forall f, g | f in outputs && g in v[c.level + 1]
      ensures f.number != g.number
    {
      var i := NumberOfOutput(outputs, next, f);
    }
    v' := InstallEdit(v, c, outputs);
  }

  /** The edit of a trivial move: delete the file at its level, add it one level deeper. */
  method InstallMove(v: Version, c: CompactionInputs, ghost next: nat) returns (v': Version)
    requires VersionOk(v) && Listed(v) && InputsOk(v, c) && TrivialMove(c) && NumbersOk(v, next)
    ensures Installed(v, c, c.inputs0, v')
  {
    assert c.inputs0[0] in c.inputs0;
    forall f, g | f in c.inputs0 && g in v[c.level + 1]
      ensures f.number != g.number
    {
      assert DifferentNumbers(v, c.level, f, c.level + 1, g);
    }
    v' := InstallEdit(v, c, c.inputs0);
  }

  /** The edit of a flush: one added table. */
  method InstallTable(v: Version, level: nat, f: File, ghost next: nat) returns (v': Version)
    requires VersionOk(v) && Listed(v) && NumbersOk(v, next) && f.number == next && level < NUM_LEVELS
    ensures TableAdded(v, level, f, v')
  {
    var e := Edit({}, AtLevel(level, [f]));
    forall l | 0 <= l < NUM_LEVELS
      ensures FreshNumbers(v[l], LevelState({}, []), AddedAt(e, l))
    {
      NewFilesAreFresh(v, level, [f], l);
    }
    v' := LogAndApply(v, e);
    forall m | 0 <= m < |v|
      ensures m != level ==> v'[m] == v[m]
      ensures forall g :: g in v'[m] <==> g in v[m] || (m == level && g == f)
    {
      OneTableInstalled(v[m], v'[m], level, f, m);
    }
  }

  lemma OneTableInstalled(fs: Level, fs': Level, level: nat, f: File, m: nat)
    requires SortedBySmallest(fs) && SortedBySmallest(fs')
    requires FilesOf(fs') == EditLevel(FilesOf(fs), Edit({}, AtLevel(level, [f])), m)
    ensures m != level ==> fs' == fs
    ensures forall g :: g in fs' <==> g in fs || (m == level && g == f)
  {
    AddedAtLevel(level, [f], m);
    forall g
      ensures g in fs' <==> g in fs || (m == level && g == f)
    {
      assert g in fs' <==> g in FilesOf(fs');
      assert g in fs <==> g in FilesOf(fs);
    }
    if m != level {
      assert FilesOf(fs') == FilesOf(fs);
      SortedListIsUnique(fs', fs);
    }
  }

  // ----- the merged input -----

  /** Insertion into a sorted run. */
  function Insert(es: seq<Entry>, e: Entry): (r: seq<Entry>)
    ensures forall x :: x in r <==> x == e || x in es
  {
    if es == [] || Before(e, es[0]) then [e] + es else [es[0]] + Insert(es[1..], e)
  }

  lemma {:induction false} InsertKeepsSorted(es: seq<Entry>, e: Entry)
    requires Sorted(es) && forall x :: x in es ==> Before(x, e) || Before(e, x)
    ensures Sorted(Insert(es, e))
  {
    var r := Insert(es, e);
    if es != [] && !Before(e, es[0]) {
      var tail := es[1..];
      assert Sorted(tail) by {
        forall i, j ensures InOrder(tail, i, j) {
          assert InOrder(es, i + 1, j + 1);
        }
      }
      InsertKeepsSorted(tail, e);
      var t := Insert(tail, e);
      forall i, j
        ensures InOrder(r, i, j)
      {
        if 0 < i < j < |r| {
          assert InOrder(t, i - 1, j - 1);
        } else if 0 == i < j < |r| {
          assert r[j] == t[j - 1] && t[j - 1] in t;
          if r[j] != e {
            var k :| 0 <= k < |tail| && tail[k] == r[j];
            assert InOrder(es, 0, k + 1);
          }
        }
      }
    } else {
      forall i, j
        ensures InOrder(r, i, j)
      {
        assert InOrder(es, i - 1, j - 1) && InOrder(es, 0, j - 1);
      }
    }
  }

  method MergeFiles(files: Level, into: seq<Entry>, ghost all: set<Entry>) returns (run: seq<Entry>)
    requires UniqueSequences(all)
    requires Sorted(into) && (forall e :: e in into ==> e in all)
    requires forall e :: e in LevelEntries(files) ==> e in all
    ensures Sorted(run) && (forall e :: e in run ==> e in all)
    ensures forall e :: e in run <==> e in into || e in LevelEntries(files)
  {
    run := into;
    for i := 0 to |files|
      invariant Sorted(run) && (forall e :: e in run ==> e in all)
      invariant forall e :: e in run <==> e in into || e in LevelEntries(files[..i])
    {
      var f := files[i];
      assert files[..i + 1] == files[..i] + [f];
      for j := 0 to |f.entries|
        invariant Sorted(run) && (forall e :: e in run ==> e in all)
        invariant forall e :: e in run <==> e in into || e in LevelEntries(files[..i]) || e in f.entries[..j]
      {
        var e := f.entries[j];
        assert f.entries[..j + 1] == f.entries[..j] + [e];
        assert f in files && e in f.entries && e in LevelEntries(files);
        if e !in run {
          forall x | x in run
            ensures Before(x, e) || Before(e, x)
          {
            assert x in all && e in all;
          }
          InsertKeepsSorted(run, e);
          run := Insert(run, e);
        }
      }
      assert f.entries[..|f.entries|] == f.entries;
    }
    assert files[..|files|] == files;
  }

  /**
   The input of the merge loop. It stands for MakeInputIterator, whose merging and concatenating iterators are
   treated on their own; here only the sorted run they yield matters.
   */
  method MergeInputs(v: Version, c: CompactionInputs) returns (input: seq<Entry>)
    requires VersionOk(v) && InputsOk(v, c)
    ensures IsMergeOf(input, c) && SequencesFit(input)
  {
    UniqueInVersion(v, 0);
    InputEntries(v, c.level, c.inputs0);
    InputEntries(v, c.level + 1, c.inputs1);
    input := MergeFiles(c.inputs0, [], Entries(v));
    input := MergeFiles(c.inputs1, input, Entries(v));
    forall e | e in input
      ensures e.sn <= MAX_SEQUENCE
    {
      assert e in Entries(v);
      ghost var m, f := EntryIsHeld(v, e);
      assert FileOk(f);
    }
  }

  lemma InputEntries(v: Version, level: nat, files: Level)
    requires level < |v| && forall f :: f in files ==> f in v[level]
    ensures forall e :: e in LevelEntries(files) ==> e in Entries(v)
  {
    forall e | e in LevelEntries(files)
      ensures e in Entries(v)
    {
      var i := FileHolding(files, e);
      HeldIsEntry(v, level, files[i], e);
    }
  }
}
