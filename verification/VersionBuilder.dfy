/**
 VersionSet::Builder: applying edits to a base version without building the versions in between
 (db/version_set.cc:596-757, and its use in LogAndApply and Recover).
 */
module VersionBuilder {
  import opened Versions
  import opened CompactionReads

  /** The parts of a VersionEdit the builder reads: files deleted by level and number, files added by level. */
  datatype Edit = Edit(deleted: set<(nat, nat)>, added: seq<(nat, File)>)

  function DeletedAt(e: Edit, l: nat): set<nat> {
    set d | d in e.deleted && d.0 == l :: d.1
  }

  function AddedAt(e: Edit, l: nat): seq<File> {
    AddedAmong(e.added, l)
  }

  function AddedAmong(added: seq<(nat, File)>, l: nat): (r: seq<File>)
    ensures forall f :: f in r <==> (l, f) in added
  {
    if added == [] then []
    else
      var n := |added| - 1;
      assert added == added[..n] + [added[n]];
      AddedAmong(added[..n], l) + (if added[n].0 == l then [added[n].1] else [])
  }

  /** What one edit means for the set of files of a level. */
  ghost function EditLevel(files: set<File>, e: Edit, l: nat): set<File> {
    (set f | f in files && f.number !in DeletedAt(e, l)) + (set f | f in AddedAt(e, l))
  }

  ghost function FilesOf(fs: Level): set<File> {
    set f | f in fs
  }

  /** levels_[level] of the builder. `added` is the ordered set of added files. */
  datatype LevelState = LevelState(deleted: set<nat>, added: Level)

  ghost function Saved(base: Level, st: LevelState): set<File> {
    set f | f in base + st.added && f.number !in st.deleted
  }

  /** Insertion into the ordered set: an equivalent element keeps its place. */
  function InsertFile(fs: Level, f: File): (r: Level)
    ensures forall g :: g in r ==> g == f || g in fs
    ensures forall g :: g in fs ==> g in r
    ensures f in r || exists g :: g in fs && g.number == f.number
  {
    if fs == [] || BySmallest(f, fs[0]) then [f] + fs
    else if BySmallest(fs[0], f) then
      var r := InsertFile(fs[1..], f);
      [fs[0]] + r
    else fs
  }

  lemma {:induction false} InsertKeepsOrder(fs: Level, f: File)
    requires SortedBySmallest(fs)
    ensures SortedBySmallest(InsertFile(fs, f))
  {
    if fs != [] && !BySmallest(f, fs[0]) && BySmallest(fs[0], f) {
      var tail := fs[1..];
      InsertKeepsOrder(tail, f);
      var r := InsertFile(tail, f);
      forall j | 0 <= j < |r|
        ensures BySmallest(fs[0], r[j])
      {
        assert r[j] in r;
        if r[j] != f {
          var k :| 0 <= k < |tail| && tail[k] == r[j];
          assert BySmallest(fs[0], fs[k + 1]);
        }
      }
    } else if fs != [] && BySmallest(f, fs[0]) {
      forall j | 0 <= j < |fs|
        ensures BySmallest(f, fs[j])
      {
        assert j == 0 || BySmallest(fs[0], fs[j]);
      }
    }
  }

  /** Applying one file addition, then a list of them. */
  function AddFile(st: LevelState, f: File): LevelState {
    LevelState(st.deleted - {f.number}, InsertFile(st.added, f))
  }

  function AddFiles(st: LevelState, fs: seq<File>): LevelState {
    if fs == [] then st else AddFile(AddFiles(st, fs[..|fs| - 1]), fs[|fs| - 1])
  }

  function ApplyToLevel(st: LevelState, e: Edit, l: nat): LevelState {
    AddFiles(LevelState(st.deleted + DeletedAt(e, l), st.added), AddedAt(e, l))
  }

  /** The numbers of added files are new to the level, and distinct. */
  ghost predicate FreshNumbers(base: Level, st: LevelState, fs: seq<File>) {
    && (forall f, g :: f in fs && (g in base || g in st.added) ==> f.number != g.number)
    && (forall i, j :: 0 <= i < j < |fs| ==> fs[i].number != fs[j].number)
  }

  /** `r` has the files `fs` added to `st` and their numbers no longer deleted. */
  ghost predicate HasAdded(st: LevelState, fs: seq<File>, r: LevelState) {
    && (forall f :: f in r.added <==> f in st.added || f in fs)
    && (forall n :: n in r.deleted <==> n in st.deleted && NumberNotIn(fs, n))
  }

  ghost predicate NumberNotIn(fs: seq<File>, n: nat) {
    forall f :: f in fs ==> f.number != n
  }

  lemma AddFileEffect(st: LevelState, fs: seq<File>, r: LevelState, f: File)
    requires HasAdded(st, fs, r)
    requires forall g :: g in st.added || g in fs ==> g.number != f.number
    ensures HasAdded(st, fs + [f], AddFile(r, f))
  {
    forall n
      ensures NumberNotIn(fs + [f], n) <==> NumberNotIn(fs, n) && n != f.number
    {
      assert f in fs + [f];
      assert forall g :: g in fs ==> g in fs + [f];
    }
  }

  lemma {:induction false} AddFilesEffect(base: Level, st: LevelState, fs: seq<File>)
    requires FreshNumbers(base, st, fs)
    ensures HasAdded(st, fs, AddFiles(st, fs))
  {
    if fs != [] {
      var n := |fs| - 1;
      var init := fs[..n];
      assert fs == init + [fs[n]];
      AddFilesEffect(base, st, init);
      AddFileEffect(st, init, AddFiles(st, init), fs[n]);
    }
  }

  /** Applying an edit to the builder has the effect of the edit on what the builder would save. */
  lemma ApplyIsEdit(base: Level, st: LevelState, e: Edit, l: nat)
    requires FreshNumbers(base, st, AddedAt(e, l))
    ensures Saved(base, ApplyToLevel(st, e, l)) == EditLevel(Saved(base, st), e, l)
  {
    var st0 := LevelState(st.deleted + DeletedAt(e, l), st.added);
    AddFilesEffect(base, st0, AddedAt(e, l));
  }

  // ----- a whole manifest -----

  ghost function ApplyAll(st: LevelState, es: seq<Edit>, l: nat): LevelState {
    if es == [] then st else ApplyToLevel(ApplyAll(st, es[..|es| - 1], l), es[|es| - 1], l)
  }

  /** Saving after every edit. */
  ghost function ReplayOneByOne(files: set<File>, es: seq<Edit>, l: nat): set<File> {
    if es == [] then files else EditLevel(ReplayOneByOne(files, es[..|es| - 1], l), es[|es| - 1], l)
  }

  ghost predicate AllFresh(base: Level, st: LevelState, es: seq<Edit>, l: nat) {
    forall i :: 0 <= i < |es| ==> FreshNumbers(base, ApplyAll(st, es[..i], l), AddedAt(es[i], l))
  }

  /** Recovery's single builder over all manifest records saves what saving after each record would. */
  lemma {:induction false} OneBuilderReplaysAll(base: Level, st: LevelState, es: seq<Edit>, l: nat)
    requires AllFresh(base, st, es, l)
    ensures Saved(base, ApplyAll(st, es, l)) == ReplayOneByOne(Saved(base, st), es, l)
  {
    if es != [] {
      var n := |es| - 1;
      var init := es[..n];
      assert AllFresh(base, st, init, l) by {
        forall i | 0 <= i < |init|
          ensures FreshNumbers(base, ApplyAll(st, init[..i], l), AddedAt(init[i], l))
        {
          assert init[..i] == es[..i] && init[i] == es[i];
        }
      }
      OneBuilderReplaysAll(base, st, init, l);
      ApplyIsEdit(base, ApplyAll(st, init, l), es[n], l);
    }
  }

  // ----- numbers used twice -----

  /** The ordered set takes these two for the same element. */
  predicate Twin(f: File, g: File) {
    !BySmallest(f, g) && !BySmallest(g, f)
  }

  ghost predicate NoTwin(fs: Level, f: File) {
    forall g :: g in fs ==> !Twin(f, g)
  }

  lemma {:induction false} InsertHolds(fs: Level, f: File, g: File)
    requires SortedBySmallest(fs)
    ensures g in InsertFile(fs, f) <==> g in fs || (g == f && NoTwin(fs, f))
  {
    if fs != [] && BySmallest(f, fs[0]) {
      forall j | 0 <= j < |fs|
        ensures !Twin(f, fs[j])
      {
        assert j == 0 || BySmallest(fs[0], fs[j]);
      }
    } else if fs != [] && BySmallest(fs[0], f) {
      var tail := fs[1..];
      InsertHolds(tail, f, g);
      assert InsertFile(fs, f) == [fs[0]] + InsertFile(tail, f);
      assert fs == [fs[0]] + tail;
      assert NoTwin(fs, f) <==> NoTwin(tail, f) by {
        assert forall h :: h in fs <==> h == fs[0] || h in tail;
      }
    } else if fs != [] {
      assert fs[0] in fs && Twin(f, fs[0]);
    }
  }

  /** File `f` gets into the set: it was there, or no twin was there when it was added. */
  ghost predicate Enters(added: Level, fs: seq<File>, f: File) {
    f in added || exists i :: 0 <= i < |fs| && fs[i] == f && NoTwin(added + fs[..i], f)
  }

  lemma AddFilesKeepOrder(st: LevelState, fs: seq<File>)
    requires SortedBySmallest(st.added)
    ensures SortedBySmallest(AddFiles(st, fs).added)
  {
    if fs != [] {
      AddFilesKeepOrder(st, fs[..|fs| - 1]);
      InsertKeepsOrder(AddFiles(st, fs[..|fs| - 1]).added, fs[|fs| - 1]);
    }
  }

  /** A set with a twin of every file that was to be added. */
  lemma {:induction false} SomeTwinIsIn(st: LevelState, fs: seq<File>, f: File)
    requires SortedBySmallest(st.added) && f in st.added + fs
    ensures exists g :: g in AddFiles(st, fs).added && Twin(f, g)
  {
    if fs == [] {
      assert f in st.added && Twin(f, f);
    } else {
      var n := |fs| - 1;
      var before := AddFiles(st, fs[..n]).added;
      AddFilesKeepOrder(st, fs[..n]);
      InsertHolds(before, fs[n], fs[n]);
      assert AddFiles(st, fs).added == InsertFile(before, fs[n]);
      if f in st.added + fs[..n] {
        SomeTwinIsIn(st, fs[..n], f);
        var g :| g in before && Twin(f, g);
        assert g in InsertFile(before, fs[n]);
      } else {
        assert fs == fs[..n] + [fs[n]];
        if f !in InsertFile(before, f) {
          var g :| g in before && Twin(f, g);
        }
      }
    }
  }

  lemma {:induction false} OnlyThoseAreIn(st: LevelState, fs: seq<File>, f: File)
    requires f in AddFiles(st, fs).added
    ensures f in st.added + fs
  {
    if fs != [] && f != fs[|fs| - 1] {
      OnlyThoseAreIn(st, fs[..|fs| - 1], f);
    }
  }

  lemma TwinsAmong(st: LevelState, fs: seq<File>, f: File)
    requires SortedBySmallest(st.added)
    ensures NoTwin(AddFiles(st, fs).added, f) <==> NoTwin(st.added + fs, f)
  {
    var r := AddFiles(st, fs).added;
    if NoTwin(r, f) {
      forall g | g in st.added + fs
        ensures !Twin(f, g)
      {
        SomeTwinIsIn(st, fs, g);
      }
    }
    if NoTwin(st.added + fs, f) {
      forall g | g in r
        ensures !Twin(f, g)
      {
        OnlyThoseAreIn(st, fs, g);
      }
    }
  }

  lemma {:induction false} AddedThatEnter(st: LevelState, fs: seq<File>, f: File)
    requires SortedBySmallest(st.added)
    ensures f in AddFiles(st, fs).added <==> Enters(st.added, fs, f)
  {
    if fs != [] {
      var n := |fs| - 1;
      var init := fs[..n];
      AddedThatEnter(st, init, f);
      AddFilesKeepOrder(st, init);
      InsertHolds(AddFiles(st, init).added, fs[n], f);
      TwinsAmong(st, init, fs[n]);
      EntersOneMore(st.added, fs, f);
    }
  }

  lemma EntersOneMore(added: Level, fs: seq<File>, f: File)
    requires fs != []
    ensures var n := |fs| - 1;
            Enters(added, fs, f) <==> Enters(added, fs[..n], f) || (f == fs[n] && NoTwin(added + fs[..n], f))
  {
    var n := |fs| - 1;
    forall i | 0 <= i < n
      ensures fs[..n][i] == fs[i] && fs[..n][..i] == fs[..i]
    {
    }
    if Enters(added, fs[..n], f) && f !in added {
      var i :| 0 <= i < n && fs[..n][i] == f && NoTwin(added + fs[..n][..i], f);
      assert fs[i] == f && NoTwin(added + fs[..i], f);
    }
    if Enters(added, fs, f) && f !in added {
      var i :| 0 <= i < |fs| && fs[i] == f && NoTwin(added + fs[..i], f);
      if i < n {
        assert fs[..n][i] == f && NoTwin(added + fs[..n][..i], f);
      }
    }
  }

  lemma {:induction false} DeletedAfter(st: LevelState, fs: seq<File>, n: nat)
    ensures n in AddFiles(st, fs).deleted <==> n in st.deleted && NumberNotIn(fs, n)
  {
    if fs != [] {
      var k := |fs| - 1;
      DeletedAfter(st, fs[..k], n);
      assert fs == fs[..k] + [fs[k]];
    }
  }

  /** A file that is gone, or goes with the edit, has a number that the edit gives to another file. */
  ghost predicate ComesBack(base: Level, st: LevelState, e: Edit, l: nat, f: File) {
    && f in base + st.added && (f.number in st.deleted || f.number in DeletedAt(e, l))
    && !NumberNotIn(AddedAt(e, l), f.number) && f !in AddedAt(e, l)
  }

  /** A file of the edit is taken for one that is there already. */
  ghost predicate GetsLost(base: Level, st: LevelState, e: Edit, l: nat, f: File) {
    f in AddedAt(e, l) && f !in base && !Enters(st.added, AddedAt(e, l), f)
  }

  lemma SavedFile(base: Level, st: LevelState, e: Edit, l: nat, f: File)
    requires SortedBySmallest(st.added)
    ensures (f in Saved(base, ApplyToLevel(st, e, l)) <==> f in EditLevel(Saved(base, st), e, l))
        <==> !ComesBack(base, st, e, l, f) && !GetsLost(base, st, e, l, f)
  {
    var fs := AddedAt(e, l);
    var st0 := LevelState(st.deleted + DeletedAt(e, l), st.added);
    AddedThatEnter(st0, fs, f);
    DeletedAfter(st0, fs, f.number);
    if f in fs {
      assert !NumberNotIn(fs, f.number);
    }
  }

  /**
   Applying an edit has its effect exactly when the edit gives no number of a deleted file to another file, and adds no
   two files the ordered set cannot tell apart. The store gives every table a new number, which makes sure of both.
   */
  lemma ApplyIsEditIff(base: Level, st: LevelState, e: Edit, l: nat)
    requires SortedBySmallest(st.added)
    ensures Saved(base, ApplyToLevel(st, e, l)) == EditLevel(Saved(base, st), e, l)
       <==> forall f :: !ComesBack(base, st, e, l, f) && !GetsLost(base, st, e, l, f)
  {
    forall f
      ensures (f in Saved(base, ApplyToLevel(st, e, l)) <==> f in EditLevel(Saved(base, st), e, l))
          <==> !ComesBack(base, st, e, l, f) && !GetsLost(base, st, e, l, f)
    {
      SavedFile(base, st, e, l, f);
    }
  }

  /** An instance: the deleted file of a number used again comes back with the new one. */
  lemma ReusedNumberResurfaces(f: File, g: File)
    requires f.number == g.number && f != g
    ensures var e := Edit({(1, f.number)}, [(1, g)]);
            Saved([f], ApplyToLevel(LevelState({}, []), e, 1)) == {f, g}
    ensures EditLevel(Saved([f], LevelState({}, [])), Edit({(1, f.number)}, [(1, g)]), 1) == {g}
  {
    var e := Edit({(1, f.number)}, [(1, g)]);
    var st := LevelState({} + DeletedAt(e, 1), []);
    assert |e.added| == 1 && e.added[0] == (1, g) && e.added[..0] == [];
    assert AddedAmong(e.added[..0], 1) == [];
    assert AddedAt(e, 1) == [] + [g] == [g];
    assert [g][..0] == [] && AddFiles(st, [g]) == AddFile(st, g);
    assert (1, f.number) in e.deleted && f.number in DeletedAt(e, 1);
  }

  // ----- the builder object -----

  class Builder {
    const base: Version
    var levels: seq<LevelState>

    ghost predicate Valid()
      reads this
    {
      && |base| == NUM_LEVELS == |levels|
      && (forall l :: 0 <= l < NUM_LEVELS ==> SortedBySmallest(base[l]) && SortedBySmallest(levels[l].added))
    }

    constructor (v: Version)
      requires |v| == NUM_LEVELS && forall l :: 0 <= l < NUM_LEVELS ==> SortedBySmallest(v[l])
      ensures Valid() && base == v
      ensures forall l :: 0 <= l < NUM_LEVELS ==> levels[l] == LevelState({}, [])
    {
      base := v;
      levels := seq(NUM_LEVELS, i => LevelState({}, []));
    }

    /** Apply: record deletions, then insert additions, un-deleting their numbers. */
    method Apply(e: Edit)
      requires Valid()
      requires forall d :: d in e.deleted ==> d.0 < NUM_LEVELS
      requires forall i :: 0 <= i < |e.added| ==> e.added[i].0 < NUM_LEVELS
      modifies this`levels
      ensures Valid()
      ensures forall l :: 0 <= l < NUM_LEVELS ==> levels[l] == ApplyToLevel(old(levels)[l], e, l)
    {
      ghost var levels0 := levels;
      levels := seq(NUM_LEVELS, (l: nat) requires l < |levels| reads this =>
        LevelState(levels[l].deleted + DeletedAt(e, l), levels[l].added));
      ghost var start := levels;
      for i := 0 to |e.added|
        invariant Valid()
        invariant forall l :: 0 <= l < NUM_LEVELS ==> levels[l] == AddFiles(start[l], AddedAmong(e.added[..i], l))
      {
        var (level, f) := e.added[i];
        assert e.added[..i + 1][..i] == e.added[..i];
        forall l | 0 <= l < NUM_LEVELS
          ensures AddFiles(start[l], AddedAmong(e.added[..i + 1], l))
               == if l == level then AddFile(levels[l], f) else levels[l]
        {
          AddOneMore(start[l], AddedAmong(e.added[..i], l), f);
        }
        InsertKeepsOrder(levels[level].added, f);
        levels := levels[level := AddFile(levels[level], f)];
      }
      assert e.added[..|e.added|] == e.added;
    }

    /** SaveTo: merge base and added files of every level in order, leaving out the deleted numbers. */
    method SaveTo() returns (v: Version)
      requires Valid()
      requires forall l, f, g :: 0 <= l < NUM_LEVELS && f in base[l] && g in levels[l].added ==> f.number != g.number
      ensures |v| == NUM_LEVELS
      ensures forall l :: 0 <= l < NUM_LEVELS ==> FilesOf(v[l]) == Saved(base[l], levels[l])
      ensures forall l :: 0 <= l < NUM_LEVELS ==> SortedBySmallest(v[l])
    {
      v := [];
      for l := 0 to NUM_LEVELS
        invariant |v| == l
        invariant forall m :: 0 <= m < l ==> FilesOf(v[m]) == Saved(base[m], levels[m])
        invariant forall m :: 0 <= m < l ==> SortedBySmallest(v[m])
      {
        var files := SaveLevel(base[l], levels[l]);
        v := v + [files];
      }
    }
  }

  lemma AddOneMore(st: LevelState, fs: seq<File>, f: File)
    ensures AddFiles(st, fs + [f]) == AddFile(AddFiles(st, fs), f)
    ensures AddFiles(st, fs + []) == AddFiles(st, fs)
  {
    assert (fs + [f])[..|fs|] == fs;
    assert fs + [] == fs;
  }

  /** First index from `from` on whose file comes after `f`: std::upper_bound. */
  method UpperBound(files: Level, from: nat, f: File) returns (i: nat)
    requires SortedBySmallest(files) && from <= |files|
    ensures from <= i <= |files|
    ensures forall j :: from <= j < i ==> !BySmallest(f, files[j])
    ensures i < |files| ==> BySmallest(f, files[i])
  {
    i := from;
    while i < |files| && !BySmallest(f, files[i])
      invariant from <= i <= |files|
      invariant forall j :: from <= j < i ==> !BySmallest(f, files[j])
    {
      i := i + 1;
    }
  }

  /** The merge read so far: the first `b` base files and the first `a` added ones, less the deleted. */
  ghost predicate MergedSoFar(base: Level, st: LevelState, b: nat, a: nat, out: Level)
    requires b <= |base| && a <= |st.added|
  {
    && (forall f :: f in out <==> (f in base[..b] || f in st.added[..a]) && f.number !in st.deleted)
    && SortedBySmallest(out)
    && (forall f, j :: f in out && b <= j < |base| ==> BySmallest(f, base[j]))
    && (forall f, j :: f in out && a <= j < |st.added| ==> BySmallest(f, st.added[j]))
  }

  method SaveLevel(base: Level, st: LevelState) returns (out: Level)
    requires SortedBySmallest(base) && SortedBySmallest(st.added)
    requires forall f, g :: f in base && g in st.added ==> f.number != g.number
    ensures FilesOf(out) == Saved(base, st)
    ensures SortedBySmallest(out)
  {
    out := [];
    var b := 0;
    for a := 0 to |st.added|
      invariant b <= |base| && MergedSoFar(base, st, b, a, out)
    {
      var f := st.added[a];
      var bpos := UpperBound(base, b, f);
      while b < bpos
        invariant b <= bpos && MergedSoFar(base, st, b, a, out)
      {
        TakeBase(base, st, b, a, out);
        if base[b].number !in st.deleted {
          out := out + [base[b]];
        }
        b := b + 1;
      }
      TakeAdded(base, st, b, a, out);
      if f.number !in st.deleted {
        out := out + [f];
      }
    }
    while b < |base|
      invariant b <= |base| && MergedSoFar(base, st, b, |st.added|, out)
    {
      TakeBase(base, st, b, |st.added|, out);
      if base[b].number !in st.deleted {
        out := out + [base[b]];
      }
      b := b + 1;
    }
    assert base[..|base|] == base && st.added[..|st.added|] == st.added;
  }

  lemma TakeBase(base: Level, st: LevelState, b: nat, a: nat, out: Level)
    requires SortedBySmallest(base) && SortedBySmallest(st.added)
    requires forall f, g :: f in base && g in st.added ==> f.number != g.number
    requires b < |base| && a <= |st.added| && MergedSoFar(base, st, b, a, out)
    requires a < |st.added| ==> !BySmallest(st.added[a], base[b])
    ensures MergedSoFar(base, st, b + 1, a, if base[b].number !in st.deleted then out + [base[b]] else out)
  {
    assert base[..b + 1] == base[..b] + [base[b]];
    if a < |st.added| {
      assert st.added[a] in st.added;
      forall j | a <= j < |st.added|
        ensures BySmallest(base[b], st.added[j])
      {
        assert j == a || BySmallest(st.added[a], st.added[j]);
      }
    }
  }

  lemma TakeAdded(base: Level, st: LevelState, b: nat, a: nat, out: Level)
    requires SortedBySmallest(base) && SortedBySmallest(st.added)
    requires b <= |base| && a < |st.added| && MergedSoFar(base, st, b, a, out)
    requires b < |base| ==> BySmallest(st.added[a], base[b])
    ensures MergedSoFar(base, st, b, a + 1, if st.added[a].number !in st.deleted then out + [st.added[a]] else out)
  {
    assert st.added[..a + 1] == st.added[..a] + [st.added[a]];
    forall j | b <= j < |base|
      ensures BySmallest(st.added[a], base[j])
    {
      assert j == b || BySmallest(base[b], base[j]);
    }
  }

  /** A level is determined by its set of files: the builder lists them in one order only. */
  lemma {:induction false} SortedListIsUnique(fs: Level, gs: Level)
    requires SortedBySmallest(fs) && SortedBySmallest(gs) && FilesOf(fs) == FilesOf(gs)
    ensures fs == gs
  {
    if fs == [] {
      if gs != [] {
        FirstFile(gs);
      }
    } else {
      assert fs[0] in FilesOf(fs);
      assert fs[0] in FilesOf(gs);
      var j :| 0 <= j < |gs| && gs[j] == fs[0];
      assert gs[0] in FilesOf(fs);
      var i :| 0 <= i < |fs| && fs[i] == gs[0];
      assert fs[0] == gs[0];
      TailFiles(fs);
      TailFiles(gs);
      SortedListIsUnique(fs[1..], gs[1..]);
      assert fs == [fs[0]] + fs[1..] && gs == [gs[0]] + gs[1..];
    }
  }

  lemma FirstFile(fs: Level)
    requires fs != []
    ensures FilesOf(fs) != {}
  {
    assert fs[0] in FilesOf(fs);
  }

  lemma TailFiles(fs: Level)
    requires fs != [] && SortedBySmallest(fs)
    ensures FilesOf(fs[1..]) == FilesOf(fs) - {fs[0]}
    ensures SortedBySmallest(fs[1..])
  {
    forall f | f in fs && f != fs[0]
      ensures f in fs[1..]
    {
      var i :| 0 <= i < |fs| && fs[i] == f;
      assert fs[1..][i - 1] == f;
    }
    forall i | 0 <= i < |fs| - 1
      ensures fs[1..][i] != fs[0]
    {
      assert BySmallest(fs[0], fs[i + 1]);
    }
  }

  /** LogAndApply, without the log: one edit applied to the current version. */
  method LogAndApply(v: Version, e: Edit) returns (v': Version)
    requires |v| == NUM_LEVELS && forall l :: 0 <= l < NUM_LEVELS ==> SortedBySmallest(v[l])
    requires forall d :: d in e.deleted ==> d.0 < NUM_LEVELS
    requires forall i :: 0 <= i < |e.added| ==> e.added[i].0 < NUM_LEVELS
    requires forall l :: 0 <= l < NUM_LEVELS ==> FreshNumbers(v[l], LevelState({}, []), AddedAt(e, l))
    ensures |v'| == NUM_LEVELS && forall l :: 0 <= l < NUM_LEVELS ==> SortedBySmallest(v'[l])
    ensures forall l :: 0 <= l < NUM_LEVELS ==> FilesOf(v'[l]) == EditLevel(FilesOf(v[l]), e, l)
  {
    var builder := new Builder(v);
    builder.Apply(e);
    forall l | 0 <= l < NUM_LEVELS
      ensures Saved(v[l], builder.levels[l]) == EditLevel(FilesOf(v[l]), e, l)
      ensures forall f, g :: f in v[l] && g in builder.levels[l].added ==> f.number != g.number
    {
      var st := LevelState({}, []);
      assert v[l] + [] == v[l];
      assert Saved(v[l], st) == FilesOf(v[l]);
      ApplyIsEdit(v[l], st, e, l);
      AddFilesEffect(v[l], LevelState({} + DeletedAt(e, l), []), AddedAt(e, l));
    }
    v' := builder.SaveTo();
  }
}
