/** Table files, levels and versions (db/version_set.h), their invariant, and the binary search over a level. */
module Versions {
  import opened UserKeys
  import opened DbFormat
  import opened Multimap

  const NUM_LEVELS: nat := 7

  /**
   A table file with its metadata. The file number names immutable contents, so the two are one value;
   `smallest` and `largest` are the keys of the first and last entry (db/builder.cc:33-38, db/db_impl.cc:951-954).
   */
  datatype TableFile = TableFile(number: nat, size: nat, entries: seq<Entry>)

  /** Tables are built from non-empty runs of entries in internal-key order. */
  predicate FileOk(f: TableFile) {
    f.entries != [] && Sorted(f.entries) && forall e :: e in f.entries ==> e.sn <= MAX_SEQUENCE
  }

  type File = f: TableFile | FileOk(f) witness TableFile(0, 0, [Entry(0.0, 0, Delete)])

  type Level = seq<File>
  type Version = seq<Level>

  function First(f: File): Entry {
    f.entries[0]
  }

  function Last(f: File): Entry {
    f.entries[|f.entries| - 1]
  }

  function Smallest(f: File): InternalKey {
    KeyOf(First(f))
  }

  function Largest(f: File): InternalKey {
    KeyOf(Last(f))
  }

  ghost function FileEntries(f: File): set<Entry> {
    set e | e in f.entries
  }

  ghost function LevelEntries(fs: Level): set<Entry> {
    set f, e | f in fs && e in f.entries :: e
  }

  /** All entries in level `l` and deeper. */
  ghost function EntriesFrom(v: Version, l: nat): set<Entry>
    decreases |v| - l
  {
    if l >= |v| then {} else LevelEntries(v[l]) + EntriesFrom(v, l + 1)
  }

  ghost function Entries(v: Version): set<Entry> {
    EntriesFrom(v, 0)
  }

  lemma {:induction false} InEntriesFrom(v: Version, l: nat, e: Entry)
    ensures e in EntriesFrom(v, l) <==> exists m :: l <= m < |v| && e in LevelEntries(v[m])
    decreases |v| - l
  {
    if l < |v| {
      InEntriesFrom(v, l + 1, e);
      if m :| l <= m < |v| && e in LevelEntries(v[m]) {
        assert m == l || l + 1 <= m;
      }
    }
  }

  ghost predicate DistinctNumbers(fs: Level) {
    forall i, j :: 0 <= i < j < |fs| ==> fs[i].number != fs[j].number
  }

  /** Sorted and disjoint by internal key. */
  ghost predicate Disjoint(fs: Level) {
    forall i, j :: FilesInOrder(fs, i, j)
  }

  predicate FilesInOrder(fs: Level, i: int, j: int) {
    0 <= i < j < |fs| ==> Before(Last(fs[i]), First(fs[j]))
  }

  /** Level 0: of two files that share a user key, the one with the larger number has the newer entries. */
  ghost predicate NewerByNumber(fs: Level) {
    forall f, g :: f in fs && g in fs && f.number > g.number ==> NewerThan(FileEntries(f), FileEntries(g))
  }

  ghost predicate LevelOk(l: nat, fs: Level) {
    && DistinctNumbers(fs)
    && (if l == 0 then NewerByNumber(fs) else Disjoint(fs))
  }

  /** The version invariant: every level well formed, and shallower levels newer than deeper ones. */
  ghost predicate VersionOk(v: Version) {
    && |v| == NUM_LEVELS
    && (forall l :: 0 <= l < |v| ==> LevelOk(l, v[l]))
    && (forall l, m :: LevelsInOrder(v, l, m))
  }

  /** Shallower levels are newer; proofs instantiate this by naming the pair of levels. */
  ghost predicate LevelsInOrder(v: Version, l: int, m: int) {
    0 <= l < m < |v| ==> NewerThan(LevelEntries(v[l]), LevelEntries(v[m]))
  }

  lemma DeeperIsOlder(v: Version, l: nat, m: nat, a: Entry, b: Entry)
    requires VersionOk(v) && l < m < |v| && a in LevelEntries(v[l]) && b in LevelEntries(v[m]) && a.key == b.key
    ensures a.sn > b.sn
  {
    assert LevelsInOrder(v, l, m);
  }

  lemma SortedBounds(f: File, e: Entry)
    requires e in f.entries
    ensures e == First(f) || Before(First(f), e)
    ensures e == Last(f) || Before(e, Last(f))
    ensures First(f).key <= e.key <= Last(f).key
  {
    var i :| 0 <= i < |f.entries| && f.entries[i] == e;
    assert InOrder(f.entries, 0, i) && InOrder(f.entries, i, |f.entries| - 1);
  }

  lemma DisjointBefore(fs: Level, i: nat, j: nat, a: Entry, b: Entry)
    requires Disjoint(fs) && i < j < |fs|
    requires a in fs[i].entries && b in fs[j].entries
    ensures Before(a, b)
  {
    assert FilesInOrder(fs, i, j);
    SortedBounds(fs[i], a);
    SortedBounds(fs[j], b);
  }

  /** Entries of two different files of a level never agree on user key and sequence number. */
  lemma NoRepeatAcrossFiles(l: nat, fs: Level, i: nat, j: nat, a: Entry, b: Entry)
    requires LevelOk(l, fs) && i < j < |fs|
    requires a in fs[i].entries && b in fs[j].entries
    ensures a.key == b.key ==> a.sn != b.sn
  {
    if l == 0 {
      assert a in FileEntries(fs[i]) && b in FileEntries(fs[j]);
    } else {
      DisjointBefore(fs, i, j, a, b);
    }
  }

  lemma UniqueInFile(f: File)
    ensures UniqueSequences(FileEntries(f))
  {
    UniqueInRun(f.entries);
    assert FileEntries(f) == Elements(f.entries);
  }

  lemma FileHolding(fs: Level, e: Entry) returns (i: nat)
    requires e in LevelEntries(fs)
    ensures i < |fs| && e in fs[i].entries
  {
    var f :| f in fs && e in f.entries;
    i :| 0 <= i < |fs| && fs[i] == f;
  }

  lemma UniqueInLevel(l: nat, fs: Level)
    requires LevelOk(l, fs)
    ensures UniqueSequences(LevelEntries(fs))
  {
    forall a, b | a in LevelEntries(fs) && b in LevelEntries(fs) && a.key == b.key && a.sn == b.sn
      ensures a == b
    {
      var i := FileHolding(fs, a);
      var j := FileHolding(fs, b);
      if i < j {
        NoRepeatAcrossFiles(l, fs, i, j, a, b);
      } else if j < i {
        NoRepeatAcrossFiles(l, fs, j, i, b, a);
      } else {
        UniqueInFile(fs[i]);
        assert a in FileEntries(fs[i]) && b in FileEntries(fs[i]);
      }
    }
  }

  lemma {:induction false} LevelNewerThanDeeper(v: Version, l: nat)
    requires VersionOk(v) && l < |v|
    ensures NewerThan(LevelEntries(v[l]), EntriesFrom(v, l + 1))
  {
    forall a, b | a in LevelEntries(v[l]) && b in EntriesFrom(v, l + 1) && a.key == b.key
      ensures a.sn > b.sn
    {
      InEntriesFrom(v, l + 1, b);
      var m :| l + 1 <= m < |v| && b in LevelEntries(v[m]);
      DeeperIsOlder(v, l, m, a, b);
    }
  }

  lemma {:induction false} UniqueInVersion(v: Version, l: nat)
    requires VersionOk(v)
    ensures UniqueSequences(EntriesFrom(v, l))
    decreases |v| - l
  {
    if l < |v| {
      UniqueInVersion(v, l + 1);
      UniqueInLevel(l, v[l]);
      LevelNewerThanDeeper(v, l);
      UniqueUnion(LevelEntries(v[l]), EntriesFrom(v, l + 1));
    }
  }

  /** Where halving the files from `left` to `right` ends, sorted or not. */
  function Halving(files: Level, key: InternalKey, left: nat, right: nat): nat
    requires left <= right <= |files|
    decreases right - left
  {
    if left == right then right
    else
      var mid := (left + right) / 2;
      if Compare(Largest(files[mid]), key) < 0 then Halving(files, key, mid + 1, right)
      else Halving(files, key, left, mid)
  }

  /** In a sorted level one comparison decides for all files on one side. */
  lemma ProbeDecides(files: Level, key: InternalKey, mid: nat)
    requires Disjoint(files) && mid < |files|
    ensures if Compare(Largest(files[mid]), key) < 0
            then forall i :: 0 <= i <= mid ==> Compare(Largest(files[i]), key) < 0
            else forall i :: mid <= i < |files| ==> Compare(Largest(files[i]), key) >= 0
  {
    forall i | 0 <= i < |files| && i != mid
      ensures i < mid ==> Compare(Largest(files[i]), Largest(files[mid])) < 0
      ensures mid < i ==> Compare(Largest(files[mid]), Largest(files[i])) < 0
    {
      if i < mid {
        DisjointBefore(files, i, mid, Last(files[i]), Last(files[mid]));
      } else {
        DisjointBefore(files, mid, i, Last(files[mid]), Last(files[i]));
      }
    }
  }

  /** FindFile: in a sorted level the index of the first file whose largest key is at or after `key`. */
  method FindFile(files: Level, key: InternalKey) returns (index: nat)
    ensures index <= |files| && index == Halving(files, key, 0, |files|)
    ensures Disjoint(files) ==> forall i :: 0 <= i < index ==> Compare(Largest(files[i]), key) < 0
    ensures Disjoint(files) ==> forall i :: index <= i < |files| ==> Compare(Largest(files[i]), key) >= 0
  {
    hide Disjoint, Compare, Largest;
    var left, right := 0, |files|;
    while left < right
      invariant left <= right <= |files| && Halving(files, key, left, right) == Halving(files, key, 0, |files|)
      invariant Disjoint(files) ==> forall i :: 0 <= i < left ==> Compare(Largest(files[i]), key) < 0
      invariant Disjoint(files) ==> forall i :: right <= i < |files| ==> Compare(Largest(files[i]), key) >= 0
    {
      var mid := (left + right) / 2;
      if Disjoint(files) {
        ProbeDecides(files, key, mid);
      }
      if Compare(Largest(files[mid]), key) < 0 {
        left := mid + 1;
      } else {
        right := mid;
      }
    }
    index := right;
  }

  /** A bound of a user-key range; None is the null pointer of the source, no bound on that side. */
  datatype Bound = Unbounded | At(key: UserKey)

  predicate AfterFile(k: Bound, f: File) {
    k.At? && k.key > Largest(f).user
  }

  predicate BeforeFile(k: Bound, f: File) {
    k.At? && k.key < Smallest(f).user
  }

  predicate Overlaps(f: File, begin: Bound, end: Bound) {
    !AfterFile(begin, f) && !BeforeFile(end, f)
  }

  /** SomeFileOverlapsRange: linear for level 0, a binary search and one comparison for the other levels. */
  method SomeFileOverlapsRange(disjointSorted: bool, files: Level, begin: Bound, end: Bound) returns (overlap: bool)
    requires disjointSorted ==> Disjoint(files)
    ensures overlap <==> exists f :: f in files && Overlaps(f, begin, end)
  {
    if !disjointSorted {
      for i := 0 to |files|
        invariant forall j :: 0 <= j < i ==> !Overlaps(files[j], begin, end)
      {
        var f := files[i];
        if AfterFile(begin, f) || BeforeFile(end, f) {
        } else {
          assert f in files && Overlaps(f, begin, end);
          return true;
        }
      }
      return false;
    }
    var index := 0;
    if begin.At? {
      index := FindFile(files, InternalKey(begin.key, MAX_SEQUENCE, TYPE_FOR_SEEK));
    }
    if index >= |files| {
      return false;
    }
    overlap := !BeforeFile(end, files[index]);
    if overlap {
      assert Overlaps(files[index], begin, end);
    } else {
      forall j | 0 <= j < |files|
        ensures !Overlaps(files[j], begin, end)
      {
        if index < j {
          DisjointBefore(files, index, j, First(files[index]), First(files[j]));
        }
      }
    }
  }
}
