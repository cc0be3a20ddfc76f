/**
 Choosing what to compact: GetOverlappingInputs, AddBoundaryInputs, SetupOtherInputs, PickCompaction,
 CompactRange and PickLevelForMemTableOutput (db/version_set.cc:491-560, 1157-1523).
 */
module Inputs {
  import opened Options
  import opened UserKeys
  import opened DbFormat
  import opened Multimap
  import opened Versions

  /** The files of a level that overlap a user-key range, in order. */
  function Select(files: Level, begin: Bound, end: Bound): (r: Level)
    ensures forall f :: f in r <==> f in files && Overlaps(f, begin, end)
  {
    if files == [] then []
    else
      var init, last := files[..|files| - 1], files[|files| - 1];
      assert files == init + [last];
      Select(init, begin, end) + (if Overlaps(last, begin, end) then [last] else [])
  }

  predicate Widens(begin: Bound, end: Bound, lo: Bound, hi: Bound) {
    && (lo.At? ==> begin.At? && lo.key <= begin.key)
    && (hi.At? ==> end.At? && end.key <= hi.key)
  }

  predicate Within(f: File, lo: Bound, hi: Bound) {
    && (lo.At? ==> lo.key <= Smallest(f).user)
    && (hi.At? ==> Largest(f).user <= hi.key)
  }

  /** Every file that overlaps the range lies inside it. */
  ghost predicate ClosedRange(files: Level, lo: Bound, hi: Bound) {
    forall f :: f in files && Overlaps(f, lo, hi) ==> Within(f, lo, hi)
  }

  /** Every closed range around [begin, end] is around [lo, hi] as well. */
  ghost predicate InEveryClosedRange(files: Level, begin: Bound, end: Bound, lo: Bound, hi: Bound) {
    forall lo', hi' :: Widens(begin, end, lo', hi') && ClosedRange(files, lo', hi') ==> Widens(lo, hi, lo', hi')
  }

  /** The smallest widening of a range that is closed under overlap. */
  ghost predicate LeastClosedRange(files: Level, begin: Bound, end: Bound, lo: Bound, hi: Bound) {
    && Widens(begin, end, lo, hi)
    && ClosedRange(files, lo, hi)
    && InEveryClosedRange(files, begin, end, lo, hi)
  }

  /** Widening a range to one end of an overlapping file stays inside every closed range. */
  lemma WideningStaysLeast(files: Level, begin: Bound, end: Bound, lo: Bound, hi: Bound, f: File, lo': Bound,
                           hi': Bound)
    requires InEveryClosedRange(files, begin, end, lo, hi) && f in files && Overlaps(f, lo, hi)
    requires lo' == lo || (lo.At? && lo' == At(Smallest(f).user))
    requires hi' == hi || (hi.At? && hi' == At(Largest(f).user))
    ensures InEveryClosedRange(files, begin, end, lo', hi')
  {
    forall l, h | Widens(begin, end, l, h) && ClosedRange(files, l, h)
      ensures Widens(lo', hi', l, h)
    {
      assert Overlaps(f, l, h);
      assert Within(f, l, h);
    }
  }

  /** Number of file ends that stick out of a range; it falls with every restart. */
  ghost function Outside(files: Level, lo: Bound, hi: Bound): nat {
    if files == [] then 0
    else
      Outside(files[1..], lo, hi)
      + (if lo.At? && Smallest(files[0]).user < lo.key then 1 else 0)
      + (if hi.At? && Largest(files[0]).user > hi.key then 1 else 0)
  }

  lemma {:induction false} WideningCoversMore(files: Level, f: File, lo: Bound, hi: Bound, lo': Bound, hi': Bound)
    requires Widens(lo, hi, lo', hi') && lo.At? == lo'.At? && hi.At? == hi'.At?
    ensures Outside(files, lo', hi') <= Outside(files, lo, hi)
    ensures f in files && !Within(f, lo, hi) && lo'.At? && lo.key > lo'.key == Smallest(f).user
            ==> Outside(files, lo', hi') < Outside(files, lo, hi)
    ensures f in files && !Within(f, lo, hi) && hi'.At? && hi.key < hi'.key == Largest(f).user
            ==> Outside(files, lo', hi') < Outside(files, lo, hi)
  {
    if files != [] {
      WideningCoversMore(files[1..], f, lo, hi, lo', hi');
    }
  }

  /**
   GetOverlappingInputs. In level 0 a file that sticks out of the range widens it and restarts the scan; the
   result is the set of files overlapping the least closed range. In deeper levels nothing is widened.
   */
  method GetOverlappingInputs(level: nat, files: Level, begin: Bound, end: Bound)
    returns (inputs: Level, ghost lo: Bound, ghost hi: Bound)
    ensures inputs == Select(files, lo, hi)
    ensures level > 0 ==> lo == begin && hi == end
    ensures level == 0 ==> LeastClosedRange(files, begin, end, lo, hi)
  {
    inputs := [];
    var userBegin, userEnd := begin, end;
    var i := 0;
    while i < |files|
      invariant 0 <= i <= |files|
      invariant inputs == Select(files[..i], userBegin, userEnd)
      invariant level > 0 ==> userBegin == begin && userEnd == end
      invariant LeastSoFar(files, begin, end, userBegin, userEnd)
      invariant level == 0 ==> ClosedRange(files[..i], userBegin, userEnd)
      decreases Outside(files, userBegin, userEnd), |files| - i
    {
      var f := files[i];
      ScanOne(files, i, userBegin, userEnd);
      i := i + 1;
      var fileStart, fileLimit := Smallest(f).user, Largest(f).user;
      if begin.At? && fileLimit < userBegin.key {
      } else if end.At? && fileStart > userEnd.key {
      } else {
        inputs := inputs + [f];
        if level == 0 {
          if begin.At? && fileStart < userBegin.key {
            RestartFromBegin(files, begin, end, userBegin, userEnd, f);
            userBegin := At(fileStart);
            inputs, i := [], 0;
            assert files[..0] == [];
            continue;
          } else if end.At? && fileLimit > userEnd.key {
            RestartFromEnd(files, begin, end, userBegin, userEnd, f);
            userEnd := At(fileLimit);
            inputs, i := [], 0;
            assert files[..0] == [];
            continue;
          }
        }
      }
      if level == 0 {
        StillClosed(files, i - 1, userBegin, userEnd);
      }
    }
    assert files[..|files|] == files;
    lo, hi := userBegin, userEnd;
  }

  lemma ScanOne(files: Level, i: nat, lo: Bound, hi: Bound)
    requires i < |files|
    ensures Select(files[..i + 1], lo, hi)
         == Select(files[..i], lo, hi) + (if Overlaps(files[i], lo, hi) then [files[i]] else [])
  {
    assert files[..i + 1][..i] == files[..i];
  }

  lemma StillClosed(files: Level, i: nat, lo: Bound, hi: Bound)
    requires i < |files| && ClosedRange(files[..i], lo, hi)
    requires Overlaps(files[i], lo, hi) ==> Within(files[i], lo, hi)
    ensures ClosedRange(files[..i + 1], lo, hi)
  {
    assert files[..i + 1] == files[..i] + [files[i]];
  }

  /** What the scan knows about its current range between restarts. */
  ghost predicate LeastSoFar(files: Level, begin: Bound, end: Bound, lo: Bound, hi: Bound) {
    && lo.At? == begin.At? && hi.At? == end.At?
    && Widens(begin, end, lo, hi)
    && InEveryClosedRange(files, begin, end, lo, hi)
  }

  lemma RestartFromBegin(files: Level, begin: Bound, end: Bound, lo: Bound, hi: Bound, f: File)
    requires LeastSoFar(files, begin, end, lo, hi) && f in files && Overlaps(f, lo, hi)
    requires lo.At? && Smallest(f).user < lo.key
    ensures LeastSoFar(files, begin, end, At(Smallest(f).user), hi)
    ensures Outside(files, At(Smallest(f).user), hi) < Outside(files, lo, hi)
  {
    WideningCoversMore(files, f, lo, hi, At(Smallest(f).user), hi);
    WideningStaysLeast(files, begin, end, lo, hi, f, At(Smallest(f).user), hi);
  }

  lemma RestartFromEnd(files: Level, begin: Bound, end: Bound, lo: Bound, hi: Bound, f: File)
    requires LeastSoFar(files, begin, end, lo, hi) && f in files && Overlaps(f, lo, hi)
    requires hi.At? && hi.key < Largest(f).user
    ensures LeastSoFar(files, begin, end, lo, At(Largest(f).user))
    ensures Outside(files, lo, At(Largest(f).user)) < Outside(files, lo, hi)
  {
    WideningCoversMore(files, f, lo, hi, lo, At(Largest(f).user));
    WideningStaysLeast(files, begin, end, lo, hi, f, lo, At(Largest(f).user));
  }

  // ----- boundary files -----

  /** `k` is the largest key of the non-empty list. */
  ghost predicate IsLargestKey(files: Level, k: InternalKey) {
    && (exists f :: f in files && Largest(f) == k)
    && (forall f :: f in files ==> Compare(Largest(f), k) <= 0)
  }

  lemma LargestKeyUnique(files: Level, k: InternalKey, k': InternalKey)
    requires IsLargestKey(files, k) && IsLargestKey(files, k')
    ensures k == k'
  {
    var f :| f in files && Largest(f) == k;
    var g :| g in files && Largest(g) == k';
    assert Compare(Largest(f), k') <= 0 && Compare(Largest(g), k) <= 0;
  }

  method FindLargestKey(files: Level) returns (largest: InternalKey)
    requires files != []
    ensures IsLargestKey(files, largest)
  {
    largest := Largest(files[0]);
    assert files[0] in files;
    for i := 1 to |files|
      invariant exists f :: f in files && Largest(f) == largest
      invariant forall j :: 0 <= j < i ==> Compare(Largest(files[j]), largest) <= 0
    {
      if Compare(Largest(files[i]), largest) > 0 {
        assert files[i] in files;
        largest := Largest(files[i]);
      }
    }
  }

  /** A file that starts after `largest` but with the same user key. */
  predicate Boundary(f: File, largest: InternalKey) {
    Compare(Smallest(f), largest) > 0 && Smallest(f).user == largest.user
  }

  method FindSmallestBoundaryFile(files: Level, largest: InternalKey) returns (r: Option<File>)
    ensures r.None? ==> forall f :: f in files ==> !Boundary(f, largest)
    ensures r.Some? ==> r.value in files && Boundary(r.value, largest)
    ensures r.Some? ==> forall f :: f in files && Boundary(f, largest) ==> Compare(Smallest(r.value), Smallest(f)) <= 0
  {
    r := None;
    for i := 0 to |files|
      invariant r.None? ==> forall j :: 0 <= j < i ==> !Boundary(files[j], largest)
      invariant r.Some? ==> r.value in files && Boundary(r.value, largest)
      invariant r.Some? ==>
                  forall j :: 0 <= j < i && Boundary(files[j], largest) ==>
                      Compare(Smallest(r.value), Smallest(files[j])) <= 0
    {
      var f := files[i];
      if Compare(Smallest(f), largest) > 0 && Smallest(f).user == largest.user {
        if r.None? || Compare(Smallest(f), Smallest(r.value)) < 0 {
          r := Some(f);
        }
      }
    }
  }

  /** Number of files that start after `largest`. */
  ghost function StartingAfter(files: Level, largest: InternalKey): nat {
    if files == [] then 0
    else StartingAfter(files[1..], largest) + (if Compare(Smallest(files[0]), largest) > 0 then 1 else 0)
  }

  lemma {:induction false} FewerStartAfter(files: Level, f: File, before: InternalKey, after: InternalKey)
    requires Compare(before, after) < 0
    ensures StartingAfter(files, after) <= StartingAfter(files, before)
    ensures f in files && Compare(before, Smallest(f)) < 0 && Compare(Smallest(f), after) <= 0
            ==> StartingAfter(files, after) < StartingAfter(files, before)
  {
    if files != [] {
      FewerStartAfter(files[1..], f, before, after);
    }
  }

  lemma SmallestToLargest(f: File)
    ensures Compare(Smallest(f), Largest(f)) <= 0
  {
    SortedBounds(f, Last(f));
  }

  /** `f` is the first file of the level that starts after the largest key of `chosen` inside its user key. */
  ghost predicate NextBoundary(levelFiles: Level, chosen: Level, f: File) {
    exists k :: IsLargestKey(chosen, k) && FirstBoundaryAfter(levelFiles, k, f)
  }

  ghost predicate FirstBoundaryAfter(levelFiles: Level, k: InternalKey, f: File) {
    && f in levelFiles
    && Boundary(f, k)
    && forall g :: g in levelFiles && Boundary(g, k) ==> Compare(Smallest(f), Smallest(g)) <= 0
  }

  /** Each file of `added` is the next boundary file after everything chosen before it; none is chosen twice. */
  ghost predicate BoundaryChain(levelFiles: Level, chosen: Level, added: Level) {
    forall i :: 0 <= i < |added| ==> ChainLink(levelFiles, chosen, added, i)
  }

  ghost predicate ChainLink(levelFiles: Level, chosen: Level, added: Level, i: nat)
    requires i < |added|
  {
    NextBoundary(levelFiles, chosen + added[..i], added[i])
  }

  /** No file of the level starts after the largest key of `chosen` and shares its user key. */
  ghost predicate BoundaryClosed(levelFiles: Level, chosen: Level) {
    forall k, f :: IsLargestKey(chosen, k) && f in levelFiles ==> !Boundary(f, k)
  }

  /** AddBoundaryInputs: extends the chosen files with the chain of boundary files until none is left. */
  method AddBoundaryInputs(levelFiles: Level, chosen: Level) returns (result: Level, ghost added: Level)
    ensures result == chosen + added
    ensures BoundaryChain(levelFiles, chosen, added)
    ensures BoundaryClosed(levelFiles, result)
    ensures chosen == [] ==> result == []
  {
    result, added := chosen, [];
    if chosen == [] {
      return;
    }
    var largest := FindLargestKey(chosen);
    var searching := true;
    while searching
      invariant result == chosen + added
      invariant IsLargestKey(result, largest)
      invariant BoundaryChain(levelFiles, chosen, added)
      invariant !searching ==> BoundaryClosed(levelFiles, result)
      decreases searching, StartingAfter(levelFiles, largest)
    {
      var next := FindSmallestBoundaryFile(levelFiles, largest);
      if next.Some? {
        var f := next.value;
        ExtendChain(levelFiles, chosen, added, f, largest);
        FewerStartAfter(levelFiles, f, largest, Largest(f));
        result := result + [f];
        added := added + [f];
        largest := Largest(f);
      } else {
        NoBoundaryLeft(levelFiles, result, largest);
        searching := false;
      }
    }
  }

  lemma NoBoundaryLeft(levelFiles: Level, chosen: Level, largest: InternalKey)
    requires IsLargestKey(chosen, largest) && forall f :: f in levelFiles ==> !Boundary(f, largest)
    ensures BoundaryClosed(levelFiles, chosen)
  {
  }

  lemma ExtendChain(levelFiles: Level, chosen: Level, added: Level, f: File, largest: InternalKey)
    requires IsLargestKey(chosen + added, largest) && FirstBoundaryAfter(levelFiles, largest, f)
    requires BoundaryChain(levelFiles, chosen, added)
    ensures BoundaryChain(levelFiles, chosen, added + [f])
    ensures chosen + (added + [f]) == chosen + added + [f]
    ensures IsLargestKey(chosen + added + [f], Largest(f))
    ensures Compare(largest, Smallest(f)) < 0 && Compare(Smallest(f), Largest(f)) <= 0
  {
    SmallestToLargest(f);
    var longer := added + [f];
    forall i | 0 <= i < |longer|
      ensures ChainLink(levelFiles, chosen, longer, i)
    {
      if i < |added| {
        assert ChainLink(levelFiles, chosen, added, i);
        assert longer[..i] == added[..i];
      } else {
        assert longer[..i] == added;
      }
    }
    var all := chosen + added + [f];
    assert all[|chosen + added|] == f;
    forall g | g in all
      ensures Compare(Largest(g), Largest(f)) <= 0
    {
      assert g == f || g in chosen + added;
    }
  }

  // ----- closed inputs -----

  ghost predicate IsSmallestKey(files: Level, k: InternalKey) {
    && (exists f :: f in files && Smallest(f) == k)
    && (forall f :: f in files ==> Compare(k, Smallest(f)) <= 0)
  }

  method GetRange(inputs: Level) returns (smallest: InternalKey, largest: InternalKey)
    requires inputs != []
    ensures IsSmallestKey(inputs, smallest) && IsLargestKey(inputs, largest)
  {
    smallest := Smallest(inputs[0]);
    assert inputs[0] in inputs;
    for i := 1 to |inputs|
      invariant exists f :: f in inputs && Smallest(f) == smallest
      invariant forall j :: 0 <= j < i ==> Compare(smallest, Smallest(inputs[j])) <= 0
    {
      if Compare(Smallest(inputs[i]), smallest) < 0 {
        assert inputs[i] in inputs;
        smallest := Smallest(inputs[i]);
      }
    }
    largest := FindLargestKey(inputs);
  }

  /** Files left behind in the level are newer than the chosen ones on every user key they share. */
  ghost predicate LeavesOnlyNewer(files: Level, chosen: Level) {
    && chosen != []
    && (forall f :: f in chosen ==> f in files)
    && forall f, g :: f in files && f !in chosen && g in chosen ==> NewerThan(FileEntries(f), FileEntries(g))
  }

  ghost predicate IsSlice(files: Level, a: int, b: int, chosen: Level) {
    0 <= a < b <= |files| && chosen == files[a..b]
  }

  /** What a compaction starts from: a closed range of level 0, or a run of neighbours of a deeper level. */
  ghost predicate Pickable(level: nat, files: Level, chosen: Level) {
    && chosen != []
    && if level == 0 then exists lo, hi :: ClosedRange(files, lo, hi) && chosen == Select(files, lo, hi)
       else exists a, b :: IsSlice(files, a, b, chosen)
  }

  lemma OrderedEnds(files: Level, i: nat, j: nat)
    requires Disjoint(files) && i < j < |files|
    ensures First(files[i]).key <= Last(files[i]).key <= First(files[j]).key <= Last(files[j]).key
    ensures Compare(Largest(files[i]), Smallest(files[j])) < 0 && Compare(Smallest(files[j]), Largest(files[j])) <= 0
    ensures Compare(Smallest(files[i]), Largest(files[i])) <= 0
  {
    assert FilesInOrder(files, i, j);
    SmallestToLargest(files[i]);
    SmallestToLargest(files[j]);
  }

  lemma PrefixDisjoint(files: Level, n: nat)
    requires Disjoint(files) && n <= |files|
    ensures Disjoint(files[..n])
  {
    forall i, j
      ensures FilesInOrder(files[..n], i, j)
    {
      assert FilesInOrder(files, i, j);
    }
  }

  /** Files [a, b) of the first n are the selected ones: those before end too early, those after start too late. */
  ghost predicate SelectsRun(files: Level, n: int, lo: Bound, hi: Bound, a: int, b: int) {
    && 0 <= a <= b <= n <= |files|
    && Select(files[..n], lo, hi) == files[a..b]
    && (forall i :: 0 <= i < a ==> AfterFile(lo, files[i]))
    && (forall i :: b <= i < n ==> BeforeFile(hi, files[i]))
  }

  lemma RunGrows(files: Level, n: nat, lo: Bound, hi: Bound, a: nat, b: nat)
    requires Disjoint(files) && n < |files| && SelectsRun(files, n, lo, hi, a, b)
    requires Overlaps(files[n], lo, hi)
    ensures SelectsRun(files, n + 1, lo, hi, a, n + 1)
  {
    if b < n {
      EarlierNotAfterEnd(files, b, n, hi);
    }
    ScanOne(files, n, lo, hi);
    AppendToSlice(files, a, n);
  }

  lemma EarlierNotAfterEnd(files: Level, i: nat, j: nat, hi: Bound)
    requires Disjoint(files) && i < j < |files| && !BeforeFile(hi, files[j])
    ensures !BeforeFile(hi, files[i])
  {
    OrderedEnds(files, i, j);
  }

  lemma AppendToSlice(files: Level, a: nat, n: nat)
    requires a <= n < |files|
    ensures files[a..n + 1] == files[a..n] + [files[n]]
  {
  }

  lemma RunRestarts(files: Level, n: nat, lo: Bound, hi: Bound)
    requires Disjoint(files) && n < |files| && AfterFile(lo, files[n])
    ensures SelectsRun(files, n + 1, lo, hi, n + 1, n + 1)
  {
    forall i | 0 <= i <= n
      ensures AfterFile(lo, files[i])
    {
      if i < n {
        OrderedEnds(files, i, n);
      }
    }
    SelectNothing(files[..n + 1], lo, hi);
  }

  lemma RunStays(files: Level, n: nat, lo: Bound, hi: Bound, a: nat, b: nat)
    requires n < |files| && SelectsRun(files, n, lo, hi, a, b) && BeforeFile(hi, files[n])
    ensures SelectsRun(files, n + 1, lo, hi, a, b)
  {
    hide Select;
    ScanOne(files, n, lo, hi);
    assert Select(files[..n + 1], lo, hi) == Select(files[..n], lo, hi) + [];
  }

  /** A user-key range selects neighbours of a sorted level. */
  lemma {:induction false} SelectIsSlice(files: Level, n: nat, lo: Bound, hi: Bound) returns (a: nat, b: nat)
    requires Disjoint(files) && n <= |files|
    ensures SelectsRun(files, n, lo, hi, a, b)
  {
    if n == 0 {
      assert Select(files[..0], lo, hi) == [] == files[0..0];
      a, b := 0, 0;
    } else {
      a, b := SelectIsSlice(files, n - 1, lo, hi);
      if Overlaps(files[n - 1], lo, hi) {
        RunGrows(files, n - 1, lo, hi, a, b);
        b := n;
      } else if AfterFile(lo, files[n - 1]) {
        RunRestarts(files, n - 1, lo, hi);
        a, b := n, n;
      } else {
        RunStays(files, n - 1, lo, hi, a, b);
      }
    }
  }

  lemma {:induction false} SelectNothing(files: Level, lo: Bound, hi: Bound)
    requires forall i :: 0 <= i < |files| ==> AfterFile(lo, files[i])
    ensures Select(files, lo, hi) == []
  {
    if files != [] {
      SelectNothing(files[..|files| - 1], lo, hi);
    }
  }

  lemma LargestOfSlice(files: Level, a: nat, b: nat)
    requires Disjoint(files) && a < b <= |files|
    ensures IsLargestKey(files[a..b], Largest(files[b - 1]))
  {
    assert files[a..b][b - 1 - a] == files[b - 1];
    forall f | f in files[a..b]
      ensures Compare(Largest(f), Largest(files[b - 1])) <= 0
    {
      var i :| 0 <= i < b - a && files[a..b][i] == f;
      if a + i < b - 1 {
        OrderedEnds(files, a + i, b - 1);
      }
    }
  }

  lemma BoundaryFollows(files: Level, b: nat, j: nat)
    requires Disjoint(files) && 0 < b <= |files| && j < |files|
    requires Boundary(files[j], Largest(files[b - 1]))
    ensures b <= j && Boundary(files[b], Largest(files[b - 1]))
    ensures b < j ==> Compare(Smallest(files[b]), Smallest(files[j])) < 0
  {
    SmallestToLargest(files[j]);
    if j < b - 1 {
      OrderedEnds(files, j, b - 1);
    } else if b <= j {
      OrderedEnds(files, b - 1, b);
      if b < j {
        OrderedEnds(files, b, j);
      }
    }
  }

  /** In a sorted level the next boundary file is the next neighbour. */
  lemma NextBoundaryIsNeighbour(files: Level, a: nat, b: nat, f: File)
    requires Disjoint(files) && a < b <= |files|
    requires NextBoundary(files, files[a..b], f)
    ensures b < |files| && f == files[b]
  {
    LargestOfSlice(files, a, b);
    var k :| IsLargestKey(files[a..b], k) && FirstBoundaryAfter(files, k, f);
    LargestKeyUnique(files[a..b], k, Largest(files[b - 1]));
    FirstBoundaryIsNeighbour(files, b, f);
  }

  lemma FirstBoundaryIsNeighbour(files: Level, b: nat, f: File)
    requires Disjoint(files) && 0 < b <= |files|
    requires FirstBoundaryAfter(files, Largest(files[b - 1]), f)
    ensures b < |files| && f == files[b]
  {
    var j :| 0 <= j < |files| && files[j] == f;
    BoundaryFollows(files, b, j);
    assert Boundary(files[b], Largest(files[b - 1]));
  }

  lemma OneMoreNeighbour(files: Level, a: nat, b: nat, added: Level, n: nat)
    requires Disjoint(files) && a < b && b + n <= |files| && n < |added|
    requires added[..n] == files[b..b + n]
    requires NextBoundary(files, files[a..b] + added[..n], added[n])
    ensures b + n < |files| && added[n] == files[b + n]
  {
    JoinSlices(files, a, b, b + n);
    NextBoundaryIsNeighbour(files, a, b + n, added[n]);
  }

  lemma ExtendEqualSlices(files: Level, b: nat, added: Level, n: nat)
    requires n < |added| && b + n < |files| && added[..n] == files[b..b + n] && added[n] == files[b + n]
    ensures added[..n + 1] == files[b..b + n + 1]
  {
    assert added[..n + 1] == added[..n] + [added[n]];
    AppendToSlice(files, b, b + n);
  }

  /** A chain of boundary files added to a run of neighbours is the neighbours that follow it. */
  lemma {:induction false} ChainIsNeighbours(files: Level, a: nat, b: nat, added: Level, n: nat)
    requires Disjoint(files) && a < b <= |files| && n <= |added|
    requires BoundaryChain(files, files[a..b], added)
    ensures b + n <= |files| && added[..n] == files[b..b + n]
    decreases n
  {
    if n > 0 {
      ChainIsNeighbours(files, a, b, added, n - 1);
      assert ChainLink(files, files[a..b], added, n - 1);
      OneMoreNeighbour(files, a, b, added, n - 1);
      ExtendEqualSlices(files, b, added, n - 1);
    }
  }

  lemma JoinSlices(files: Level, a: nat, b: nat, c: nat)
    requires a <= b <= c <= |files|
    ensures files[a..b] + files[b..c] == files[a..c]
  {
  }

  lemma ChainExtendsSlice(files: Level, a: nat, b: nat, added: Level)
    requires Disjoint(files) && a < b <= |files|
    requires BoundaryChain(files, files[a..b], added)
    ensures b + |added| <= |files| && files[a..b] + added == files[a..b + |added|]
  {
    ChainIsNeighbours(files, a, b, added, |added|);
    assert added[..|added|] == added;
    JoinSlices(files, a, b, b + |added|);
  }

  lemma InSlice(files: Level, a: nat, b: nat, i: nat)
    requires a <= b <= |files|
    ensures a <= i < b ==> files[i] in files[a..b]
  {
    assert a <= i < b ==> files[a..b][i - a] == files[i];
  }

  lemma ClosedSliceLeavesOnlyNewer(files: Level, a: nat, b: nat)
    requires Disjoint(files) && a < b <= |files| && BoundaryClosed(files, files[a..b])
    ensures LeavesOnlyNewer(files, files[a..b])
  {
    var chosen := files[a..b];
    assert files[a] in chosen;
    forall f, g | f in files && f !in chosen && g in chosen
      ensures NewerThan(FileEntries(f), FileEntries(g))
    {
      var i :| 0 <= i < |files| && files[i] == f;
      var j :| 0 <= j < b - a && chosen[j] == g;
      InSlice(files, a, b, i);
      if i < a {
        EarlierFileIsNewer(files, i, a + j);
      } else {
        LaterFileSharesNoKey(files, a, b, i, a + j);
      }
    }
  }

  lemma EarlierFileIsNewer(files: Level, i: nat, j: nat)
    requires Disjoint(files) && i < j < |files|
    ensures NewerThan(FileEntries(files[i]), FileEntries(files[j]))
  {
    forall x, y | x in files[i].entries && y in files[j].entries
      ensures Before(x, y)
    {
      DisjointBefore(files, i, j, x, y);
    }
  }

  lemma LaterFileSharesNoKey(files: Level, a: nat, b: nat, i: nat, j: nat)
    requires Disjoint(files) && a <= j < b <= i < |files| && BoundaryClosed(files, files[a..b])
    ensures NewerThan(FileEntries(files[i]), FileEntries(files[j]))
  {
    LargestOfSlice(files, a, b);
    assert !Boundary(files[b], Largest(files[b - 1]));
    GapAfterRun(files, b, i, j);
    SeparateKeys(files[j], files[i]);
  }

  /** If the run up to `b` has no boundary file, everything after it starts at a larger user key. */
  lemma GapAfterRun(files: Level, b: nat, i: nat, j: nat)
    requires Disjoint(files) && j < b <= i < |files| && !Boundary(files[b], Largest(files[b - 1]))
    ensures Last(files[j]).key < First(files[i]).key
  {
    OrderedEnds(files, b - 1, b);
    if j < b - 1 {
      OrderedEnds(files, j, b - 1);
    }
    if b < i {
      OrderedEnds(files, b, i);
    }
  }

  lemma SeparateKeys(f: File, g: File)
    requires Last(f).key < First(g).key
    ensures NewerThan(FileEntries(f), FileEntries(g)) && NewerThan(FileEntries(g), FileEntries(f))
  {
    forall x, y | x in f.entries && y in g.entries
      ensures x.key < y.key
    {
      SortedBounds(f, x);
      SortedBounds(g, y);
    }
  }

  /** A closed range of level 0 shares no user key with the files it leaves out. */
  lemma ClosedRangeSharesNoKey(files: Level, lo: Bound, hi: Bound, f: File, g: File)
    requires ClosedRange(files, lo, hi) && f in files && g in files
    requires !Overlaps(f, lo, hi) && Overlaps(g, lo, hi)
    ensures Largest(f).user < Smallest(g).user || Largest(g).user < Smallest(f).user
    ensures NewerThan(FileEntries(f), FileEntries(g))
  {
    assert Within(g, lo, hi);
    if Largest(f).user < Smallest(g).user {
      SeparateKeys(f, g);
    } else {
      SeparateKeys(g, f);
    }
  }

  /** A closed range of level 0 has no boundary files to add. */
  lemma ClosedRangeLeavesOnlyNewer(files: Level, lo: Bound, hi: Bound, added: Level)
    requires ClosedRange(files, lo, hi) && Select(files, lo, hi) != []
    requires BoundaryChain(files, Select(files, lo, hi), added)
    ensures added == []
    ensures LeavesOnlyNewer(files, Select(files, lo, hi))
  {
    var chosen := Select(files, lo, hi);
    forall f, g | f in files && f !in chosen && g in chosen
      ensures NewerThan(FileEntries(f), FileEntries(g))
    {
      ClosedRangeSharesNoKey(files, lo, hi, f, g);
    }
    if added != [] {
      assert chosen + added[..0] == chosen;
      assert ChainLink(files, chosen, added, 0);
      NoBoundaryOfClosedRange(files, lo, hi, added[0]);
    }
  }

  lemma NoBoundaryOfClosedRange(files: Level, lo: Bound, hi: Bound, f: File)
    requires ClosedRange(files, lo, hi)
    ensures !NextBoundary(files, Select(files, lo, hi), f)
  {
    var chosen := Select(files, lo, hi);
    if k :| IsLargestKey(chosen, k) && FirstBoundaryAfter(files, k, f) {
      var g :| g in chosen && Largest(g) == k;
      BoundaryIsSelected(files, lo, hi, f, g);
      SmallestToLargest(f);
    }
  }

  lemma BoundaryIsSelected(files: Level, lo: Bound, hi: Bound, f: File, g: File)
    requires ClosedRange(files, lo, hi) && f in files && g in files && Overlaps(g, lo, hi)
    requires Boundary(f, Largest(g))
    ensures Overlaps(f, lo, hi)
  {
    assert Within(g, lo, hi);
    SmallestToLargest(f);
  }

  lemma ClosedInputs(level: nat, files: Level, chosen: Level, added: Level)
    requires LevelOk(level, files) && Pickable(level, files, chosen)
    requires BoundaryChain(files, chosen, added) && BoundaryClosed(files, chosen + added)
    ensures LeavesOnlyNewer(files, chosen + added)
  {
    if level == 0 {
      var lo, hi :| ClosedRange(files, lo, hi) && chosen == Select(files, lo, hi);
      ClosedRangeLeavesOnlyNewer(files, lo, hi, added);
      assert chosen + added == chosen;
    } else {
      ClosedRunLeavesOnlyNewer(files, chosen, added);
    }
  }

  lemma ClosedRunLeavesOnlyNewer(files: Level, chosen: Level, added: Level)
    requires Disjoint(files) && exists a, b :: IsSlice(files, a, b, chosen)
    requires BoundaryChain(files, chosen, added) && BoundaryClosed(files, chosen + added)
    ensures LeavesOnlyNewer(files, chosen + added)
  {
    var a, b :| IsSlice(files, a, b, chosen);
    ChainExtendsSlice(files, a, b, added);
    ClosedSliceLeavesOnlyNewer(files, a, b + |added|);
  }

  // ----- selections without gaps -----

  predicate CoversKey(f: File, k: UserKey) {
    Smallest(f).user <= k <= Largest(f).user
  }

  ghost predicate Covered(files: Level, k: UserKey) {
    exists f :: f in files && CoversKey(f, k)
  }

  ghost predicate Bridged(files: Level, f: File, g: File, k: UserKey) {
    Smallest(f).user <= k <= Largest(g).user ==> Covered(files, k)
  }

  /** Every user key between two of the files is in the range of one of them. */
  ghost predicate NoGap(files: Level) {
    forall f, g, k :: f in files && g in files ==> Bridged(files, f, g, k)
  }

  predicate Meet(f: File, g: File) {
    Smallest(f).user <= Largest(g).user && Smallest(g).user <= Largest(f).user
  }

  ghost predicate Touches(files: Level, f: File) {
    exists g :: g in files && Meet(f, g)
  }

  lemma OneFileNoGap(f: File)
    ensures NoGap([f])
  {
    forall g, h, k | g in [f] && h in [f]
      ensures Bridged([f], g, h, k)
    {
      assert f in [f] && (CoversKey(f, k) || !(Smallest(f).user <= k <= Largest(f).user));
    }
  }

  /** Files that each meet one of the list leave no gap. */
  lemma TouchingNoGap(files: Level, more: Level, all: Level)
    requires NoGap(files) && forall f :: f in more ==> Touches(files, f)
    requires forall f :: f in all <==> f in files || f in more
    ensures NoGap(all)
  {
    forall f, g, k | f in all && g in all
      ensures Bridged(all, f, g, k)
    {
      if Smallest(f).user <= k <= Largest(g).user && !CoversKey(f, k) && !CoversKey(g, k) {
        var f' := Neighbour(files, more, f);
        var g' := Neighbour(files, more, g);
        assert Bridged(files, f', g', k);
      } else if CoversKey(f, k) || CoversKey(g, k) {
        assert Covered(all, k);
      }
    }
  }

  lemma Neighbour(files: Level, more: Level, f: File) returns (g: File)
    requires f in files || (f in more && forall h :: h in more ==> Touches(files, h))
    ensures g in files && Meet(f, g)
  {
    if f in files {
      g := f;
      SmallestToLargest(f);
    } else {
      g :| g in files && Meet(f, g);
    }
  }

  /** A file that overlaps the range from one file of the list to another meets one of the list. */
  lemma InRangeTouches(files: Level, p: File, q: File, f: File)
    requires NoGap(files) && p in files && q in files && Smallest(p).user <= Largest(q).user
    requires Overlaps(f, At(Smallest(p).user), At(Largest(q).user))
    ensures Touches(files, f)
  {
    SmallestToLargest(f);
    var k := if Smallest(f).user < Smallest(p).user then Smallest(p).user else Smallest(f).user;
    assert Bridged(files, p, q, k);
    var g :| g in files && CoversKey(g, k);
    assert Meet(f, g);
  }

  lemma {:induction false} ChainNoGap(levelFiles: Level, base: Level, chosen: Level, added: Level, n: nat)
    requires NoGap(base + chosen) && BoundaryChain(levelFiles, chosen, added) && n <= |added|
    ensures NoGap(base + (chosen + added[..n]))
  {
    if n == 0 {
      assert chosen + added[..0] == chosen;
    } else {
      ChainNoGap(levelFiles, base, chosen, added, n - 1);
      assert ChainLink(levelFiles, chosen, added, n - 1);
      var before, f := chosen + added[..n - 1], added[n - 1];
      var k :| IsLargestKey(before, k) && FirstBoundaryAfter(levelFiles, k, f);
      var g :| g in before && Largest(g) == k;
      SmallestToLargest(f);
      SmallestToLargest(g);
      assert g in base + before && Meet(f, g);
      assert added[..n] == added[..n - 1] + [f];
      TouchingNoGap(base + before, [f], base + (chosen + added[..n]));
    }
  }

  /** `files` lies between `a` and `b` and reaches both. */
  ghost predicate Spans(files: Level, a: InternalKey, b: InternalKey) {
    IsSmallestKey(files, a) && IsLargestKey(files, b)
  }

  lemma SpannedIsCovered(files: Level, a: InternalKey, b: InternalKey, k: UserKey)
    requires NoGap(files) && Spans(files, a, b) && a.user <= k <= b.user
    ensures Covered(files, k)
  {
    var p :| p in files && Smallest(p) == a;
    var q :| q in files && Largest(q) == b;
    assert Bridged(files, p, q, k);
  }

  /** What the level-0 scan adds to files without a gap leaves none: a gap would end the least closed range. */
  lemma LeastRangeNoGap(level0: Level, files: Level, a: InternalKey, b: InternalKey, lo: Bound, hi: Bound, all: Level)
    requires NoGap(files) && Spans(files, a, b) && LeastClosedRange(level0, At(a.user), At(b.user), lo, hi)
    requires forall f :: f in all <==> f in files || f in Select(level0, lo, hi)
    ensures NoGap(all)
  {
    forall f, g, k | f in all && g in all
      ensures Bridged(all, f, g, k)
    {
      if Smallest(f).user <= k <= Largest(g).user && !Covered(all, k) {
        if a.user <= k <= b.user {
          SpannedIsCovered(files, a, b, k);
        } else if b.user < k {
          GapEndsRange(level0, files, a, b, lo, hi, all, g, k);
        } else {
          GapStartsRange(level0, files, a, b, lo, hi, all, f, k);
        }
      }
    }
  }

  lemma LeastRangeEnds(level0: Level, a: InternalKey, b: InternalKey, lo: Bound, hi: Bound, k: UserKey)
    requires LeastClosedRange(level0, At(a.user), At(b.user), lo, hi)
    requires b.user <= k && ClosedRange(level0, lo, At(k))
    ensures hi.At? && hi.key <= k
  {
    assert Widens(At(a.user), At(b.user), lo, At(k));
  }

  lemma LeastRangeStarts(level0: Level, a: InternalKey, b: InternalKey, lo: Bound, hi: Bound, k: UserKey)
    requires LeastClosedRange(level0, At(a.user), At(b.user), lo, hi)
    requires k <= a.user && ClosedRange(level0, At(k), hi)
    ensures lo.At? && k <= lo.key
  {
    assert Widens(At(a.user), At(b.user), At(k), hi);
  }

  lemma GapEndsRange(level0: Level, files: Level, a: InternalKey, b: InternalKey, lo: Bound, hi: Bound, all: Level,
                     g: File, k: UserKey)
    requires Spans(files, a, b) && LeastClosedRange(level0, At(a.user), At(b.user), lo, hi)
    requires forall f :: f in all <==> f in files || f in Select(level0, lo, hi)
    requires g in all && b.user < k <= Largest(g).user
    ensures Covered(all, k)
  {
    assert g in Select(level0, lo, hi) && Within(g, lo, hi);
    SmallestToLargest(g);
    assert CoversKey(g, Largest(g).user);
    if !Covered(all, k) {
      forall f | f in level0 && Overlaps(f, lo, At(k))
        ensures Within(f, lo, At(k))
      {
        assert Overlaps(f, lo, hi) && f in all && !CoversKey(f, k);
      }
      LeastRangeEnds(level0, a, b, lo, hi, k);
    }
  }

  lemma GapStartsRange(level0: Level, files: Level, a: InternalKey, b: InternalKey, lo: Bound, hi: Bound, all: Level,
                       g: File, k: UserKey)
    requires Spans(files, a, b) && LeastClosedRange(level0, At(a.user), At(b.user), lo, hi)
    requires forall f :: f in all <==> f in files || f in Select(level0, lo, hi)
    requires g in all && Smallest(g).user <= k < a.user
    ensures Covered(all, k)
  {
    assert g in Select(level0, lo, hi) && Within(g, lo, hi);
    SmallestToLargest(g);
    assert CoversKey(g, Smallest(g).user);
    if !Covered(all, k) {
      forall f | f in level0 && Overlaps(f, At(k), hi)
        ensures Within(f, At(k), hi)
      {
        assert Overlaps(f, lo, hi) && f in all && !CoversKey(f, k);
      }
      LeastRangeStarts(level0, a, b, lo, hi, k);
    }
  }

  /** The files of a deeper level, or of the next one, that overlap the range. */
  lemma RangeNoGap(levelFiles: Level, files: Level, a: InternalKey, b: InternalKey, all: Level)
    requires NoGap(files) && (exists p, q :: p in files && q in files && Smallest(p) == a && Largest(q) == b)
    requires a.user <= b.user
    requires forall f :: f in all <==> f in files || f in Select(levelFiles, At(a.user), At(b.user))
    ensures NoGap(all)
  {
    var p, q :| p in files && q in files && Smallest(p) == a && Largest(q) == b;
    var more := Select(levelFiles, At(a.user), At(b.user));
    forall f | f in more
      ensures Touches(files, f)
    {
      InRangeTouches(files, p, q, f);
    }
    TouchingNoGap(files, more, all);
  }

  lemma SpanIsOrdered(files: Level, a: InternalKey, b: InternalKey)
    requires IsSmallestKey(files, a) && IsLargestKey(files, b)
    ensures a.user <= b.user
  {
    var f :| f in files && Smallest(f) == a;
    SmallestToLargest(f);
    assert Compare(Largest(f), b) <= 0;
  }

  // ----- setting up a compaction -----

  ghost function TotalSizeSpec(files: Level): nat {
    if files == [] then 0 else TotalSizeSpec(files[..|files| - 1]) + files[|files| - 1].size
  }

  method TotalFileSize(files: Level) returns (sum: nat)
    ensures sum == TotalSizeSpec(files)
  {
    sum := 0;
    for i := 0 to |files|
      invariant sum == TotalSizeSpec(files[..i])
    {
      assert files[..i + 1][..i] == files[..i];
      sum := sum + files[i].size;
    }
    assert files[..|files|] == files;
  }

  datatype CompactionInputs = CompactionInputs(level: nat, inputs0: Level, inputs1: Level,
                                               smallest: InternalKey, largest: InternalKey)

  /**
   What every set-up compaction satisfies: what it leaves in its level is newer than what it takes, the range is
   that of the level's inputs, and the next level contributes exactly the files whose user keys overlap it.
   */
  ghost predicate InputsOk(v: Version, c: CompactionInputs) {
    && |v| == NUM_LEVELS && c.level + 1 < NUM_LEVELS
    && LeavesOnlyNewer(v[c.level], c.inputs0)
    && IsSmallestKey(c.inputs0, c.smallest) && IsLargestKey(c.inputs0, c.largest)
    && c.inputs1 == Select(v[c.level + 1], At(c.smallest.user), At(c.largest.user))
  }

  /** The files taken for a range: those that overlap it, in level 0 those that overlap its least closed widening. */
  ghost predicate TakenFor(level: nat, files: Level, begin: Bound, end: Bound, taken: Level) {
    if level == 0 then exists lo, hi :: LeastClosedRange(files, begin, end, lo, hi) && taken == Select(files, lo, hi)
    else taken == Select(files, begin, end)
  }

  /** `closed` is `chosen` with the boundary files that follow it, one after the other. */
  ghost predicate ClosedFrom(files: Level, chosen: Level, closed: Level) {
    BoundaryClosed(files, closed) && exists added :: BoundaryChain(files, chosen, added) && closed == chosen + added
  }

  /** `expanded` is what the level has in the range of the inputs so far, closed under boundary files. */
  ghost predicate ExpandsTo(v: Version, level: nat, inputs: Level, expanded: Level)
    requires level < |v|
  {
    exists a, b, taken :: Spans(inputs, a, b) && TakenFor(level, v[level], At(a.user), At(b.user), taken)
                          && ClosedFrom(v[level], taken, expanded)
  }

  /** The expansion adds files, stays under the byte limit, and overlaps as many files of the next level as before. */
  ghost predicate MayGrow(v: Version, c: CompactionInputs, expanded: Level, limit: nat)
    requires c.level + 1 < |v|
  {
    && |expanded| > |c.inputs0| && TotalSizeSpec(c.inputs1) + TotalSizeSpec(expanded) < limit
    && exists a, b :: Spans(expanded, a, b) && |Select(v[c.level + 1], At(a.user), At(b.user))| == |c.inputs1|
  }

  /** The inputs after the attempt to grow them, which is made once and only if the next level takes part. */
  ghost predicate GrowsTo(v: Version, c: CompactionInputs, limit: nat, grown: CompactionInputs)
    requires c.level + 1 < |v|
  {
    if c.inputs1 == [] then grown == c
    else exists expanded :: ExpandsTo(v, c.level, c.inputs0 + c.inputs1, expanded)
                            && grown.inputs0 == if MayGrow(v, c, expanded, limit) then expanded else c.inputs0
  }

  /** The compaction set up for the chosen files: they and their boundary files, grown once if that is allowed. */
  ghost predicate SetUpFor(v: Version, level: nat, chosen: Level, limit: nat, c: CompactionInputs)
    requires level + 1 < |v|
  {
    exists before: CompactionInputs ::
      before.level == level && InputsOk(v, before) && ClosedFrom(v[level], chosen, before.inputs0)
      && GrowsTo(v, before, limit, c)
  }

  lemma SpanIsUnique(files: Level, a: InternalKey, b: InternalKey, a': InternalKey, b': InternalKey)
    requires Spans(files, a, b) && Spans(files, a', b')
    ensures a.user == a'.user && b.user == b'.user
  {
  }

  /**
   SetupOtherInputs: close the chosen files under boundary files, take the overlapping files of the next level,
   and grow the first set if that costs no more files of the next level.
   */
  method SetupOtherInputs(v: Version, level: nat, chosen: Level, expandedLimit: nat) returns (c: CompactionInputs)
    requires VersionOk(v) && level + 1 < NUM_LEVELS
    requires Pickable(level, v[level], chosen)
    ensures c.level == level && InputsOk(v, c)
    ensures SetUpFor(v, level, chosen, expandedLimit, c)
    ensures forall f :: f in chosen ==> f in c.inputs0
    ensures NoGap(chosen) ==> NoGap(c.inputs0 + c.inputs1)
  {
    hide NoGap, InputsOk, ExpandsTo, MayGrow;
    var inputs0, added := AddBoundaryInputs(v[level], chosen);
    ClosedInputs(level, v[level], chosen, added);
    c := NextLevelInputs(v, level, inputs0);
    ghost var before := c;
    if NoGap(chosen) {
      ClosedNoGap(v[level], chosen, added);
      InputsNoGap(v, c);
    }
    if c.inputs1 != [] {
      ghost var expanded: Level;
      c, expanded := GrowInputs(v, c, expandedLimit);
    }
    assert GrowsTo(v, before, expandedLimit, c);
  }

  lemma ClosedNoGap(levelFiles: Level, chosen: Level, added: Level)
    requires NoGap(chosen) && BoundaryChain(levelFiles, chosen, added)
    ensures NoGap(chosen + added)
  {
    assert [] + chosen == chosen && added[..|added|] == added && [] + (chosen + added) == chosen + added;
    ChainNoGap(levelFiles, [], chosen, added, |added|);
  }

  lemma InputsNoGap(v: Version, c: CompactionInputs)
    requires InputsOk(v, c) && NoGap(c.inputs0)
    ensures NoGap(c.inputs0 + c.inputs1)
  {
    SpanIsOrdered(c.inputs0, c.smallest, c.largest);
    RangeNoGap(v[c.level + 1], c.inputs0, c.smallest, c.largest, c.inputs0 + c.inputs1);
  }

  /** More files of the level bring in more files of the next one; together they still leave no gap. */
  lemma GrownNoGap(v: Version, c: CompactionInputs, r: CompactionInputs)
    requires InputsOk(v, c) && InputsOk(v, r) && r.level == c.level && forall f :: f in c.inputs0 ==> f in r.inputs0
    requires NoGap(c.inputs0 + c.inputs1 + r.inputs0)
    ensures NoGap(r.inputs0 + r.inputs1)
  {
    SpanIsOrdered(r.inputs0, r.smallest, r.largest);
    forall f | f in c.inputs1
      ensures f in r.inputs1
    {
      GrownRangeIsWider(c, r);
    }
    RangeNoGap(v[c.level + 1], c.inputs0 + c.inputs1 + r.inputs0, r.smallest, r.largest, r.inputs0 + r.inputs1);
  }

  lemma GrownRangeIsWider(c: CompactionInputs, r: CompactionInputs)
    requires IsSmallestKey(c.inputs0, c.smallest) && IsLargestKey(c.inputs0, c.largest)
    requires IsSmallestKey(r.inputs0, r.smallest) && IsLargestKey(r.inputs0, r.largest)
    requires forall f :: f in c.inputs0 ==> f in r.inputs0
    ensures r.smallest.user <= c.smallest.user && c.largest.user <= r.largest.user
  {
    var f :| f in c.inputs0 && Smallest(f) == c.smallest;
    var g :| g in c.inputs0 && Largest(g) == c.largest;
    assert Compare(r.smallest, Smallest(f)) <= 0 && Compare(Largest(g), r.largest) <= 0;
  }

  /** The range of the first input set and the files of the next level that overlap it. */
  method NextLevelInputs(v: Version, level: nat, inputs0: Level) returns (c: CompactionInputs)
    requires VersionOk(v) && level + 1 < NUM_LEVELS
    requires LeavesOnlyNewer(v[level], inputs0)
    ensures c.level == level && c.inputs0 == inputs0 && InputsOk(v, c)
  {
    var smallest, largest := GetRange(inputs0);
    var inputs1, lo, hi := GetOverlappingInputs(level + 1, v[level + 1], At(smallest.user), At(largest.user));
    c := CompactionInputs(level, inputs0, inputs1, smallest, largest);
  }

  /** The second attempt: more files of the level for the same number of files of the next level. */
  method GrowInputs(v: Version, c: CompactionInputs, expandedLimit: nat)
    returns (r: CompactionInputs, ghost expansion: Level)
    requires VersionOk(v) && InputsOk(v, c)
    ensures ExpandsTo(v, c.level, c.inputs0 + c.inputs1, expansion)
    ensures r.inputs0 == if MayGrow(v, c, expansion, expandedLimit) then expansion else c.inputs0
    ensures r.level == c.level && InputsOk(v, r)
    ensures forall f :: f in c.inputs0 ==> f in r.inputs0
    ensures |r.inputs1| == |c.inputs1|
    ensures NoGap(c.inputs0 + c.inputs1) ==> NoGap(r.inputs0 + r.inputs1)
  {
    hide NoGap, ExpandsTo, VersionOk, LeavesOnlyNewer, Select;
    r := c;
    var allStart, allLimit := GetRange(c.inputs0 + c.inputs1);
    var expanded := ExpandedInputs(v, c.level, c.inputs0, c.inputs1, allStart, allLimit);
    expansion := expanded;
    var size0 := TotalFileSize(expanded);
    var size1 := TotalFileSize(c.inputs1);
    if |expanded| > |c.inputs0| && size1 + size0 < expandedLimit {
      var grown := NextLevelInputs(v, c.level, expanded);
      GrownRange(v, c, expanded, grown);
      if |grown.inputs1| == |c.inputs1| {
        if NoGap(c.inputs0 + c.inputs1) {
          GrownNoGap(v, c, grown);
        }
        r := grown;
      }
    }
  }

  lemma GrownRange(v: Version, c: CompactionInputs, expanded: Level, grown: CompactionInputs)
    requires InputsOk(v, c) && InputsOk(v, grown) && grown.level == c.level && grown.inputs0 == expanded
    ensures (exists a, b :: Spans(expanded, a, b) && |Select(v[c.level + 1], At(a.user), At(b.user))| == |c.inputs1|)
       <==> |grown.inputs1| == |c.inputs1|
  {
    assert Spans(expanded, grown.smallest, grown.largest);
    forall a, b | Spans(expanded, a, b)
      ensures Select(v[c.level + 1], At(a.user), At(b.user)) == grown.inputs1
    {
      SpanIsUnique(expanded, a, b, grown.smallest, grown.largest);
    }
  }

  /** All files of the level within the range covered so far, closed under boundary files. */
  method ExpandedInputs(v: Version, level: nat, inputs0: Level, inputs1: Level,
                        allStart: InternalKey, allLimit: InternalKey) returns (expanded: Level)
    requires VersionOk(v) && level + 1 < NUM_LEVELS
    requires LeavesOnlyNewer(v[level], inputs0)
    requires IsSmallestKey(inputs0 + inputs1, allStart) && IsLargestKey(inputs0 + inputs1, allLimit)
    ensures ExpandsTo(v, level, inputs0 + inputs1, expanded)
    ensures LeavesOnlyNewer(v[level], expanded)
    ensures forall f :: f in inputs0 ==> f in expanded
    ensures NoGap(inputs0 + inputs1) ==> NoGap(inputs0 + inputs1 + expanded)
  {
    hide NoGap;
    var within, lo, hi := GetOverlappingInputs(level, v[level], At(allStart.user), At(allLimit.user));
    forall f | f in inputs0
      ensures f in within
    {
      assert f in inputs0 + inputs1;
      SmallestToLargest(f);
    }
    assert inputs0[0] in within;
    SelectedArePickable(level, v[level], lo, hi);
    ghost var added: Level;
    expanded, added := AddBoundaryInputs(v[level], within);
    ClosedInputs(level, v[level], within, added);
    assert Spans(inputs0 + inputs1, allStart, allLimit) && ClosedFrom(v[level], within, expanded);
    if NoGap(inputs0 + inputs1) {
      ExpandedNoGap(level, v[level], inputs0 + inputs1, allStart, allLimit, lo, hi, added);
    }
  }

  lemma ExpandedNoGap(level: nat, files: Level, all: Level, allStart: InternalKey, allLimit: InternalKey,
                      lo: Bound, hi: Bound, added: Level)
    requires NoGap(all) && Spans(all, allStart, allLimit)
    requires level > 0 ==> lo == At(allStart.user) && hi == At(allLimit.user)
    requires level == 0 ==> LeastClosedRange(files, At(allStart.user), At(allLimit.user), lo, hi)
    requires BoundaryChain(files, Select(files, lo, hi), added)
    ensures NoGap(all + (Select(files, lo, hi) + added))
  {
    hide NoGap;
    var within := Select(files, lo, hi);
    if level == 0 {
      LeastRangeNoGap(files, all, allStart, allLimit, lo, hi, all + within);
    } else {
      SpanIsOrdered(all, allStart, allLimit);
      RangeNoGap(files, all, allStart, allLimit, all + within);
    }
    ChainNoGap(files, all, within, added, |added|);
    assert added[..|added|] == added;
  }

  lemma ClosedSelectionLeavesOnlyNewer(files: Level, lo: Bound, hi: Bound)
    requires Disjoint(files) && Select(files, lo, hi) != [] && BoundaryClosed(files, Select(files, lo, hi))
    ensures LeavesOnlyNewer(files, Select(files, lo, hi))
  {
    var a, b := SelectIsSlice(files, |files|, lo, hi);
    assert files[..|files|] == files;
    assert Select(files, lo, hi) == files[a..b];
    ClosedSliceLeavesOnlyNewer(files, a, b);
  }

  /** A selection is pickable: in level 0 if its range is closed, deeper down always. */
  lemma SelectedArePickable(level: nat, files: Level, lo: Bound, hi: Bound)
    requires LevelOk(level, files) && Select(files, lo, hi) != []
    requires level == 0 ==> ClosedRange(files, lo, hi)
    ensures Pickable(level, files, Select(files, lo, hi))
  {
    if level > 0 {
      var a, b := SelectIsSlice(files, |files|, lo, hi);
      assert files[..|files|] == files;
      assert IsSlice(files, a, b, Select(files, lo, hi));
    }
  }

  /** What is chosen with a file: in level 0 everything its range leads to, deeper down the file alone. */
  ghost predicate ChosenFor(level: nat, files: Level, picked: File, chosen: Level) {
    if level == 0 then TakenFor(0, files, At(Smallest(picked).user), At(Largest(picked).user), chosen)
    else chosen == [picked]
  }

  /**
   PickCompaction. `pick` is the file index chosen by size (the first file after the compaction pointer, or the
   first file) or by seeks; the level's score is not modelled, so any level with files may be asked for. Every user
   key between two inputs is in the range of an input.
   */
  method PickCompaction(v: Version, level: nat, pick: nat, expandedLimit: nat) returns (c: CompactionInputs)
    requires VersionOk(v) && level + 1 < NUM_LEVELS && pick < |v[level]|
    ensures c.level == level && InputsOk(v, c)
    ensures v[level][pick] in c.inputs0
    ensures NoGap(c.inputs0 + c.inputs1)
    ensures exists chosen :: ChosenFor(level, v[level], v[level][pick], chosen)
                             && SetUpFor(v, level, chosen, expandedLimit, c)
  {
    hide NoGap, SetUpFor;
    var picked := v[level][pick];
    var chosen: Level := [picked];
    OneFileNoGap(picked);
    if level == 0 {
      var smallest, largest := GetRange(chosen);
      assert smallest == Smallest(picked) && largest == Largest(picked);
      ghost var lo: Bound, hi: Bound;
      chosen, lo, hi := GetOverlappingInputs(0, v[0], At(smallest.user), At(largest.user));
      assert picked in v[0] && Overlaps(picked, At(Smallest(picked).user), At(Largest(picked).user)) by {
        SmallestToLargest(picked);
      }
      assert Overlaps(picked, lo, hi);
      SelectedArePickable(0, v[0], lo, hi);
      LeastRangeNoGap(v[0], [picked], smallest, largest, lo, hi, chosen);
    } else {
      assert IsSlice(v[level], pick, pick + 1, chosen);
    }
    assert ChosenFor(level, v[level], picked, chosen);
    c := SetupOtherInputs(v, level, chosen, expandedLimit);
  }

  /** The size-triggered choice: the first file past the compaction pointer, wrapping around to the first file. */
  method PickBySize(files: Level, pointer: Option<InternalKey>) returns (pick: nat)
    requires files != []
    ensures pick < |files|
    ensures pointer == None ==> pick == 0
    ensures pointer.Some? ==> (forall i :: 0 <= i < pick ==> Compare(Largest(files[i]), pointer.value) <= 0)
    ensures pointer.Some? && Compare(Largest(files[pick]), pointer.value) <= 0 ==>
              pick == 0 && forall f :: f in files ==> Compare(Largest(f), pointer.value) <= 0
  {
    for i := 0 to |files|
      invariant pointer == None ==> i == 0
      invariant pointer.Some? ==> forall j :: 0 <= j < i ==> Compare(Largest(files[j]), pointer.value) <= 0
    {
      if pointer == None || Compare(Largest(files[i]), pointer.value) > 0 {
        return i;
      }
    }
    pick := 0;
  }

  /** The files of a deeper level up to the first prefix that reaches the limit, or all; in level 0 always all. */
  ghost predicate CutOff(level: nat, taken: Level, limit: nat, chosen: Level) {
    if level == 0 then chosen == taken
    else
      && chosen != [] && chosen <= taken && (chosen == taken || TotalSizeSpec(chosen) >= limit)
      && forall n :: 0 < n < |chosen| ==> TotalSizeSpec(taken[..n]) < limit
  }

  method CutInputs(level: nat, inputs: Level, limit: nat) returns (chosen: Level)
    requires level > 0 && inputs != []
    ensures CutOff(level, inputs, limit, chosen)
  {
    var total := 0;
    for i := 0 to |inputs|
      invariant total == TotalSizeSpec(inputs[..i])
      invariant forall n :: 0 < n <= i ==> TotalSizeSpec(inputs[..n]) < limit
    {
      total := total + inputs[i].size;
      assert inputs[..i + 1][..i] == inputs[..i];
      if total >= limit {
        return inputs[..i + 1];
      }
    }
    chosen := inputs;
  }

  /** CompactRange: the files overlapping a user-key range, cut off by total size except in level 0. */
  method CompactRange(v: Version, level: nat, begin: Bound, end: Bound, limit: nat, expandedLimit: nat)
    returns (found: bool, c: CompactionInputs)
    requires VersionOk(v) && level + 1 < NUM_LEVELS
    ensures found <==> exists f :: f in v[level] && Overlaps(f, begin, end)
    ensures found ==> c.level == level && InputsOk(v, c)
    ensures found ==> exists taken, chosen ::
      TakenFor(level, v[level], begin, end, taken) && CutOff(level, taken, limit, chosen)
      && SetUpFor(v, level, chosen, expandedLimit, c)
  {
    hide SetUpFor, InputsOk;
    var inputs, lo, hi := GetOverlappingInputs(level, v[level], begin, end);
    ghost var taken := inputs;
    assert TakenFor(level, v[level], begin, end, taken);
    SelectionFindsOverlap(level, v[level], begin, end, lo, hi);
    if inputs == [] {
      c := CompactionInputs(level, [], [], LookupKey(0.0, 0), LookupKey(0.0, 0));
      return false, c;
    }
    found := true;
    SelectedArePickable(level, v[level], lo, hi);
    if level > 0 {
      inputs := CutInputs(level, inputs, limit);
      PrefixOfRun(level, v[level], taken, |inputs|);
      assert taken[..|inputs|] == inputs;
    }
    assert CutOff(level, taken, limit, inputs);
    c := SetupOtherInputs(v, level, inputs, expandedLimit);
  }

  lemma PrefixOfRun(level: nat, files: Level, run: Level, n: nat)
    requires level > 0 && Pickable(level, files, run) && 0 < n <= |run|
    ensures Pickable(level, files, run[..n])
  {
    var a, b :| IsSlice(files, a, b, run);
    assert run[..n] == files[a..a + n];
    assert IsSlice(files, a, a + n, run[..n]);
  }

  /** Widening to the least closed range finds something exactly when the range itself overlaps something. */
  lemma SelectionFindsOverlap(level: nat, files: Level, begin: Bound, end: Bound, lo: Bound, hi: Bound)
    requires level > 0 ==> lo == begin && hi == end
    requires level == 0 ==> LeastClosedRange(files, begin, end, lo, hi)
    ensures Select(files, lo, hi) != [] <==> exists f :: f in files && Overlaps(f, begin, end)
  {
    if f :| f in files && Overlaps(f, begin, end) {
      assert f in Select(files, lo, hi);
    } else {
      assert level == 0 ==> ClosedRange(files, begin, end) && Widens(begin, end, begin, end);
      assert Widens(lo, hi, begin, end);
      assert forall f :: f in files ==> !Overlaps(f, lo, hi);
      assert forall f :: f !in Select(files, lo, hi);
      if Select(files, lo, hi) != [] {
        FirstIsIn(Select(files, lo, hi));
      }
    }
  }

  lemma FirstIsIn(files: Level)
    requires files != []
    ensures files[0] in files
  {
  }

  /** config::kMaxMemCompactLevel. */
  const MAX_MEM_COMPACT_LEVEL: nat := 2

  ghost predicate OverlapInLevel(v: Version, level: nat, smallest: UserKey, largest: UserKey)
    requires level < |v|
  {
    exists f :: f in v[level] && Overlaps(f, At(smallest), At(largest))
  }

  /** Of the level after the next, files of more than `limit` bytes overlap the range. */
  ghost predicate TooManyGrandparents(v: Version, level: nat, smallest: UserKey, largest: UserKey, limit: nat)
    requires level + 2 < |v|
  {
    TotalSizeSpec(Select(v[level + 2], At(smallest), At(largest))) > limit
  }

  /**
   PickLevelForMemTableOutput: a new table may skip to level 1 or 2 only past levels where nothing overlaps it and
   where compacting it later stays cheap, and it skips as far as that holds.
   */
  method PickLevelForMemTableOutput(v: Version, smallest: UserKey, largest: UserKey, maxGrandParentBytes: nat)
    returns (level: nat)
    requires VersionOk(v)
    ensures level <= MAX_MEM_COMPACT_LEVEL
    ensures level > 0 ==> forall m, f :: 0 <= m <= level && f in v[m] ==> !Overlaps(f, At(smallest), At(largest))
    ensures forall m: nat :: m < level ==> !TooManyGrandparents(v, m, smallest, largest, maxGrandParentBytes)
    ensures level < MAX_MEM_COMPACT_LEVEL ==>
      || OverlapInLevel(v, 0, smallest, largest)
      || OverlapInLevel(v, level + 1, smallest, largest)
      || TooManyGrandparents(v, level, smallest, largest, maxGrandParentBytes)
  {
    level := 0;
    var overlap := SomeFileOverlapsRange(false, v[0], At(smallest), At(largest));
    if !overlap {
      while level < MAX_MEM_COMPACT_LEVEL
        invariant level <= MAX_MEM_COMPACT_LEVEL
        invariant forall m, f :: 0 <= m <= level && f in v[m] ==> !Overlaps(f, At(smallest), At(largest))
        invariant forall m: nat :: m < level ==> !TooManyGrandparents(v, m, smallest, largest, maxGrandParentBytes)
      {
        overlap := SomeFileOverlapsRange(true, v[level + 1], At(smallest), At(largest));
        if overlap {
          break;
        }
        if level + 2 < NUM_LEVELS {
          var overlaps, lo, hi := GetOverlappingInputs(level + 2, v[level + 2], At(smallest), At(largest));
          var sum := TotalFileSize(overlaps);
          if sum > maxGrandParentBytes {
            break;
          }
        }
        level := level + 1;
      }
    }
  }
}
