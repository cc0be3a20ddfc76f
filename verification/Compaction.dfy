/**
 One compaction: which entries the merge loop drops, where it cuts its output files, and the amortised test for
 data in deeper levels (db/db_impl.cc:889-1005, db/version_set.cc:1533-1552).
 */
module Compaction {
  import opened UserKeys
  import opened DbFormat
  import opened Versions
  import opened Inputs

  /** No file deeper than the output level can hold the user key. */
  ghost predicate BaseLevel(v: Version, level: nat, k: UserKey) {
    forall m, f :: level + 2 <= m < |v| && f in v[m] ==> !Covers(f, k)
  }

  predicate Covers(f: File, k: UserKey) {
    Smallest(f).user <= k <= Largest(f).user
  }

  /** Rule (A): the entry just before it has the same user key and is itself visible to every snapshot. */
  predicate Hidden(input: seq<Entry>, i: nat, smallestSnapshot: nat)
    requires i < |input|
  {
    i > 0 && input[i - 1].key == input[i].key && input[i - 1].sn <= smallestSnapshot
  }

  /** The tombstone rule: visible to every snapshot, with nothing deeper to hide. */
  ghost predicate Obsolete(v: Version, level: nat, e: Entry, smallestSnapshot: nat) {
    e.op.Delete? && e.sn <= smallestSnapshot && BaseLevel(v, level, e.key)
  }

  ghost predicate Dropped(v: Version, level: nat, input: seq<Entry>, i: nat, smallestSnapshot: nat)
    requires i < |input|
  {
    Hidden(input, i, smallestSnapshot) || Obsolete(v, level, input[i], smallestSnapshot)
  }

  /** The entries among the first `n` that survive. */
  ghost function Kept(v: Version, level: nat, input: seq<Entry>, n: nat, smallestSnapshot: nat): seq<Entry>
    requires n <= |input|
  {
    if n == 0 then []
    else
      Kept(v, level, input, n - 1, smallestSnapshot)
      + (if Dropped(v, level, input, n - 1, smallestSnapshot) then [] else [input[n - 1]])
  }

  ghost function Concat(fs: Level): seq<Entry> {
    if fs == [] then [] else Concat(fs[..|fs| - 1]) + fs[|fs| - 1].entries
  }

  lemma ConcatAppend(fs: Level, f: File)
    ensures Concat(fs + [f]) == Concat(fs) + f.entries
  {
    assert (fs + [f])[..|fs|] == fs;
  }

  /** The compaction object: its input version and the cursors that IsBaseLevelForKey moves forward. */
  class CompactionState {
    const version: Version
    const level: nat
    var levelPtrs: seq<nat>
    ghost var asked: Bound

    /** Everything left of a cursor ends before the last user key asked for. */
    ghost predicate Valid()
      reads this
    {
      && VersionOk(version) && level + 1 < NUM_LEVELS
      && |levelPtrs| == NUM_LEVELS
      && (forall m :: 0 <= m < NUM_LEVELS ==> levelPtrs[m] <= |version[m]|)
      && (forall m, i :: 0 <= m < NUM_LEVELS && 0 <= i < levelPtrs[m] ==> AfterFile(asked, version[m][i]))
    }

    constructor (v: Version, l: nat)
      requires VersionOk(v) && l + 1 < NUM_LEVELS
      ensures Valid() && version == v && level == l && asked == Unbounded
    {
      version, level := v, l;
      levelPtrs := seq(NUM_LEVELS, i => 0);
      asked := Unbounded;
    }

    /**
     IsBaseLevelForKey. Each call only advances the cursors, so the user keys asked for must not decrease; the
     answer is nevertheless the one a full scan of all deeper files gives.
     */
    method IsBaseLevelForKey(k: UserKey) returns (base: bool)
      requires Valid() && (asked.At? ==> asked.key <= k)
      modifies this`levelPtrs, this`asked
      ensures Valid() && asked == At(k)
      ensures base <==> BaseLevel(version, level, k)
    {
      asked := At(k);
      for lvl := level + 2 to NUM_LEVELS
        invariant Valid() && asked == At(k)
        invariant forall m, f :: level + 2 <= m < lvl && f in version[m] ==> !Covers(f, k)
      {
        var files := version[lvl];
        while levelPtrs[lvl] < |files|
          invariant Valid() && asked == At(k)
          invariant levelPtrs[lvl] <= |files|
          decreases |files| - levelPtrs[lvl]
        {
          var f := files[levelPtrs[lvl]];
          if k <= Largest(f).user {
            if k >= Smallest(f).user {
              assert f in version[lvl] && Covers(f, k);
              return false;
            }
            break;
          }
          levelPtrs := levelPtrs[lvl := levelPtrs[lvl] + 1];
        }
        NoneCovers(files, levelPtrs[lvl], k);
      }
      base := true;
    }
  }

  lemma NoneCovers(files: Level, ptr: nat, k: UserKey)
    requires Disjoint(files) && ptr <= |files|
    requires forall i :: 0 <= i < ptr ==> AfterFile(At(k), files[i])
    requires ptr < |files| ==> k < Smallest(files[ptr]).user
    ensures forall f :: f in files ==> !Covers(f, k)
  {
    forall f | f in files
      ensures !Covers(f, k)
    {
      var i :| 0 <= i < |files| && files[i] == f;
      if ptr < i {
        OrderedEnds(files, ptr, i);
      }
    }
  }

  /** Output files cut from a run: numbered from `first`, together exactly `run`. */
  ghost predicate CutFrom(outputs: Level, run: seq<Entry>, first: nat) {
    Concat(outputs) == run && NumberedFrom(outputs, first)
  }

  ghost predicate NumberedFrom(outputs: Level, first: nat) {
    forall i :: 0 <= i < |outputs| ==> outputs[i].number == first + i
  }

  ghost predicate SequencesFit(input: seq<Entry>) {
    forall e :: e in input ==> e.sn <= MAX_SEQUENCE
  }

  /** Finished files and the open one hold exactly `kept`, entries of `seen` in order. */
  ghost predicate OutputSoFar(outputs: Level, builder: seq<Entry>, kept: seq<Entry>, seen: seq<Entry>, first: nat) {
    && Concat(outputs) + builder == kept
    && NumberedFrom(outputs, first)
    && Sorted(builder) && SequencesFit(builder)
    && forall e :: e in builder ==> e in seen
  }

  /**
   The merge loop of DoCompactionWork over the merged inputs. ShouldStopBefore and the output size limit decide
   only where files are cut, so both are left open here. Entries carry sequence numbers up to MAX_SEQUENCE, the
   value that also stands for "no entry of this user key seen yet".
   */
  method DoCompactionWork(c: CompactionState, input: seq<Entry>, smallestSnapshot: nat, firstNumber: nat)
    returns (outputs: Level)
    requires c.Valid() && c.asked == Unbounded
    requires Sorted(input) && SequencesFit(input)
    requires smallestSnapshot < MAX_SEQUENCE
    modifies c`levelPtrs, c`asked
    ensures CutFrom(outputs, Kept(c.version, c.level, input, |input|, smallestSnapshot), firstNumber)
  {
    outputs := [];
    var builder: seq<Entry> := [];
    var hasCurrentUserKey, currentUserKey := false, 0.0;
    var lastSequenceForKey := MAX_SEQUENCE;
    var i := 0;
    while i < |input|
      invariant 0 <= i <= |input| && c.Valid()
      invariant hasCurrentUserKey <==> i > 0
      invariant i > 0 ==> currentUserKey == input[i - 1].key && lastSequenceForKey == input[i - 1].sn
      invariant c.asked.At? ==> i > 0 && c.asked.key <= input[i - 1].key
      invariant OutputSoFar(outputs, builder, Kept(c.version, c.level, input, i, smallestSnapshot), input[..i],
                            firstNumber)
    {
      var key := input[i];
      assert InOrder(input, i - 1, i);
      ghost var kept := Kept(c.version, c.level, input, i, smallestSnapshot);
      var stopBefore: bool := *;
      if stopBefore && builder != [] {
        outputs := FinishOutputFile(outputs, builder, firstNumber, kept, input[..i]);
        builder := [];
      }
      var drop := false;
      if !hasCurrentUserKey || key.key != currentUserKey {
        currentUserKey := key.key;
        hasCurrentUserKey := true;
        lastSequenceForKey := MAX_SEQUENCE;
      }
      if lastSequenceForKey <= smallestSnapshot {
        drop := true;
      } else if key.op.Delete? && key.sn <= smallestSnapshot {
        drop := c.IsBaseLevelForKey(key.key);
      }
      lastSequenceForKey := key.sn;
      assert drop <==> Dropped(c.version, c.level, input, i, smallestSnapshot);
      GrowOutput(input, i, outputs, builder, kept, firstNumber);
      if !drop {
        builder := builder + [key];
        var bigEnough: bool := *;
        if bigEnough {
          outputs := FinishOutputFile(outputs, builder, firstNumber, kept + [key], input[..i + 1]);
          builder := [];
        }
      }
      i := i + 1;
    }
    assert input[..|input|] == input;
    if builder != [] {
      outputs := FinishOutputFile(outputs, builder, firstNumber,
                                  Kept(c.version, c.level, input, i, smallestSnapshot), input);
    }
    assert Concat(outputs) + [] == Concat(outputs);
  }

  method FinishOutputFile(outputs: Level, builder: seq<Entry>, firstNumber: nat, ghost kept: seq<Entry>,
                          ghost seen: seq<Entry>)
    returns (r: Level)
    requires builder != [] && OutputSoFar(outputs, builder, kept, seen, firstNumber)
    ensures OutputSoFar(r, [], kept, seen, firstNumber)
  {
    var size: nat :| size >= |builder|;
    assert FileOk(TableFile(firstNumber + |outputs|, size, builder));
    var f: File := TableFile(firstNumber + |outputs|, size, builder);
    ConcatAppend(outputs, f);
    r := outputs + [f];
  }

  /** Reading one more entry, kept or not. */
  lemma GrowOutput(input: seq<Entry>, i: nat, outputs: Level, builder: seq<Entry>, kept: seq<Entry>, first: nat)
    requires Sorted(input) && SequencesFit(input) && i < |input|
    requires OutputSoFar(outputs, builder, kept, input[..i], first)
    ensures OutputSoFar(outputs, builder + [input[i]], kept + [input[i]], input[..i + 1], first)
    ensures OutputSoFar(outputs, builder, kept + [], input[..i + 1], first)
  {
    var longer := builder + [input[i]];
    assert input[..i + 1] == input[..i] + [input[i]];
    assert Concat(outputs) + longer == Concat(outputs) + builder + [input[i]];
    forall a, b
      ensures InOrder(longer, a, b)
    {
      if 0 <= a < b < |builder| {
        assert InOrder(builder, a, b);
      } else if 0 <= a < |builder| {
        assert builder[a] in input[..i];
        var j :| 0 <= j < i && input[j] == builder[a];
        assert InOrder(input, j, i);
      }
    }
  }
}
