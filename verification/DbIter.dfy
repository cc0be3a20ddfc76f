/**
 DBIter: the user-facing iterator over internal entries (db/db_iter.cc). It folds the entries of each user key into
 the newest one its snapshot sees, skips deletions, and can reverse direction at any point.
 */
module DbIter {
  import opened UserKeys
  import opened DbFormat
  import opened Multimap
  import opened VersionGet
  import opened Iterators

  // ----- what the iterator should show -----

  ghost predicate Sees(es: seq<Entry>, snap: nat, i: int) {
    0 <= i < |es| && es[i].sn <= snap
  }

  /** Entry `i` is the newest visible entry of its user key, and a value. */
  ghost predicate Live(es: seq<Entry>, snap: nat, i: int) {
    && Sees(es, snap, i) && es[i].op.Put?
    && forall j :: 0 <= j < i && es[j].key == es[i].key ==> !Sees(es, snap, j)
  }

  ghost predicate NoneLive(es: seq<Entry>, snap: nat, lo: int, hi: int) {
    forall i :: lo <= i < hi ==> !Live(es, snap, i)
  }

  /** What a reader of the same snapshot gets for a user key. */
  ghost function Value(es: seq<Entry>, snap: nat, k: UserKey): ReadResult {
    Read(Elements(es), k, snap)
  }

  lemma SortedKeys(es: seq<Entry>, i: int, j: int)
    requires Sorted(es) && 0 <= i <= j < |es|
    ensures es[i].key <= es[j].key
    ensures i < j && es[i].key == es[j].key ==> es[i].sn > es[j].sn
  {
    assert InOrder(es, i, j);
  }

  /** A live entry carries the value its key reads as. */
  lemma LiveIsValue(es: seq<Entry>, snap: nat, i: int)
    requires Sorted(es) && Live(es, snap, i)
    ensures Value(es, snap, es[i].key) == Found(es[i].op.value)
  {
    UniqueInRun(es);
    forall e | Visible(Elements(es), es[i].key, snap, e)
      ensures e.sn <= es[i].sn
    {
      var j :| 0 <= j < |es| && es[j] == e;
      assert j < i ==> !Sees(es, snap, j);
      if i <= j {
        SortedKeys(es, i, j);
      }
    }
    assert Newest(Elements(es), es[i].key, snap, es[i]);
    ReadNewest(Elements(es), es[i].key, snap, es[i]);
  }

  /** Every key that reads as a value has a live entry. */
  lemma ValueIsLive(es: seq<Entry>, snap: nat, k: UserKey) returns (i: nat)
    requires Sorted(es) && Value(es, snap, k).Found?
    ensures Live(es, snap, i) && es[i].key == k
  {
    UniqueInRun(es);
    if NothingVisible(Elements(es), k, snap) {
      ReadAbsent(Elements(es), k, snap);
    }
    var e :| Visible(Elements(es), k, snap, e);
    var n := NewestExists(Elements(es), k, snap, e);
    ReadNewest(Elements(es), k, snap, n);
    i :| 0 <= i < |es| && es[i] == n;
    forall j | 0 <= j < i && es[j].key == es[i].key
      ensures !Sees(es, snap, j)
    {
      SortedKeys(es, j, i);
      assert Visible(Elements(es), k, snap, es[j]) <==> Sees(es, snap, j);
    }
  }

  /** The smallest key from `lo` on (or past `lo`) that reads as a value is `k`, with value `v`. */
  ghost predicate IsNextKey(es: seq<Entry>, snap: nat, lo: UserKey, past: bool, k: UserKey, v: Value) {
    && (lo < k || (lo == k && !past)) && Value(es, snap, k) == Found(v)
    && forall k' :: (lo < k' || (lo == k' && !past)) && k' < k ==> Value(es, snap, k') == NotFound
  }

  ghost predicate NoNextKey(es: seq<Entry>, snap: nat, lo: UserKey, past: bool) {
    forall k' :: (lo < k' || (lo == k' && !past)) ==> Value(es, snap, k') == NotFound
  }

  ghost predicate IsPrevKey(es: seq<Entry>, snap: nat, hi: UserKey, k: UserKey, v: Value) {
    && k < hi && Value(es, snap, k) == Found(v)
    && forall k' :: k < k' < hi ==> Value(es, snap, k') == NotFound
  }

  ghost predicate NoPrevKey(es: seq<Entry>, snap: nat, hi: UserKey) {
    forall k' :: k' < hi ==> Value(es, snap, k') == NotFound
  }

  ghost predicate IsFirstKey(es: seq<Entry>, snap: nat, k: UserKey, v: Value) {
    Value(es, snap, k) == Found(v) && NoPrevKey(es, snap, k)
  }

  ghost predicate IsLastKey(es: seq<Entry>, snap: nat, k: UserKey, v: Value) {
    Value(es, snap, k) == Found(v) && NoNextKey(es, snap, k, true)
  }

  ghost predicate NoKey(es: seq<Entry>, snap: nat) {
    forall k :: Value(es, snap, k) == NotFound
  }

  // ----- from positions to keys -----

  lemma NoLiveNoValue(es: seq<Entry>, snap: nat, k: UserKey)
    requires Sorted(es) && forall i :: Live(es, snap, i) ==> es[i].key != k
    ensures Value(es, snap, k) == NotFound
  {
    if Value(es, snap, k).Found? {
      var i := ValueIsLive(es, snap, k);
    }
  }

  /** `lo` is a position from which exactly the keys from `from` on (or past it) remain to be shown. */
  ghost predicate StartsAt(es: seq<Entry>, snap: nat, lo: int, from: UserKey, past: bool) {
    forall i :: Live(es, snap, i) ==> (lo <= i <==> from < es[i].key || (from == es[i].key && !past))
  }

  lemma NextLiveIsNextKey(es: seq<Entry>, snap: nat, lo: int, from: UserKey, past: bool, n: int)
    requires Sorted(es) && StartsAt(es, snap, lo, from, past)
    requires lo <= n && NoneLive(es, snap, lo, n)
    ensures Live(es, snap, n) ==> IsNextKey(es, snap, from, past, es[n].key, es[n].op.value)
    ensures n >= |es| ==> NoNextKey(es, snap, from, past)
  {
    if Live(es, snap, n) {
      LiveIsValue(es, snap, n);
    }
    forall k | (from < k || (from == k && !past)) && (n >= |es| || (Live(es, snap, n) && k < es[n].key))
      ensures Value(es, snap, k) == NotFound
    {
      forall i | Live(es, snap, i)
        ensures es[i].key != k
      {
        if n < |es| && n <= i {
          SortedKeys(es, n, i);
        }
      }
      NoLiveNoValue(es, snap, k);
    }
  }

  lemma PrevLiveIsPrevKey(es: seq<Entry>, snap: nat, cur: int, n: int)
    requires Sorted(es) && Live(es, snap, cur) && n < cur && NoneLive(es, snap, n + 1, cur)
    ensures Live(es, snap, n) ==> IsPrevKey(es, snap, es[cur].key, es[n].key, es[n].op.value)
    ensures n < 0 ==> NoPrevKey(es, snap, es[cur].key)
  {
    if Live(es, snap, n) {
      LiveIsValue(es, snap, n);
      LiveKeysDiffer(es, snap, n, cur);
    }
    forall k | k < es[cur].key && (n < 0 || (Live(es, snap, n) && es[n].key < k))
      ensures Value(es, snap, k) == NotFound
    {
      forall i | Live(es, snap, i)
        ensures es[i].key != k
      {
        if cur <= i {
          SortedKeys(es, cur, i);
        } else if 0 <= i <= n {
          SortedKeys(es, i, n);
        }
      }
      NoLiveNoValue(es, snap, k);
    }
  }

  lemma LiveKeysDiffer(es: seq<Entry>, snap: nat, i: int, j: int)
    requires Sorted(es) && Live(es, snap, i) && Live(es, snap, j) && i < j
    ensures es[i].key < es[j].key
  {
    SortedKeys(es, i, j);
    assert es[i].key == es[j].key ==> !Sees(es, snap, i);
  }

  lemma AfterLive(es: seq<Entry>, snap: nat, cur: int)
    requires Sorted(es) && Live(es, snap, cur)
    ensures StartsAt(es, snap, cur + 1, es[cur].key, true)
  {
    forall i | Live(es, snap, i)
      ensures cur + 1 <= i <==> es[cur].key < es[i].key
    {
      if cur < i {
        LiveKeysDiffer(es, snap, cur, i);
      } else if i < cur {
        LiveKeysDiffer(es, snap, i, cur);
      }
    }
  }

  /** A seek to (target, snapshot) starts at the first entry of the target's key that the snapshot sees, or later. */
  lemma AfterSeek(es: seq<Entry>, snap: nat, target: UserKey)
    requires Sorted(es)
    ensures StartsAt(es, snap, SeekIndex(es, LookupKey(target, snap)), target, false)
  {
    var p := SeekIndex(es, LookupKey(target, snap));
    forall i | Live(es, snap, i)
      ensures p <= i <==> target <= es[i].key
    {
      if p <= i {
        SortedKeys(es, p, i);
      }
    }
  }

  // ----- the iterator -----

  /** The key of the empty byte string; what clearing the saved key leaves behind. */
  const EMPTY_KEY: UserKey := 0.0

  /** Between position `q` and live entry `cur`, readers of the snapshot see nothing. */
  ghost predicate NothingSeenBetween(es: seq<Entry>, snap: nat, q: int, cur: int) {
    forall j :: q < j < cur ==> !Sees(es, snap, j)
  }

  class DBIter {
    const iter: InternalIterator
    const sequence: nat
    var savedKey: UserKey
    var savedValue: DbFormat.Value
    var direction: Direction
    var valid: bool
    ghost var cur: nat

    /**
     `cur` is the live entry shown. Moving forward, the internal iterator stands on it; moving backwards, it stands
     on the last visible entry of a smaller key, and key and value are saved.
     */
    ghost predicate Valid()
      reads this, iter
    {
      && Sorted(iter.entries)
      && (valid ==> Live(iter.entries, sequence, cur))
      && (valid && direction.Forward? ==> iter.pos == cur)
      && (valid && direction.Reverse? ==>
            && savedKey == iter.entries[cur].key && savedValue == iter.entries[cur].op.value
            && StandsBefore(iter.entries, sequence, iter.pos, cur))
    }

    constructor (it: InternalIterator, snap: nat)
      requires Sorted(it.entries)
      ensures Valid() && !valid && iter == it && sequence == snap
    {
      iter, sequence := it, snap;
      savedKey, savedValue := EMPTY_KEY, [];
      direction, valid, cur := Forward, false, 0;
    }

    function Key(): UserKey
      requires Valid() && valid
      reads this, iter
    {
      if direction.Forward? then iter.entries[iter.pos].key else savedKey
    }

    function CurrentValue(): DbFormat.Value
      requires Valid() && valid
      reads this, iter
    {
      if direction.Forward? then iter.entries[iter.pos].op.value else savedValue
    }

    /** Skips forward to the first live entry from the current position on whose key is past `skip`. */
    method FindNextUserEntry(skipping0: bool, skip0: UserKey)
      requires Sorted(iter.entries) && iter.Valid() && direction.Forward?
      requires CanSkip(iter.entries, sequence, iter.pos, skipping0, skip0)
      modifies this, iter`pos
      ensures Valid() && direction.Forward?
      ensures valid ==> old(iter.pos) <= cur && (skipping0 ==> skip0 < iter.entries[cur].key)
      ensures NoneLivePast(iter.entries, sequence, old(iter.pos), if valid then cur else |iter.entries|, skipping0,
              skip0)
    {
      ghost var es, start := iter.entries, iter.pos;
      var skipping, skip := skipping0, skip0;
      while true
        invariant iter.Valid() && direction.Forward? && start <= iter.pos
        invariant CanSkip(es, sequence, iter.pos, skipping, skip)
        invariant skipping0 ==> skipping && skip0 <= skip
        invariant NoneLivePast(es, sequence, start, iter.pos, skipping0, skip0)
        invariant skipping ==> SkipsOnlyDead(es, sequence, iter.pos, skip, skipping0, skip0)
        decreases |es| - iter.pos
      {
        var ikey := iter.entries[iter.pos];
        if ikey.sn <= sequence {
          match ikey.op {
            case Delete =>
              DeletionHides(es, sequence, iter.pos, skipping, skip, skipping0, skip0);
              skip, skipping := ikey.key, true;
            case Put(v) =>
              if skipping && ikey.key <= skip {
              } else {
                FirstOfItsKey(es, sequence, iter.pos, skipping, skip);
                valid, savedKey, cur := true, EMPTY_KEY, iter.pos;
                return;
              }
          }
        }
        PassEntry(es, sequence, start, iter.pos, skipping, skip, skipping0, skip0);
        iter.Next();
        if !iter.Valid() {
          break;
        }
      }
      savedKey, valid := EMPTY_KEY, false;
    }

    /** Advances to the next larger key with a value. */
    method Next()
      requires Valid() && valid
      modifies this, iter`pos
      ensures Valid()
      ensures valid ==> IsNextKey(iter.entries, sequence, old(Key()), true, Key(), CurrentValue())
      ensures !valid ==> NoNextKey(iter.entries, sequence, old(Key()), true)
    {
      ghost var es, from := iter.entries, cur;
      if direction.Reverse? {
        direction := Forward;
        StepIntoRun(es, sequence, iter.pos, cur);
        if !iter.Valid() {
          iter.SeekToFirst();
        } else {
          iter.Next();
        }
      } else {
        savedKey := iter.entries[iter.pos].key;
        SkipOwnRun(es, sequence, iter.pos);
      }
      ghost var start := iter.pos;
      FindNextUserEntry(true, savedKey);
      AfterLive(es, sequence, from);
      PastIsAfter(es, sequence, from, start, if valid then cur else |es|);
      NextLiveIsNextKey(es, sequence, from + 1, es[from].key, true, if valid then cur else |es|);
    }

    /** Moves backwards past one key: collects the newest visible entry of each key until one is a value. */
    method FindPrevUserEntry()
      requires Sorted(iter.entries) && direction.Reverse?
      modifies this, iter`pos
      ensures Valid()
      ensures valid ==> direction.Reverse? && cur <= Reached(iter.entries, old(iter.pos))
      ensures NoneLive(iter.entries, sequence, if valid then cur + 1 else 0, Reached(iter.entries, old(iter.pos)) + 1)
    {
      ghost var es, start := iter.entries, Reached(iter.entries, iter.pos);
      var isValue := false;
      ghost var c := 0;
      if iter.Valid() {
        while true
          invariant iter.Valid() && iter.pos <= start && direction.Reverse?
          invariant !isValue ==> NoneLive(es, sequence, iter.pos + 1, start + 1)
          invariant isValue ==> Candidate(es, sequence, iter.pos, start, c, savedKey, savedValue)
          decreases iter.pos
        {
          var ikey := iter.entries[iter.pos];
          if ikey.sn <= sequence {
            if isValue && ikey.key < savedKey {
              break;
            }
            StepBackOver(es, sequence, iter.pos, start, isValue, c, savedKey, savedValue);
            isValue := ikey.op.Put?;
            if !isValue {
              savedKey, savedValue := EMPTY_KEY, [];
            } else {
              savedKey, savedValue := ikey.key, ikey.op.value;
              c := iter.pos;
            }
          } else {
            StepBackOver(es, sequence, iter.pos, start, isValue, c, savedKey, savedValue);
          }
          iter.Prev();
          if !iter.Valid() {
            break;
          }
        }
      }
      if !isValue {
        valid, savedKey, savedValue, direction := false, EMPTY_KEY, [], Forward;
      } else {
        CandidateIsLive(es, sequence, Reached(es, iter.pos), start, c, savedKey, savedValue);
        valid, cur := true, c;
      }
    }

    /** Steps back to the next smaller key with a value. */
    method Prev()
      requires Valid() && valid
      modifies this, iter`pos
      ensures Valid()
      ensures valid ==> IsPrevKey(iter.entries, sequence, old(Key()), Key(), CurrentValue())
      ensures !valid ==> NoPrevKey(iter.entries, sequence, old(Key()))
    {
      ghost var es, from := iter.entries, cur;
      if direction.Forward? {
        savedKey := iter.entries[iter.pos].key;
        while true
          invariant iter.Valid() && iter.pos <= from
          invariant forall j :: iter.pos <= j <= from ==> es[j].key == savedKey
          decreases iter.pos
        {
          iter.Prev();
          if !iter.Valid() {
            valid, savedKey, savedValue := false, EMPTY_KEY, [];
            PrevLiveIsPrevKey(es, sequence, from, -1);
            return;
          }
          SortedKeys(es, iter.pos, from);
          if iter.entries[iter.pos].key < savedKey {
            break;
          }
        }
        direction := Reverse;
      }
      ghost var start := Reached(es, iter.pos);
      FindPrevUserEntry();
      PrevLiveIsPrevKey(es, sequence, from, if valid then cur else -1);
    }

    /** Positions at the smallest key at or after the target that has a value. */
    method Seek(target: UserKey)
      requires Valid()
      modifies this, iter`pos
      ensures Valid()
      ensures valid ==> IsNextKey(iter.entries, sequence, target, false, Key(), CurrentValue())
      ensures !valid ==> NoNextKey(iter.entries, sequence, target, false)
    {
      ghost var es := iter.entries;
      direction, savedValue := Forward, [];
      savedKey := target;
      iter.Seek(LookupKey(target, sequence));
      ghost var start := iter.pos;
      AfterSeek(es, sequence, target);
      if iter.Valid() {
        SeekCanStart(es, sequence, target);
        FindNextUserEntry(false, savedKey);
      } else {
        valid := false;
      }
      NextLiveIsNextKey(es, sequence, start, target, false, if valid then cur else |es|);
    }

    method SeekToFirst()
      requires Valid()
      modifies this, iter`pos
      ensures Valid()
      ensures valid ==> IsFirstKey(iter.entries, sequence, Key(), CurrentValue())
      ensures !valid ==> NoKey(iter.entries, sequence)
    {
      direction, savedValue := Forward, [];
      iter.SeekToFirst();
      if iter.Valid() {
        FindNextUserEntry(false, savedKey);
      } else {
        valid := false;
      }
      FirstLiveIsFirstKey(iter.entries, sequence, if valid then cur else |iter.entries|);
    }

    method SeekToLast()
      requires Valid()
      modifies this, iter`pos
      ensures Valid()
      ensures valid ==> IsLastKey(iter.entries, sequence, Key(), CurrentValue())
      ensures !valid ==> NoKey(iter.entries, sequence)
    {
      direction, savedValue := Reverse, [];
      iter.SeekToLast();
      FindPrevUserEntry();
      LastLiveIsLastKey(iter.entries, sequence, if valid then cur else -1);
    }
  }

  // ----- moving forward -----

  /** Nothing visible lies before the position in its own runs, except what skipping will hide. */
  ghost predicate CanSkip(es: seq<Entry>, snap: nat, p: int, skipping: bool, skip: UserKey) {
    && (forall j, i :: 0 <= j < p <= i < |es| && es[j].key == es[i].key && Sees(es, snap, j)
                       ==> skipping && es[i].key <= skip)
    && (skipping ==> forall i :: p <= i && Sees(es, snap, i) ==> skip <= es[i].key)
  }

  /** No live entry in [lo, hi) except ones the caller asked to skip. */
  ghost predicate NoneLivePast(es: seq<Entry>, snap: nat, lo: int, hi: int, skipping0: bool, skip0: UserKey) {
    forall i :: lo <= i < hi && Live(es, snap, i) ==> skipping0 && es[i].key <= skip0
  }

  ghost predicate SkipsOnlyDead(es: seq<Entry>, snap: nat, p: int, skip: UserKey, skipping0: bool, skip0: UserKey) {
    forall i :: p <= i && Live(es, snap, i) && es[i].key <= skip ==> skipping0 && es[i].key <= skip0
  }

  lemma DeletionHides(es: seq<Entry>, snap: nat, p: int, skipping: bool, skip: UserKey, skipping0: bool, skip0: UserKey)
    requires Sorted(es) && Sees(es, snap, p) && es[p].op.Delete?
    requires CanSkip(es, snap, p, skipping, skip)
    requires skipping ==> SkipsOnlyDead(es, snap, p, skip, skipping0, skip0)
    ensures CanSkip(es, snap, p, true, es[p].key)
    ensures SkipsOnlyDead(es, snap, p, es[p].key, skipping0, skip0)
    ensures skipping ==> skip <= es[p].key
  {
    forall i | p <= i && Sees(es, snap, i)
      ensures es[p].key <= es[i].key
    {
      SortedKeys(es, p, i);
    }
    forall j, i | 0 <= j < p <= i < |es| && es[j].key == es[i].key && Sees(es, snap, j)
      ensures es[i].key <= es[p].key
    {
      SortedKeys(es, j, p);
      SortedKeys(es, p, i);
    }
  }

  lemma FirstOfItsKey(es: seq<Entry>, snap: nat, p: int, skipping: bool, skip: UserKey)
    requires CanSkip(es, snap, p, skipping, skip) && Sees(es, snap, p) && es[p].op.Put?
    requires !(skipping && es[p].key <= skip)
    ensures Live(es, snap, p)
  {
  }

  lemma PassEntry(es: seq<Entry>, snap: nat, start: int, p: int, skipping: bool, skip: UserKey, skipping0: bool,
                  skip0: UserKey)
    requires Sorted(es) && 0 <= start <= p < |es| && CanSkip(es, snap, p, skipping, skip)
    requires NoneLivePast(es, snap, start, p, skipping0, skip0)
    requires skipping ==> SkipsOnlyDead(es, snap, p, skip, skipping0, skip0)
    requires Sees(es, snap, p) ==> skipping && es[p].key <= skip
    ensures CanSkip(es, snap, p + 1, skipping, skip)
    ensures NoneLivePast(es, snap, start, p + 1, skipping0, skip0)
    ensures skipping ==> SkipsOnlyDead(es, snap, p + 1, skip, skipping0, skip0)
  {
  }

  lemma SkipOwnRun(es: seq<Entry>, snap: nat, p: int)
    requires Sorted(es) && Live(es, snap, p)
    ensures CanSkip(es, snap, p, true, es[p].key)
    ensures SkipsOnlyDead(es, snap, p, es[p].key, true, es[p].key)
  {
    forall j | 0 <= j < p
      ensures es[j].key <= es[p].key
    {
      SortedKeys(es, j, p);
    }
    forall i | p <= i < |es|
      ensures es[p].key <= es[i].key
    {
      SortedKeys(es, p, i);
    }
  }

  lemma SeekCanStart(es: seq<Entry>, snap: nat, target: UserKey)
    requires Sorted(es)
    ensures CanSkip(es, snap, SeekIndex(es, LookupKey(target, snap)), false, target)
  {
    var p := SeekIndex(es, LookupKey(target, snap));
    forall j, i | 0 <= j < p <= i < |es| && es[j].key == es[i].key
      ensures !Sees(es, snap, j)
    {
      SortedKeys(es, p, i);
    }
  }

  /** From the reverse position one step leads into the run of the current key or to invisible entries before it. */
  lemma StepIntoRun(es: seq<Entry>, snap: nat, pos: nat, cur: int)
    requires Sorted(es) && Live(es, snap, cur) && StandsBefore(es, snap, pos, cur)
    ensures var p := Reached(es, pos) + 1;
            && 0 <= p <= cur
            && CanSkip(es, snap, p, true, es[cur].key)
            && SkipsOnlyDead(es, snap, p, es[cur].key, true, es[cur].key)
  {
    var p := Reached(es, pos) + 1;
    forall i | p <= i && Sees(es, snap, i)
      ensures es[cur].key <= es[i].key
    {
      if cur <= i {
        SortedKeys(es, cur, i);
      }
    }
    forall j, i | 0 <= j < p <= i < |es| && es[j].key == es[i].key && Sees(es, snap, j)
      ensures es[i].key <= es[cur].key
    {
      SortedKeys(es, j, p - 1);
    }
  }

  ghost predicate StandsBefore(es: seq<Entry>, snap: nat, pos: nat, cur: int) {
    var q := Reached(es, pos);
    && q < cur < |es| && (q >= 0 ==> es[q].key < es[cur].key)
    && NothingSeenBetween(es, snap, q, cur)
  }

  /** Skipping past the current key from anywhere at or before its entry finds what lies after it. */
  lemma PastIsAfter(es: seq<Entry>, snap: nat, cur: int, start: int, n: int)
    requires Sorted(es) && Live(es, snap, cur) && start <= cur
    requires NoneLivePast(es, snap, start, n, true, es[cur].key)
    requires n >= |es| || (Live(es, snap, n) && es[cur].key < es[n].key)
    ensures cur + 1 <= n && NoneLive(es, snap, cur + 1, n)
  {
    if n < |es| && n <= cur {
      SortedKeys(es, n, cur);
    }
    forall i | cur + 1 <= i < n
      ensures !Live(es, snap, i)
    {
      if Live(es, snap, i) {
        LiveKeysDiffer(es, snap, cur, i);
      }
    }
  }

  lemma FirstLiveIsFirstKey(es: seq<Entry>, snap: nat, n: int)
    requires Sorted(es) && 0 <= n && NoneLive(es, snap, 0, n)
    ensures Live(es, snap, n) ==> IsFirstKey(es, snap, es[n].key, es[n].op.value)
    ensures n >= |es| ==> NoKey(es, snap)
  {
    if Live(es, snap, n) {
      LiveIsValue(es, snap, n);
    }
    forall k | n >= |es| || (Live(es, snap, n) && k < es[n].key)
      ensures Value(es, snap, k) == NotFound
    {
      forall i | Live(es, snap, i)
        ensures es[i].key != k
      {
        SortedKeys(es, n, i);
      }
      NoLiveNoValue(es, snap, k);
    }
  }

  // ----- moving backwards -----

  /**
   After scanning (p, start], `c` holds the only entry that can be live: the newest visible one seen of the smallest
   visible key, saved with its value.
   */
  ghost predicate Candidate(es: seq<Entry>, snap: nat, p: int, start: int, c: int, key: UserKey,
                            value: DbFormat.Value)
  {
    && p < c <= start < |es| && Sees(es, snap, c) && es[c].op == Put(value) && es[c].key == key
    && (forall i :: p < i < c ==> !Sees(es, snap, i))
    && NoneLive(es, snap, c + 1, start + 1)
  }

  /** Scanning one more entry, visible or not, that does not end the search. */
  lemma StepBackOver(es: seq<Entry>, snap: nat, p: int, start: int, isValue: bool, c: int, key: UserKey,
                     value: DbFormat.Value)
    requires Sorted(es) && 0 <= p <= start < |es|
    requires !isValue ==> NoneLive(es, snap, p + 1, start + 1)
    requires isValue ==> Candidate(es, snap, p, start, c, key, value)
    requires isValue && Sees(es, snap, p) ==> key <= es[p].key
    ensures Sees(es, snap, p) && es[p].op.Put? ==> Candidate(es, snap, p - 1, start, p, es[p].key, es[p].op.value)
    ensures Sees(es, snap, p) && es[p].op.Delete? ==> NoneLive(es, snap, p, start + 1)
    ensures !Sees(es, snap, p) && isValue ==> Candidate(es, snap, p - 1, start, c, key, value)
    ensures !Sees(es, snap, p) && !isValue ==> NoneLive(es, snap, p, start + 1)
  {
    if isValue && Sees(es, snap, p) {
      SortedKeys(es, p, c);
      assert !Live(es, snap, c);
    }
  }

  lemma CandidateIsLive(es: seq<Entry>, snap: nat, q: int, start: int, c: int, key: UserKey, value: DbFormat.Value)
    requires Sorted(es) && -1 <= q && Candidate(es, snap, q, start, c, key, value)
    requires q >= 0 ==> es[q].key < key
    ensures Live(es, snap, c)
    ensures NothingSeenBetween(es, snap, q, c)
  {
    forall j | 0 <= j < c && es[j].key == es[c].key
      ensures !Sees(es, snap, j)
    {
      if j <= q {
        SortedKeys(es, j, q);
      }
    }
  }

  lemma LastLiveIsLastKey(es: seq<Entry>, snap: nat, n: int)
    requires Sorted(es) && n < |es| && NoneLive(es, snap, n + 1, |es|)
    ensures Live(es, snap, n) ==> IsLastKey(es, snap, es[n].key, es[n].op.value)
    ensures n < 0 ==> NoKey(es, snap)
  {
    if Live(es, snap, n) {
      LiveIsValue(es, snap, n);
    }
    forall k | n < 0 || (Live(es, snap, n) && es[n].key < k)
      ensures Value(es, snap, k) == NotFound
    {
      forall i | Live(es, snap, i)
        ensures es[i].key != k
      {
        if 0 <= i <= n {
          SortedKeys(es, i, n);
        }
      }
      NoLiveNoValue(es, snap, k);
    }
  }
}
