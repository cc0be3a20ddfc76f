/**
 The meaning of the whole engine: a set of entries in which, for a user key and a snapshot, the newest entry
 whose sequence number does not exceed the snapshot wins. Everything else is measured against `Read`.
 */
module Multimap {
  import opened UserKeys
  import opened DbFormat

  /** What DB::Get returns: both a deletion and the absence of entries are NotFound. */
  datatype ReadResult = NotFound | Found(value: Value)

  ghost predicate Visible(es: set<Entry>, k: UserKey, snap: nat, e: Entry) {
    e in es && e.key == k && e.sn <= snap
  }

  ghost predicate NothingVisible(es: set<Entry>, k: UserKey, snap: nat) {
    forall e :: !Visible(es, k, snap, e)
  }

  ghost predicate Newest(es: set<Entry>, k: UserKey, snap: nat, e: Entry) {
    Visible(es, k, snap, e) && forall f :: Visible(es, k, snap, f) ==> f.sn <= e.sn
  }

  ghost function ResultOf(e: Entry): ReadResult {
    match e.op
    case Delete => NotFound
    case Put(v) => Found(v)
  }

  ghost function Read(es: set<Entry>, k: UserKey, snap: nat): ReadResult {
    if exists e :: Newest(es, k, snap, e) then
      var e :| Newest(es, k, snap, e);
      ResultOf(e)
    else NotFound
  }

  /** No two entries of one user key share a sequence number. */
  ghost predicate UniqueSequences(es: set<Entry>) {
    forall a, b :: a in es && b in es && a.key == b.key && a.sn == b.sn ==> a == b
  }

  ghost function Elements(es: seq<Entry>): set<Entry> {
    set e | e in es
  }

  lemma UniqueInRun(es: seq<Entry>)
    requires Sorted(es)
    ensures UniqueSequences(Elements(es))
  {
    forall a, b | a in es && b in es && a.key == b.key && a.sn == b.sn
      ensures a == b
    {
      var i :| 0 <= i < |es| && es[i] == a;
      var j :| 0 <= j < |es| && es[j] == b;
      assert InOrder(es, i, j) && InOrder(es, j, i);
    }
  }

  lemma ReadNewest(es: set<Entry>, k: UserKey, snap: nat, e: Entry)
    requires UniqueSequences(es) && Newest(es, k, snap, e)
    ensures Read(es, k, snap) == ResultOf(e)
  {
    forall f | Newest(es, k, snap, f)
      ensures f == e
    {
      assert Visible(es, k, snap, e) && Visible(es, k, snap, f);
    }
  }

  /** A visible entry implies a newest one: the set is finite. */
  lemma {:induction false} NewestExists(es: set<Entry>, k: UserKey, snap: nat, e: Entry) returns (n: Entry)
    requires Visible(es, k, snap, e)
    ensures Newest(es, k, snap, n)
    decreases snap - e.sn
  {
    if f :| Visible(es, k, snap, f) && f.sn > e.sn {
      n := NewestExists(es, k, snap, f);
    } else {
      n := e;
    }
  }

  lemma ReadAbsent(es: set<Entry>, k: UserKey, snap: nat)
    requires NothingVisible(es, k, snap)
    ensures Read(es, k, snap) == NotFound
  {
    forall e ensures !Newest(es, k, snap, e) {
      assert !Visible(es, k, snap, e);
    }
  }

  /**
   Entries in `shallow` are newer than those of the same key in `deep`, as every layer of the engine is newer
   than the layers behind it.
   */
  ghost predicate NewerThan(shallow: set<Entry>, deep: set<Entry>) {
    forall a, b :: a in shallow && b in deep && a.key == b.key ==> a.sn > b.sn
  }

  /** Stopping at the first layer that answers is right: a newest entry of the shallow layer is newest overall. */
  lemma ShallowWins(shallow: set<Entry>, deep: set<Entry>, k: UserKey, snap: nat, e: Entry)
    requires NewerThan(shallow, deep) && Newest(shallow, k, snap, e)
    ensures Newest(shallow + deep, k, snap, e)
  {
    forall f | Visible(shallow + deep, k, snap, f)
      ensures f.sn <= e.sn
    {
      if f in shallow {
        assert Visible(shallow, k, snap, f);
      }
    }
  }

  lemma UniqueUnion(shallow: set<Entry>, deep: set<Entry>)
    requires NewerThan(shallow, deep) && UniqueSequences(shallow) && UniqueSequences(deep)
    ensures UniqueSequences(shallow + deep)
  {
  }

  /** A layer with nothing visible does not change what the layers behind it answer. */
  lemma InvisibleLayer(shallow: set<Entry>, deep: set<Entry>, k: UserKey, snap: nat)
    requires UniqueSequences(shallow + deep)
    requires NothingVisible(shallow, k, snap)
    ensures Read(shallow + deep, k, snap) == Read(deep, k, snap)
  {
    forall e
      ensures Visible(shallow + deep, k, snap, e) <==> Visible(deep, k, snap, e)
    {
      assert !Visible(shallow, k, snap, e);
    }
    SameNewest(shallow + deep, deep, k, snap);
  }

  lemma SameNewest(xs: set<Entry>, ys: set<Entry>, k: UserKey, snap: nat)
    requires UniqueSequences(xs) && UniqueSequences(ys)
    requires forall e :: Visible(xs, k, snap, e) <==> Visible(ys, k, snap, e)
    ensures Read(xs, k, snap) == Read(ys, k, snap)
  {
    if e :| Visible(xs, k, snap, e) {
      var n := NewestExists(xs, k, snap, e);
      assert Newest(ys, k, snap, n) by {
        assert Visible(ys, k, snap, n);
      }
      ReadNewest(xs, k, snap, n);
      ReadNewest(ys, k, snap, n);
    } else {
      ReadAbsent(xs, k, snap);
      ReadAbsent(ys, k, snap);
    }
  }
}
