/**
 Least recently used first: over any sequence of calls, eviction takes entries in the order in which clients last gave
 them back (util/cache.cc:149-333).
 */
module LruOrder {
  import opened Sequences
  import opened LruCaches

  /** What the calls do to the lists: Lookup, Insert before and after evicting, Release, Erase. */
  datatype Use = Look(e: nat) | Enter(e: nat, caching: bool, replaced: int) | Evict(n: nat) | GiveBack(e: nat)
               | Remove(found: int)

  ghost predicate CanHappen(v: View, u: Use) {
    match u
    case Look(e) => e in Cached(v)
    case Enter(e, _, _) => e !in Cached(v) && v.held[e] == 0
    case Evict(n) => n <= |v.lru|
    case GiveBack(e) => v.held[e] > 0
    case Remove(_) => true
  }

  ghost function After(v: View, u: Use): View
    requires CanHappen(v, u)
  {
    match u
    case Look(e) => Referenced(v, e)
    case Enter(e, caching, replaced) => Placed(v, e, caching, replaced)
    case Evict(n) => Evicted(v, n)
    case GiveBack(e) => Released(v, e)
    case Remove(e) => Dropped(v, e)
  }

  /** From an empty cache. */
  ghost predicate IsRun(views: seq<View>, uses: seq<Use>) {
    && |views| == |uses| + 1 && views[0] == View([], [], multiset{}, [])
    && forall i :: 0 <= i < |uses| ==> Happens(views, uses, i)
  }

  ghost predicate Happens(views: seq<View>, uses: seq<Use>, i: int) {
    0 <= i < |uses| && i + 1 < |views| && CanHappen(views[i], uses[i]) && views[i + 1] == After(views[i], uses[i])
  }

  /** When the handle was last given back among the first `n` calls, counted from 1; 0 if never. */
  function LastGivenBack(uses: seq<Use>, n: nat, e: nat): (t: nat)
    requires n <= |uses|
    ensures t <= n && (t > 0 ==> uses[t - 1] == GiveBack(e))
    ensures forall i :: t <= i < n ==> uses[i] != GiveBack(e)
  {
    if n == 0 then 0 else if uses[n - 1] == GiveBack(e) then n else LastGivenBack(uses, n - 1, e)
  }

  ghost predicate Earlier(uses: seq<Use>, n: nat, a: nat, b: nat)
    requires n <= |uses|
  {
    LastGivenBack(uses, n, a) < LastGivenBack(uses, n, b)
  }

  /** The list of entries that nobody holds is in the order of the last calls that gave them back. */
  ghost predicate InOrder(v: View, uses: seq<Use>, n: nat)
    requires n <= |uses|
  {
    ListInOrder(v.lru, uses, n)
  }

  ghost predicate ListInOrder(s: seq<nat>, uses: seq<Use>, n: nat)
    requires n <= |uses|
  {
    forall i, j :: 0 <= i < j < |s| ==> Earlier(uses, n, s[i], s[j])
  }

  ghost predicate Apart(v: View) {
    NoRepeats(v.lru) && NoRepeats(v.inUse) && forall e :: e in v.lru ==> e !in v.inUse && v.held[e] == 0
  }

  lemma RemovedHas(s: seq<nat>, k: nat)
    requires k < |s| && NoRepeats(s)
    ensures NoRepeats(Removed(s, k)) && forall e :: e in Removed(s, k) <==> e in s && e != s[k]
  {
    var r := Removed(s, k);
    forall e
      ensures e in r <==> e in s && e != s[k]
    {
      if i :| 0 <= i < |s| && s[i] == e && i != k {
        assert r[if i < k then i else i - 1] == e;
      }
    }
  }

  lemma WithoutEntryApart(v: View, e: nat)
    requires Apart(v) && e in Cached(v)
    ensures Apart(WithoutEntry(v, e))
    ensures WithoutEntry(v, e).lru == if e in v.lru then Removed(v.lru, IndexOf(v.lru, e)) else v.lru
  {
    if e in v.lru {
      RemovedHas(v.lru, IndexOf(v.lru, e));
    } else {
      RemovedHas(v.inUse, IndexOf(v.inUse, e));
    }
  }

  lemma LookStaysApart(v: View, e: nat)
    requires Apart(v) && e in Cached(v)
    ensures Apart(Referenced(v, e))
  {
    if e in v.lru {
      RemovedHas(v.lru, IndexOf(v.lru, e));
    }
  }

  lemma GiveBackStaysApart(v: View, e: nat)
    requires Apart(v) && v.held[e] > 0
    ensures Apart(Released(v, e))
  {
    if e in v.inUse {
      RemovedHas(v.inUse, IndexOf(v.inUse, e));
    }
  }

  lemma RemoveStaysApart(v: View, e: int)
    requires Apart(v)
    ensures Apart(Dropped(v, e))
  {
    hide Removed, NoRepeats;
    if e >= 0 && e in Cached(v) {
      WithoutEntryApart(v, e);
    }
  }

  lemma EnterStaysApart(v: View, e: nat, caching: bool)
    requires Apart(v) && e !in Cached(v)
    ensures Apart(WithHandle(v, e, caching))
  {
  }

  lemma EvictStaysApart(v: View, n: nat)
    requires Apart(v) && n <= |v.lru|
    ensures Apart(Evicted(v, n))
  {
  }

  lemma StaysApart(v: View, u: Use)
    requires Apart(v) && CanHappen(v, u)
    ensures Apart(After(v, u))
  {
    hide Apart, Referenced, Released, Dropped, WithHandle, Evicted;
    match u
    case Look(e) => LookStaysApart(v, e);
    case Enter(e, caching, replaced) =>
      EnterStaysApart(v, e, caching);
      RemoveStaysApart(WithHandle(v, e, caching), replaced);
    case Evict(n) => EvictStaysApart(v, n);
    case GiveBack(e) => GiveBackStaysApart(v, e);
    case Remove(e) => RemoveStaysApart(v, e);
  }

  /** A list with some entries taken out, and perhaps the handle just given back at its end. */
  ghost predicate Thinned(was: seq<nat>, now: seq<nat>, u: Use) {
    || now == was
    || (exists k :: 0 <= k < |was| && now == Removed(was, k))
    || (exists n :: 0 <= n <= |was| && now == was[n..])
    || (u.GiveBack? && u.e !in was && now == was + [u.e])
  }

  lemma ListIsThinned(v: View, u: Use)
    requires Apart(v) && CanHappen(v, u)
    ensures Thinned(v.lru, After(v, u).lru, u)
  {
    match u
    case Look(e) =>
    case Enter(e, caching, replaced) =>
      var w := WithHandle(v, e, caching);
      if replaced >= 0 && replaced in Cached(w) {
        var r := WithoutEntry(w, replaced);
        assert r.lru == w.lru || r.lru == Removed(w.lru, IndexOf(w.lru, replaced));
      }
    case Evict(n) =>
    case GiveBack(e) =>
    case Remove(e) =>
      if e >= 0 && e in Cached(v) {
        var r := WithoutEntry(v, e);
        assert r.lru == v.lru || r.lru == Removed(v.lru, IndexOf(v.lru, e));
      }
  }

  lemma StaysInOrder(v: View, uses: seq<Use>, n: nat)
    requires n < |uses| && Apart(v) && CanHappen(v, uses[n]) && InOrder(v, uses, n)
    ensures InOrder(After(v, uses[n]), uses, n + 1)
  {
    hide Thinned, ListInOrder;
    ListIsThinned(v, uses[n]);
    assert forall e :: e in v.lru ==> uses[n] != GiveBack(e);
    hide After, CanHappen, Apart;
    NoLaterCall(v.lru, uses, n);
    ThinnedInOrder(v.lru, After(v, uses[n]).lru, uses, n);
  }

  lemma NoLaterCall(s: seq<nat>, uses: seq<Use>, n: nat)
    requires n < |uses| && ListInOrder(s, uses, n) && forall e :: e in s ==> uses[n] != GiveBack(e)
    ensures ListInOrder(s, uses, n + 1) && forall e :: e in s ==> LastGivenBack(uses, n + 1, e) <= n
  {
    forall i, j | 0 <= i < j < |s|
      ensures Earlier(uses, n + 1, s[i], s[j])
    {
      assert Earlier(uses, n, s[i], s[j]);
    }
  }

  lemma ThinnedInOrder(was: seq<nat>, now: seq<nat>, uses: seq<Use>, n: nat)
    requires n < |uses| && Thinned(was, now, uses[n]) && ListInOrder(was, uses, n + 1)
    requires forall e :: e in was ==> LastGivenBack(uses, n + 1, e) <= n
    ensures ListInOrder(now, uses, n + 1)
  {
    hide LastGivenBack;
    if now == was {
    } else if k :| 0 <= k < |was| && now == Removed(was, k) {
      RemovedInOrder(was, k, uses, n + 1);
    } else if m :| 0 <= m <= |was| && now == was[m..] {
      forall i, j | 0 <= i < j < |now|
        ensures Earlier(uses, n + 1, now[i], now[j])
      {
        assert Earlier(uses, n + 1, was[i + m], was[j + m]);
      }
    } else {
      JustGivenBack(uses, n);
      forall i, j | 0 <= i < j < |now|
        ensures Earlier(uses, n + 1, now[i], now[j])
      {
        assert now[i] in was && (j < |was| ==> Earlier(uses, n + 1, was[i], was[j]));
      }
    }
  }

  lemma RemovedInOrder(was: seq<nat>, k: nat, uses: seq<Use>, n: nat)
    requires n <= |uses| && k < |was| && ListInOrder(was, uses, n)
    ensures ListInOrder(Removed(was, k), uses, n)
  {
    hide LastGivenBack;
    var now := Removed(was, k);
    forall i, j | 0 <= i < j < |now|
      ensures Earlier(uses, n, now[i], now[j])
    {
      var i', j' := if i < k then i else i + 1, if j < k then j else j + 1;
      assert now[i] == was[i'] && now[j] == was[j'] && Earlier(uses, n, was[i'], was[j']);
    }
  }

  lemma JustGivenBack(uses: seq<Use>, n: nat)
    requires n < |uses| && uses[n].GiveBack?
    ensures LastGivenBack(uses, n + 1, uses[n].e) == n + 1
  {
  }

  lemma {:induction false} RunInOrder(views: seq<View>, uses: seq<Use>, n: nat)
    requires IsRun(views, uses) && n <= |uses|
    ensures Apart(views[n]) && InOrder(views[n], uses, n)
  {
    hide After;
    if n > 0 {
      RunInOrder(views, uses, n - 1);
      assert Happens(views, uses, n - 1);
      StaysApart(views[n - 1], uses[n - 1]);
      StaysInOrder(views[n - 1], uses, n - 1);
    }
  }

  /**
   Whatever the calls, an entry that eviction takes was last given back before every entry that it leaves, and nobody
   holds it.
   */
  lemma LeastRecentlyUsedFirst(views: seq<View>, uses: seq<Use>, i: nat, gone: nat, left: nat)
    requires IsRun(views, uses) && i < |uses| && uses[i].Evict?
    requires gone in views[i].lru && gone !in views[i + 1].lru && left in views[i + 1].lru
    ensures LastGivenBack(uses, i, gone) < LastGivenBack(uses, i, left)
    ensures views[i].held[gone] == 0
  {
    hide InOrder;
    RunInOrder(views, uses, i);
    assert Happens(views, uses, i);
    var lru, n := views[i].lru, uses[i].n;
    var a :| 0 <= a < |lru| && lru[a] == gone;
    var b :| 0 <= b < |lru[n..]| && lru[n..][b] == left;
    InTail(lru, n);
    OrderAt(views[i], uses, i, a, n + b);
  }

  lemma InTail(s: seq<nat>, n: nat)
    requires n <= |s|
    ensures forall i :: n <= i < |s| ==> s[i] in s[n..]
  {
    forall i | n <= i < |s|
      ensures s[i] in s[n..]
    {
      assert s[n..][i - n] == s[i];
    }
  }

  lemma OrderAt(v: View, uses: seq<Use>, n: nat, i: nat, j: nat)
    requires n <= |uses| && InOrder(v, uses, n) && i < j < |v.lru|
    ensures Earlier(uses, n, v.lru[i], v.lru[j])
  {
  }
}
