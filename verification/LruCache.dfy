/**
 One shard of the block cache (util/cache.cc:149-333): every cached entry is on exactly one of two circular lists, an
 entry that a client holds is never freed, and every deleter runs once.
 */
module LruCaches {
  import opened ByteStrings
  import opened CacheMaps
  import opened HandleTables
  import opened Rings
  import opened Sequences

  /** The addresses of the two dummy heads. */
  const LRU: nat := 0
  const IN_USE: nat := 1

  /** The counted part of a handle: references, including the cache's own, and whether the cache has one. */
  datatype Meta = Meta(refs: nat, inCache: bool)

  /** The memory of the shard. A handle is allocated exactly when it has an item. */
  datatype Heap = Heap(items: map<nat, Item>, meta: map<nat, Meta>, links: Links, usage: nat)

  /**
   The specification's view: the entries on the two lists in list order, how often clients hold each handle, and the
   handles whose deleter has run, in order.
   */
  datatype View = View(lru: seq<nat>, inUse: seq<nat>, held: multiset<nat>, deleted: seq<nat>)

  ghost function Cached(v: View): set<nat> {
    (set e | e in v.lru) + (set e | e in v.inUse)
  }

  function Charges(items: map<nat, Item>, s: seq<nat>): nat {
    if s == [] then 0
    else Charges(items, s[..|s| - 1]) + if s[|s| - 1] in items then items[s[|s| - 1]].charge else 0
  }

  ghost predicate ListsOk(h: Heap, v: View) {
    && RingOk(h.links, LRU, v.lru) && RingOk(h.links, IN_USE, v.inUse)
    && IN_USE !in v.lru && LRU !in v.inUse
    && (forall e :: e in v.lru ==> e !in v.inUse)
  }

  /** An entry is on the LRU list exactly while the cache holds the only reference to it. */
  ghost predicate EntryOk(h: Heap, v: View, e: nat)
    requires e in h.items && e in h.meta
  {
    && h.meta[e].refs > 0 && h.meta[e].inCache == (e in Cached(v))
    && (e in v.lru ==> h.meta[e].refs == 1) && (e in v.inUse ==> h.meta[e].refs >= 2)
  }

  /** `extra` is a handle with one reference that nobody accounts for any more, or NIL. */
  ghost predicate CountsOk(h: Heap, v: View, extra: int)
    requires h.items.Keys == h.meta.Keys
  {
    && (forall e :: e in h.items ==>
          h.meta[e].refs == v.held[e] + (if h.meta[e].inCache then 1 else 0) + if e == extra then 1 else 0)
    && (forall e :: e in v.held ==> e in h.items)
  }

  /** Addresses are not used twice: `next` is the next one, and each earlier one is allocated or has been freed. */
  ghost predicate FreedOk(h: Heap, v: View, next: nat) {
    && next > IN_USE && NoRepeats(v.deleted)
    && (forall e :: e in v.deleted ==> e !in h.items)
    && (forall e :: e in h.items || e in v.deleted <==> IN_USE < e < next)
  }

  ghost predicate CacheOk(h: Heap, v: View, next: nat, extra: int) {
    && h.items.Keys == h.meta.Keys && ListsOk(h, v) && FreedOk(h, v, next)
    && Cached(v) <= h.items.Keys
    && (forall e :: e in h.items ==> EntryOk(h, v, e))
    && CountsOk(h, v, extra)
    && h.usage == Charges(h.items, v.lru) + Charges(h.items, v.inUse)
  }

  // ----- charges -----

  lemma {:induction false} ChargesSame(items: map<nat, Item>, items': map<nat, Item>, s: seq<nat>)
    requires forall e :: e in s && e in items ==> e in items' && items'[e] == items[e]
    requires forall e :: e in s ==> e in items
    ensures Charges(items', s) == Charges(items, s)
    decreases |s|
  {
    if s != [] {
      ChargesSame(items, items', s[..|s| - 1]);
      assert s[|s| - 1] in s;
    }
  }

  lemma {:induction false} ChargesRemoved(items: map<nat, Item>, s: seq<nat>, k: nat)
    requires k < |s| && s[k] in items
    ensures Charges(items, s) == Charges(items, Removed(s, k)) + items[s[k]].charge
    decreases |s|
  {
    var last := |s| - 1;
    if k == last {
      assert Removed(s, k) == s[..last];
    } else {
      ChargesRemoved(items, s[..last], k);
      assert Removed(s, k)[..|Removed(s, k)| - 1] == Removed(s[..last], k);
      assert s[..last][k] == s[k] && Removed(s, k)[|Removed(s, k)| - 1] == s[last];
    }
  }

  lemma ChargesAppended(items: map<nat, Item>, s: seq<nat>, e: nat)
    requires e in items
    ensures Charges(items, s + [e]) == Charges(items, s) + items[e].charge
  {
    assert (s + [e])[..|s|] == s;
  }

  // ----- moving between lists -----

  lemma ListsHaveNoRepeats(h: Heap, v: View)
    requires ListsOk(h, v)
    ensures NoRepeats(v.lru) && NoRepeats(v.inUse)
  {
  }

  /** LRU_Remove and LRU_Append: from position `k` of one list to the end of the other. */
  lemma MoveToInUse(h: Heap, v: View, k: nat)
    requires ListsOk(h, v) && k < |v.lru|
    ensures var e := v.lru[k];
      && e in h.links && h.links[e].next in h.links && h.links[e].prev in h.links
      && var l1 := Unlink(h.links, e);
        && IN_USE in l1 && l1[IN_USE].prev in l1
        && ListsOk(h.(links := Append(l1, IN_USE, e)), v.(lru := Removed(v.lru, k), inUse := v.inUse + [e]))
  {
    var e := v.lru[k];
    UnlinkKeepsRing(h.links, LRU, v.lru, k);
    var l1 := Unlink(h.links, e);
    forall x | (x == IN_USE || x in v.inUse) && x in h.links
      ensures x in l1 && l1[x] == h.links[x]
    {
      UnlinkTouches(h.links, LRU, v.lru, k, x);
    }
    RingElsewhere(h.links, l1, IN_USE, v.inUse);
    AppendKeepsRing(l1, IN_USE, v.inUse, e);
    var l2 := Append(l1, IN_USE, e);
    forall x | (x == LRU || x in Removed(v.lru, k)) && x in l1
      ensures x in l2 && l2[x] == l1[x]
    {
      AppendTouches(l1, IN_USE, v.inUse, e, x);
    }
    RingElsewhere(l1, l2, LRU, Removed(v.lru, k));
  }

  lemma MoveToLru(h: Heap, v: View, k: nat)
    requires ListsOk(h, v) && k < |v.inUse|
    ensures var e := v.inUse[k];
      && e in h.links && h.links[e].next in h.links && h.links[e].prev in h.links
      && var l1 := Unlink(h.links, e);
        && LRU in l1 && l1[LRU].prev in l1
        && ListsOk(h.(links := Append(l1, LRU, e)), v.(inUse := Removed(v.inUse, k), lru := v.lru + [e]))
  {
    var e := v.inUse[k];
    UnlinkKeepsRing(h.links, IN_USE, v.inUse, k);
    var l1 := Unlink(h.links, e);
    forall x | (x == LRU || x in v.lru) && x in h.links
      ensures x in l1 && l1[x] == h.links[x]
    {
      UnlinkTouches(h.links, IN_USE, v.inUse, k, x);
    }
    RingElsewhere(h.links, l1, LRU, v.lru);
    AppendKeepsRing(l1, LRU, v.lru, e);
    var l2 := Append(l1, LRU, e);
    forall x | (x == IN_USE || x in Removed(v.inUse, k)) && x in l1
      ensures x in l2 && l2[x] == l1[x]
    {
      AppendTouches(l1, LRU, v.lru, e, x);
    }
    RingElsewhere(l1, l2, IN_USE, Removed(v.inUse, k));
  }

  function IndexOf(s: seq<nat>, e: nat): (k: nat)
    requires e in s
    ensures k < |s| && s[k] == e
  {
    if s[0] == e then 0 else 1 + IndexOf(s[1..], e)
  }

  lemma ListsSame(h: Heap, h': Heap, v: View, v': View)
    requires ListsOk(h, v) && h'.links == h.links && v'.lru == v.lru && v'.inUse == v.inUse
    ensures ListsOk(h', v')
  {
  }

  lemma FreedSame(h: Heap, h': Heap, v: View, v': View, next: nat)
    requires FreedOk(h, v, next) && h'.items.Keys == h.items.Keys && v'.deleted == v.deleted
    ensures FreedOk(h', v', next)
  {
  }

  // ----- references -----

  /** The list part of Ref: an entry that only the cache referred to is now in use. */
  function Pin(h: Heap, e: nat): Heap
    requires e in h.meta && e in h.links && h.links[e].next in h.links && h.links[e].prev in h.links
    requires var l1 := Unlink(h.links, e); IN_USE in l1 && l1[IN_USE].prev in l1
  {
    h.(links := Append(Unlink(h.links, e), IN_USE, e), meta := h.meta[e := h.meta[e].(refs := h.meta[e].refs + 1)])
  }

  function Count(h: Heap, e: nat, refs: nat): Heap
    requires e in h.meta
  {
    h.(meta := h.meta[e := h.meta[e].(refs := refs)])
  }

  /** Both lists together hold the same entries after a move from one to the other. */
  lemma MovedCached(v: View, v': View, e: nat)
    requires (exists k :: 0 <= k < |v.lru| && v.lru[k] == e && NoRepeats(v.lru)
                          && v'.lru == Removed(v.lru, k) && v'.inUse == v.inUse + [e])
          || (exists k :: 0 <= k < |v.inUse| && v.inUse[k] == e && NoRepeats(v.inUse)
                          && v'.inUse == Removed(v.inUse, k) && v'.lru == v.lru + [e])
    ensures Cached(v') == Cached(v)
  {
    if k :| 0 <= k < |v.lru| && v.lru[k] == e && NoRepeats(v.lru)
                          && v'.lru == Removed(v.lru, k) && v'.inUse == v.inUse + [e] {
      RemovedElements(v.lru, k);
    } else {
      var k :| 0 <= k < |v.inUse| && v.inUse[k] == e && NoRepeats(v.inUse)
                          && v'.inUse == Removed(v.inUse, k) && v'.lru == v.lru + [e];
      RemovedElements(v.inUse, k);
    }
  }

  lemma RemovedElements(s: seq<nat>, k: nat)
    requires k < |s| && NoRepeats(s)
    ensures forall e :: e in Removed(s, k) <==> e in s && e != s[k]
  {
    forall e | e in s && e != s[k]
      ensures e in Removed(s, k)
    {
      var j :| 0 <= j < |s| && s[j] == e;
      assert Removed(s, k)[if j < k then j else j - 1] == e;
    }
  }

  lemma PinEntries(h: Heap, h': Heap, v: View, v': View, next: nat, k: nat)
    requires CacheOk(h, v, next, NIL) && k < |v.lru|
    requires v' == v.(lru := Removed(v.lru, k), inUse := v.inUse + [v.lru[k]], held := v.held + multiset{v.lru[k]})
    requires v.lru[k] in h.meta && h'.items == h.items
    requires h'.meta == h.meta[v.lru[k] := h.meta[v.lru[k]].(refs := h.meta[v.lru[k]].refs + 1)]
    ensures v.lru[k] in h.items && h.meta[v.lru[k]] == Meta(1, true) && Cached(v') == Cached(v)
    ensures CountsOk(h', v', NIL) && forall x :: x in h.items ==> EntryOk(h', v', x)
  {
    var e := v.lru[k];
    ListsHaveNoRepeats(h, v);
    hide ListsOk, FreedOk, Charges;
    MovedCached(v, v', e);
    RemovedElements(v.lru, k);
    assert e in Cached(v) && EntryOk(h, v, e);
    forall x | x in h.items
      ensures EntryOk(h', v', x)
    {
      assert EntryOk(h, v, x);
    }
  }

  lemma PinKeepsOk(h: Heap, v: View, next: nat, k: nat)
    requires CacheOk(h, v, next, NIL) && k < |v.lru|
    ensures var e := v.lru[k];
      && e in h.items && e in h.meta && e in h.links && h.links[e].next in h.links && h.links[e].prev in h.links
      && (var l1 := Unlink(h.links, e); IN_USE in l1 && l1[IN_USE].prev in l1)
      && var v' := v.(lru := Removed(v.lru, k), inUse := v.inUse + [e], held := v.held + multiset{e});
        CacheOk(Pin(h, e), v', next, NIL) && Cached(v') == Cached(v)
  {
    hide RingOk, Append, Unlink, EntryOk, CountsOk, Charges;
    var e := v.lru[k];
    assert e in Cached(v);
    MoveToInUse(h, v, k);
    var v1 := v.(lru := Removed(v.lru, k), inUse := v.inUse + [e]);
    var h', v' := Pin(h, e), v1.(held := v.held + multiset{e});
    ListsSame(h.(links := h'.links), h', v1, v');
    PinEntries(h, h', v, v', next, k);
    FreedSame(h, h', v, v', next);
    hide FreedOk, EntryOk, CountsOk, Cached, ListsOk;
    ChargesRemoved(h.items, v.lru, k);
    ChargesAppended(h.items, v.inUse, e);
  }

  /** Ref of an entry in use counts one more reference. */
  lemma CountUpKeepsOk(h: Heap, v: View, next: nat, e: nat)
    requires CacheOk(h, v, next, NIL) && e in v.inUse
    ensures e in h.meta && CacheOk(Count(h, e, h.meta[e].refs + 1), v.(held := v.held + multiset{e}), next, NIL)
  {
    hide RingOk;
    assert e in Cached(v);
    var h', v' := Count(h, e, h.meta[e].refs + 1), v.(held := v.held + multiset{e});
    assert Cached(v') == Cached(v);
    assert EntryOk(h, v, e);
    forall x | x in h.items
      ensures EntryOk(h', v', x)
    {
      assert EntryOk(h, v, x);
    }
  }

  /** The list part of Unref: an entry that no client holds any more becomes the newest on the LRU list. */
  function Unpin(h: Heap, e: nat): Heap
    requires e in h.meta && e in h.links && h.links[e].next in h.links && h.links[e].prev in h.links
    requires var l1 := Unlink(h.links, e); LRU in l1 && l1[LRU].prev in l1
  {
    h.(links := Append(Unlink(h.links, e), LRU, e), meta := h.meta[e := h.meta[e].(refs := 1)])
  }

  lemma UnpinEntries(h: Heap, h': Heap, v: View, v': View, next: nat, k: nat)
    requires k < |v.inUse| && CacheOk(h, v, next, v.inUse[k])
    requires v.inUse[k] in h.meta && h.meta[v.inUse[k]].refs == 2
    requires v' == v.(inUse := Removed(v.inUse, k), lru := v.lru + [v.inUse[k]])
    requires h'.items == h.items && h'.meta == h.meta[v.inUse[k] := h.meta[v.inUse[k]].(refs := 1)]
    ensures v.inUse[k] in h.items && h.meta[v.inUse[k]].inCache && Cached(v') == Cached(v)
    ensures CountsOk(h', v', NIL) && forall x :: x in h.items ==> EntryOk(h', v', x)
  {
    var e := v.inUse[k];
    ListsHaveNoRepeats(h, v);
    hide ListsOk, FreedOk, Charges;
    MovedCached(v, v', e);
    RemovedElements(v.inUse, k);
    assert e in Cached(v) && EntryOk(h, v, e);
    forall x | x in h.items
      ensures EntryOk(h', v', x)
    {
      assert EntryOk(h, v, x);
    }
  }

  lemma UnpinKeepsOk(h: Heap, v: View, next: nat, k: nat)
    requires k < |v.inUse| && CacheOk(h, v, next, v.inUse[k])
    requires v.inUse[k] in h.meta && h.meta[v.inUse[k]].refs == 2
    ensures var e := v.inUse[k];
      && e in h.links && h.links[e].next in h.links && h.links[e].prev in h.links
      && (var l1 := Unlink(h.links, e); LRU in l1 && l1[LRU].prev in l1)
      && var v' := v.(inUse := Removed(v.inUse, k), lru := v.lru + [e]);
        CacheOk(Unpin(h, e), v', next, NIL) && Cached(v') == Cached(v)
  {
    hide RingOk, Append, Unlink, EntryOk, CountsOk, Charges;
    var e := v.inUse[k];
    MoveToLru(h, v, k);
    var h', v' := Unpin(h, e), v.(inUse := Removed(v.inUse, k), lru := v.lru + [e]);
    ListsSame(h.(links := h'.links), h', v', v');
    UnpinEntries(h, h', v, v', next, k);
    FreedSame(h, h', v, v', next);
    hide FreedOk, EntryOk, CountsOk, Cached, ListsOk;
    ChargesRemoved(h.items, v.inUse, k);
    ChargesAppended(h.items, v.lru, e);
  }

  /** Unref of a handle that keeps other references. */
  lemma CountDownKeepsOk(h: Heap, v: View, next: nat, e: nat)
    requires CacheOk(h, v, next, e) && e in h.meta && h.meta[e].refs > 1 && !(h.meta[e].inCache && h.meta[e].refs == 2)
    ensures CacheOk(Count(h, e, h.meta[e].refs - 1), v, next, NIL)
  {
    var h' := Count(h, e, h.meta[e].refs - 1);
    assert EntryOk(h, v, e);
    forall x | x in h.items
      ensures EntryOk(h', v, x)
    {
      assert EntryOk(h, v, x);
    }
  }

  /** `free`: the handle is gone from memory. */
  function Free(h: Heap, e: nat): Heap {
    h.(items := h.items - {e}, meta := h.meta - {e})
  }

  /** The last reference frees the handle, after its deleter; it is on neither list. */
  lemma FreeKeepsOk(h: Heap, v: View, next: nat, e: nat)
    requires CacheOk(h, v, next, e) && e in h.meta && h.meta[e].refs == 1
    ensures !h.meta[e].inCache && e !in Cached(v)
    ensures CacheOk(Free(h, e), v.(deleted := v.deleted + [e]), next, NIL)
  {
    var h', v' := Free(h, e), v.(deleted := v.deleted + [e]);
    assert EntryOk(h, v, e);
    assert Cached(v') == Cached(v);
    forall x | x in h'.items
      ensures EntryOk(h', v', x)
    {
      assert EntryOk(h, v, x);
    }
    ChargesSame(h.items, h'.items, v.lru);
    ChargesSame(h.items, h'.items, v.inUse);
  }

  // ----- entering and leaving the cache -----

  function Uncached(h: Heap, e: nat): Heap
    requires e in h.items && e in h.meta && e in h.links && h.links[e].next in h.links && h.links[e].prev in h.links
  {
    h.(links := Unlink(h.links, e), meta := h.meta[e := h.meta[e].(inCache := false)],
       usage := if h.items[e].charge <= h.usage then h.usage - h.items[e].charge else 0)
  }

  ghost function WithoutEntry(v: View, e: nat): View
    requires e in Cached(v)
  {
    if e in v.lru then v.(lru := Removed(v.lru, IndexOf(v.lru, e)))
    else v.(inUse := Removed(v.inUse, IndexOf(v.inUse, e)))
  }

  /** FinishErase before its Unref: the entry leaves its list, and the cache's reference is left over. */
  lemma UncacheKeepsOk(h: Heap, v: View, next: nat, e: nat)
    requires CacheOk(h, v, next, NIL) && e in Cached(v)
    ensures e in h.items && e in h.meta && e in h.links && h.links[e].next in h.links && h.links[e].prev in h.links
    ensures h.items[e].charge <= h.usage
    ensures CacheOk(Uncached(h, e), WithoutEntry(v, e), next, e)
    ensures Cached(WithoutEntry(v, e)) == Cached(v) - {e}
  {
    if e in v.lru {
      UncacheLru(h, v, next, IndexOf(v.lru, e));
    } else {
      UncacheInUse(h, v, next, IndexOf(v.inUse, e));
    }
  }

  lemma UncacheLru(h: Heap, v: View, next: nat, k: nat)
    requires CacheOk(h, v, next, NIL) && k < |v.lru|
    ensures var e := v.lru[k];
      && e in h.items && e in h.meta && e in h.links && h.links[e].next in h.links && h.links[e].prev in h.links
      && h.items[e].charge <= h.usage
      && var v' := v.(lru := Removed(v.lru, k));
        CacheOk(Uncached(h, e), v', next, e) && Cached(v') == Cached(v) - {e}
  {
    var e := v.lru[k];
    assert e in Cached(v);
    UnlinkKeepsRing(h.links, LRU, v.lru, k);
    forall x | (x == IN_USE || x in v.inUse) && x in h.links
      ensures x in Unlink(h.links, e) && Unlink(h.links, e)[x] == h.links[x]
    {
      UnlinkTouches(h.links, LRU, v.lru, k, x);
    }
    RingElsewhere(h.links, Unlink(h.links, e), IN_USE, v.inUse);
    RemovedElements(v.lru, k);
    ChargesRemoved(h.items, v.lru, k);
    var h', v' := Uncached(h, e), v.(lru := Removed(v.lru, k));
    assert EntryOk(h, v, e);
    forall x | x in h.items
      ensures EntryOk(h', v', x)
    {
      assert EntryOk(h, v, x);
    }
  }

  lemma UncacheInUse(h: Heap, v: View, next: nat, k: nat)
    requires CacheOk(h, v, next, NIL) && k < |v.inUse|
    ensures var e := v.inUse[k];
      && e in h.items && e in h.meta && e in h.links && h.links[e].next in h.links && h.links[e].prev in h.links
      && h.items[e].charge <= h.usage
      && var v' := v.(inUse := Removed(v.inUse, k));
        CacheOk(Uncached(h, e), v', next, e) && Cached(v') == Cached(v) - {e}
  {
    var e := v.inUse[k];
    assert e in Cached(v);
    UnlinkKeepsRing(h.links, IN_USE, v.inUse, k);
    forall x | (x == LRU || x in v.lru) && x in h.links
      ensures x in Unlink(h.links, e) && Unlink(h.links, e)[x] == h.links[x]
    {
      UnlinkTouches(h.links, IN_USE, v.inUse, k, x);
    }
    RingElsewhere(h.links, Unlink(h.links, e), LRU, v.lru);
    RemovedElements(v.inUse, k);
    ChargesRemoved(h.items, v.inUse, k);
    var h', v' := Uncached(h, e), v.(inUse := Removed(v.inUse, k));
    assert EntryOk(h, v, e);
    forall x | x in h.items
      ensures EntryOk(h', v', x)
    {
      assert EntryOk(h, v, x);
    }
  }

  /** A new handle with one reference for its caller. */
  function Allocated(h: Heap, e: nat, item: Item): Heap {
    h.(items := h.items[e := item], meta := h.meta[e := Meta(1, false)])
  }

  lemma AllocatedEntries(h: Heap, h': Heap, v: View, v': View, next: nat, item: Item)
    requires CacheOk(h, v, next, NIL) && v' == v.(held := v.held + multiset{next}) && h' == Allocated(h, next, item)
    ensures forall x :: x in h'.items ==> EntryOk(h', v', x)
  {
    assert next !in h.items;
    hide ListsOk, FreedOk, Charges, CountsOk;
    assert Cached(v') == Cached(v);
    forall x | x in h'.items
      ensures EntryOk(h', v', x)
    {
      if x != next {
        assert EntryOk(h, v, x);
      }
    }
  }

  lemma AllocatedCounts(h: Heap, h': Heap, v: View, v': View, next: nat, item: Item)
    requires h.items.Keys == h.meta.Keys && CountsOk(h, v, NIL) && next !in h.items
    requires v' == v.(held := v.held + multiset{next}) && h' == Allocated(h, next, item)
    ensures CountsOk(h', v', NIL)
  {
  }

  lemma AllocatedAddress(h: Heap, h': Heap, v: View, v': View, next: nat, item: Item)
    requires FreedOk(h, v, next) && v' == v.(held := v.held + multiset{next}) && h' == Allocated(h, next, item)
    ensures next !in h.items && FreedOk(h', v', next + 1)
  {
  }

  lemma AllocateKeepsOk(h: Heap, v: View, next: nat, item: Item)
    requires CacheOk(h, v, next, NIL)
    ensures next !in h.items
    ensures CacheOk(Allocated(h, next, item), v.(held := v.held + multiset{next}), next + 1, NIL)
    ensures Cached(v.(held := v.held + multiset{next})) == Cached(v)
  {
    hide EntryOk, CountsOk, Charges;
    var h', v' := Allocated(h, next, item), v.(held := v.held + multiset{next});
    AllocatedEntries(h, h', v, v', next, item);
    AllocatedAddress(h, h', v, v', next, item);
    AllocatedCounts(h, h', v, v', next, item);
    ListsSame(h, h', v, v');
    ChargesSame(h.items, h'.items, v.lru);
    ChargesSame(h.items, h'.items, v.inUse);
    assert Cached(v') == Cached(v);
    hide FreedOk, EntryOk, CountsOk, ListsOk, Cached;
  }

  /** The cache takes a reference of its own, and the entry goes on the in-use list. */
  function Entered(h: Heap, e: nat): Heap
    requires e in h.items && e in h.meta && IN_USE in h.links && h.links[IN_USE].prev in h.links
  {
    h.(links := Append(h.links, IN_USE, e), meta := h.meta[e := Meta(h.meta[e].refs + 1, true)],
       usage := h.usage + h.items[e].charge)
  }

  lemma EnterKeepsOk(h: Heap, v: View, next: nat, e: nat)
    requires CacheOk(h, v, next, NIL) && e in h.items && e !in Cached(v)
    ensures e in h.meta && IN_USE in h.links && h.links[IN_USE].prev in h.links
    ensures CacheOk(Entered(h, e), v.(inUse := v.inUse + [e]), next, NIL)
    ensures Cached(v.(inUse := v.inUse + [e])) == Cached(v) + {e}
  {
    AppendKeepsRing(h.links, IN_USE, v.inUse, e);
    var h', v' := Entered(h, e), v.(inUse := v.inUse + [e]);
    forall x | (x == LRU || x in v.lru) && x in h.links
      ensures x in h'.links && h'.links[x] == h.links[x]
    {
      AppendTouches(h.links, IN_USE, v.inUse, e, x);
    }
    RingElsewhere(h.links, h'.links, LRU, v.lru);
    ChargesAppended(h.items, v.inUse, e);
    assert EntryOk(h, v, e);
    forall x | x in h.items
      ensures EntryOk(h', v', x)
    {
      assert EntryOk(h, v, x);
    }
  }

  /** What the flags of a cached entry say about its list. */
  lemma CachedFacts(h: Heap, v: View, next: nat, extra: int, e: nat)
    requires CacheOk(h, v, next, extra) && e in Cached(v)
    ensures e in h.items && e in h.meta && h.meta[e].inCache && e > IN_USE
    ensures e in v.lru <==> h.meta[e].refs == 1
    ensures e in v.inUse <==> h.meta[e].refs >= 2
  {
    assert EntryOk(h, v, e);
  }

  // ----- what the operations do to the view and the items -----

  function Elements(s: seq<nat>): set<nat> {
    set e | e in s
  }

  /** A client gets a reference: an entry that nobody held becomes one in use. */
  ghost function Referenced(v: View, e: nat): View {
    var w := v.(held := v.held + multiset{e});
    if e in v.lru then w.(lru := Removed(v.lru, IndexOf(v.lru, e)), inUse := v.inUse + [e]) else w
  }

  /** A client gives a reference back: the last one frees a handle that left the cache and unpins one that did not. */
  ghost function Released(v: View, e: nat): View {
    var w := v.(held := v.held - multiset{e});
    if w.held[e] > 0 then w
    else if e in v.inUse then w.(lru := v.lru + [e], inUse := Removed(v.inUse, IndexOf(v.inUse, e)))
    else w.(deleted := v.deleted + [e])
  }

  /** An entry leaves the cache, and is freed unless a client holds it. */
  ghost function Dropped(v: View, e: int): View {
    if e < 0 || e !in Cached(v) then v
    else
      var w := WithoutEntry(v, e);
      if v.held[e] == 0 then w.(deleted := v.deleted + [e]) else w
  }

  ghost function DroppedItems(items: map<nat, Item>, v: View, e: int): map<nat, Item> {
    if e >= 0 && e in Cached(v) && v.held[e] == 0 then items - {e as nat} else items
  }

  ghost function WithHandle(v: View, e: nat, caching: bool): View {
    v.(held := v.held + multiset{e}, inUse := if caching then v.inUse + [e] else v.inUse)
  }

  /** A new handle for a client, in the cache in place of `replaced` if there is caching at all. */
  ghost function Placed(v: View, e: nat, caching: bool, replaced: int): View {
    Dropped(WithHandle(v, e, caching), replaced)
  }

  ghost function PlacedItems(items: map<nat, Item>, v: View, e: nat, item: Item, caching: bool, replaced: int)
    : map<nat, Item>
  {
    DroppedItems(items[e := item], WithHandle(v, e, caching), replaced)
  }

  /** What a client holds keeps its key and value. */
  ghost predicate ItemsStay(held: multiset<nat>, items: map<nat, Item>, items': map<nat, Item>) {
    forall x :: x in held ==> x in items && x in items' && items'[x] == items[x]
  }

  /** The oldest `n` entries that nobody holds are freed, in order. */
  ghost function Evicted(v: View, n: nat): View
    requires n <= |v.lru|
  {
    v.(lru := v.lru[n..], deleted := v.deleted + v.lru[..n])
  }

  // ----- the shard -----

  class LRUCache {
    var capacity: nat
    var heap: Heap
    var next: nat
    const table: HandleTable
    ghost var view: View

    /** `missing` is an entry that has left the table but not yet the cache, or NIL; `extra` as in CountsOk. */
    ghost predicate State(missing: int, extra: int)
      reads this, table
    {
      && CacheOk(heap, view, next, extra)
      && table.Valid(heap.items) && table.members == Without(Cached(view), missing)
    }

    ghost predicate Valid()
      reads this, table
    {
      State(NIL, NIL)
    }

    /** The map that the cache stands for. */
    ghost function Map(): map<Name, nat>
      reads this
    {
      MapOf(heap.items, Cached(view))
    }

    lemma ValidIsMapReady()
      requires Valid()
      ensures Identified(heap.items, Cached(view)) && MapReady(heap.items, view)
    {
      hide CacheOk, TableOk;
      NothingMissing(view);
      TableIdentifies(heap.items, table.nextHash, table.list, table.buckets, table.members);
      CacheIsMapReady(heap, view, next, NIL);
    }

    lemma HeldHaveItems()
      requires Valid()
      ensures forall x :: x in view.held ==> x in heap.items
    {
      hide CacheOk, TableOk;
      HeldIsAllocated(heap, view, next, NIL);
    }

    constructor (capacity: nat)
      ensures Valid() && fresh(table) && this.capacity == capacity
      ensures view == View([], [], multiset{}, []) && heap.items == map[]
    {
      this.capacity := capacity;
      table := new HandleTable();
      heap := Heap(map[], map[], map[LRU := Link(LRU, LRU), IN_USE := Link(IN_USE, IN_USE)], 0);
      next := 2;
      view := View([], [], multiset{}, []);
    }

    /** One more reference for a client; an entry on the LRU list moves to the in-use list. */
    method Ref(e: nat)
      requires Valid() && e in Cached(view)
      modifies this`heap, this`view
      ensures Valid() && heap.items == old(heap.items) && Cached(view) == old(Cached(view))
      ensures view == Referenced(old(view), e)
    {
      hide CacheOk, TableOk, Append, Unlink;
      CachedFacts(heap, view, next, NIL, e);
      if heap.meta[e].refs == 1 && heap.meta[e].inCache {
        ghost var k := IndexOf(view.lru, e);
        PinKeepsOk(heap, view, next, k);
        heap := Pin(heap, e);
        view := view.(lru := Removed(view.lru, k), inUse := view.inUse + [e], held := view.held + multiset{e});
      } else {
        CountUpKeepsOk(heap, view, next, e);
        heap := Count(heap, e, heap.meta[e].refs + 1);
        view := view.(held := view.held + multiset{e});
      }
    }

    /** Drop the reference left over: the last one frees the handle; the last client's makes the entry the newest. */
    method Unref(e: nat, ghost missing: int)
      requires State(missing, e) && e in heap.items
      modifies this`heap, this`view
      ensures State(missing, NIL) && Cached(view) == old(Cached(view)) && view.held == old(view.held)
      ensures heap.usage == old(heap.usage)
      ensures old(heap.items.Keys == heap.meta.Keys)
      ensures var refs := old(heap.meta[e].refs);
        if refs == 1 then
          && heap.items == old(heap.items) - {e} && view.deleted == old(view.deleted) + [e]
          && view.lru == old(view.lru) && view.inUse == old(view.inUse)
        else
          && heap.items == old(heap.items) && view.deleted == old(view.deleted)
          && if refs == 2 && e in old(view.inUse) then
               && view.lru == old(view.lru) + [e]
               && view.inUse == Removed(old(view.inUse), IndexOf(old(view.inUse), e))
             else view.lru == old(view.lru) && view.inUse == old(view.inUse)
    {
      hide CacheOk, TableOk, Append, Unlink;
      HandleFacts(heap, view, next, e, e);
      var refs := heap.meta[e].refs - 1;
      if refs == 0 {
        FreeKeepsOk(heap, view, next, e);
        SameItemsSameTable(heap.items, Free(heap, e).items, table.nextHash, table.list, table.buckets, table.members);
        heap := Free(heap, e);
        view := view.(deleted := view.deleted + [e]);
      } else if heap.meta[e].inCache && refs == 1 {
        ghost var k := IndexOf(view.inUse, e);
        UnpinKeepsOk(heap, view, next, k);
        heap := Unpin(heap, e);
        view := view.(inUse := Removed(view.inUse, k), lru := view.lru + [e]);
      } else {
        CountDownKeepsOk(heap, view, next, e);
        heap := Count(heap, e, refs);
      }
    }

    /** The cached entry with this key, with one more reference, or NIL. */
    method Lookup(key: Bytes, hash: nat) returns (e: int)
      requires Valid()
      modifies this`heap, this`view
      ensures Valid() && heap.items == old(heap.items) && Cached(view) == old(Cached(view))
      ensures IsLookup(heap.items, Cached(view), key, hash, e)
      ensures view == if e >= 0 then Referenced(old(view), e) else old(view)
      ensures Map() == old(Map()) && (e == NIL <==> Name(key, hash) !in Map())
      ensures e != NIL ==> heap.items[e].value == Map()[Name(key, hash)]
    {
      hide CacheOk, TableOk, Referenced, Identified, MapReady, MapOf, Cached;
      ValidIsMapReady();
      NothingMissing(view);
      e := table.Lookup(heap.items, key, hash);
      LookupInMap(heap.items, Cached(view), key, hash, e);
      if e != NIL {
        Ref(e);
      }
    }

    /** A client gives back one of its references. */
    method Release(e: nat)
      requires Valid() && view.held[e] > 0
      modifies this`heap, this`view
      ensures Valid() && Cached(view) == old(Cached(view)) && view == Released(old(view), e) && Map() == old(Map())
      ensures heap.items == if e !in Cached(view) && view.held[e] == 0 then old(heap.items) - {e} else old(heap.items)
    {
      hide CacheOk, TableOk, Identified, MapOf, MapReady, Cached;
      ValidIsMapReady();
      ghost var items := heap.items;
      LetGo(heap, view, next, e);
      view := view.(held := view.held - multiset{e});
      HandleFacts(heap, view, next, e, e);
      Unref(e, NIL);
      if e !in Cached(view) {
        ReleasedMap(items, Cached(view), e);
      }
    }

    /** The entry `e`, already out of the table, leaves the cache; handles that clients hold stay allocated. */
    method FinishErase(e: int) returns (erased: bool)
      requires State(e, NIL) && (e != NIL ==> e >= 0 && e in Cached(view))
      modifies this`heap, this`view
      ensures Valid() && erased == (e != NIL) && view == Dropped(old(view), e) && view.held == old(view.held)
      ensures heap.items == DroppedItems(old(heap.items), old(view), e)
      ensures if e == NIL then heap == old(heap) && view == old(view)
              else
                && Cached(view) == old(Cached(view)) - {e as nat}
                && e in old(heap.items) && old(heap.items[e].charge <= heap.usage)
                && heap.usage == old(heap.usage) - old(heap.items[e].charge)
    {
      hide CacheOk, TableOk, Unlink;
      erased := e != NIL;
      if erased {
        UncacheKeepsOk(heap, view, next, e);
        assert Without(Cached(view), e) == Without(Cached(WithoutEntry(view, e)), NIL);
        heap := Uncached(heap, e);
        view := WithoutEntry(view, e);
        HandleFacts(heap, view, next, e, e);
        Unref(e, NIL);
      }
    }

    /** Take the oldest entry that no client holds out of table and cache; its deleter runs. */
    method EvictOldest()
      requires Valid() && view.lru != []
      modifies this`heap, this`view, table
      ensures Valid() && view == Evicted(old(view), 1)
      ensures old(view.lru)[0] in old(heap.items) && heap.items == old(heap.items) - {old(view.lru)[0]}
      ensures heap.usage + old(heap.items[view.lru[0]].charge) == old(heap.usage)
    {
      hide CacheOk, TableOk, Identified, Cached, Dropped, DroppedItems, Evicted;
      OldestFacts(heap, view, next);
      ghost var v, items, members := view, heap.items, table.members;
      var oldest := heap.links[LRU].next;
      NothingMissing(view);
      TableIdentifies(items, table.nextHash, table.list, table.buckets, members);
      var found := table.Remove(heap.items, heap.items[oldest].key, heap.items[oldest].hash);
      OnlyMatch(items, members, oldest, found);
      var erased := FinishErase(found);
      DroppedOldest(items, v);
    }

    /** Drop every entry that no client holds. */
    method Prune()
      requires Valid()
      modifies this`heap, this`view, table
      ensures Valid() && view == Evicted(old(view), |old(view.lru)|)
      ensures heap.items == old(heap.items) - Elements(old(view.lru))
      ensures Map() == old(Map()) - NamesIn(old(heap.items), Elements(old(view.lru)))
      ensures ItemsStay(old(view.held), old(heap.items), heap.items)
    {
      hide CacheOk, TableOk, Identified, MapOf, MapReady, Cached, Evicted, Elements;
      ValidIsMapReady();
      ghost var v, items, k := view, heap.items, 0;
      AnyUnpinned(heap, view, next);
      EvictedNone(v);
      EvictedCount(v, 0);
      while heap.links[LRU].next != LRU
        invariant Valid() && k <= |v.lru| && view == Evicted(v, k) && view.held == v.held &&
                  heap.items == items - Elements(v.lru[..k])
        invariant LRU in heap.links && (heap.links[LRU].next == LRU <==> view.lru == []) && |view.lru| == |v.lru| - k
        decreases |v.lru| - k
      {
        EvictedOneMore(v, k);
        EvictOldest();
        k := k + 1;
        EvictedCount(v, k);
        AnyUnpinned(heap, view, next);
      }
      EvictedAll(v);
      EvictedMap(items, v, |v.lru|);
      HeldHaveItems();
      StayWithout(v.held, items, Elements(v.lru), heap.items);
    }

    /** The entry with this key, if there is one, leaves the cache. */
    method Erase(key: Bytes, hash: nat) returns (ghost found: int)
      requires Valid()
      modifies this`heap, this`view, table
      ensures Valid() && IsLookup(old(heap.items), old(Cached(view)), key, hash, found)
      ensures view == Dropped(old(view), found) && heap.items == DroppedItems(old(heap.items), old(view), found)
      ensures forall e :: e in Cached(view) <==>
                e in old(Cached(view)) && !(e in old(heap.items) && Matches(old(heap.items)[e], key, hash))
      ensures Map() == old(Map()) - {Name(key, hash)}
      ensures view.held == old(view.held) && ItemsStay(view.held, old(heap.items), heap.items)
    {
      hide CacheOk, TableOk, MapOf, Dropped, DroppedItems, Identified, MapReady, Cached;
      ValidIsMapReady();
      NothingMissing(view);
      ghost var items, v := heap.items, view;
      var removed := table.Remove(heap.items, key, hash);
      found := removed;
      var erased := FinishErase(removed);
      HeldHaveItems();
      StayDropped(v.held, items, v, found, heap.items);
      ErasedMap(items, v, key, hash, found);
    }

    /** malloc, with one reference for the caller. */
    method Allocate(item: Item) returns (e: nat)
      requires Valid()
      modifies this`heap, this`next, this`view
      ensures Valid() && e !in old(heap.items) && e !in old(view.deleted) && heap.items == old(heap.items)[e := item]
      ensures view == old(view).(held := old(view.held) + multiset{e}) && Cached(view) == old(Cached(view))
    {
      hide CacheOk, TableOk;
      e := next;
      AllocateKeepsOk(heap, view, next, item);
      FreshAddress(heap, view, next);
      SameItemsSameTable(heap.items, heap.items[e := item], table.nextHash, table.list, table.buckets, table.members);
      heap := Allocated(heap, e, item);
      view := view.(held := view.held + multiset{e});
      next := next + 1;
    }

    /** The handle enters the cache, in use; an entry with the same key leaves it. */
    method Enter(e: nat) returns (replaced: int)
      requires Valid() && e in heap.items && e !in Cached(view)
      modifies this`heap, this`view, table
      ensures Valid() && view.held == old(view.held)
      ensures IsLookup(old(heap.items), old(Cached(view)), old(heap.items[e].key), old(heap.items[e].hash), replaced)
      ensures Cached(view) == Without(old(Cached(view)), replaced) + {e}
      ensures var v := old(view).(inUse := old(view.inUse) + [e]);
        view == Dropped(v, replaced) && heap.items == DroppedItems(old(heap.items), v, replaced)
      ensures Map() == old(Map())[NameOf(old(heap.items)[e]) := old(heap.items)[e].value]
    {
      hide CacheOk, TableOk, Append, MapOf, Identified, Dropped, DroppedItems, MapReady, Cached, Without;
      ValidIsMapReady();
      ghost var items, v := heap.items, view;
      EnterKeepsOk(heap, view, next, e);
      NothingMissing(view);
      heap := Entered(heap, e);
      view := view.(inUse := view.inUse + [e]);
      replaced := table.Insert(heap.items, e);
      CachedWith(v, e, replaced);
      WithoutOne(Cached(view), replaced);
      var erased := FinishErase(replaced);
      EnteredMap(items, v, e, replaced);
    }

    /** The part of Insert before the eviction: the new handle, entered unless caching is turned off. */
    method Place(item: Item) returns (e: nat, ghost replaced: int)
      requires Valid()
      modifies this`heap, this`next, this`view, table
      ensures Valid() && e !in old(heap.items) && e !in old(view.deleted)
      ensures e in heap.items && heap.items[e] == item && view == Placed(old(view), e, capacity > 0, replaced)
      ensures heap.items == PlacedItems(old(heap.items), old(view), e, item, capacity > 0, replaced)
      ensures view.held == old(view.held) + multiset{e} && (e in Cached(view) <==> capacity > 0)
      ensures if capacity > 0 then IsLookup(old(heap.items), old(Cached(view)), item.key, item.hash, replaced)
              else replaced == NIL
      ensures Map() == if capacity > 0 then old(Map())[NameOf(item) := item.value] else old(Map())
      ensures ItemsStay(old(view.held), old(heap.items), heap.items)
    {
      hide CacheOk, TableOk, MapOf, Identified, MapReady, Dropped, DroppedItems, Placed, PlacedItems, Cached, IsLookup;
      hide ItemsStay, Without;
      ValidIsMapReady();
      HeldHaveItems();
      FreshNotCached(heap, view, next);
      ghost var items, v := heap.items, view;
      e := Allocate(item);
      AllocatedMap(items, v, e, item);
      HeldWith(v.held, e);
      replaced := NIL;
      if capacity > 0 {
        var found := Enter(e);
        LookupBefore(items, Cached(v), e, item, found);
        replaced := found;
      }
      PlacedIs(items, v, e, item, replaced);
      HeldHaveItems();
      StayPlaced(v.held, items, v, e, item, capacity > 0, replaced, heap.items);
    }

    /**
     A new entry for the key replaces the old one. Afterwards the charges fit the capacity or every cached entry is
     held by a client; the entries evicted are the oldest unpinned ones, and no more of them than needed.
     */
    method Insert(key: Bytes, hash: nat, value: nat, charge: nat)
      returns (e: nat, ghost replaced: int, ghost evicted: nat)
      requires Valid()
      modifies this`heap, this`next, this`view, table
      ensures Valid() && e !in old(heap.items) && e !in old(view.deleted)
      ensures e in heap.items && heap.items[e] == Item(key, hash, value, charge) &&
              (e in Cached(view) <==> capacity > 0)
      ensures if capacity > 0 then IsLookup(old(heap.items), old(Cached(view)), key, hash, replaced)
              else replaced == NIL
      ensures heap.usage <= capacity || view.lru == []
      ensures var v := Placed(old(view), e, capacity > 0, replaced);
        var items := PlacedItems(old(heap.items), old(view), e, Item(key, hash, value, charge), capacity > 0, replaced);
        && evicted <= |v.lru| && view == Evicted(v, evicted) && heap.items == items - Elements(v.lru[..evicted])
        && (evicted > 0 ==> v.lru[evicted - 1] in items && heap.usage + items[v.lru[evicted - 1]].charge > capacity)
        && Map() == (if capacity > 0 then old(Map())[Name(key, hash) := value] else old(Map()))
                    - NamesIn(items, Elements(v.lru[..evicted]))
      ensures view.held == old(view.held) + multiset{e} && ItemsStay(old(view.held), old(heap.items), heap.items)
    {
      hide CacheOk, TableOk, Cached, IsLookup, Dropped, PlacedItems, MapOf;
      HeldHaveItems();
      e, replaced := Place(Item(key, hash, value, charge));
      evicted := Evict(e);
    }

    /** The loop at the end of Insert. */
    method EvictDown() returns (ghost evicted: nat)
      requires Valid()
      modifies this`heap, this`view, table
      ensures Valid() && evicted <= |old(view.lru)| && view == Evicted(old(view), evicted)
      ensures view.held == old(view.held) && heap.items == old(heap.items) - Elements(old(view.lru)[..evicted])
      ensures heap.usage <= capacity || view.lru == []
      ensures evicted > 0 ==>
                var last := old(view.lru)[evicted - 1];
                last in old(heap.items) && heap.usage + old(heap.items)[last].charge > capacity
    {
      hide CacheOk, TableOk, Identified, Cached, Evicted, Elements;
      evicted := 0;
      ghost var v, items := view, heap.items;
      AnyUnpinned(heap, view, next);
      EvictedNone(v);
      EvictedCount(v, 0);
      while heap.usage > capacity && heap.links[LRU].next != LRU
        invariant Valid() && evicted <= |v.lru| && view == Evicted(v, evicted)
        invariant view.held == v.held && |view.lru| == |v.lru| - evicted
        invariant heap.items == items - Elements(v.lru[..evicted])
        invariant LRU in heap.links && (heap.links[LRU].next == LRU <==> view.lru == [])
        invariant evicted > 0 ==>
          v.lru[evicted - 1] in items && heap.usage + items[v.lru[evicted - 1]].charge > capacity
        decreases |v.lru| - evicted
      {
        EvictedOneMore(v, evicted);
        EvictOldest();
        evicted := evicted + 1;
        EvictedCount(v, evicted);
        AnyUnpinned(heap, view, next);
      }
    }

    /** The oldest entries go while the cache is too large; entry `e`, which a client holds, is not among them. */
    method Evict(ghost e: nat) returns (ghost evicted: nat)
      requires Valid() && view.held[e] > 0
      modifies this`heap, this`view, table
      ensures Valid() && evicted <= |old(view.lru)| && view == Evicted(old(view), evicted)
      ensures heap.items == old(heap.items) - Elements(old(view.lru)[..evicted])
      ensures e in Cached(view) <==> e in old(Cached(view))
      ensures e in heap.items && e in old(heap.items)
      ensures heap.usage <= capacity || view.lru == []
      ensures evicted > 0 ==>
                var last := old(view.lru)[evicted - 1];
                last in old(heap.items) && heap.usage + old(heap.items)[last].charge > capacity
      ensures Map() == old(Map()) - NamesIn(old(heap.items), Elements(old(view.lru)[..evicted]))
      ensures view.held == old(view.held) && ItemsStay(view.held, old(heap.items), heap.items)
    {
      hide CacheOk, TableOk, Identified, MapOf, MapReady, Cached, Evicted, Elements, ItemsStay, NamesIn;
      ValidIsMapReady();
      ghost var v, items := view, heap.items;
      HeldIsInUse(heap, view, next, e);
      HeldHaveItems();
      evicted := EvictDown();
      HeldIsAllocated(heap, view, next, NIL);
      HeldIsInUse(heap, view, next, e);
      EvictedCount(v, evicted);
      EvictedMap(items, v, evicted);
      StayWithout(v.held, items, Elements(v.lru[..evicted]), heap.items);
    }

    /** The destructor, called when no client holds a handle: every handle ever allocated has been freed once. */
    method Destroy()
      requires Valid() && view.held == multiset{}
      modifies this`heap, this`view, table
      ensures heap.items == map[] && NoRepeats(view.deleted)
      ensures forall e :: e in view.deleted <==> IN_USE < e < next
    {
      hide TableOk;
      NoneInUse(heap, view, next);
      Prune();
      NothingLeft(heap, view, next);
    }
  }

  /** `s` without `e`, if it is there. */
  function RemoveIn(s: seq<nat>, e: int): seq<nat> {
    if e >= 0 && e in s then Removed(s, IndexOf(s, e)) else s
  }

  lemma RemoveNil(s: seq<nat>)
    ensures RemoveIn(s, NIL) == s
  {
  }

  lemma FreshAddress(h: Heap, v: View, next: nat)
    requires CacheOk(h, v, next, NIL)
    ensures next !in h.items && next !in v.deleted
  {
  }

  lemma FreshNotCached(h: Heap, v: View, next: nat)
    requires CacheOk(h, v, next, NIL)
    ensures Cached(v) <= h.items.Keys
  {
  }

  lemma OldestFacts(h: Heap, v: View, next: nat)
    requires CacheOk(h, v, next, NIL) && v.lru != []
    ensures LRU in h.links && h.links[LRU].next == v.lru[0] && v.lru[0] in h.items && v.lru[0] in Cached(v)
    ensures v.held[v.lru[0]] == 0
  {
    HeadLinks(h.links, LRU, v.lru);
    assert EntryOk(h, v, v.lru[0]);
  }

  lemma AnyUnpinned(h: Heap, v: View, next: nat)
    requires CacheOk(h, v, next, NIL)
    ensures LRU in h.links && (h.links[LRU].next == LRU <==> v.lru == [])
  {
    HeadLinks(h.links, LRU, v.lru);
  }

  /** The only member with the key of `e` is `e`. */
  lemma OnlyMatch(items: map<nat, Item>, members: set<nat>, e: nat, found: int)
    requires Identified(items, members) && e in members && e in items
    requires IsLookup(items, members, items[e].key, items[e].hash, found)
    ensures found == e
  {
  }

  lemma TableIdentifies(items: map<nat, Item>, nextHash: map<nat, int>, list: seq<int>, buckets: seq<seq<nat>>,
                        members: set<nat>)
    requires TableOk(items, nextHash, list, buckets, members)
    ensures Identified(items, members)
  {
  }

  lemma HeldIsAllocated(h: Heap, v: View, next: nat, extra: int)
    requires CacheOk(h, v, next, extra)
    ensures forall e :: e in v.held ==> e in h.items
  {
  }

  lemma HeldIsNotOldest(h: Heap, v: View, next: nat, e: nat)
    requires CacheOk(h, v, next, NIL) && v.held[e] > 0
    ensures e !in v.lru
    ensures forall x :: x in v.lru ==> x in h.items
  {
    forall x | x in v.lru
      ensures x in h.items && x != e
    {
      assert x in Cached(v) && EntryOk(h, v, x);
    }
  }

  lemma HeldIsInUse(h: Heap, v: View, next: nat, e: nat)
    requires CacheOk(h, v, next, NIL) && v.held[e] > 0
    ensures e in Cached(v) <==> e in v.inUse
  {
    HeldIsNotOldest(h, v, next, e);
  }

  /** Every allocated handle is owned by the cache or by a client; one in use by a client. */
  lemma EveryHandleIsOwned(h: Heap, v: View, next: nat)
    requires CacheOk(h, v, next, NIL)
    ensures forall e :: e in h.items ==> v.held[e] > 0 || e in Cached(v)
    ensures forall e :: e in v.inUse ==> v.held[e] > 0
  {
    forall e | e in h.items
      ensures (v.held[e] > 0 || e in Cached(v)) && (e in v.inUse ==> v.held[e] > 0)
    {
      assert EntryOk(h, v, e);
    }
    assert forall e :: e in v.inUse ==> e in Cached(v);
  }

  lemma NoneInUse(h: Heap, v: View, next: nat)
    requires CacheOk(h, v, next, NIL) && v.held == multiset{}
    ensures v.inUse == []
  {
    EveryHandleIsOwned(h, v, next);
  }

  lemma NothingLeft(h: Heap, v: View, next: nat)
    requires CacheOk(h, v, next, NIL) && v.held == multiset{} && v.lru == [] && v.inUse == []
    ensures h.items == map[] && NoRepeats(v.deleted) && forall e :: e in v.deleted <==> IN_USE < e < next
  {
    EveryHandleIsOwned(h, v, next);
  }

  /** An entry is on one list only. */
  lemma EntryOnOneList(h: Heap, v: View, next: nat, e: int)
    requires CacheOk(h, v, next, NIL)
    ensures e >= 0 && e in Cached(v) ==> (e in v.lru <==> e !in v.inUse)
  {
  }

  lemma NothingMissing(v: View)
    ensures Without(Cached(v), NIL) == Cached(v)
  {
  }

  lemma HandleFacts(h: Heap, v: View, next: nat, extra: int, e: nat)
    requires CacheOk(h, v, next, extra) && e in h.items
    ensures h.items.Keys == h.meta.Keys && e in h.meta && h.meta[e].refs > 0 && e > IN_USE
    ensures h.meta[e].inCache <==> e in Cached(v)
    ensures h.meta[e].inCache && h.meta[e].refs >= 2 <==> e in v.inUse
    ensures h.meta[e].refs == v.held[e] + (if h.meta[e].inCache then 1 else 0) + if e == extra then 1 else 0
  {
    assert EntryOk(h, v, e);
  }

  /** A reference that its client gives up is left over until Unref drops it. */
  lemma LetGo(h: Heap, v: View, next: nat, e: nat)
    requires CacheOk(h, v, next, NIL) && v.held[e] > 0
    ensures e in h.items && CacheOk(h, v.(held := v.held - multiset{e}), next, e)
    ensures Cached(v.(held := v.held - multiset{e})) == Cached(v)
  {
    var v' := v.(held := v.held - multiset{e});
    assert Cached(v') == Cached(v);
    forall x | x in h.items
      ensures EntryOk(h, v', x)
    {
      assert EntryOk(h, v, x);
    }
  }

  /** Cached entries are allocated, differ in their names, and are each on one list once. */
  ghost predicate MapReady(items: map<nat, Item>, v: View) {
    && Identified(items, Cached(v)) && NoRepeats(v.lru) && NoRepeats(v.inUse)
    && (forall e :: e in v.lru ==> e !in v.inUse)
  }

  lemma CacheIsMapReady(h: Heap, v: View, next: nat, extra: int)
    requires CacheOk(h, v, next, extra) && Identified(h.items, Cached(v))
    ensures MapReady(h.items, v)
  {
    ListsHaveNoRepeats(h, v);
  }

  lemma CachedWithout(v: View, e: nat)
    requires e in Cached(v) && NoRepeats(v.lru) && NoRepeats(v.inUse) && forall x :: x in v.lru ==> x !in v.inUse
    ensures Cached(WithoutEntry(v, e)) == Cached(v) - {e}
  {
    if e in v.lru {
      RemovedElements(v.lru, IndexOf(v.lru, e));
    } else {
      RemovedElements(v.inUse, IndexOf(v.inUse, e));
    }
  }

  lemma CachedDropped(v: View, e: int)
    requires NoRepeats(v.lru) && NoRepeats(v.inUse) && forall x :: x in v.lru ==> x !in v.inUse
    ensures Cached(Dropped(v, e)) == Without(Cached(v), e)
  {
    if e >= 0 && e in Cached(v) {
      CachedWithout(v, e);
    }
  }

  /** The evicted entries take their names out of the map, and only those. */
  lemma EvictedMap(items: map<nat, Item>, v: View, n: nat)
    requires MapReady(items, v) && n <= |v.lru|
    ensures MapOf(items - Elements(v.lru[..n]), Cached(Evicted(v, n)))
         == MapOf(items, Cached(v)) - NamesIn(items, Elements(v.lru[..n]))
  {
    var gone := Elements(v.lru[..n]);
    CachedEvicted(v, n);
    StillThere(items, Cached(v), gone);
    hide Cached, Identified, NoRepeats, Elements, MapOf, NamesIn;
    MapWithout(items, items - gone, Cached(v), gone);
  }

  lemma StillThere(items: map<nat, Item>, members: set<nat>, gone: set<nat>)
    requires Identified(items, members)
    ensures forall e :: e in members && e !in gone ==> e in items - gone && (items - gone)[e] == items[e]
  {
  }

  lemma CachedEvicted(v: View, n: nat)
    requires n <= |v.lru| && NoRepeats(v.lru) && forall e :: e in v.lru ==> e !in v.inUse
    ensures Cached(Evicted(v, n)) == Cached(v) - Elements(v.lru[..n]) && Elements(v.lru[..n]) <= Cached(v)
  {
    forall e ensures e in v.lru[n..] <==> e in v.lru && e !in v.lru[..n] {
      TakeOrDrop(v.lru, n, e);
    }
  }

  lemma TakeOrDrop(s: seq<nat>, n: nat, e: nat)
    requires n <= |s| && NoRepeats(s)
    ensures e in s[n..] <==> e in s && e !in s[..n]
  {
    assert s == s[..n] + s[n..];
    assert forall i, j :: 0 <= i < n <= j < |s| ==> s[i] != s[j];
  }

  lemma EvictedOneMore(v: View, n: nat)
    requires n < |v.lru|
    ensures Evicted(Evicted(v, n), 1) == Evicted(v, n + 1) && Evicted(v, n).lru != [] &&
            Evicted(v, n).lru[0] == v.lru[n]
    ensures Elements(v.lru[..n + 1]) == Elements(v.lru[..n]) + {v.lru[n]}
  {
    assert v.lru[..n + 1] == v.lru[..n] + [v.lru[n]];
    assert v.lru[n..][1..] == v.lru[n + 1..] && v.lru[n..][..1] == [v.lru[n]];
    assert v.deleted + v.lru[..n] + [v.lru[n]] == v.deleted + v.lru[..n + 1];
  }

  lemma EvictedNone(v: View)
    ensures Evicted(v, 0) == v && Elements(v.lru[..0]) == {}
  {
    assert v.lru[0..] == v.lru && v.deleted + v.lru[..0] == v.deleted;
  }

  lemma EvictedCount(v: View, n: nat)
    requires n <= |v.lru|
    ensures var w := Evicted(v, n); w.held == v.held && w.inUse == v.inUse && |w.lru| == |v.lru| - n
  {
  }

  lemma EvictedAll(v: View)
    ensures v.lru[..|v.lru|] == v.lru
  {
  }

  lemma HeldWith(held: multiset<nat>, e: nat)
    ensures forall x :: x in held ==> x in held + multiset{e}
  {
  }

  /** A handle that is no member does not matter to a lookup. */
  lemma LookupBefore(items: map<nat, Item>, members: set<nat>, e: nat, item: Item, found: int)
    requires e !in members && IsLookup(items[e := item], members, item.key, item.hash, found)
    ensures IsLookup(items, members, item.key, item.hash, found)
  {
  }

  lemma PlacedIs(items: map<nat, Item>, v: View, e: nat, item: Item, replaced: int)
    ensures var w := v.(held := v.held + multiset{e});
      var u := w.(inUse := w.inUse + [e]);
      && Placed(v, e, true, replaced) == Dropped(u, replaced)
      && PlacedItems(items, v, e, item, true, replaced) == DroppedItems(items[e := item], u, replaced)
      && Placed(v, e, false, NIL) == w && PlacedItems(items, v, e, item, false, NIL) == items[e := item]
  {
  }

  lemma StayPlaced(held: multiset<nat>, items: map<nat, Item>, v: View, e: nat, item: Item, caching: bool,
                   replaced: int, items': map<nat, Item>)
    requires items' == PlacedItems(items, v, e, item, caching, replaced) && e !in items
    requires forall x :: x in held ==> x in items && x in items'
    ensures ItemsStay(held, items, items') && (e in items' ==> items'[e] == item)
  {
  }

  lemma StayWithout(held: multiset<nat>, items: map<nat, Item>, gone: set<nat>, items': map<nat, Item>)
    requires items' == items - gone && forall x :: x in held ==> x in items'
    ensures ItemsStay(held, items, items')
  {
  }

  lemma StayDropped(held: multiset<nat>, items: map<nat, Item>, v: View, e: int, items': map<nat, Item>)
    requires items' == DroppedItems(items, v, e) && forall x :: x in held ==> x in items'
    ensures ItemsStay(held, items, items')
  {
  }

  lemma DroppedNone(items: map<nat, Item>, v: View)
    ensures Dropped(v, NIL) == v && DroppedItems(items, v, NIL) == items
  {
  }

  lemma DroppedOldest(items: map<nat, Item>, v: View)
    requires v.lru != [] && v.held[v.lru[0]] == 0
    ensures Dropped(v, v.lru[0]) == Evicted(v, 1) && DroppedItems(items, v, v.lru[0]) == items - {v.lru[0]}
  {
    assert IndexOf(v.lru, v.lru[0]) == 0;
    assert Removed(v.lru, 0) == v.lru[1..];
    assert v.lru[..1] == [v.lru[0]];
  }

  lemma CachedWith(v: View, e: nat, replaced: int)
    ensures var w := v.(inUse := v.inUse + [e]);
      Cached(w) == Cached(v) + {e} &&
          (replaced != e ==> Without(Cached(w), replaced) == Without(Cached(v), replaced) + {e})
  {
  }

  lemma WithoutOne(members: set<nat>, e: int)
    ensures Without(members, e) == if e >= 0 then members - {e as nat} else members
  {
  }

  /** Whoever leaves the cache takes its name out of the map. */
  lemma ErasedMap(items: map<nat, Item>, v: View, key: Bytes, hash: nat, found: int)
    requires MapReady(items, v) && IsLookup(items, Cached(v), key, hash, found)
    ensures MapOf(DroppedItems(items, v, found), Cached(Dropped(v, found)))
            == MapOf(items, Cached(v)) - {Name(key, hash)}
    ensures forall e :: e in Cached(Dropped(v, found)) <==>
              e in Cached(v) && !(e in items && Matches(items[e], key, hash))
  {
    CachedDropped(v, found);
    hide Dropped, NoRepeats, Cached, MapOf;
    LookupInMap(items, Cached(v), key, hash, found);
    if found != NIL {
      MapWithout(items, DroppedItems(items, v, found), Cached(v), {found as nat});
      assert Without(Cached(v), found) == Cached(v) - {found as nat};
      OneName(items, found, key, hash);
    } else {
      assert Without(Cached(v), found) == Cached(v);
    }
  }

  lemma OneName(items: map<nat, Item>, found: nat, key: Bytes, hash: nat)
    requires found in items && Matches(items[found], key, hash)
    ensures NamesIn(items, {found}) == {Name(key, hash)}
  {
    assert NamesIn(items, {found}) == {NameOf(items[found])};
  }

  /** A new entry binds its name, whoever had it before. */
  lemma EnteredMap(items: map<nat, Item>, v: View, e: nat, replaced: int)
    requires MapReady(items, v) && e in items && e !in Cached(v)
    requires IsLookup(items, Cached(v), items[e].key, items[e].hash, replaced)
    ensures var w := v.(inUse := v.inUse + [e]);
      MapOf(DroppedItems(items, w, replaced), Cached(Dropped(w, replaced)))
      == MapOf(items, Cached(v))[NameOf(items[e]) := items[e].value]
  {
    var w := v.(inUse := v.inUse + [e]);
    var members := Without(Cached(v), replaced) + {e};
    MapWith(items, Cached(v), e, replaced);
    CachedEntered(v, e, replaced);
    CachedDropped(w, replaced);
    assert Cached(w) == Cached(v) + {e};
    assert Without(Cached(w), replaced) == members;
    hide MapOf, Dropped, Cached, NoRepeats;
    MapUnchanged(items, DroppedItems(items, w, replaced), members);
  }

  lemma CachedEntered(v: View, e: nat, replaced: int)
    requires e !in Cached(v) && NoRepeats(v.inUse) && forall x :: x in v.lru ==> x !in v.inUse
    ensures var w := v.(inUse := v.inUse + [e]);
      NoRepeats(w.inUse) && forall x :: x in w.lru ==> x !in w.inUse
  {
  }

  /** A handle without entry in the cache changes nothing. */
  lemma AllocatedMap(items: map<nat, Item>, v: View, e: nat, item: Item)
    requires MapReady(items, v) && e !in items
    ensures MapReady(items[e := item], v) && MapOf(items[e := item], Cached(v)) == MapOf(items, Cached(v))
  {
    hide MapOf;
    MapUnchanged(items, items[e := item], Cached(v));
  }

  /** Nor does giving a reference back. */
  lemma ReleasedMap(items: map<nat, Item>, members: set<nat>, e: nat)
    requires Identified(items, members) && e !in members
    ensures MapOf(items - {e}, members) == MapOf(items, members)
  {
    hide MapOf;
    MapUnchanged(items, items - {e}, members);
  }
}
