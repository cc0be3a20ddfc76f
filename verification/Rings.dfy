/** Sequences of addresses. */
module Sequences {
  predicate NoRepeats(s: seq<nat>) {
    forall i, j :: 0 <= i < j < |s| ==> s[i] != s[j]
  }

  function Removed(s: seq<nat>, k: nat): seq<nat>
    requires k < |s|
  {
    s[..k] + s[k + 1..]
  }
}

/** Circular doubly linked lists with a dummy head, as the block cache keeps them (util/cache.cc:196-252). */
module Rings {
  import opened Sequences

  datatype Link = Link(next: nat, prev: nat)

  type Links = map<nat, Link>

  /** The `i`-th stop on the way around: the head, the elements, and the head again. */
  function At(head: nat, s: seq<nat>, i: int): nat {
    if 1 <= i <= |s| then s[i - 1] else head
  }

  predicate RingLink(links: Links, head: nat, s: seq<nat>, i: nat)
    requires i <= |s|
  {
    var here, there := At(head, s, i), At(head, s, i + 1);
    here in links && there in links && links[here].next == there && links[there].prev == here
  }

  /** From the head, `next` visits exactly the elements of `s` in order, and `prev` visits them backwards. */
  predicate RingOk(links: Links, head: nat, s: seq<nat>) {
    && head in links && head !in s && NoRepeats(s)
    && forall i :: 0 <= i <= |s| ==> RingLink(links, head, s, i)
  }

  /** LRU_Remove: `e->next->prev = e->prev; e->prev->next = e->next`. */
  function Unlink(links: Links, e: nat): Links
    requires e in links && links[e].next in links && links[e].prev in links
  {
    var l1 := links[links[e].next := links[links[e].next].(prev := links[e].prev)];
    l1[l1[e].prev := l1[l1[e].prev].(next := l1[e].next)]
  }

  /** LRU_Append: the new element goes right in front of the head. */
  function Append(links: Links, head: nat, e: nat): Links
    requires head in links && links[head].prev in links
  {
    var l1 := links[e := Link(head, links[head].prev)];
    var l2 := l1[l1[e].prev := l1[l1[e].prev].(next := e)];
    l2[l2[e].next := l2[l2[e].next].(prev := e)]
  }

  lemma InRing(links: Links, head: nat, s: seq<nat>, k: nat)
    requires RingOk(links, head, s) && k < |s|
    ensures s[k] in links && links[s[k]] == Link(At(head, s, k + 2), At(head, s, k))
    ensures links[s[k]].next in links && links[s[k]].prev in links
  {
    assert RingLink(links, head, s, k) && RingLink(links, head, s, k + 1);
  }

  lemma UnlinkKeepsRing(links: Links, head: nat, s: seq<nat>, k: nat)
    requires RingOk(links, head, s) && k < |s|
    ensures s[k] in links && links[s[k]].next in links && links[s[k]].prev in links
    ensures RingOk(Unlink(links, s[k]), head, Removed(s, k))
  {
    InRing(links, head, s, k);
    var t, links' := Removed(s, k), Unlink(links, s[k]);
    forall i | 0 <= i <= |t|
      ensures RingLink(links', head, t, i)
    {
      var j := if i <= k then i else i + 1;
      assert RingLink(links, head, s, j);
      if i == k {
        assert RingLink(links, head, s, k + 1);
      }
    }
  }

  lemma HeadLinks(links: Links, head: nat, s: seq<nat>)
    requires RingOk(links, head, s)
    ensures links[head].prev in links && links[head].prev == At(head, s, |s|) && links[head].next == At(head, s, 1)
  {
    assert RingLink(links, head, s, |s|) && RingLink(links, head, s, 0);
  }

  lemma AppendKeepsRing(links: Links, head: nat, s: seq<nat>, e: nat)
    requires RingOk(links, head, s) && e != head && e !in s
    ensures links[head].prev in links
    ensures RingOk(Append(links, head, e), head, s + [e])
  {
    HeadLinks(links, head, s);
    var t, links' := s + [e], Append(links, head, e);
    forall i | 0 <= i <= |t|
      ensures RingLink(links', head, t, i)
    {
      if i < |s| {
        assert RingLink(links, head, s, i);
      }
    }
  }

  /** A ring does not notice stores to elements of other rings. */
  lemma RingElsewhere(links: Links, links': Links, head: nat, s: seq<nat>)
    requires RingOk(links, head, s)
    requires forall x :: (x == head || x in s) && x in links ==> x in links' && links'[x] == links[x]
    ensures RingOk(links', head, s)
  {
    forall i | 0 <= i <= |s|
      ensures RingLink(links', head, s, i)
    {
      assert RingLink(links, head, s, i);
    }
  }

  /** Unlinking touches only the ring itself; appending only the ring and the new element. */
  lemma UnlinkTouches(links: Links, head: nat, s: seq<nat>, k: nat, x: nat)
    requires RingOk(links, head, s) && k < |s| && x != head && x !in s && x in links
    ensures s[k] in links && links[s[k]].next in links && links[s[k]].prev in links
    ensures x in Unlink(links, s[k]) && Unlink(links, s[k])[x] == links[x]
  {
    InRing(links, head, s, k);
  }

  lemma AppendTouches(links: Links, head: nat, s: seq<nat>, e: nat, x: nat)
    requires RingOk(links, head, s) && x != head && x !in s && x != e && x in links
    ensures links[head].prev in links
    ensures x in Append(links, head, e) && Append(links, head, e)[x] == links[x]
  {
    HeadLinks(links, head, s);
  }
}
