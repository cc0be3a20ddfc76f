/**
 Sender and receiver with different versions of a message type: fields the receiver does not know are skipped, fields
 the sender does not have keep their defaults, and only a required field that is missing makes decoding fail
 (pb_decode.c:321-331, 928-1076).
 */
module PbEvolution {
  import opened Options
  import opened ByteStrings
  import opened Coding
  import opened PbMessages
  import opened PbDecode
  import opened PbRoundTrip

  // ----- fields the receiver does not know -----

  /** The receiver has no field with this tag. */
  ghost predicate Unknown(slots: seq<Slot>, tag: nat) {
    forall i :: 0 <= i < |slots| ==> !HasTag(slots[i], tag)
  }

  ghost predicate Foreign(slots: seq<Slot>, s: Slot) {
    forall tag :: HasTag(s, tag) ==> Unknown(slots, tag)
  }

  lemma {:induction false} VarintSkipped(n: nat, rest: Bytes)
    ensures SkipVarint(EncodeVarint(n) + rest) == Some(rest)
  {
    var s := EncodeVarint(n) + rest;
    if n < 128 {
      assert s[1..] == rest;
    } else {
      assert s[1..] == EncodeVarint(n / 128) + rest;
      VarintSkipped(n / 128, rest);
    }
  }

  /** A value of any type is skipped by its wire type alone. */
  lemma ValueSkipped(k: Kind, v: Value, rest: Bytes)
    requires ValueShape(k, v) && |EncodeValue(k, v)| < TWO_32
    ensures SkipField(WireType(k), EncodeValue(k, v) + rest) == Some(rest)
  {
    hide Substream, SkipVarint;
    match k
    case Fixed32Kind =>
      assert (EncodeFixed32(v.i) + rest)[4..] == rest;
    case Fixed64Kind =>
      assert (EncodeFixed64(v.i) + rest)[8..] == rest;
    case BytesKind(_) => SubstreamRoundTrip(v.bytes, rest);
    case StringKind(_) => SubstreamRoundTrip(v.bytes, rest);
    case FixedBytesKind(_) => SubstreamRoundTrip(v.bytes, rest);
    case MessageKind(fields) => SubstreamRoundTrip(Encode(fields, v.contents), rest);
    case _ => VarintSkipped(Sent(k, v.i), rest);
  }

  /** A field with an unknown tag leaves the struct as it is. */
  lemma UnknownSkipped(slots: seq<Slot>, cur: seq<Content>, seen: set<nat>, tag: nat, wireType: nat, body: Bytes,
                       rest: Bytes)
    requires DescriptorOk(slots) && MessageShape(slots, cur) && Unknown(slots, tag)
    requires 0 < tag < MAX_TAG && wireType < 8 && SkipField(wireType, body + rest) == Some(rest)
    ensures Decode(slots, cur, seen, EncodeTag(tag, wireType) + body + rest) == Decode(slots, cur, seen, rest)
  {
    hide EncodeTag, GetTag, SkipField, DescriptorOk;
    assert EncodeTag(tag, wireType) + body + rest == EncodeTag(tag, wireType) + (body + rest);
    TagRoundTrip(tag, wireType, body + rest);
    assert Find(slots, tag) == |slots|;
  }

  lemma FieldSkipped(slots: seq<Slot>, cur: seq<Content>, seen: set<nat>, f: Field, v: Value, rest: Bytes)
    requires DescriptorOk(slots) && MessageShape(slots, cur) && Unknown(slots, f.tag) && FieldOk(f)
    requires FieldShape(f, v) && |EncodeField(f, v)| < TWO_32
    ensures Decode(slots, cur, seen, EncodeField(f, v) + rest) == Decode(slots, cur, seen, rest)
  {
    hide Decode, EncodeTag, EncodeValue, SkipField, DescriptorOk;
    ValueSkipped(f.kind, v, rest);
    UnknownSkipped(slots, cur, seen, f.tag, WireType(f.kind), EncodeValue(f.kind, v), rest);
  }

  lemma {:induction false} EachSkipped(slots: seq<Slot>, cur: seq<Content>, seen: set<nat>, f: Field, items: seq<Value>,
                                       rest: Bytes)
    requires DescriptorOk(slots) && MessageShape(slots, cur) && Unknown(slots, f.tag) && FieldOk(f)
    requires forall j :: 0 <= j < |items| ==> FieldShape(f, items[j])
    requires |EncodeEach(f, items)| < TWO_32
    ensures Decode(slots, cur, seen, EncodeEach(f, items) + rest) == Decode(slots, cur, seen, rest)
    decreases |items|
  {
    hide Decode, EncodeField, DescriptorOk, FieldOk;
    if items == [] {
      assert [] + rest == rest;
    } else {
      var tail := EncodeEach(f, items[1..]);
      assert EncodeEach(f, items) + rest == EncodeField(f, items[0]) + (tail + rest);
      FieldSkipped(slots, cur, seen, f, items[0], tail + rest);
      EachSkipped(slots, cur, seen, f, items[1..], rest);
    }
  }

  lemma ArraySkipped(slots: seq<Slot>, cur: seq<Content>, seen: set<nat>, f: Field, items: seq<Value>, rest: Bytes)
    requires DescriptorOk(slots) && MessageShape(slots, cur) && Unknown(slots, f.tag) && FieldOk(f)
    requires forall j :: 0 <= j < |items| ==> FieldShape(f, items[j])
    requires |EncodeArray(f, items)| < TWO_32
    ensures Decode(slots, cur, seen, EncodeArray(f, items) + rest) == Decode(slots, cur, seen, rest)
  {
    hide Decode, EncodeTag, EncodeEach, EncodeItems, Substream, DescriptorOk;
    if Packable(f.kind) {
      var body := PutLengthPrefixed(EncodeItems(f, items));
      SubstreamRoundTrip(EncodeItems(f, items), rest);
      UnknownSkipped(slots, cur, seen, f.tag, WT_STRING, body, rest);
    } else {
      EachSkipped(slots, cur, seen, f, items, rest);
    }
  }

  /** Whatever a sender stores under tags the receiver does not have, the receiver ignores. */
  lemma SlotSkipped(slots: seq<Slot>, cur: seq<Content>, seen: set<nat>, s: Slot, c: Content, rest: Bytes)
    requires DescriptorOk(slots) && MessageShape(slots, cur) && Foreign(slots, s)
    requires SlotOk(s) && SlotShape(s, c) && |EncodeSlot(s, c)| < TWO_32
    ensures Decode(slots, cur, seen, EncodeSlot(s, c) + rest) == Decode(slots, cur, seen, rest)
  {
    hide Decode, EncodeField, EncodeArray, DescriptorOk;
    assert [] + rest == rest;
    match s
    case Single(f, rule) =>
      assert HasTag(s, f.tag) && FieldOk(f);
      if EncodeSlot(s, c) == [] {
      } else if rule.Repeated? {
        ArraySkipped(slots, cur, seen, f, c.items, rest);
      } else {
        FieldSkipped(slots, cur, seen, f, c.v, rest);
      }
    case Union(members) =>
      if j :| 0 <= j < |members| && members[j].tag == c.which {
        PresentUnion(members, c, j);
        assert HasTag(s, members[j].tag) && FieldOk(members[j]);
        FieldSkipped(slots, cur, seen, members[j], c.v, rest);
      } else {
        AbsentUnion(members, c);
      }
  }

  /** A field that its rule says is not there: absent, proto3 zero, no items, or a oneof without a chosen member. */
  predicate Absent(s: Slot, c: Content)
    requires SlotShape(s, c)
  {
    if s.Union? then !HasTag(s, c.which) else ZeroSlot(s, c)
  }

  lemma {:induction false} AbsentSendsNothing(s: Slot, c: Content)
    requires SlotOk(s) && SlotShape(s, c)
    ensures EncodeSlot(s, c) == [] <==> Absent(s, c)
  {
    match s
    case Union(members) =>
      if j :| 0 <= j < |members| && members[j].tag == c.which {
        PresentUnion(members, c, j);
      } else {
        AbsentUnion(members, c);
      }
    case Single(f, Repeated(_)) =>
      if c.items != [] && !Packable(f.kind) {
        assert EncodeEach(f, c.items) == EncodeField(f, c.items[0]) + EncodeEach(f, c.items[1..]);
      }
    case Single(_, _) =>
  }

  /** Nothing at all is sent for exactly the messages without a field that is there. */
  lemma {:induction false} NothingSentIffAllAbsent(slots: seq<Slot>, m: seq<Content>)
    requires MessageShape(slots, m) && forall i :: 0 <= i < |slots| ==> SlotOk(slots[i])
    ensures Encode(slots, m) == [] <==> forall i :: 0 <= i < |slots| ==> Absent(slots[i], m[i])
    decreases |slots|
  {
    hide Absent, SlotOk, EncodeSlot;
    if slots != [] {
      AbsentSendsNothing(slots[0], m[0]);
      NothingSentIffAllAbsent(slots[1..], m[1..]);
      assert forall i :: 1 <= i < |slots| ==> slots[i] == slots[1..][i - 1] && m[i] == m[1..][i - 1];
    }
  }

  // ----- a message between two versions of its type -----

  /** Each field of the sender is one of the receiver's, or has a tag the receiver does not know. */
  ghost predicate Compatible(slots: seq<Slot>, sent: seq<Slot>) {
    forall k :: 0 <= k < |sent| ==> sent[k] in slots || Foreign(slots, sent[k])
  }

  /** What a field of the receiver holds when the first `k` slots of the sender have arrived. */
  function Arrived(s: Slot, sent: seq<Slot>, m: seq<Content>, k: nat): (c: Content)
    requires MessageShape(sent, m) && k <= |sent|
    ensures s !in sent[..k] ==> c == InitSlot(s)
  {
    if k == 0 then InitSlot(s)
    else if sent[k - 1] == s then
      assert sent[..k][k - 1] == s;
      CanonSlot(s, m[k - 1])
    else
      assert forall i :: 0 <= i < k - 1 ==> sent[..k][i] == sent[..k - 1][i];
      Arrived(s, sent, m, k - 1)
  }

  /** Shared fields as they were sent, the others at their defaults. */
  function Arrivals(slots: seq<Slot>, sent: seq<Slot>, m: seq<Content>, k: nat): seq<Content>
    requires MessageShape(sent, m) && k <= |sent|
  {
    seq(|slots|, j requires 0 <= j < |slots| => Arrived(slots[j], sent, m, k))
  }

  ghost predicate RequiredMarked(slots: seq<Slot>, sent: seq<Slot>, k: nat, seen: set<nat>)
    requires k <= |sent|
  {
    forall j :: 0 <= j < |slots| && IsRequired(slots[j]) ==> (j in seen <==> slots[j] in sent[..k])
  }

  /** The sender has every required field that the receiver keeps track of. */
  predicate RequiredSent(slots: seq<Slot>, sent: seq<Slot>) {
    forall j :: 0 <= j < |slots| && IsRequired(slots[j]) && RequiredIndex(slots, j) < MAX_REQUIRED ==> slots[j] in sent
  }

  ghost predicate SharedWithin(slots: seq<Slot>, sent: seq<Slot>, m: seq<Content>)
    requires MessageShape(sent, m)
  {
    forall k :: 0 <= k < |sent| && sent[k] in slots ==> SlotWithin(true, sent[k], m[k])
  }

  lemma OnlyHere(sent: seq<Slot>, k: nat, tag: nat)
    requires TagsDiffer(sent) && k < |sent| && HasTag(sent[k], tag)
    ensures sent[k] !in sent[..k]
  {
  }

  /** The next slot of the sender is one the receiver has: it arrives in that slot. */
  lemma SharedArrives(slots: seq<Slot>, sent: seq<Slot>, m: seq<Content>, k: nat, j: nat, tag: nat)
    requires DescriptorOk(slots) && DescriptorOk(sent) && MessageShape(sent, m) && k < |sent|
    requires j < |slots| && slots[j] == sent[k] && HasTag(sent[k], tag)
    ensures Arrived(slots[j], sent, m, k) == InitSlot(slots[j])
    ensures Arrivals(slots, sent, m, k + 1) == Arrivals(slots, sent, m, k)[j := CanonSlot(sent[k], m[k])]
  {
    OnlyHere(sent, k, tag);
    var after := Arrivals(slots, sent, m, k)[j := CanonSlot(sent[k], m[k])];
    forall i | 0 <= i < |slots| ensures Arrivals(slots, sent, m, k + 1)[i] == after[i] {
      assert i != j ==> !HasTag(slots[i], tag);
    }
  }

  lemma {:induction false} NoMembers(sent: seq<Slot>, m: seq<Content>, k: nat)
    requires MessageShape(sent, m) && k <= |sent|
    ensures Arrived(Union([]), sent, m, k) == OneOf(0, Int(0))
  {
    if k > 0 {
      NoMembers(sent, m, k - 1);
    }
  }

  /** The next slot of the sender is unknown to the receiver: nothing changes. */
  lemma ForeignArrives(slots: seq<Slot>, sent: seq<Slot>, m: seq<Content>, k: nat)
    requires MessageShape(sent, m) && k < |sent| && Foreign(slots, sent[k])
    ensures Arrivals(slots, sent, m, k + 1) == Arrivals(slots, sent, m, k)
    ensures forall j :: 0 <= j < |slots| && IsRequired(slots[j]) ==> slots[j] != sent[k]
  {
    var s := sent[k];
    forall j | 0 <= j < |slots|
      ensures Arrived(slots[j], sent, m, k + 1) == Arrived(slots[j], sent, m, k)
      ensures slots[j] == s ==> !IsRequired(s)
    {
      if slots[j] == s {
        assert s.Single? ==> HasTag(s, s.field.tag);
        assert s.Union? && s.members != [] ==> HasTag(s, s.members[0].tag);
        NoMembers(sent, m, k);
      }
    }
  }

  lemma {:induction false} SlotArrives(slots: seq<Slot>, sent: seq<Slot>, m: seq<Content>, k: nat, seen: set<nat>,
                                       rest: Bytes)
    returns (now: set<nat>)
    requires DescriptorOk(slots) && DescriptorOk(sent) && Compatible(slots, sent) && k < |sent|
    requires MessageShape(sent, m) && SharedWithin(slots, sent, m) && |EncodeSlot(sent[k], m[k])| < TWO_32
    requires MessageShape(slots, Arrivals(slots, sent, m, k)) && RequiredMarked(slots, sent, k, seen)
    ensures MessageShape(slots, Arrivals(slots, sent, m, k + 1)) && RequiredMarked(slots, sent, k + 1, now)
    ensures Decode(slots, Arrivals(slots, sent, m, k), seen, EncodeSlot(sent[k], m[k]) + rest)
         == Decode(slots, Arrivals(slots, sent, m, k + 1), now, rest)
  {
    hide Decode, EncodeSlot, SlotShape, SlotOk, TagsDiffer, SlotWithin, CanonSlot, InitSlot, Arrivals, HasTag, Arrived;
    var cur := Arrivals(slots, sent, m, k);
    assert sent[..k + 1] == sent[..k] + [sent[k]];
    assert SlotOk(sent[k]) && SlotShape(sent[k], m[k]);
    if Foreign(slots, sent[k]) {
      now := seen;
      ForeignArrives(slots, sent, m, k);
      SlotSkipped(slots, cur, seen, sent[k], m[k], rest);
    } else {
      var j :| 0 <= j < |slots| && slots[j] == sent[k];
      var tag :| HasTag(sent[k], tag) && !Unknown(slots, tag);
      SharedArrives(slots, sent, m, k, j, tag);
      ArrivalsAt(slots, sent, m, k, j);
      SlotRoundTrip(slots, cur, seen, j, m[k], rest);
      now := if EncodeSlot(sent[k], m[k]) == [] then seen else seen + {j};
      RequiredIsSent(sent[k], m[k]);
      OnlyOneWithTag(slots, j, tag);
    }
  }

  lemma ArrivalsAt(slots: seq<Slot>, sent: seq<Slot>, m: seq<Content>, k: nat, j: nat)
    requires MessageShape(sent, m) && k <= |sent| && j < |slots|
    ensures |Arrivals(slots, sent, m, k)| == |slots|
    ensures Arrivals(slots, sent, m, k)[j] == Arrived(slots[j], sent, m, k)
  {
  }

  lemma OnlyOneWithTag(slots: seq<Slot>, j: nat, tag: nat)
    requires TagsDiffer(slots) && j < |slots| && HasTag(slots[j], tag)
    ensures forall i :: 0 <= i < |slots| && slots[i] == slots[j] ==> i == j
  {
    forall i | 0 <= i < |slots| && slots[i] == slots[j] ensures i == j {
      assert HasTag(slots[i], tag);
    }
  }

  lemma {:induction false} RestArrives(slots: seq<Slot>, sent: seq<Slot>, m: seq<Content>, k: nat, seen: set<nat>)
    requires DescriptorOk(slots) && DescriptorOk(sent) && Compatible(slots, sent) && k <= |sent|
    requires MessageShape(sent, m) && SharedWithin(slots, sent, m)
    requires MessageShape(sent[k..], m[k..]) && |Encode(sent[k..], m[k..])| < TWO_32
    requires MessageShape(slots, Arrivals(slots, sent, m, k)) && RequiredMarked(slots, sent, k, seen)
    ensures Decode(slots, Arrivals(slots, sent, m, k), seen, Encode(sent[k..], m[k..]))
         == if RequiredSent(slots, sent) then Some(Arrivals(slots, sent, m, |sent|)) else None
    decreases |sent| - k
  {
    hide EncodeSlot, SlotShape, DescriptorOk, SlotWithin, Arrivals, Compatible, SharedWithin;
    if k == |sent| {
      assert sent[..k] == sent;
    } else {
      var bytes, rest := EncodeSlot(sent[k], m[k]), Encode(sent[k + 1..], m[k + 1..]);
      assert sent[k..][1..] == sent[k + 1..] && m[k..][1..] == m[k + 1..];
      assert Encode(sent[k..], m[k..]) == bytes + rest;
      var now := SlotArrives(slots, sent, m, k, seen, rest);
      RestArrives(slots, sent, m, k + 1, now);
    }
  }

  /**
   Decoding a message of another version of its type: the fields both versions have come back as they were sent, those
   only the receiver has stay at their defaults, and those only the sender has are ignored. It fails exactly if the
   sender lacks a required field that the receiver keeps track of.
   */
  lemma DecodedAcrossVersions(slots: seq<Slot>, sent: seq<Slot>, m: seq<Content>)
    requires DescriptorOk(slots) && DescriptorOk(sent) && Compatible(slots, sent)
    requires MessageShape(sent, m) && SharedWithin(slots, sent, m) && |Encode(sent, m)| < TWO_32
    ensures DecodeMessage(slots, Encode(sent, m))
         == if RequiredSent(slots, sent) then Some(Arrivals(slots, sent, m, |sent|)) else None
  {
    hide Decode, Encode, SlotShape, Compatible, SharedWithin, SlotOk;
    DefaultsShape(slots);
    assert Arrivals(slots, sent, m, 0) == Defaults(slots);
    assert sent[0..] == sent && m[0..] == m;
    RestArrives(slots, sent, m, 0, {});
  }
}
