/**
 What decoding makes of any bytes fits the struct: array counts, byte arrays and strings stay within the sizes of the
 descriptor at every depth (pb_decode.c:406-483, 1441-1564).
 */
module PbBounds {
  import opened Options
  import opened ByteStrings
  import opened Coding
  import opened PbMessages
  import opened PbDecode

  // ----- structs within their sizes -----

  /**
   The value fits its storage. A submessage must fit even while it counts as absent: a field that arrives later is
   decoded on top of it. An absent value of another type is overwritten, so nothing is asked of it.
   */
  predicate ValueFits(k: Kind, v: Value)
    requires ValueShape(k, v)
    decreases k, 0
  {
    match k
    case BytesKind(capacity) => |v.bytes| <= capacity
    case StringKind(size) => |v.bytes| < size
    case MessageKind(fields) => MessageFits(fields, v.contents)
    case _ => true
  }

  predicate MessageFits(slots: seq<Slot>, m: seq<Content>)
    requires MessageShape(slots, m)
    decreases slots, 0
  {
    forall i :: 0 <= i < |slots| ==> SlotFits(slots[i], m[i])
  }

  predicate SlotFits(s: Slot, c: Content)
    requires SlotShape(s, c)
    decreases s, 0
  {
    match s
    case Single(f, Required) => FieldFits(f, c.v)
    case Single(f, Singular) => FieldFits(f, c.v) || (ZeroField(f, c.v) && !f.kind.MessageKind?)
    case Single(f, Optional) => c.has || f.kind.MessageKind? ==> FieldFits(f, c.v)
    case Single(f, Repeated(max)) =>
      |c.items| <= max && forall j :: 0 <= j < |c.items| ==> FieldFits(f, c.items[j])
    case Union(members) =>
      forall j :: 0 <= j < |members| && members[j].tag == c.which ==> FieldFits(members[j], c.v)
  }

  predicate FieldFits(f: Field, v: Value)
    requires FieldShape(f, v)
    decreases f, 0
  {
    ValueFits(f.kind, v)
  }

  /** The defaults of required members fit as well. */
  ghost predicate InitsFit(slots: seq<Slot>)
    requires DescriptorOk(slots)
    decreases slots, 0
  {
    forall i :: 0 <= i < |slots| ==> SlotInitsFit(slots[i])
  }

  ghost predicate SlotInitsFit(s: Slot)
    requires SlotOk(s)
    decreases s, 0
  {
    match s
    case Single(f, rule) => InitFits(f, rule == Required)
    case Union(members) => forall j :: 0 <= j < |members| ==> InitFits(members[j], false)
  }

  ghost predicate InitFits(f: Field, required: bool)
    requires FieldOk(f)
    decreases f, 0
  {
    if f.kind.MessageKind? then InitsFit(f.kind.fields) else required ==> ValueFits(f.kind, f.init)
  }

  ghost predicate KindInitsFit(k: Kind)
    requires KindOk(k)
  {
    k.MessageKind? ==> InitsFit(k.fields)
  }

  lemma DefaultsFit(slots: seq<Slot>)
    requires DescriptorOk(slots) && InitsFit(slots)
    ensures MessageShape(slots, Defaults(slots)) && MessageFits(slots, Defaults(slots))
    decreases slots, 0
  {
    DefaultsShape(slots);
    forall i | 0 <= i < |slots|
      ensures SlotFits(slots[i], Defaults(slots)[i])
    {
      assert SlotOk(slots[i]) && SlotInitsFit(slots[i]);
      DefaultSlotFits(slots[i]);
    }
  }

  lemma DefaultSlotFits(s: Slot)
    requires SlotOk(s) && SlotInitsFit(s)
    ensures SlotShape(s, InitSlot(s)) && SlotFits(s, InitSlot(s))
    decreases s, 0
  {
    InitSlotShape(s);
    match s
    case Single(f, _) => DefaultFits(f);
    case Union(members) =>
      forall j | 0 <= j < |members| ensures members[j].tag != 0 {
        assert FieldOk(members[j]);
      }
  }

  lemma DefaultFits(f: Field)
    requires FieldOk(f) && KindInitsFit(f.kind)
    ensures FieldShape(f, InitValue(f)) && StartShape(f.kind, Contents(InitValue(f)))
    ensures StartFits(f.kind, Contents(InitValue(f)))
    decreases f, 0
  {
    InitShape(f);
    if f.kind.MessageKind? {
      DefaultsFit(f.kind.fields);
    }
  }

  // ----- decoding any bytes -----

  predicate StartFits(k: Kind, start: seq<Content>)
    requires StartShape(k, start)
  {
    k.MessageKind? ==> MessageFits(k.fields, start)
  }

  lemma {:induction false} DecodedValueFits(k: Kind, start: seq<Content>, s: Bytes)
    requires KindOk(k) && KindInitsFit(k) && StartShape(k, start) && StartFits(k, start)
    requires DecodeValue(k, start, s).Parsed?
    ensures ValueFits(k, DecodeValue(k, start, s).value)
    decreases |s|, 0
  {
    if k.MessageKind? {
      var sub := Substream(s);
      DecodedFits(k.fields, start, {}, sub.value);
    }
  }

  lemma {:induction false} DecodedItemsFit(f: Field, max: nat, items: seq<Value>, sub: Bytes)
    requires FieldOk(f) && Packable(f.kind) && |items| <= max
    requires forall j :: 0 <= j < |items| ==> FieldShape(f, items[j])
    requires DecodePacked(f, max, items, sub).Some?
    ensures |items| <= |DecodePacked(f, max, items, sub).value| <= max
    decreases |sub|
  {
    if sub != [] {
      var v := DecodeValue(f.kind, [], sub);
      DecodedItemsFit(f, max, items + [v.value], v.rest);
    }
  }

  lemma NumbersFit(f: Field, v: Value)
    requires Packable(f.kind) && FieldShape(f, v)
    ensures FieldFits(f, v)
  {
  }

  lemma FieldStarts(f: Field, v: Value)
    requires FieldOk(f) && FieldShape(f, v) && (f.kind.MessageKind? ==> FieldFits(f, v))
    ensures KindOk(f.kind) && StartShape(f.kind, Contents(v)) && StartFits(f.kind, Contents(v))
  {
    StartOf(f, v);
  }

  lemma {:induction false} DecodedArrayFits(f: Field, max: nat, c: Content, wireType: nat, s: Bytes)
    requires FieldOk(f) && KindInitsFit(f.kind)
    requires SlotShape(Single(f, Repeated(max)), c) && SlotFits(Single(f, Repeated(max)), c)
    requires DecodeRepeated(f, max, c, wireType, s).Parsed?
    ensures SlotFits(Single(f, Repeated(max)), DecodeRepeated(f, max, c, wireType, s).value)
    decreases |s|, 1
  {
    var r := DecodeRepeated(f, max, c, wireType, s).value;
    if wireType == WT_STRING && Packable(f.kind) {
      var sub := Substream(s);
      DecodedItemsFit(f, max, c.items, sub.value);
      forall j | 0 <= j < |r.items|
        ensures FieldFits(f, r.items[j])
      {
        NumbersFit(f, r.items[j]);
      }
    } else {
      DefaultFits(f);
      DecodedValueFits(f.kind, Contents(InitValue(f)), s);
    }
  }

  lemma {:induction false} DecodedSlotFits(slot: Slot, c: Content, tag: nat, wireType: nat, s: Bytes)
    requires SlotOk(slot) && SlotInitsFit(slot) && SlotShape(slot, c) && SlotFits(slot, c) && HasTag(slot, tag)
    requires DecodeSlot(slot, c, tag, wireType, s).Parsed?
    ensures SlotFits(slot, DecodeSlot(slot, c, tag, wireType, s).value)
    decreases |s|, 2
  {
    match slot
    case Single(f, Repeated(max)) => DecodedArrayFits(f, max, c, wireType, s);
    case Single(f, _) =>
      FieldStarts(f, c.v);
      DecodedValueFits(f.kind, Contents(c.v), s);
    case Union(members) =>
      var f := members[Member(members, tag)];
      assert FieldOk(f) && InitFits(f, false);
      DefaultFits(f);
      if c.which == tag {
        FieldStarts(f, c.v);
      }
      DecodedValueFits(f.kind, Contents(if c.which == tag then c.v else InitValue(f)), s);
      TheMember(members, tag);
  }

  /** Whatever bytes are decoded into a struct within its sizes, if decoding succeeds the struct is within its sizes. */
  lemma {:induction false} DecodedFits(slots: seq<Slot>, m: seq<Content>, seen: set<nat>, s: Bytes)
    requires DescriptorOk(slots) && InitsFit(slots) && MessageShape(slots, m) && MessageFits(slots, m)
    requires Decode(slots, m, seen, s).Some?
    ensures MessageFits(slots, Decode(slots, m, seen, s).value)
    decreases |s|, 3
  {
    if s != [] && GetTag(s).Tag? {
      var t := GetTag(s);
      var i := Find(slots, t.tag);
      if i == |slots| {
        DecodedFits(slots, m, seen, SkipField(t.wireType, t.rest).value);
      } else {
        var c := DecodeSlot(slots[i], m[i], t.tag, t.wireType, t.rest);
        assert SlotOk(slots[i]) && SlotInitsFit(slots[i]) && SlotFits(slots[i], m[i]);
        DecodedSlotFits(slots[i], m[i], t.tag, t.wireType, t.rest);
        DecodedFits(slots, m[i := c.value], seen + {i}, c.rest);
      }
    }
  }

  // ----- what a receiver may rely on -----

  lemma {:induction false} FitsIsWithin(slots: seq<Slot>, m: seq<Content>)
    requires MessageShape(slots, m) && MessageFits(slots, m)
    ensures MessageWithin(true, slots, m)
    decreases slots, 1
  {
    forall i | 0 <= i < |slots|
      ensures SlotWithin(true, slots[i], m[i])
    {
      assert SlotFits(slots[i], m[i]);
      SlotFitsIsWithin(slots[i], m[i]);
    }
  }

  lemma {:induction false} SlotFitsIsWithin(s: Slot, c: Content)
    requires SlotShape(s, c) && SlotFits(s, c)
    ensures SlotWithin(true, s, c)
    decreases s, 0
  {
    match s
    case Single(f, Repeated(max)) =>
      forall j | 0 <= j < |c.items|
        ensures FieldWithin(true, f, c.items[j])
      {
        FieldFitsIsWithin(f, c.items[j]);
      }
    case Single(f, _) =>
      if FieldFits(f, c.v) {
        FieldFitsIsWithin(f, c.v);
      }
    case Union(members) =>
      forall j | 0 <= j < |members| && members[j].tag == c.which
        ensures FieldWithin(true, members[j], c.v)
      {
        FieldFitsIsWithin(members[j], c.v);
      }
  }

  lemma {:induction false} FieldFitsIsWithin(f: Field, v: Value)
    requires FieldShape(f, v) && FieldFits(f, v)
    ensures FieldWithin(true, f, v)
    decreases f, 0
  {
    assert ValueFits(f.kind, v);
    if f.kind.MessageKind? {
      FitsIsWithin(f.kind.fields, v.contents);
    }
  }

  /**
   What pb_decode makes of any bytes is within its bounds at every depth, and the encoder would send it. Decoding more
   bytes on top of it keeps it so.
   */
  lemma DecodedWithin(slots: seq<Slot>, s: Bytes, more: Bytes)
    requires DescriptorOk(slots) && InitsFit(slots) && DecodeMessage(slots, s).Some?
    ensures MessageWithin(true, slots, DecodeMessage(slots, s).value)
    ensures var merged := Decode(slots, DecodeMessage(slots, s).value, {}, more);
      merged.Some? ==> MessageWithin(true, slots, merged.value)
  {
    DefaultsFit(slots);
    DecodedFits(slots, Defaults(slots), {}, s);
    var m := DecodeMessage(slots, s).value;
    FitsIsWithin(slots, m);
    if Decode(slots, m, {}, more).Some? {
      DecodedFits(slots, m, {}, more);
      FitsIsWithin(slots, Decode(slots, m, {}, more).value);
    }
  }

  const FLAGS: seq<Slot> := [Single(Field(1, BoolKind, Int(0)), Repeated(1))]
  const TWO_FLAGS: seq<Content> := [Rep([Int(1), Int(1)])]

  lemma TwoFlagsAreTooMany()
    ensures DescriptorOk(FLAGS) && MessageShape(FLAGS, TWO_FLAGS) && !MessageWithin(true, FLAGS, TWO_FLAGS)
    ensures Decode(FLAGS, TWO_FLAGS, {}, []) == Some(TWO_FLAGS)
  {
    assert FieldOk(FLAGS[0].field) && SlotOk(FLAGS[0]);
    assert FieldShape(FLAGS[0].field, Int(1)) && SlotShape(FLAGS[0], TWO_FLAGS[0]);
    assert !SlotWithin(true, FLAGS[0], TWO_FLAGS[0]);
  }

  /**
   It is not enough that only the members present are within their bounds: an optional submessage that is absent, but
   whose array claims two items where one fits, becomes present with both when an empty field arrives for it.
   */
  lemma AbsentOverfullShows() returns (slots: seq<Slot>, start: seq<Content>, s: Bytes)
    ensures DescriptorOk(slots) && MessageShape(slots, start) && MessageWithin(true, slots, start)
    ensures Decode(slots, start, {}, s).Some? && !MessageWithin(true, slots, Decode(slots, start, {}, s).value)
  {
    TwoFlagsAreTooMany();
    var f := Field(1, MessageKind(FLAGS), Int(0));
    slots, start, s := [Single(f, Optional)], [Opt(false, Msg(TWO_FLAGS))], [10, 0];
    assert FieldOk(f) && SlotOk(slots[0]) && FieldShape(f, Msg(TWO_FLAGS));
    assert GetTag(s) == Tag(1, WT_STRING, [0]) && Find(slots, 1) == 0;
    assert Substream([0]) == Parsed([], []);
    assert DecodeValue(f.kind, TWO_FLAGS, [0]) == Parsed(Msg(TWO_FLAGS), []);
    assert DecodeSlot(slots[0], start[0], 1, WT_STRING, [0]) == Parsed(Opt(true, Msg(TWO_FLAGS)), []);
    var after := [Opt(true, Msg(TWO_FLAGS))];
    assert start[0 := after[0]] == after;
    assert Decode(slots, after, {0}, []) == Some(after);
    assert !Within(true, f.kind, Msg(TWO_FLAGS));
    assert !SlotWithin(true, slots[0], after[0]);
  }

  /** An array that is full takes no further item, packed or not; otherwise the items received are added behind. */
  lemma {:induction false} ArrayGrowsToItsMaximum(f: Field, max: nat, c: Content, wireType: nat, s: Bytes)
    requires FieldOk(f) && SlotShape(Single(f, Repeated(max)), c)
    ensures var r := DecodeRepeated(f, max, c, wireType, s);
      var packed := wireType == WT_STRING && Packable(f.kind);
      && (|c.items| >= max && (packed ==> Substream(s).Parsed? && Substream(s).value != []) ==> r.Failed?)
      && (r.Parsed? ==> c.items <= r.value.items)
      && (r.Parsed? && !packed ==> |r.value.items| == |c.items| + 1)
  {
    if wireType == WT_STRING && Packable(f.kind) && Substream(s).Parsed? {
      PackedOnlyAdds(f, max, c.items, Substream(s).value);
    }
  }

  lemma {:induction false} PackedOnlyAdds(f: Field, max: nat, items: seq<Value>, sub: Bytes)
    requires FieldOk(f) && Packable(f.kind) && forall j :: 0 <= j < |items| ==> FieldShape(f, items[j])
    ensures DecodePacked(f, max, items, sub).Some? ==> items <= DecodePacked(f, max, items, sub).value
    decreases |sub|
  {
    if sub != [] && |items| < max {
      var v := DecodeValue(f.kind, [], sub);
      if v.Parsed? {
        PackedOnlyAdds(f, max, items + [v.value], v.rest);
      }
    }
  }
}
